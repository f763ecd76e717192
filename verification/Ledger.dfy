/**
  The UTXO ledger: transactions spend earlier outputs, and a wallet keeps per-address
  balances apart from the outputs they summarise.
 */
module Ledger {
  import opened Common

  datatype Address = Address(text: string)

  const MINT := Address("0000")

  datatype In = In(prevId: int, outIdx: nat)

  datatype Out = Out(address: Address, value: int, spent: bool, pubKey: string)

  datatype Utxo = Utxo(ins: seq<In>, outs: seq<Out>, sig: string, address: Address)

  /** `txs` are indexed by transaction id; an address without coins may be missing. */
  datatype State = State(txs: seq<Utxo>, wallet: map<Address, int>)

  /** ECDSAVerifyString on the sender, the sum of the spent ids, the key and the signature. */
  type Verifier = (Address, int, string, string) -> bool

  const INT64_MAX: int := 0x7FFF_FFFF_FFFF_FFFF

  /** int64_t arithmetic as two's complement. */
  function Wrap64(n: int): int {
    (n + 0x8000_0000_0000_0000) % 0x1_0000_0000_0000_0000 - 0x8000_0000_0000_0000
  }

  // ---------------------------------------------------------------- TxMempool and Wallet

  predicate Exists(txs: seq<Utxo>, i: In) {
    0 <= i.prevId < |txs| && i.outIdx < |txs[i.prevId].outs|
  }

  function OutAt(txs: seq<Utxo>, i: In): Out
    requires Exists(txs, i)
  {
    txs[i.prevId].outs[i.outIdx]
  }

  function GetUTXO(txs: seq<Utxo>, i: In, address: Address): Option<Out> {
    if Exists(txs, i) && !OutAt(txs, i).spent && OutAt(txs, i).address == address then Some(OutAt(txs, i)) else None
  }

  function MarkSpend(txs: seq<Utxo>, i: In): seq<Utxo> {
    if !Exists(txs, i) then txs else
      var tx := txs[i.prevId];
      txs[i.prevId := tx.(outs := tx.outs[i.outIdx := tx.outs[i.outIdx].(spent := true)])]
  }

  /** What MarkSpend returns. */
  function SpendValue(txs: seq<Utxo>, i: In): int { if Exists(txs, i) then OutAt(txs, i).value else -1 }

  function Coins(w: map<Address, int>, a: Address): int { if a in w then w[a] else 0 }

  function AddCoin(w: map<Address, int>, a: Address, v: int): map<Address, int> { w[a := Coins(w, a) + v] }

  // ---------------------------------------------------------------- Transaction

  function Collect(txs: seq<Utxo>, ins: seq<In>, address: Address): Option<seq<Out>> {
    if ins == [] then Some([]) else
      match Collect(txs, ins[..|ins| - 1], address)
      case None => None
      case Some(outs) =>
        match GetUTXO(txs, ins[|ins| - 1], address)
        case None => None
        case Some(o) => Some(outs + [o])
  }

  /** The first non-empty public key among the inputs. */
  function PublicKey(outs: seq<Out>): string {
    if outs == [] then "" else
      var key := PublicKey(outs[..|outs| - 1]);
      if key == "" then outs[|outs| - 1].pubKey else key
  }

  function Nonce(ins: seq<In>): int {
    if ins == [] then 0 else Nonce(ins[..|ins| - 1]) + ins[|ins| - 1].prevId
  }

  function GetInput(verify: Verifier, txs: seq<Utxo>, tx: Utxo): Option<seq<Out>> {
    if tx.ins == [] && tx.address == MINT then Some([])
    else
      match Collect(txs, tx.ins, tx.address)
      case None => None
      case Some(outs) =>
        var key := PublicKey(outs);
        if outs == [] || tx.sig == "" || !verify(tx.address, Nonce(tx.ins), key, tx.sig) then None
        else if exists i :: 0 <= i < |outs| && outs[i].pubKey != key then None
        else Some(outs)
  }

  function AddAll(total: int, outs: seq<Out>): int {
    if outs == [] then total else Wrap64(AddAll(total, outs[..|outs| - 1]) + outs[|outs| - 1].value)
  }

  function SubtractAll(total: int, outs: seq<Out>): int {
    if outs == [] then total else Wrap64(SubtractAll(total, outs[..|outs| - 1]) - outs[|outs| - 1].value)
  }

  predicate VerifyUTXO(tx: Utxo, inputs: seq<Out>) { SubtractAll(AddAll(0, inputs), tx.outs) > 0 }

  function MarkAll(txs: seq<Utxo>, ins: seq<In>): seq<Utxo> {
    if ins == [] then txs else MarkSpend(MarkAll(txs, ins[..|ins| - 1]), ins[|ins| - 1])
  }

  /** The sum of what MarkSpend returns along the inputs; marking changes no value. */
  function SpendTotal(txs: seq<Utxo>, ins: seq<In>): int {
    if ins == [] then 0 else
      SpendTotal(txs, ins[..|ins| - 1]) + SpendValue(txs, ins[|ins| - 1])
  }

  function CreditAll(w: map<Address, int>, outs: seq<Out>): map<Address, int> {
    if outs == [] then w else
      AddCoin(CreditAll(w, outs[..|outs| - 1]), outs[|outs| - 1].address, outs[|outs| - 1].value)
  }

  predicate Accepts(verify: Verifier, s: State, tx: Utxo) {
    var inputs := GetInput(verify, s.txs, tx);
    inputs.Some? && VerifyUTXO(tx, inputs.value)
  }

  /** AddTransaction: an accepted transaction spends, pays and is recorded under the next
      id; a rejected one answers -1. */
  function AddTransaction(verify: Verifier, s: State, tx: Utxo): (State, int) {
    if !Accepts(verify, s, tx) then (s, -1)
    else
      var debited := AddCoin(s.wallet, tx.address, -SpendTotal(s.txs, tx.ins));
      (State(MarkAll(s.txs, tx.ins) + [tx], CreditAll(debited, tx.outs)), |s.txs|)
  }

  /** The genesis transactions, paid into a wallet that may already hold coins. */
  function GenesisOn(wallet: map<Address, int>, txs: seq<Utxo>): State {
    if txs == [] then State([], wallet) else
      var s := GenesisOn(wallet, txs[..|txs| - 1]);
      var tx := txs[|txs| - 1];
      State(s.txs + [tx], CreditAll(s.wallet, tx.outs))
  }

  function Genesis(txs: seq<Utxo>): State { GenesisOn(map[], txs) }

  function Run(verify: Verifier, genesis: seq<Utxo>, txs: seq<Utxo>): State {
    if txs == [] then Genesis(genesis) else
      AddTransaction(verify, Run(verify, genesis, txs[..|txs| - 1]), txs[|txs| - 1]).0
  }

  // ---------------------------------------------------------------- sums of outputs

  /** Whose unspent outputs to add up: one address, or everybody's. */
  predicate Counts(who: Option<Address>, o: Out) {
    !o.spent && (who.None? || who.value == o.address)
  }

  function UnspentOf(who: Option<Address>, outs: seq<Out>): int {
    if outs == [] then 0 else
      UnspentOf(who, outs[..|outs| - 1]) + if Counts(who, outs[|outs| - 1]) then outs[|outs| - 1].value else 0
  }

  function Unspent(who: Option<Address>, txs: seq<Utxo>): int {
    if txs == [] then 0 else Unspent(who, txs[..|txs| - 1]) + UnspentOf(who, txs[|txs| - 1].outs)
  }

  /** What the outputs pay to an address, spent flag or not, and how much of it is
      flagged as spent on arrival. */
  function PaidTo(a: Address, outs: seq<Out>): int {
    if outs == [] then 0 else
      PaidTo(a, outs[..|outs| - 1]) + if outs[|outs| - 1].address == a then outs[|outs| - 1].value else 0
  }

  function BornSpent(a: Address, outs: seq<Out>): int {
    if outs == [] then 0 else
      BornSpent(a, outs[..|outs| - 1]) +
      if outs[|outs| - 1].address == a && outs[|outs| - 1].spent then outs[|outs| - 1].value else 0
  }

  function Value(outs: seq<Out>): int {
    if outs == [] then 0 else Value(outs[..|outs| - 1]) + outs[|outs| - 1].value
  }

  lemma {:induction false} UnspentOfUpdate(who: Option<Address>, outs: seq<Out>, i: nat, o: Out)
    requires i < |outs|
    ensures UnspentOf(who, outs[i := o]) == UnspentOf(who, outs)
      - (if Counts(who, outs[i]) then outs[i].value else 0) + (if Counts(who, o) then o.value else 0)
  {
    var n := |outs| - 1;
    var after := outs[i := o];
    if i == n {
      assert after[..n] == outs[..n];
    } else {
      assert after[..n] == outs[..n][i := o];
      UnspentOfUpdate(who, outs[..n], i, o);
    }
  }

  lemma {:induction false} UnspentUpdate(who: Option<Address>, txs: seq<Utxo>, i: nat, tx: Utxo)
    requires i < |txs|
    ensures Unspent(who, txs[i := tx]) == Unspent(who, txs) - UnspentOf(who, txs[i].outs) + UnspentOf(who, tx.outs)
  {
    var n := |txs| - 1;
    var after := txs[i := tx];
    if i == n {
      assert after[..n] == txs[..n];
    } else {
      assert after[..n] == txs[..n][i := tx];
      UnspentUpdate(who, txs[..n], i, tx);
    }
  }

  /** Marking takes an unspent output out of every sum that counts it, and changes
      nothing else. */
  lemma MarkTakesOut(who: Option<Address>, txs: seq<Utxo>, i: In)
    requires Exists(txs, i)
    ensures Unspent(who, MarkSpend(txs, i)) == Unspent(who, txs) - if Counts(who, OutAt(txs, i)) then OutAt(txs, i).value else 0
  {
    var tx := txs[i.prevId];
    var o := tx.outs[i.outIdx].(spent := true);
    UnspentOfUpdate(who, tx.outs, i.outIdx, o);
    UnspentUpdate(who, txs, i.prevId, tx.(outs := tx.outs[i.outIdx := o]));
  }

  lemma MarkElsewhere(txs: seq<Utxo>, i: In, j: In)
    ensures Exists(MarkSpend(txs, i), j) <==> Exists(txs, j)
    ensures Exists(txs, j) ==> OutAt(MarkSpend(txs, i), j) == if i == j then OutAt(txs, j).(spent := true) else OutAt(txs, j)
  {
  }

  lemma {:induction false} MarkAllElsewhere(txs: seq<Utxo>, ins: seq<In>, j: In)
    ensures Exists(MarkAll(txs, ins), j) <==> Exists(txs, j)
    ensures Exists(txs, j) ==>
      OutAt(MarkAll(txs, ins), j) == if j in ins then OutAt(txs, j).(spent := true) else OutAt(txs, j)
  {
    if ins != [] {
      var n := |ins| - 1;
      MarkAllElsewhere(txs, ins[..n], j);
      MarkElsewhere(MarkAll(txs, ins[..n]), ins[n], j);
      assert ins == ins[..n] + [ins[n]];
    }
  }

  /** The value of the inputs with repetitions counted once. */
  function DistinctTotal(txs: seq<Utxo>, ins: seq<In>): int {
    if ins == [] then 0 else
      var n := |ins| - 1;
      DistinctTotal(txs, ins[..n]) + if ins[n] in ins[..n] then 0 else SpendValue(txs, ins[n])
  }

  ghost predicate Spendable(txs: seq<Utxo>, ins: seq<In>, a: Address) {
    forall i :: 0 <= i < |ins| ==> Exists(txs, ins[i]) && !OutAt(txs, ins[i]).spent && OutAt(txs, ins[i]).address == a
  }

  lemma {:induction false} MarkAllTakesOut(who: Option<Address>, txs: seq<Utxo>, ins: seq<In>, a: Address)
    requires Spendable(txs, ins, a)
    ensures Unspent(who, MarkAll(txs, ins)) ==
      Unspent(who, txs) - if who.None? || who.value == a then DistinctTotal(txs, ins) else 0
  {
    if ins != [] {
      var n := |ins| - 1;
      MarkAllTakesOut(who, txs, ins[..n], a);
      MarkAllElsewhere(txs, ins[..n], ins[n]);
      MarkTakesOut(who, MarkAll(txs, ins[..n]), ins[n]);
    }
  }

  lemma {:induction false} CollectSpendable(txs: seq<Utxo>, ins: seq<In>, a: Address)
    requires Collect(txs, ins, a).Some?
    ensures Spendable(txs, ins, a)
    ensures |Collect(txs, ins, a).value| == |ins|
    ensures forall i :: 0 <= i < |ins| ==> Collect(txs, ins, a).value[i] == OutAt(txs, ins[i])
  {
    if ins != [] {
      var n := |ins| - 1;
      CollectSpendable(txs, ins[..n], a);
      forall i | 0 <= i < |ins|
        ensures Exists(txs, ins[i]) && !OutAt(txs, ins[i]).spent && OutAt(txs, ins[i]).address == a
        ensures Collect(txs, ins, a).value[i] == OutAt(txs, ins[i])
      {
        if i < n { assert ins[..n][i] == ins[i]; }
      }
    }
  }

  lemma {:induction false} CollectValue(txs: seq<Utxo>, ins: seq<In>, a: Address)
    requires Collect(txs, ins, a).Some?
    ensures Value(Collect(txs, ins, a).value) == SpendTotal(txs, ins)
  {
    if ins != [] {
      var n := |ins| - 1;
      CollectValue(txs, ins[..n], a);
      var outs := Collect(txs, ins[..n], a).value;
      assert (outs + [OutAt(txs, ins[n])])[..|outs|] == outs;
    }
  }

  lemma {:induction false} CreditAllPays(w: map<Address, int>, outs: seq<Out>, a: Address)
    ensures Coins(CreditAll(w, outs), a) == Coins(w, a) + PaidTo(a, outs)
  {
    if outs != [] { CreditAllPays(w, outs[..|outs| - 1], a); }
  }

  lemma {:induction false} PaidSplits(a: Address, outs: seq<Out>)
    ensures PaidTo(a, outs) == UnspentOf(Some(a), outs) + BornSpent(a, outs)
  {
    if outs != [] { PaidSplits(a, outs[..|outs| - 1]); }
  }

  lemma InputsSpendable(verify: Verifier, s: State, tx: Utxo)
    requires Accepts(verify, s, tx)
    ensures Spendable(s.txs, tx.ins, tx.address)
    ensures Value(GetInput(verify, s.txs, tx).value) == SpendTotal(s.txs, tx.ins)
    ensures Collect(s.txs, tx.ins, tx.address) == GetInput(verify, s.txs, tx)
  {
    CollectSpendable(s.txs, tx.ins, tx.address);
    CollectValue(s.txs, tx.ins, tx.address);
  }

  // ---------------------------------------------------------------- acceptance

  /** What adds up the previous ids of inputs. */
  ghost predicate AddsIds(sum: seq<In> -> int) {
    && (forall i :: sum([i]) == i.prevId)
    && (forall a, b :: sum(a + b) == sum(a) + sum(b))
  }

  lemma {:induction false} NonceSplit(a: seq<In>, b: seq<In>)
    ensures Nonce(a + b) == Nonce(a) + Nonce(b)
  {
    if b == [] {
      assert a + b == a;
    } else {
      var n := |b| - 1;
      assert (a + b)[..|a| + n] == a + b[..n];
      NonceSplit(a, b[..n]);
    }
  }

  lemma NonceAdds()
    ensures AddsIds(Nonce)
  {
    forall i ensures Nonce([i]) == i.prevId { assert [i][..0] == []; }
    forall a, b ensures Nonce(a + b) == Nonce(a) + Nonce(b) { NonceSplit(a, b); }
  }

  lemma {:induction false} SumIsNonce(sum: seq<In> -> int, ins: seq<In>)
    requires AddsIds(sum)
    ensures sum(ins) == Nonce(ins)
  {
    if ins == [] {
      assert ins + ins == ins;
    } else {
      var n := |ins| - 1;
      SumIsNonce(sum, ins[..n]);
      assert ins == ins[..n] + [ins[n]];
    }
  }

  lemma {:induction false} ValueSplit(a: seq<Out>, b: seq<Out>)
    ensures Value(a + b) == Value(a) + Value(b)
  {
    if b == [] {
      assert a + b == a;
    } else {
      var n := |b| - 1;
      assert (a + b)[..|a| + n] == a + b[..n];
      ValueSplit(a, b[..n]);
    }
  }

  /** The input names an unspent output of this sender under this key. */
  ghost predicate Names(txs: seq<Utxo>, i: In, a: Address, key: string) {
    && 0 <= i.prevId < |txs| && i.outIdx < |txs[i.prevId].outs|
    && var o := txs[i.prevId].outs[i.outIdx]; !o.spent && o.address == a && o.pubKey == key
  }

  ghost predicate AllNamed(txs: seq<Utxo>, ins: seq<In>, a: Address, key: string) {
    forall i :: 0 <= i < |ins| ==> Names(txs, ins[i], a, key)
  }

  lemma {:induction false} NamedCollect(txs: seq<Utxo>, ins: seq<In>, a: Address, key: string)
    requires AllNamed(txs, ins, a, key)
    ensures Collect(txs, ins, a).Some?
  {
    if ins != [] { NamedCollect(txs, ins[..|ins| - 1], a, key); }
  }

  lemma {:induction false} OneKey(outs: seq<Out>, key: string)
    requires outs != [] && forall i :: 0 <= i < |outs| ==> outs[i].pubKey == key
    ensures PublicKey(outs) == key
  {
    if |outs| > 1 { OneKey(outs[..|outs| - 1], key); } else { assert outs[..0] == []; }
  }

  /** A transaction with inputs is accepted if and only if every input names an unspent
      output of the sender, all under one key, the signature is not empty and verifies with
      that key for the sum of the previous ids, and the inputs are worth more than the
      outputs after wrapping. */
  lemma AcceptsExactly(verify: Verifier, s: State, tx: Utxo, sum: seq<In> -> int)
    requires tx.ins != [] && AddsIds(sum)
    ensures Accepts(verify, s, tx) <==> exists key ::
      && AllNamed(s.txs, tx.ins, tx.address, key)
      && tx.sig != "" && verify(tx.address, sum(tx.ins), key, tx.sig)
      && Wrap64(SpendTotal(s.txs, tx.ins) - Value(tx.outs)) > 0
  {
    SumIsNonce(sum, tx.ins);
    if Accepts(verify, s, tx) {
      AcceptedNames(verify, s, tx);
    }
    if key :|
      && AllNamed(s.txs, tx.ins, tx.address, key)
      && tx.sig != "" && verify(tx.address, sum(tx.ins), key, tx.sig)
      && Wrap64(SpendTotal(s.txs, tx.ins) - Value(tx.outs)) > 0
    {
      NamedAccepts(verify, s, tx, key);
    }
  }

  lemma AcceptedNames(verify: Verifier, s: State, tx: Utxo)
    requires tx.ins != [] && Accepts(verify, s, tx)
    ensures var key := PublicKey(GetInput(verify, s.txs, tx).value);
      && AllNamed(s.txs, tx.ins, tx.address, key)
      && tx.sig != "" && verify(tx.address, Nonce(tx.ins), key, tx.sig)
      && Wrap64(SpendTotal(s.txs, tx.ins) - Value(tx.outs)) > 0
  {
    var outs := GetInput(verify, s.txs, tx).value;
    InputsSpendable(verify, s, tx);
    CollectSpendable(s.txs, tx.ins, tx.address);
    VerifyIsExact(tx, outs);
    forall i | 0 <= i < |tx.ins| ensures Names(s.txs, tx.ins[i], tx.address, PublicKey(outs)) {
      assert outs[i] == OutAt(s.txs, tx.ins[i]);
    }
  }

  lemma NamedAccepts(verify: Verifier, s: State, tx: Utxo, key: string)
    requires tx.ins != [] && AllNamed(s.txs, tx.ins, tx.address, key)
    requires tx.sig != "" && verify(tx.address, Nonce(tx.ins), key, tx.sig)
    requires Wrap64(SpendTotal(s.txs, tx.ins) - Value(tx.outs)) > 0
    ensures Accepts(verify, s, tx)
  {
    NamedOuts(s.txs, tx.ins, tx.address, key);
    CollectValue(s.txs, tx.ins, tx.address);
    VerifyIsExact(tx, Collect(s.txs, tx.ins, tx.address).value);
  }

  lemma NamedOuts(txs: seq<Utxo>, ins: seq<In>, a: Address, key: string)
    requires ins != [] && AllNamed(txs, ins, a, key)
    ensures Collect(txs, ins, a).Some? && Collect(txs, ins, a).value != []
    ensures PublicKey(Collect(txs, ins, a).value) == key
    ensures forall o :: o in Collect(txs, ins, a).value ==> o.pubKey == key
  {
    NamedCollect(txs, ins, a, key);
    CollectSpendable(txs, ins, a);
    var outs := Collect(txs, ins, a).value;
    forall i | 0 <= i < |outs| ensures outs[i].pubKey == key { assert Names(txs, ins[i], a, key); }
    OneKey(outs, key);
  }

  /** The two sums that acceptance compares add up, input by input and output by output. */
  lemma {:induction false} SpendTotalSplit(txs: seq<Utxo>, a: seq<In>, b: seq<In>)
    ensures SpendTotal(txs, a + b) == SpendTotal(txs, a) + SpendTotal(txs, b)
  {
    if b == [] {
      assert a + b == a;
    } else {
      var n := |b| - 1;
      assert (a + b)[..|a| + n] == a + b[..n];
      SpendTotalSplit(txs, a, b[..n]);
    }
  }

  /** One input counts for its output's value, one output for its own. */
  lemma SumsOfOne(txs: seq<Utxo>, i: In, o: Out)
    ensures 0 <= i.prevId < |txs| && i.outIdx < |txs[i.prevId].outs| ==>
      SpendTotal(txs, [i]) == txs[i.prevId].outs[i.outIdx].value
    ensures Value([o]) == o.value
  {
    assert [i][..0] == [] && [o][..0] == [];
  }

  // ---------------------------------------------------------------- one transaction

  lemma UnspentSnoc(who: Option<Address>, txs: seq<Utxo>, tx: Utxo)
    ensures Unspent(who, txs + [tx]) == Unspent(who, txs) + UnspentOf(who, tx.outs)
  {
    assert (txs + [tx])[..|txs|] == txs;
  }

  /** What acceptance does to balances and to the outputs, for every transaction. */
  lemma AcceptedEffects(verify: Verifier, s: State, tx: Utxo, a: Address)
    requires Accepts(verify, s, tx)
    ensures var t, mine := AddTransaction(verify, s, tx).0, a == tx.address;
      && Coins(t.wallet, a) == Coins(s.wallet, a) - (if mine then SpendTotal(s.txs, tx.ins) else 0) + PaidTo(a, tx.outs)
      && Unspent(Some(a), t.txs) ==
         Unspent(Some(a), s.txs) - (if mine then DistinctTotal(s.txs, tx.ins) else 0) + UnspentOf(Some(a), tx.outs)
      && Unspent(None, t.txs) == Unspent(None, s.txs) - DistinctTotal(s.txs, tx.ins) + UnspentOf(None, tx.outs)
  {
    AcceptedCoins(verify, s, tx, a);
    AcceptedUnspent(verify, s, tx, Some(a));
    AcceptedUnspent(verify, s, tx, None);
  }

  lemma AcceptedCoins(verify: Verifier, s: State, tx: Utxo, a: Address)
    requires Accepts(verify, s, tx)
    ensures Coins(AddTransaction(verify, s, tx).0.wallet, a) ==
      Coins(s.wallet, a) - (if a == tx.address then SpendTotal(s.txs, tx.ins) else 0) + PaidTo(a, tx.outs)
  {
    InputsSpendable(verify, s, tx);
    CreditAllPays(AddCoin(s.wallet, tx.address, -SpendTotal(s.txs, tx.ins)), tx.outs, a);
  }

  lemma AcceptedUnspent(verify: Verifier, s: State, tx: Utxo, who: Option<Address>)
    requires Accepts(verify, s, tx)
    ensures Unspent(who, AddTransaction(verify, s, tx).0.txs) ==
      Unspent(who, s.txs) - (if who.None? || who.value == tx.address then DistinctTotal(s.txs, tx.ins) else 0)
      + UnspentOf(who, tx.outs)
  {
    InputsSpendable(verify, s, tx);
    MarkAllTakesOut(who, s.txs, tx.ins, tx.address);
    UnspentSnoc(who, MarkAll(s.txs, tx.ins), tx);
  }

  /** Each address's balance is the sum of its unspent outputs. */
  ghost predicate Balanced(s: State) {
    forall a :: Coins(s.wallet, a) == Unspent(Some(a), s.txs)
  }

  ghost predicate EvenlyPaid(s: State, tx: Utxo, a: Address) {
    BornSpent(a, tx.outs) == if a == tx.address then SpendTotal(s.txs, tx.ins) - DistinctTotal(s.txs, tx.ins) else 0
  }

  /** An accepted transaction keeps the balances exact if and only if, for every address,
      the outputs it submits as already spent add up to what its repeated inputs count
      twice (the sender's side) or to nothing (everybody else's). */
  lemma BalanceExactly(verify: Verifier, s: State, tx: Utxo)
    requires Balanced(s) && Accepts(verify, s, tx)
    ensures Balanced(AddTransaction(verify, s, tx).0) <==> forall a :: EvenlyPaid(s, tx, a)
  {
    var t := AddTransaction(verify, s, tx).0;
    forall a ensures Coins(t.wallet, a) == Unspent(Some(a), t.txs) <==> EvenlyPaid(s, tx, a) {
      AcceptedEffects(verify, s, tx, a);
      PaidSplits(a, tx.outs);
      assert Coins(s.wallet, a) == Unspent(Some(a), s.txs);
    }
    assert Balanced(t) <==> forall a :: EvenlyPaid(s, tx, a);
  }

  // ---------------------------------------------------------------- well-formed transactions

  ghost predicate Fresh(outs: seq<Out>) {
    && (forall i :: 0 <= i < |outs| ==> !outs[i].spent && outs[i].value >= 0)
    && Value(outs) <= INT64_MAX
  }

  ghost predicate WellFormed(tx: Utxo) { Distinct(tx.ins) && Fresh(tx.outs) }

  ghost predicate NonNegative(txs: seq<Utxo>) {
    forall i, j :: 0 <= i < |txs| && 0 <= j < |txs[i].outs| ==> txs[i].outs[j].value >= 0
  }

  lemma {:induction false} DistinctCountsOnce(txs: seq<Utxo>, ins: seq<In>)
    requires Distinct(ins)
    ensures SpendTotal(txs, ins) == DistinctTotal(txs, ins)
  {
    if ins != [] { DistinctCountsOnce(txs, ins[..|ins| - 1]); }
  }

  lemma {:induction false} FreshSums(outs: seq<Out>, a: Address)
    requires forall i :: 0 <= i < |outs| ==> !outs[i].spent
    ensures BornSpent(a, outs) == 0 && UnspentOf(None, outs) == Value(outs)
  {
    if outs != [] { FreshSums(outs[..|outs| - 1], a); }
  }

  lemma {:induction false} UnspentOfBounds(a: Address, outs: seq<Out>)
    requires forall i :: 0 <= i < |outs| ==> outs[i].value >= 0
    ensures 0 <= UnspentOf(Some(a), outs) <= UnspentOf(None, outs) <= Value(outs)
  {
    if outs != [] { UnspentOfBounds(a, outs[..|outs| - 1]); }
  }

  lemma {:induction false} UnspentBounds(a: Address, txs: seq<Utxo>)
    requires NonNegative(txs)
    ensures 0 <= Unspent(Some(a), txs) <= Unspent(None, txs)
  {
    if txs != [] {
      UnspentBounds(a, txs[..|txs| - 1]);
      UnspentOfBounds(a, txs[|txs| - 1].outs);
    }
  }

  lemma {:induction false} MarkAllNonNegative(txs: seq<Utxo>, ins: seq<In>)
    requires NonNegative(txs)
    ensures NonNegative(MarkAll(txs, ins))
  {
    if ins != [] { MarkAllNonNegative(txs, ins[..|ins| - 1]); }
  }

  lemma {:induction false} ValueNonNegative(outs: seq<Out>)
    requires forall i :: 0 <= i < |outs| ==> outs[i].value >= 0
    ensures Value(outs) >= 0
  {
    if outs != [] { ValueNonNegative(outs[..|outs| - 1]); }
  }

  /** Balances exact, values non-negative, the total within the genesis total. */
  ghost predicate Inv(s: State, cap: int) {
    Balanced(s) && NonNegative(s.txs) && Unspent(None, s.txs) <= cap
  }

  lemma SpendWithinTotal(verify: Verifier, s: State, tx: Utxo)
    requires NonNegative(s.txs) && Accepts(verify, s, tx) && Distinct(tx.ins)
    ensures SpendTotal(s.txs, tx.ins) == DistinctTotal(s.txs, tx.ins) <= Unspent(None, s.txs)
  {
    InputsSpendable(verify, s, tx);
    DistinctCountsOnce(s.txs, tx.ins);
    MarkAllTakesOut(None, s.txs, tx.ins, tx.address);
    MarkAllNonNegative(s.txs, tx.ins);
    UnspentBounds(tx.address, MarkAll(s.txs, tx.ins));
  }

  lemma WrapSum(x: int, y: int)
    ensures Wrap64(Wrap64(x) + y) == Wrap64(x + y)
  {
  }

  lemma {:induction false} AddAllWraps(outs: seq<Out>)
    ensures AddAll(0, outs) == Wrap64(Value(outs))
  {
    if outs != [] {
      AddAllWraps(outs[..|outs| - 1]);
      WrapSum(Value(outs[..|outs| - 1]), outs[|outs| - 1].value);
    }
  }

  lemma {:induction false} SubtractAllWraps(total: int, outs: seq<Out>)
    ensures SubtractAll(Wrap64(total), outs) == Wrap64(total - Value(outs))
  {
    if outs != [] {
      SubtractAllWraps(total, outs[..|outs| - 1]);
      WrapSum(total - Value(outs[..|outs| - 1]), -outs[|outs| - 1].value);
    }
  }

  /** For every transaction: the value test looks at the true difference of the sums,
      wrapped once; where that difference is an int64 it is the true comparison. */
  lemma VerifyIsExact(tx: Utxo, inputs: seq<Out>)
    ensures var left := Value(inputs) - Value(tx.outs);
      && (VerifyUTXO(tx, inputs) <==> Wrap64(left) > 0)
      && (-0x8000_0000_0000_0000 <= left < 0x8000_0000_0000_0000 ==> (VerifyUTXO(tx, inputs) <==> left > 0))
  {
    AddAllWraps(inputs);
    SubtractAllWraps(Value(inputs), tx.outs);
  }

  /** An accepted transaction pays out less than it spends exactly if the difference is not
      below the least int64; so does every well-formed one. */
  lemma PaysLess(verify: Verifier, s: State, tx: Utxo)
    requires Accepts(verify, s, tx)
    ensures Value(tx.outs) < SpendTotal(s.txs, tx.ins) <==> -INT64_MAX - 1 <= SpendTotal(s.txs, tx.ins) - Value(tx.outs)
    ensures NonNegative(s.txs) && WellFormed(tx) ==> Value(tx.outs) < SpendTotal(s.txs, tx.ins)
  {
    InputsSpendable(verify, s, tx);
    VerifyIsExact(tx, GetInput(verify, s.txs, tx).value);
    if NonNegative(s.txs) && WellFormed(tx) { WellFormedFits(verify, s, tx); }
  }

  lemma WellFormedFits(verify: Verifier, s: State, tx: Utxo)
    requires Accepts(verify, s, tx) && NonNegative(s.txs) && WellFormed(tx)
    ensures -INT64_MAX <= SpendTotal(s.txs, tx.ins) - Value(tx.outs)
  {
    InputsSpendable(verify, s, tx);
    CollectSpendable(s.txs, tx.ins, tx.address);
    ValueNonNegative(GetInput(verify, s.txs, tx).value);
  }

  /** For every accepted transaction: the total of unspent outputs falls exactly when its
      unspent outputs are worth less than its inputs, each counted once. */
  lemma TotalExactly(verify: Verifier, s: State, tx: Utxo)
    requires Accepts(verify, s, tx)
    ensures Unspent(None, AddTransaction(verify, s, tx).0.txs) < Unspent(None, s.txs) <==>
            UnspentOf(None, tx.outs) < DistinctTotal(s.txs, tx.ins)
  {
    AcceptedEffects(verify, s, tx, tx.address);
  }

  ghost predicate Upholds(s: State, tx: Utxo, cap: int) {
    && (forall a :: EvenlyPaid(s, tx, a))
    && (forall j :: 0 <= j < |tx.outs| ==> tx.outs[j].value >= 0)
    && Unspent(None, s.txs) - DistinctTotal(s.txs, tx.ins) + UnspentOf(None, tx.outs) <= cap
  }

  /** For every accepted transaction: the ledger's invariant survives exactly if balances
      stay even, no output is negative and the new total is within the bound. */
  lemma InvExactly(verify: Verifier, s: State, tx: Utxo, cap: int)
    requires Inv(s, cap) && Accepts(verify, s, tx)
    ensures Inv(AddTransaction(verify, s, tx).0, cap) <==> Upholds(s, tx, cap)
  {
    var t := AddTransaction(verify, s, tx).0;
    BalanceExactly(verify, s, tx);
    AcceptedEffects(verify, s, tx, tx.address);
    MarkAllNonNegative(s.txs, tx.ins);
    NonNegativeSnoc(MarkAll(s.txs, tx.ins), tx);
  }

  lemma NonNegativeSnoc(txs: seq<Utxo>, tx: Utxo)
    requires NonNegative(txs)
    ensures NonNegative(txs + [tx]) <==> forall j :: 0 <= j < |tx.outs| ==> tx.outs[j].value >= 0
  {
    assert (txs + [tx])[|txs|] == tx;
  }

  /** A well-formed transaction keeps the ledger's invariant; an accepted one strictly
      lowers the total of unspent outputs and no input value is negative (the assert in
      AddCoin holds); a rejected one changes nothing. */
  lemma StepKeepsInv(verify: Verifier, s: State, tx: Utxo, cap: int)
    requires Inv(s, cap) && WellFormed(tx)
    ensures Inv(AddTransaction(verify, s, tx).0, cap)
    ensures Accepts(verify, s, tx) ==>
      && Unspent(None, AddTransaction(verify, s, tx).0.txs) < Unspent(None, s.txs)
      && forall i :: 0 <= i < |tx.ins| ==> SpendValue(s.txs, tx.ins[i]) >= 0
    ensures !Accepts(verify, s, tx) ==> AddTransaction(verify, s, tx) == (s, -1)
  {
    if Accepts(verify, s, tx) {
      SpendWithinTotal(verify, s, tx);
      forall a ensures EvenlyPaid(s, tx, a) { FreshSums(tx.outs, a); }
      BalanceExactly(verify, s, tx);
      AcceptedEffects(verify, s, tx, tx.address);
      FreshSums(tx.outs, tx.address);
      PaysLess(verify, s, tx);
      MarkAllNonNegative(s.txs, tx.ins);
      InputsSpendable(verify, s, tx);
    }
  }

  // ---------------------------------------------------------------- whole runs

  ghost predicate FreshGenesis(genesis: seq<Utxo>) { forall i :: 0 <= i < |genesis| ==> Fresh(genesis[i].outs) }

  lemma {:induction false} GenesisTxs(genesis: seq<Utxo>)
    ensures Genesis(genesis).txs == genesis
  {
    if genesis != [] { GenesisTxs(genesis[..|genesis| - 1]); }
  }

  function BornSpentIn(a: Address, txs: seq<Utxo>): int {
    if txs == [] then 0 else BornSpentIn(a, txs[..|txs| - 1]) + BornSpent(a, txs[|txs| - 1].outs)
  }

  /** Genesis marks nothing of this address as spent, on balance. */
  ghost predicate EvenGenesis(genesis: seq<Utxo>, a: Address) { BornSpentIn(a, genesis) == 0 }

  /** Whatever the wallet held before: genesis adds to each balance its unspent outputs and
      those marked as spent. */
  lemma {:induction false} GenesisExactly(wallet: map<Address, int>, genesis: seq<Utxo>, a: Address)
    ensures Coins(GenesisOn(wallet, genesis).wallet, a) == Coins(wallet, a) + Unspent(Some(a), genesis) + BornSpentIn(a, genesis)
  {
    if genesis != [] {
      var n := |genesis| - 1;
      GenesisExactly(wallet, genesis[..n], a);
      CreditAllPays(GenesisOn(wallet, genesis[..n]).wallet, genesis[n].outs, a);
      PaidSplits(a, genesis[n].outs);
    }
  }

  lemma {:induction false} FreshBorn(genesis: seq<Utxo>, a: Address)
    requires FreshGenesis(genesis)
    ensures BornSpentIn(a, genesis) == 0
  {
    if genesis != [] {
      FreshBorn(genesis[..|genesis| - 1], a);
      FreshSums(genesis[|genesis| - 1].outs, a);
    }
  }

  ghost predicate BalancedAfter(verify: Verifier, genesis: seq<Utxo>, txs: seq<Utxo>, n: nat)
    requires n <= |txs|
  {
    Balanced(Run(verify, genesis, txs[..n]))
  }

  /** The i-th transaction is rejected or evenly paid. */
  ghost predicate EvenAt(verify: Verifier, genesis: seq<Utxo>, txs: seq<Utxo>, i: nat)
    requires i < |txs|
  {
    AcceptedAt(verify, genesis, txs, i) ==> forall a :: EvenlyPaid(Run(verify, genesis, txs[..i]), txs[i], a)
  }

  lemma BalancedStep(verify: Verifier, genesis: seq<Utxo>, txs: seq<Utxo>, i: nat)
    requires i < |txs| && BalancedAfter(verify, genesis, txs, i)
    ensures BalancedAfter(verify, genesis, txs, i + 1) <==> EvenAt(verify, genesis, txs, i)
  {
    assert txs[..i + 1][..i] == txs[..i];
    if AcceptedAt(verify, genesis, txs, i) { BalanceExactly(verify, Run(verify, genesis, txs[..i]), txs[i]); }
  }

  lemma GenesisBalancedExactly(verify: Verifier, genesis: seq<Utxo>, txs: seq<Utxo>)
    ensures BalancedAfter(verify, genesis, txs, 0) <==> forall a :: EvenGenesis(genesis, a)
  {
    var s := Run(verify, genesis, txs[..0]);
    assert txs[..0] == [];
    GenesisTxs(genesis);
    forall a ensures Coins(s.wallet, a) == Unspent(Some(a), s.txs) <==> EvenGenesis(genesis, a) {
      GenesisExactly(map[], genesis, a);
    }
    if Balanced(s) {
      forall a ensures EvenGenesis(genesis, a) { assert Coins(s.wallet, a) == Unspent(Some(a), s.txs); }
    }
  }

  /** Over every run, whatever is submitted: balances are the sums of unspent outputs in
      every state if and only if genesis marks nothing as spent, on balance, and every
      accepted transaction is evenly paid. */
  lemma BalancedRunExactly(verify: Verifier, genesis: seq<Utxo>, txs: seq<Utxo>)
    ensures (forall n: nat :: n <= |txs| ==> BalancedAfter(verify, genesis, txs, n)) <==>
      && (forall a :: EvenGenesis(genesis, a))
      && (forall i: nat :: i < |txs| ==> EvenAt(verify, genesis, txs, i))
  {
    GenesisBalancedExactly(verify, genesis, txs);
    if forall n: nat :: n <= |txs| ==> BalancedAfter(verify, genesis, txs, n) {
      assert BalancedAfter(verify, genesis, txs, 0);
      forall i: nat | i < |txs| ensures EvenAt(verify, genesis, txs, i) {
        assert BalancedAfter(verify, genesis, txs, i) && BalancedAfter(verify, genesis, txs, i + 1);
        BalancedStep(verify, genesis, txs, i);
      }
    }
    if (forall a :: EvenGenesis(genesis, a)) && forall i: nat :: i < |txs| ==> EvenAt(verify, genesis, txs, i) {
      forall n: nat | n <= |txs| ensures BalancedAfter(verify, genesis, txs, n) {
        BalancedUpTo(verify, genesis, txs, n);
      }
    }
  }

  lemma BalancedUpTo(verify: Verifier, genesis: seq<Utxo>, txs: seq<Utxo>, n: nat)
    requires n <= |txs| && BalancedAfter(verify, genesis, txs, 0)
    requires forall i: nat :: i < |txs| ==> EvenAt(verify, genesis, txs, i)
    ensures BalancedAfter(verify, genesis, txs, n)
  {
    var p := (m: nat) => m <= |txs| && BalancedAfter(verify, genesis, txs, m);
    forall i: nat | 0 <= i < n && p(i) ensures p(i + 1) {
      assert EvenAt(verify, genesis, txs, i);
      BalancedStep(verify, genesis, txs, i);
    }
    Onwards(p, 0, n);
  }

  ghost predicate InvAfter(verify: Verifier, genesis: seq<Utxo>, txs: seq<Utxo>, cap: int, n: nat)
    requires n <= |txs|
  {
    Inv(Run(verify, genesis, txs[..n]), cap)
  }

  ghost predicate UpholdsAt(verify: Verifier, genesis: seq<Utxo>, txs: seq<Utxo>, cap: int, i: nat)
    requires i < |txs|
  {
    AcceptedAt(verify, genesis, txs, i) ==> Upholds(Run(verify, genesis, txs[..i]), txs[i], cap)
  }

  lemma InvStep(verify: Verifier, genesis: seq<Utxo>, txs: seq<Utxo>, cap: int, i: nat)
    requires i < |txs| && InvAfter(verify, genesis, txs, cap, i)
    ensures InvAfter(verify, genesis, txs, cap, i + 1) <==> UpholdsAt(verify, genesis, txs, cap, i)
  {
    assert txs[..i + 1][..i] == txs[..i];
    if AcceptedAt(verify, genesis, txs, i) { InvExactly(verify, Run(verify, genesis, txs[..i]), txs[i], cap); }
  }

  /** Over every run, whatever is submitted and whatever the bound: the invariant holds in
      every state if and only if it holds after genesis and every accepted transaction is
      evenly paid, without negative outputs, and within the bound. */
  lemma InvRunExactly(verify: Verifier, genesis: seq<Utxo>, txs: seq<Utxo>, cap: int)
    ensures (forall n: nat :: n <= |txs| ==> InvAfter(verify, genesis, txs, cap, n)) <==>
      && InvAfter(verify, genesis, txs, cap, 0)
      && (forall i: nat :: i < |txs| ==> UpholdsAt(verify, genesis, txs, cap, i))
  {
    if forall n: nat :: n <= |txs| ==> InvAfter(verify, genesis, txs, cap, n) {
      forall i: nat | i < |txs| ensures UpholdsAt(verify, genesis, txs, cap, i) {
        assert InvAfter(verify, genesis, txs, cap, i) && InvAfter(verify, genesis, txs, cap, i + 1);
        InvStep(verify, genesis, txs, cap, i);
      }
    }
    if InvAfter(verify, genesis, txs, cap, 0) && forall i: nat :: i < |txs| ==> UpholdsAt(verify, genesis, txs, cap, i) {
      forall n: nat | n <= |txs| ensures InvAfter(verify, genesis, txs, cap, n) {
        InvUpTo(verify, genesis, txs, cap, n);
      }
    }
  }

  lemma InvUpTo(verify: Verifier, genesis: seq<Utxo>, txs: seq<Utxo>, cap: int, n: nat)
    requires n <= |txs| && InvAfter(verify, genesis, txs, cap, 0)
    requires forall i: nat :: i < |txs| ==> UpholdsAt(verify, genesis, txs, cap, i)
    ensures InvAfter(verify, genesis, txs, cap, n)
  {
    var p := (m: nat) => m <= |txs| && InvAfter(verify, genesis, txs, cap, m);
    forall i: nat | 0 <= i < n && p(i) ensures p(i + 1) {
      assert UpholdsAt(verify, genesis, txs, cap, i);
      InvStep(verify, genesis, txs, cap, i);
    }
    Onwards(p, 0, n);
  }

  /** In every reachable state each wallet balance is the sum of that address's unspent
      outputs, hence between zero and the total, which never exceeds the genesis total. */
  lemma {:induction false} BalancesSummarise(verify: Verifier, genesis: seq<Utxo>, txs: seq<Utxo>)
    requires FreshGenesis(genesis) && forall i :: 0 <= i < |txs| ==> WellFormed(txs[i])
    ensures Inv(Run(verify, genesis, txs), Unspent(None, genesis))
    ensures forall a :: var s := Run(verify, genesis, txs);
      0 <= Coins(s.wallet, a) == Unspent(Some(a), s.txs) <= Unspent(None, genesis)
  {
    var s := Run(verify, genesis, txs);
    if txs == [] {
      GenesisTxs(genesis);
      forall a ensures Coins(s.wallet, a) == Unspent(Some(a), s.txs) {
        GenesisExactly(map[], genesis, a);
        FreshBorn(genesis, a);
      }
    } else {
      var n := |txs| - 1;
      BalancesSummarise(verify, genesis, txs[..n]);
      StepKeepsInv(verify, Run(verify, genesis, txs[..n]), txs[n], Unspent(None, genesis));
    }
    forall a ensures 0 <= Coins(s.wallet, a) == Unspent(Some(a), s.txs) <= Unspent(None, genesis) {
      UnspentBounds(a, s.txs);
    }
  }

  ghost predicate AcceptedAt(verify: Verifier, genesis: seq<Utxo>, txs: seq<Utxo>, i: nat)
    requires i < |txs|
  {
    Accepts(verify, Run(verify, genesis, txs[..i]), txs[i])
  }

  ghost predicate IsSpent(txs: seq<Utxo>, i: In) { Exists(txs, i) && OutAt(txs, i).spent }

  lemma SpentStays(verify: Verifier, s: State, tx: Utxo, i: In)
    requires IsSpent(s.txs, i)
    ensures IsSpent(AddTransaction(verify, s, tx).0.txs, i)
  {
    if Accepts(verify, s, tx) { MarkAllElsewhere(s.txs, tx.ins, i); }
  }

  /** An accepted transaction is found as submitted under the id that is answered, which is
      the next one; earlier ones keep everything but the spent flags of its inputs. */
  lemma RecordedUnderId(verify: Verifier, s: State, tx: Utxo)
    requires Accepts(verify, s, tx)
    ensures var (t, id) := AddTransaction(verify, s, tx);
      && id == |s.txs| && |t.txs| == id + 1 && t.txs[id] == tx
      && (forall j :: 0 <= j < id ==> t.txs[j].(outs := s.txs[j].outs) == s.txs[j])
      && (forall x: In :: Exists(s.txs, x) ==>
          && Exists(t.txs, x)
          && OutAt(t.txs, x) == if x in tx.ins then OutAt(s.txs, x).(spent := true) else OutAt(s.txs, x))
  {
    var t := AddTransaction(verify, s, tx).0;
    MarkAllRest(s.txs, tx.ins);
    forall x: In | Exists(s.txs, x)
      ensures Exists(t.txs, x)
      ensures OutAt(t.txs, x) == if x in tx.ins then OutAt(s.txs, x).(spent := true) else OutAt(s.txs, x)
    {
      MarkAllElsewhere(s.txs, tx.ins, x);
      assert t.txs[x.prevId] == MarkAll(s.txs, tx.ins)[x.prevId];
    }
  }

  lemma {:induction false} MarkAllRest(txs: seq<Utxo>, ins: seq<In>)
    ensures |MarkAll(txs, ins)| == |txs|
    ensures forall j :: 0 <= j < |txs| ==> MarkAll(txs, ins)[j].(outs := txs[j].outs) == txs[j]
  {
    if ins != [] { MarkAllRest(txs, ins[..|ins| - 1]); }
  }

  lemma AcceptedSpends(verify: Verifier, s: State, tx: Utxo, x: In)
    requires Accepts(verify, s, tx) && x in tx.ins
    ensures IsSpent(AddTransaction(verify, s, tx).0.txs, x)
  {
    InputsSpendable(verify, s, tx);
    MarkAllElsewhere(s.txs, tx.ins, x);
  }

  ghost predicate SpentAfter(verify: Verifier, genesis: seq<Utxo>, txs: seq<Utxo>, n: nat, x: In)
    requires n <= |txs|
  {
    IsSpent(Run(verify, genesis, txs[..n]).txs, x)
  }

  lemma StaysSpentAfter(verify: Verifier, genesis: seq<Utxo>, txs: seq<Utxo>, n: nat, x: In)
    requires n < |txs| && SpentAfter(verify, genesis, txs, n, x)
    ensures SpentAfter(verify, genesis, txs, n + 1, x)
  {
    assert txs[..n + 1][..n] == txs[..n];
    SpentStays(verify, Run(verify, genesis, txs[..n]), txs[n], x);
  }

  lemma GetsSpentAfter(verify: Verifier, genesis: seq<Utxo>, txs: seq<Utxo>, n: nat, x: In)
    requires n < |txs| && AcceptedAt(verify, genesis, txs, n) && x in txs[n].ins
    ensures SpentAfter(verify, genesis, txs, n + 1, x)
  {
    assert txs[..n + 1][..n] == txs[..n];
    AcceptedSpends(verify, Run(verify, genesis, txs[..n]), txs[n], x);
  }

  lemma {:induction false} Onwards(p: nat -> bool, k: nat, n: nat)
    requires k <= n && p(k) && forall i: nat :: k <= i < n && p(i) ==> p(i + 1)
    ensures p(n)
  {
    if k < n { Onwards(p, k, n - 1); }
  }

  lemma SpentForGood(verify: Verifier, genesis: seq<Utxo>, txs: seq<Utxo>, k: nat, n: nat, x: In)
    requires k <= n <= |txs| && SpentAfter(verify, genesis, txs, k, x)
    ensures SpentAfter(verify, genesis, txs, n, x)
  {
    var p := (m: nat) => m <= |txs| && SpentAfter(verify, genesis, txs, m, x);
    forall i: nat | k <= i < n && p(i) ensures p(i + 1) {
      StaysSpentAfter(verify, genesis, txs, i, x);
    }
    Onwards(p, k, n);
  }

  /** No output is consumed by two accepted transactions, whatever is submitted. */
  lemma NoDoubleSpend(verify: Verifier, genesis: seq<Utxo>, txs: seq<Utxo>, i: nat, j: nat, x: In)
    requires i < j < |txs|
    requires AcceptedAt(verify, genesis, txs, i) && AcceptedAt(verify, genesis, txs, j)
    requires x in txs[i].ins
    ensures x !in txs[j].ins
  {
    GetsSpentAfter(verify, genesis, txs, i, x);
    SpentForGood(verify, genesis, txs, i + 1, j, x);
    NotAccepted(verify, Run(verify, genesis, txs[..j]), txs[j], x);
  }

  lemma NotAccepted(verify: Verifier, s: State, tx: Utxo, x: In)
    requires Accepts(verify, s, tx) && IsSpent(s.txs, x)
    ensures x !in tx.ins
  {
    InputsSpendable(verify, s, tx);
  }

  // ---------------------------------------------------------------- AddCoin's assert

  /** Every value that MarkSpend returns along the inputs is non-negative. */
  ghost predicate AssertHolds(s: State, tx: Utxo) {
    forall n :: 0 <= n < |tx.ins| ==> SpendValue(MarkAll(s.txs, tx.ins[..n]), tx.ins[n]) >= 0
  }

  ghost predicate SpendsNegative(txs: seq<Utxo>, tx: Utxo) {
    exists x :: x in tx.ins && Exists(txs, x) && OutAt(txs, x).value < 0
  }

  /** The loop's assert holds for an accepted transaction exactly if none of the outputs it
      spends is negative; a missing output never gets this far. */
  lemma AssertExactly(verify: Verifier, s: State, tx: Utxo)
    requires Accepts(verify, s, tx)
    ensures AssertHolds(s, tx) <==> !SpendsNegative(s.txs, tx)
  {
    InputsSpendable(verify, s, tx);
    forall n | 0 <= n < |tx.ins|
      ensures SpendValue(MarkAll(s.txs, tx.ins[..n]), tx.ins[n]) == SpendValue(s.txs, tx.ins[n])
    {
      MarkAllElsewhere(s.txs, tx.ins[..n], tx.ins[n]);
    }
    if SpendsNegative(s.txs, tx) {
      var x :| x in tx.ins && Exists(s.txs, x) && OutAt(s.txs, x).value < 0;
      var n :| 0 <= n < |tx.ins| && tx.ins[n] == x;
      assert SpendValue(MarkAll(s.txs, tx.ins[..n]), tx.ins[n]) < 0;
    }
    if !SpendsNegative(s.txs, tx) {
      forall n | 0 <= n < |tx.ins| ensures SpendValue(s.txs, tx.ins[n]) >= 0 { assert tx.ins[n] in tx.ins; }
    }
  }

  ghost predicate AssertAt(verify: Verifier, genesis: seq<Utxo>, txs: seq<Utxo>, i: nat)
    requires i < |txs|
  {
    AcceptedAt(verify, genesis, txs, i) ==> AssertHolds(Run(verify, genesis, txs[..i]), txs[i])
  }

  ghost predicate NegativeAt(verify: Verifier, genesis: seq<Utxo>, txs: seq<Utxo>, i: nat)
    requires i < |txs|
  {
    AcceptedAt(verify, genesis, txs, i) && SpendsNegative(Run(verify, genesis, txs[..i]).txs, txs[i])
  }

  /** Over every run the assert never fails if and only if no accepted transaction spends a
      negative output. */
  lemma AssertsRunExactly(verify: Verifier, genesis: seq<Utxo>, txs: seq<Utxo>)
    ensures (forall i: nat :: i < |txs| ==> AssertAt(verify, genesis, txs, i)) <==>
            (forall i: nat :: i < |txs| ==> !NegativeAt(verify, genesis, txs, i))
  {
    forall i: nat | i < |txs| ensures AssertAt(verify, genesis, txs, i) <==> !NegativeAt(verify, genesis, txs, i) {
      if AcceptedAt(verify, genesis, txs, i) { AssertExactly(verify, Run(verify, genesis, txs[..i]), txs[i]); }
    }
  }

  /** From any state: the mint address makes an output of -1, and its holder, with a valid
      signature, spends it for an output of -2. Both are accepted and the assert fails. */
  lemma NegativeOutputSpent(verify: Verifier, s: State, b: Address, key: string, sig: string)
    requires sig != "" && verify(b, |s.txs|, key, sig)
    ensures var made := Utxo([], [Out(b, -1, false, key)], "", MINT);
      var spent := Utxo([In(|s.txs|, 0)], [Out(b, -2, false, key)], sig, b);
      var t := AddTransaction(verify, s, made).0;
      && Accepts(verify, s, made) && Accepts(verify, t, spent)
      && SpendValue(t.txs, In(|s.txs|, 0)) == -1 && !AssertHolds(t, spent)
  {
    var o, p, x := Out(b, -1, false, key), Out(b, -2, false, key), In(|s.txs|, 0);
    var made, spent := Utxo([], [o], "", MINT), Utxo([x], [p], sig, b);
    SumsOfOne(s.txs, x, o);
    SumsOfOne(s.txs, x, p);
    NoInputsExactly(verify, s, made);
    var t := AddTransaction(verify, s, made).0;
    assert t.txs == s.txs + [made];
    CollectOnce(t.txs, x, b);
    VerifyIsExact(spent, [o]);
    assert GetInput(verify, t.txs, spent) == Some([o]);
    AssertExactly(verify, t, spent);
    assert x in spent.ins;
  }

  // ---------------------------------------------------------------- what the conditions are for

  /** A transaction without inputs is accepted exactly if it comes from the mint address
      and the value test passes on its outputs alone, which non-negative outputs never do. */
  lemma NoInputsExactly(verify: Verifier, s: State, tx: Utxo)
    requires tx.ins == []
    ensures Accepts(verify, s, tx) <==> tx.address == MINT && SubtractAll(0, tx.outs) > 0
    ensures SubtractAll(0, tx.outs) == Wrap64(-Value(tx.outs))
    ensures Fresh(tx.outs) ==> !Accepts(verify, s, tx)
  {
    SubtractAllWraps(0, tx.outs);
    if Fresh(tx.outs) { ValueNonNegative(tx.outs); }
  }

  lemma TwoOuts(x: Out, y: Out, a: Address)
    ensures Value([x, y]) == x.value + y.value
    ensures PaidTo(a, [x, y]) == (if x.address == a then x.value else 0) + (if y.address == a then y.value else 0)
    ensures !x.spent && !y.spent ==> UnspentOf(None, [x, y]) == x.value + y.value
  {
    var outs := [x, y];
    assert outs[..1] == [x] && [x][..0] == [];
    assert Value([x]) == x.value && PaidTo(a, [x]) == if x.address == a then x.value else 0;
    assert UnspentOf(None, [x]) == if x.spent then 0 else x.value;
  }

  /** Why outputs must not be negative: without inputs and without a signature, an output
      of v next to one of -v - 1 passes the value test; one balance grows by v, the other
      falls by v + 1. */
  lemma NegativeOutputPays(verify: Verifier, s: State, a: Address, b: Address, v: int)
    requires a != b && 0 <= v < INT64_MAX
    ensures var tx := Utxo([], [Out(a, v, false, ""), Out(b, -v - 1, false, "")], "", MINT);
      var t := AddTransaction(verify, s, tx).0;
      && Accepts(verify, s, tx)
      && Coins(t.wallet, a) == Coins(s.wallet, a) + v
      && Coins(t.wallet, b) == Coins(s.wallet, b) - v - 1
  {
    var x, y := Out(a, v, false, ""), Out(b, -v - 1, false, "");
    var tx := Utxo([], [x, y], "", MINT);
    TwoOuts(x, y, a);
    TwoOuts(x, y, b);
    NoInputsExactly(verify, s, tx);
    AcceptedEffects(verify, s, tx, a);
    AcceptedEffects(verify, s, tx, b);
  }

  lemma CollectOnce(txs: seq<Utxo>, i: In, a: Address)
    requires GetUTXO(txs, i, a).Some?
    ensures var o := OutAt(txs, i); Collect(txs, [i], a) == Some([o]) && PublicKey([o]) == o.pubKey
    ensures Nonce([i]) == i.prevId && DistinctTotal(txs, [i]) == OutAt(txs, i).value
  {
    var o := OutAt(txs, i);
    assert [i][..0] == [] && [] + [o] == [o] && [o][..0] == [];
  }

  /** Why sums must fit int64: two outputs of the largest int64 wrap the running total
      around, so that one signed input of any value v up to that limit less two pays for
      both, and the total of unspent outputs grows by all but v of them. */
  lemma OverflowGrowsTotal(verify: Verifier, s: State, i: In, sig: string, a: Address)
    requires GetUTXO(s.txs, i, a).Some? && 0 <= OutAt(s.txs, i).value <= INT64_MAX - 2
    requires sig != "" && verify(a, i.prevId, OutAt(s.txs, i).pubKey, sig)
    ensures var big := Out(a, INT64_MAX, false, "");
      var tx := Utxo([i], [big, big], sig, a);
      && Accepts(verify, s, tx)
      && Unspent(None, AddTransaction(verify, s, tx).0.txs) ==
         Unspent(None, s.txs) - OutAt(s.txs, i).value + 2 * INT64_MAX
  {
    var o, big := OutAt(s.txs, i), Out(a, INT64_MAX, false, "");
    var tx := Utxo([i], [big, big], sig, a);
    CollectOnce(s.txs, i, a);
    TwoOuts(big, big, a);
    assert [o][..0] == [] && Value([o]) == o.value;
    VerifyIsExact(tx, [o]);
    assert GetInput(verify, s.txs, tx) == Some([o]);
    AcceptedEffects(verify, s, tx, a);
  }

  /** Why inputs must be distinct: an input listed twice counts twice. Paying out all but
      one of the doubled value is accepted, and the total of unspent outputs grows. */
  lemma RepeatedInputGrowsTotal(verify: Verifier, s: State, i: In, sig: string, a: Address)
    requires GetUTXO(s.txs, i, a).Some? && 2 <= OutAt(s.txs, i).value <= INT64_MAX / 2
    requires sig != "" && verify(a, 2 * i.prevId, OutAt(s.txs, i).pubKey, sig)
    ensures var v := OutAt(s.txs, i).value;
      var tx := Utxo([i, i], [Out(a, 2 * v - 1, false, "")], sig, a);
      && Accepts(verify, s, tx)
      && Unspent(None, AddTransaction(verify, s, tx).0.txs) == Unspent(None, s.txs) + v - 1
  {
    var v := OutAt(s.txs, i).value;
    var tx := Utxo([i, i], [Out(a, 2 * v - 1, false, "")], sig, a);
    RepeatedInputs(verify, s.txs, tx, i);
    TwiceVerifies(tx, OutAt(s.txs, i));
    AcceptedUnspent(verify, s, tx, None);
    assert tx.outs[..0] == [];
  }

  lemma RepeatedInputs(verify: Verifier, txs: seq<Utxo>, tx: Utxo, i: In)
    requires tx.ins == [i, i] && GetUTXO(txs, i, tx.address).Some?
    requires tx.sig != "" && verify(tx.address, 2 * i.prevId, OutAt(txs, i).pubKey, tx.sig)
    ensures GetInput(verify, txs, tx) == Some([OutAt(txs, i), OutAt(txs, i)])
    ensures DistinctTotal(txs, tx.ins) == OutAt(txs, i).value
  {
    CollectOnce(txs, i, tx.address);
    CollectTwice(txs, i, tx.address);
    assert tx.ins[..1] == [i];
    assert Nonce(tx.ins) == 2 * i.prevId;
  }

  lemma CollectTwice(txs: seq<Utxo>, i: In, a: Address)
    requires GetUTXO(txs, i, a).Some?
    ensures var o := OutAt(txs, i); Collect(txs, [i, i], a) == Some([o, o]) && PublicKey([o, o]) == o.pubKey
  {
    var o := OutAt(txs, i);
    CollectOnce(txs, i, a);
    assert [i, i][..1] == [i] && [o] + [o] == [o, o] && [o, o][..1] == [o];
  }

  lemma TwiceVerifies(tx: Utxo, o: Out)
    requires 2 <= o.value <= INT64_MAX / 2 && |tx.outs| == 1 && tx.outs[0].value == 2 * o.value - 1
    ensures VerifyUTXO(tx, [o, o])
  {
    TwoOuts(o, o, o.address);
    assert tx.outs[..0] == [];
    VerifyIsExact(tx, [o, o]);
  }

  // ---------------------------------------------------------------- the classes

  class TxMempool {
    var txs: seq<Utxo>

    constructor ()
      ensures txs == []
    {
      txs := [];
    }

    method AddUTXO(tx: Utxo) returns (id: int)
      modifies this
      ensures txs == old(txs) + [tx] && id == |old(txs)|
    {
      id := |txs|;
      txs := txs + [tx];
    }

    method MarkSpent(i: In) returns (value: int)
      modifies this
      ensures txs == MarkSpend(old(txs), i) && value == SpendValue(old(txs), i)
      ensures value == if Exists(old(txs), i) then OutAt(old(txs), i).value else -1
    {
      if !(0 <= i.prevId < |txs|) { return -1; }
      var tx := txs[i.prevId];
      if |tx.outs| <= i.outIdx { return -1; }
      var o := tx.outs[i.outIdx];
      txs := txs[i.prevId := tx.(outs := tx.outs[i.outIdx := o.(spent := true)])];
      value := o.value;
    }

    method GetUnspent(i: In, address: Address) returns (o: Option<Out>)
      ensures o == GetUTXO(txs, i, address)
    {
      if !(0 <= i.prevId < |txs|) { return None; }
      var tx := txs[i.prevId];
      if |tx.outs| <= i.outIdx { return None; }
      if tx.outs[i.outIdx].spent { return None; }
      if tx.outs[i.outIdx].address != address { return None; }
      o := Some(tx.outs[i.outIdx]);
    }
  }

  class Wallet {
    var coins: map<Address, int>

    constructor ()
      ensures coins == map[]
    {
      coins := map[];
    }

    method Add(address: Address, value: int)
      modifies this
      ensures coins == AddCoin(old(coins), address, value)
    {
      coins := coins[address := (if address in coins then coins[address] else 0) + value];
    }
  }

  class Transaction {
    const mempool: TxMempool
    const wallet: Wallet
    const verify: Verifier

    ghost function View(): State
      reads mempool, wallet
    {
      State(mempool.txs, wallet.coins)
    }

    constructor (genesis: seq<Utxo>, verify: Verifier, wallet: Wallet)
      modifies wallet
      ensures fresh(mempool) && this.wallet == wallet && this.verify == verify
      ensures View() == GenesisOn(old(wallet.coins), genesis)
      ensures old(wallet.coins) == map[] ==> View() == Run(verify, genesis, [])
    {
      this.verify, this.wallet := verify, wallet;
      mempool := new TxMempool();
      new;
      for i := 0 to |genesis|
        invariant fresh(mempool) && View() == GenesisOn(old(wallet.coins), genesis[..i])
      {
        assert genesis[..i + 1][..i] == genesis[..i];
        var _ := mempool.AddUTXO(genesis[i]);
        Credit(genesis[i].outs);
      }
      assert genesis[..|genesis|] == genesis;
    }

    method Credit(outs: seq<Out>)
      modifies wallet
      ensures wallet.coins == CreditAll(old(wallet.coins), outs)
    {
      for i := 0 to |outs|
        invariant wallet.coins == CreditAll(old(wallet.coins), outs[..i])
      {
        assert outs[..i + 1][..i] == outs[..i];
        wallet.Add(outs[i].address, outs[i].value);
      }
      assert outs[..|outs|] == outs;
    }

    /** The inputs, the first non-empty key among them and the sum of the spent ids. */
    method CollectInputs(tx: Utxo) returns (outs: Option<seq<Out>>, key: string, nonce: int)
      ensures outs == Collect(mempool.txs, tx.ins, tx.address)
      ensures outs.Some? ==> key == PublicKey(outs.value) && nonce == Nonce(tx.ins)
    {
      nonce, key := 0, "";
      var list := [];
      for i := 0 to |tx.ins|
        invariant Collect(mempool.txs, tx.ins[..i], tx.address) == Some(list)
        invariant key == PublicKey(list) && nonce == Nonce(tx.ins[..i])
      {
        assert tx.ins[..i + 1] == tx.ins[..i] + [tx.ins[i]];
        CollectSnoc(mempool.txs, tx.ins[..i], tx.ins[i], tx.address, list);
        var o := mempool.GetUnspent(tx.ins[i], tx.address);
        if o.None? {
          CollectStops(mempool.txs, tx.ins, i + 1, tx.address);
          return None, key, nonce;
        }
        if key == "" { key := o.value.pubKey; }
        list := list + [o.value];
        nonce := nonce + tx.ins[i].prevId;
      }
      assert tx.ins[..|tx.ins|] == tx.ins;
      outs := Some(list);
    }

    /** GetInput: collect, then check the signature and that all inputs share its key. */
    method Inputs(tx: Utxo) returns (result: Option<seq<Out>>)
      ensures result == GetInput(verify, mempool.txs, tx)
    {
      if |tx.ins| == 0 && tx.address == MINT { return Some([]); }
      var outs, key, nonce := CollectInputs(tx);
      if outs.None? { return None; }
      if |outs.value| == 0 || tx.sig == "" || !verify(tx.address, nonce, key, tx.sig) { return None; }
      for i := 0 to |outs.value|
        invariant forall j :: 0 <= j < i ==> outs.value[j].pubKey == key
      {
        if outs.value[i].pubKey != key { return None; }
      }
      result := outs;
    }

    method Verify(tx: Utxo, inputs: seq<Out>) returns (ok: bool)
      ensures ok == VerifyUTXO(tx, inputs)
    {
      var total := 0;
      for i := 0 to |inputs|
        invariant total == AddAll(0, inputs[..i])
      {
        assert inputs[..i + 1][..i] == inputs[..i];
        total := Wrap64(total + inputs[i].value);
      }
      assert inputs[..|inputs|] == inputs;
      ghost var sum := total;
      for i := 0 to |tx.outs|
        invariant total == SubtractAll(sum, tx.outs[..i])
      {
        assert tx.outs[..i + 1][..i] == tx.outs[..i];
        total := Wrap64(total - tx.outs[i].value);
      }
      assert tx.outs[..|tx.outs|] == tx.outs;
      ok := total > 0;
    }

    method Spend(tx: Utxo) returns (total: int)
      modifies mempool
      ensures mempool.txs == MarkAll(old(mempool.txs), tx.ins)
      ensures total == SpendTotal(old(mempool.txs), tx.ins)
    {
      total := 0;
      for i := 0 to |tx.ins|
        invariant mempool.txs == MarkAll(old(mempool.txs), tx.ins[..i])
        invariant total == SpendTotal(old(mempool.txs), tx.ins[..i])
      {
        assert tx.ins[..i + 1][..i] == tx.ins[..i];
        MarkAllElsewhere(old(mempool.txs), tx.ins[..i], tx.ins[i]);
        var v := mempool.MarkSpent(tx.ins[i]);
        total := total + v;
      }
      assert tx.ins[..|tx.ins|] == tx.ins;
    }

    method Submit(tx: Utxo) returns (id: int)
      modifies mempool, wallet
      ensures (View(), id) == AddTransaction(verify, old(View()), tx)
    {
      var inputs := Inputs(tx);
      if inputs.None? { return -1; }
      var ok := Verify(tx, inputs.value);
      if !ok { return -1; }
      MarkAllRest(mempool.txs, tx.ins);
      var total := Spend(tx);
      wallet.Add(tx.address, -total);
      Credit(tx.outs);
      id := mempool.AddUTXO(tx);
    }
  }

  lemma CollectSnoc(txs: seq<Utxo>, ins: seq<In>, x: In, a: Address, list: seq<Out>)
    requires Collect(txs, ins, a) == Some(list)
    ensures Nonce(ins + [x]) == Nonce(ins) + x.prevId
    ensures GetUTXO(txs, x, a).None? ==> Collect(txs, ins + [x], a).None?
    ensures GetUTXO(txs, x, a).Some? ==>
      var o := GetUTXO(txs, x, a).value;
      && Collect(txs, ins + [x], a) == Some(list + [o])
      && PublicKey(list + [o]) == if PublicKey(list) == "" then o.pubKey else PublicKey(list)
  {
    assert (ins + [x])[..|ins|] == ins;
    if GetUTXO(txs, x, a).Some? { assert (list + [GetUTXO(txs, x, a).value])[..|list|] == list; }
  }

  lemma {:induction false} CollectStops(txs: seq<Utxo>, ins: seq<In>, n: nat, a: Address)
    requires n <= |ins| && Collect(txs, ins[..n], a).None?
    ensures Collect(txs, ins, a).None?
    decreases |ins| - n
  {
    if n < |ins| {
      assert ins[..n + 1][..n] == ins[..n];
      CollectStops(txs, ins, n + 1, a);
    } else {
      assert ins[..n] == ins;
    }
  }
}
