/**
  Versioned and sequenced histories in the two storage backends: `MemoryDB` keeps lists
  per key, `ResLevelDB` keeps one serialised history per key. Each backend's functions
  follow its own code; the theorems say that they answer alike.
 */
module Histories {
  import opened Common
  import CK = CompositeKey

  /** A value with its version or its sequence number. */
  datatype Item = Item(val: Blob, num: int)

  /** A stored value of ResLevelDB, which carries both numbers. */
  datatype Value = Value(val: Blob, version: int, seqNo: int)

  const NOTHING := Item(EMPTY, 0)

  /** static_cast<size_t> of an int. */
  function AsSize(n: int): nat { if n < 0 then n % 0x1_0000_0000_0000_0000 else n }

  type Lists = map<Blob, seq<Item>>
  type Store = map<Blob, seq<Value>>

  function ListAt(m: Lists, k: Blob): seq<Item> { if k in m then m[k] else [] }
  function HistoryAt(l: Store, k: Blob): seq<Value> { if k in l then l[k] else [] }

  // ---------------------------------------------------------------- MemoryDB

  function MemSetVersion(m: Lists, k: Blob, v: Blob, version: int): (Lists, int) {
    if (k !in m && version != 0) || (k in m && m[k] != [] && m[k][|m[k]| - 1].num != version) then (m, -2)
    else (m[k := ListAt(m, k) + [Item(v, version + 1)]], 0)
  }

  /** The do-while from position i down. */
  function MemFindVersion(h: seq<Item>, i: nat, version: int): Item
    requires i < |h|
  {
    if h[i].num == version then h[i]
    else if h[i].num < version || i == 0 then h[|h| - 1]
    else MemFindVersion(h, i - 1, version)
  }

  function MemGetVersion(m: Lists, k: Blob, version: int): Item {
    if ListAt(m, k) == [] then NOTHING else MemFindVersion(m[k], |m[k]| - 1, version)
  }

  function MemRange(h: seq<Item>, i: nat, min: int, max: int): seq<Item>
    requires i < |h|
  {
    if h[i].num < min then [] else
      var rest := if i == 0 then [] else MemRange(h, i - 1, min, max);
      if h[i].num <= max then [h[i]] + rest else rest
  }

  function MemHistory(m: Lists, k: Blob, min: int, max: int): seq<Item> {
    if ListAt(m, k) == [] then [] else MemRange(m[k], |m[k]| - 1, min, max)
  }

  /** Pushes first and counts afterwards. */
  function MemTop(h: seq<Item>, i: nat, taken: nat, top: nat): seq<Item>
    requires i < |h|
  {
    [h[i]] + if taken + 1 >= top || i == 0 then [] else MemTop(h, i - 1, taken + 1, top)
  }

  function MemTopHistory(m: Lists, k: Blob, top: int): seq<Item> {
    if ListAt(m, k) == [] then [] else MemTop(m[k], |m[k]| - 1, 0, AsSize(top))
  }

  function Newest<T>(h: seq<T>, limit: nat): seq<T> {
    if |h| > limit then h[|h| - limit..] else h
  }

  function MemSetSeq(limit: nat, m: Lists, k: Blob, v: Blob, seqNo: nat): (Lists, int) {
    if k in m && m[k] != [] && m[k][|m[k]| - 1].num > seqNo then (m, -2)
    else (m[k := Newest(ListAt(m, k) + [Item(v, seqNo)], limit)], 0)
  }

  function MemFindSeq(h: seq<Item>, i: nat, seqNo: nat): Item
    requires i < |h|
  {
    if h[i].num == seqNo || seqNo == 0 then h[i]
    else if h[i].num < seqNo || i == 0 then NOTHING
    else MemFindSeq(h, i - 1, seqNo)
  }

  function MemGetSeq(m: Lists, k: Blob, seqNo: nat): Item {
    if ListAt(m, k) == [] then NOTHING else MemFindSeq(m[k], |m[k]| - 1, seqNo)
  }

  // ---------------------------------------------------------------- ResLevelDB

  function LevelSetVersion(l: Store, k: Blob, v: Blob, version: int): (Store, int) {
    var h := HistoryAt(l, k);
    var last := if h != [] then h[|h| - 1].version else 0;
    if last != version then (l, -2) else (l[k := h + [Value(v, version + 1, 0)]], 0)
  }

  function ByVersion(x: Value): Item { Item(x.val, x.version) }
  function BySeq(x: Value): Item { Item(x.val, x.seqNo) }

  /** The for loop over the first n values, from the last one down. */
  function LevelFindVersion(h: seq<Value>, n: nat, version: int): Option<Item>
    requires n <= |h|
  {
    if n == 0 then None
    else if h[n - 1].version == version then Some(ByVersion(h[n - 1]))
    else if h[n - 1].version < version then None
    else LevelFindVersion(h, n - 1, version)
  }

  function LevelGetVersion(l: Store, k: Blob, version: int): Item {
    var h := HistoryAt(l, k);
    if h == [] then NOTHING
    else
      var found := if version > 0 then LevelFindVersion(h, |h|, version) else None;
      match found
      case Some(x) => x
      case None => ByVersion(h[|h| - 1])
  }

  function LevelRange(h: seq<Value>, n: nat, min: int, max: int): seq<Item>
    requires n <= |h|
  {
    if n == 0 || h[n - 1].version < min then []
    else if h[n - 1].version <= max then [ByVersion(h[n - 1])] + LevelRange(h, n - 1, min, max)
    else LevelRange(h, n - 1, min, max)
  }

  function LevelHistory(l: Store, k: Blob, min: int, max: int): seq<Item> {
    LevelRange(HistoryAt(l, k), |HistoryAt(l, k)|, min, max)
  }

  /** Counts first and pushes afterwards. */
  function LevelTop(h: seq<Value>, n: nat, taken: nat, top: nat): seq<Item>
    requires n <= |h|
  {
    if n == 0 || taken >= top then [] else [ByVersion(h[n - 1])] + LevelTop(h, n - 1, taken + 1, top)
  }

  function LevelTopHistory(l: Store, k: Blob, top: int): seq<Item> {
    LevelTop(HistoryAt(l, k), |HistoryAt(l, k)|, 0, AsSize(top))
  }

  function LevelSetSeq(limit: nat, l: Store, k: Blob, v: Blob, seqNo: nat): (Store, int) {
    var h := HistoryAt(l, k);
    var last := if h != [] then h[|h| - 1].seqNo else 0;
    if last > seqNo then (l, -2) else (l[k := Newest(h + [Value(v, 0, seqNo)], limit)], 0)
  }

  /** Looks at every value; no early exit. */
  function LevelFindSeq(h: seq<Value>, n: nat, seqNo: nat): Item
    requires n <= |h|
  {
    if n == 0 then NOTHING
    else if h[n - 1].seqNo == seqNo then BySeq(h[n - 1])
    else LevelFindSeq(h, n - 1, seqNo)
  }

  function LevelGetSeq(l: Store, k: Blob, seqNo: nat): Item {
    var h := HistoryAt(l, k);
    if h == [] then NOTHING
    else if seqNo > 0 then LevelFindSeq(h, |h|, seqNo)
    else BySeq(h[|h| - 1])
  }

  // ---------------------------------------------------------------- scans

  /** The keys a scan asks for: GetAllItems or GetKeyRange. */
  datatype KeyRange = Everything | Between(lo: Blob, hi: Blob)

  predicate Below(a: Blob, b: Blob) { CK.Less(a.bytes, b.bytes) }

  predicate InKeys(r: KeyRange, k: Blob) {
    r.Between? ==> !Below(k, r.lo) && !Below(r.hi, k)
  }

  function MemScan(m: Lists, r: KeyRange): map<Blob, Item> {
    map k | k in m && m[k] != [] && InKeys(r, k) :: m[k][|m[k]| - 1]
  }

  /** ResLevelDB keeps index entries and user keys in one key space and hides the former. */
  predicate Shown(l: Store, r: KeyRange, k: Blob) {
    k in l && l[k] != [] && InKeys(r, k) && !CK.Composite(k)
  }

  function LevelScan(l: Store, r: KeyRange): map<Blob, Item> {
    map k | k in l && Shown(l, r, k) :: ByVersion(l[k][|l[k]| - 1])
  }

  function LevelAll(l: Store): Lists {
    map k | k in l && l[k] != [] :: Projected(BySeq, l[k])
  }

  // ---------------------------------------------------------------- runs

  datatype Op =
    | SetVersion(key: Blob, val: Blob, version: int)
    | GetVersion(key: Blob, version: int)
    | History(key: Blob, min: int, max: int)
    | Top(key: Blob, top: int)
    | Scan(range: KeyRange)
    | SetSeq(key: Blob, val: Blob, seqNo: nat)
    | GetSeq(key: Blob, seqNo: nat)
    | AllSeqs

  predicate VersionFamily(op: Op) { !op.SetSeq? && !op.GetSeq? && !op.AllSeqs? }

  datatype Answer =
    | Status(code: int)
    | One(item: Item)
    | Many(items: seq<Item>)
    | Newests(newest: map<Blob, Item>)
    | All(lists: Lists)

  function MemStep(limit: nat, m: Lists, op: Op): (Lists, Answer) {
    match op
    case SetVersion(k, v, n) => var (m', c) := MemSetVersion(m, k, v, n); (m', Status(c))
    case GetVersion(k, n) => (m, One(MemGetVersion(m, k, n)))
    case History(k, lo, hi) => (m, Many(MemHistory(m, k, lo, hi)))
    case Top(k, n) => (m, Many(MemTopHistory(m, k, n)))
    case Scan(r) => (m, Newests(MemScan(m, r)))
    case SetSeq(k, v, n) => var (m', c) := MemSetSeq(limit, m, k, v, n); (m', Status(c))
    case GetSeq(k, n) => (m, One(MemGetSeq(m, k, n)))
    case AllSeqs => (m, All(m))
  }

  function LevelStep(limit: nat, l: Store, op: Op): (Store, Answer) {
    match op
    case SetVersion(k, v, n) => var (l', c) := LevelSetVersion(l, k, v, n); (l', Status(c))
    case GetVersion(k, n) => (l, One(LevelGetVersion(l, k, n)))
    case History(k, lo, hi) => (l, Many(LevelHistory(l, k, lo, hi)))
    case Top(k, n) => (l, Many(LevelTopHistory(l, k, n)))
    case Scan(r) => (l, Newests(LevelScan(l, r)))
    case SetSeq(k, v, n) => var (l', c) := LevelSetSeq(limit, l, k, v, n); (l', Status(c))
    case GetSeq(k, n) => (l, One(LevelGetSeq(l, k, n)))
    case AllSeqs => (l, All(LevelAll(l)))
  }

  function MemRun(limit: nat, ops: seq<Op>): Lists {
    if ops == [] then map[] else MemStep(limit, MemRun(limit, ops[..|ops| - 1]), ops[|ops| - 1]).0
  }

  function LevelRun(limit: nat, ops: seq<Op>): Store {
    if ops == [] then map[] else LevelStep(limit, LevelRun(limit, ops[..|ops| - 1]), ops[|ops| - 1]).0
  }

  // ---------------------------------------------------------------- version histories

  function Projected(f: Value -> Item, h: seq<Value>): (p: seq<Item>)
    ensures |p| == |h| && forall i :: 0 <= i < |h| ==> p[i] == f(h[i])
  {
    seq(|h|, i requires 0 <= i < |h| => f(h[i]))
  }

  /** Versions are exactly 1 to n, in order. */
  ghost predicate Versions(h: seq<Item>) {
    forall i :: 0 <= i < |h| ==> h[i].num == i + 1
  }

  ghost predicate SameVersionsAt(m: Lists, l: Store, k: Blob) {
    && ListAt(m, k) == Projected(ByVersion, HistoryAt(l, k))
    && (k in m ==> m[k] != [])
    && Versions(ListAt(m, k))
  }

  ghost predicate SameVersions(m: Lists, l: Store) {
    forall k :: SameVersionsAt(m, l, k)
  }

  lemma SetVersionAgrees(m: Lists, l: Store, k: Blob, v: Blob, n: int)
    requires SameVersions(m, l)
    ensures MemSetVersion(m, k, v, n).1 == LevelSetVersion(l, k, v, n).1
    ensures SameVersions(MemSetVersion(m, k, v, n).0, LevelSetVersion(l, k, v, n).0)
  {
    var (m', c) := MemSetVersion(m, k, v, n);
    var (l', d) := LevelSetVersion(l, k, v, n);
    assert SameVersionsAt(m, l, k);
    if c == 0 {
      assert Projected(ByVersion, HistoryAt(l', k)) == Projected(ByVersion, HistoryAt(l, k)) + [Item(v, n + 1)];
      forall j ensures SameVersionsAt(m', l', j) { assert SameVersionsAt(m, l, j); }
    }
  }

  /** With versions 1..n a request for version i finds it, any other returns the newest. */
  lemma {:induction false} MemFindExactly(h: seq<Item>, i: nat, version: int)
    requires Versions(h) && i < |h| && (version > i + 1 ==> i == |h| - 1)
    ensures MemFindVersion(h, i, version) == if 1 <= version <= i + 1 then h[version - 1] else h[|h| - 1]
  {
    if h[i].num > version && i > 0 { MemFindExactly(h, i - 1, version); }
  }

  lemma {:induction false} LevelFindExactly(h: seq<Value>, n: nat, version: int)
    requires Versions(Projected(ByVersion, h)) && n <= |h| && version > 0
    ensures LevelFindVersion(h, n, version) == if version <= n then Some(ByVersion(h[version - 1])) else None
  {
    if n > 0 {
      assert Projected(ByVersion, h)[n - 1].num == n;
      if h[n - 1].version > version { LevelFindExactly(h, n - 1, version); }
    }
  }

  /** The requested versions in descending order. */
  ghost function Descending(h: seq<Item>, lo: int, hi: int): seq<Item>
    requires hi <= |h|
    decreases if hi < 0 then 0 else hi
  {
    if hi < 1 || hi < lo then [] else [h[hi - 1]] + Descending(h, lo, hi - 1)
  }

  /** One entry for every version from hi down to lo, or to 1 if lo is below it. */
  lemma {:induction false} DescendingIsRange(h: seq<Item>, lo: int, hi: int)
    requires Versions(h) && hi <= |h|
    ensures var d, first := Descending(h, lo, hi), if lo < 1 then 1 else lo;
      && |d| == (if hi < first then 0 else hi - first + 1)
      && forall i :: 0 <= i < |d| ==> d[i].num == hi - i && d[i] == h[hi - i - 1]
    decreases if hi < 0 then 0 else hi
  {
    if hi >= 1 && hi >= lo { DescendingIsRange(h, lo, hi - 1); }
  }

  lemma {:induction false} MemRangeExactly(h: seq<Item>, i: nat, lo: int, hi: int)
    requires Versions(h) && i < |h|
    ensures MemRange(h, i, lo, hi) == Descending(h, lo, Min(hi, i + 1))
  {
    if h[i].num >= lo {
      if i > 0 { MemRangeExactly(h, i - 1, lo, hi); }
    }
  }

  lemma {:induction false} LevelRangeExactly(h: seq<Value>, n: nat, lo: int, hi: int)
    requires Versions(Projected(ByVersion, h)) && n <= |h|
    ensures LevelRange(h, n, lo, hi) == Descending(Projected(ByVersion, h), lo, Min(hi, n))
  {
    if n > 0 {
      assert Projected(ByVersion, h)[n - 1].num == n;
      LevelRangeExactly(h, n - 1, lo, hi);
    }
  }

  lemma {:induction false} TopAgrees(h: seq<Value>, i: nat, taken: nat, top: nat)
    requires i < |h| && taken < top
    ensures MemTop(Projected(ByVersion, h), i, taken, top) == LevelTop(h, i + 1, taken, top)
  {
    if taken + 1 < top && i > 0 { TopAgrees(h, i - 1, taken + 1, top); }
  }

  /** GetTopHistory agrees exactly when something other than zero is asked for, or there
      is nothing to return. */
  lemma TopHistoryExactly(m: Lists, l: Store, k: Blob, top: int)
    requires SameVersions(m, l) && top >= -0x8000_0000
    ensures MemTopHistory(m, k, top) == LevelTopHistory(l, k, top) <==> top != 0 || ListAt(m, k) == []
  {
    var h := HistoryAt(l, k);
    assert SameVersionsAt(m, l, k);
    if h != [] && top != 0 { TopAgrees(h, |h| - 1, 0, AsSize(top)); }
  }

  /** The history query of either backend: exactly the stored versions from lo to hi, in
      descending order. */
  lemma HistoryExactly(m: Lists, l: Store, k: Blob, lo: int, hi: int)
    requires SameVersions(m, l)
    ensures Versions(ListAt(m, k))
    ensures MemHistory(m, k, lo, hi) == Descending(ListAt(m, k), lo, Min(hi, |ListAt(m, k)|))
    ensures LevelHistory(l, k, lo, hi) == Descending(ListAt(m, k), lo, Min(hi, |ListAt(m, k)|))
  {
    var h, p := HistoryAt(l, k), ListAt(m, k);
    assert SameVersionsAt(m, l, k);
    LevelRangeExactly(h, |h|, lo, hi);
    if p != [] { MemRangeExactly(p, |p| - 1, lo, hi); }
  }

  lemma GetVersionAgrees(m: Lists, l: Store, k: Blob, n: int)
    requires SameVersions(m, l)
    ensures MemGetVersion(m, k, n) == LevelGetVersion(l, k, n)
  {
    var h := HistoryAt(l, k);
    assert SameVersionsAt(m, l, k);
    if h != [] {
      MemFindExactly(ListAt(m, k), |h| - 1, n);
      if n > 0 { LevelFindExactly(h, |h|, n); }
    }
  }

  /** A scan of user keys agrees exactly when no stored key it asks for looks like an
      index entry: MemoryDB shows such a key, ResLevelDB hides it. */
  lemma ScansExactly(m: Lists, l: Store, r: KeyRange)
    requires SameVersions(m, l)
    ensures MemScan(m, r) == LevelScan(l, r) <==> forall k :: k in m && InKeys(r, k) ==> !CK.Composite(k)
  {
    forall k ensures k in MemScan(m, r) && !CK.Composite(k) <==> k in LevelScan(l, r) { assert SameVersionsAt(m, l, k); }
    forall k | k in LevelScan(l, r) ensures k in MemScan(m, r) && MemScan(m, r)[k] == LevelScan(l, r)[k] {
      assert SameVersionsAt(m, l, k);
    }
    forall k | k in m ensures m[k] != [] { assert SameVersionsAt(m, l, k); }
    if MemScan(m, r) == LevelScan(l, r) {
      forall k | k in m && InKeys(r, k) ensures !CK.Composite(k) { assert k in MemScan(m, r); }
    }
  }

  /** The requests that both backends answer alike. */
  ghost predicate Alike(m: Lists, op: Op) {
    match op
    case Top(k, top) => top != 0 || ListAt(m, k) == []
    case Scan(r) => forall k :: k in m && InKeys(r, k) ==> !CK.Composite(k)
    case _ => true
  }

  /** Over every run of version operations the two backends hold the same histories, with
      versions exactly 1..n per key, and give the same answer to exactly the requests that
      neither ask for the top zero entries of a stored key nor scan over a key that looks
      like an index entry. */
  lemma {:induction false} VersionsAgree(limit: nat, ops: seq<Op>)
    requires forall i :: 0 <= i < |ops| ==> VersionFamily(ops[i])
    ensures SameVersions(MemRun(limit, ops), LevelRun(limit, ops))
    ensures forall op :: VersionFamily(op) && (op.Top? ==> op.top >= -0x8000_0000) ==>
      var m, l := MemRun(limit, ops), LevelRun(limit, ops);
      MemStep(limit, m, op).1 == LevelStep(limit, l, op).1 <==> Alike(m, op)
  {
    if ops != [] {
      var n := |ops| - 1;
      VersionsAgree(limit, ops[..n]);
      if ops[n].SetVersion? {
        SetVersionAgrees(MemRun(limit, ops[..n]), LevelRun(limit, ops[..n]), ops[n].key, ops[n].val, ops[n].version);
      }
    }
    var m, l := MemRun(limit, ops), LevelRun(limit, ops);
    forall op | VersionFamily(op) && (op.Top? ==> op.top >= -0x8000_0000)
      ensures MemStep(limit, m, op).1 == LevelStep(limit, l, op).1 <==> Alike(m, op)
    {
      match op
      case SetVersion(k, v, x) => SetVersionAgrees(m, l, k, v, x);
      case GetVersion(k, x) => GetVersionAgrees(m, l, k, x);
      case History(k, lo, hi) => HistoryExactly(m, l, k, lo, hi);
      case Top(k, x) => TopHistoryExactly(m, l, k, x);
      case Scan(r) => ScansExactly(m, l, r);
    }
  }

  lemma RunSnoc(limit: nat, ops: seq<Op>, op: Op)
    ensures MemRun(limit, ops + [op]) == MemStep(limit, MemRun(limit, ops), op).0
    ensures LevelRun(limit, ops + [op]) == LevelStep(limit, LevelRun(limit, ops), op).0
  {
    assert (ops + [op])[..|ops|] == ops;
  }

  /** After any run, in both backends: a write is accepted exactly if it names the number
      of versions stored under its key, and then adds that value as the next version and
      changes nothing else; a refused one changes nothing. */
  lemma VersionWriteExactly(limit: nat, ops: seq<Op>, k: Blob, v: Blob, n: int)
    requires forall i :: 0 <= i < |ops| ==> VersionFamily(ops[i])
    ensures var op := SetVersion(k, v, n);
      var m, l, m', l' := MemRun(limit, ops), LevelRun(limit, ops), MemRun(limit, ops + [op]), LevelRun(limit, ops + [op]);
      var h := ListAt(m, k);
      && MemStep(limit, m, op).1 == LevelStep(limit, l, op).1 == Status(if n == |h| then 0 else -2)
      && (n == |h| ==> m' == m[k := h + [Item(v, n + 1)]] && SameVersions(m', l'))
      && (n != |h| ==> m' == m && l' == l)
  {
    var m, l := MemRun(limit, ops), LevelRun(limit, ops);
    VersionsAgree(limit, ops);
    assert SameVersionsAt(m, l, k);
    SetVersionAgrees(m, l, k, v, n);
    RunSnoc(limit, ops, SetVersion(k, v, n));
  }

  /** After any run, in both backends: a read gives the version asked for if it is stored
      and the newest otherwise. */
  lemma VersionReadExactly(limit: nat, ops: seq<Op>, k: Blob, n: int)
    requires forall i :: 0 <= i < |ops| ==> VersionFamily(ops[i])
    ensures var m, l := MemRun(limit, ops), LevelRun(limit, ops);
      var h := ListAt(m, k);
      MemGetVersion(m, k, n) == LevelGetVersion(l, k, n) ==
        if h == [] then NOTHING else if 1 <= n <= |h| then h[n - 1] else h[|h| - 1]
  {
    VersionsAgree(limit, ops);
    VersionRead(MemRun(limit, ops), LevelRun(limit, ops), k, n);
  }

  lemma VersionRead(m: Lists, l: Store, k: Blob, n: int)
    requires SameVersions(m, l)
    ensures var h := ListAt(m, k);
      MemGetVersion(m, k, n) == LevelGetVersion(l, k, n) ==
        if h == [] then NOTHING else if 1 <= n <= |h| then h[n - 1] else h[|h| - 1]
  {
    assert SameVersionsAt(m, l, k);
    GetVersionAgrees(m, l, k, n);
    if ListAt(m, k) != [] { MemFindExactly(ListAt(m, k), |ListAt(m, k)| - 1, n); }
  }

  /** After any run, in both backends: a scan gives for every stored key in its range, but
      in ResLevelDB not for keys that start like index entries, what reading its newest
      version gives. */
  lemma ScanReads(limit: nat, ops: seq<Op>, r: KeyRange, k: Blob)
    requires forall i :: 0 <= i < |ops| ==> VersionFamily(ops[i])
    ensures var m, l := MemRun(limit, ops), LevelRun(limit, ops);
      && (k in MemScan(m, r) <==> ListAt(m, k) != [] && InKeys(r, k))
      && (k in LevelScan(l, r) <==> ListAt(m, k) != [] && InKeys(r, k) && !CK.Composite(k))
      && (k in MemScan(m, r) ==> MemScan(m, r)[k] == MemGetVersion(m, k, 0))
      && (k in LevelScan(l, r) ==> LevelScan(l, r)[k] == LevelGetVersion(l, k, 0))
  {
    VersionsAgree(limit, ops);
    VersionReadExactly(limit, ops, k, 0);
    ScanAt(MemRun(limit, ops), LevelRun(limit, ops), r, k);
  }

  lemma ScanAt(m: Lists, l: Store, r: KeyRange, k: Blob)
    requires SameVersions(m, l)
    ensures k in MemScan(m, r) <==> ListAt(m, k) != [] && InKeys(r, k)
    ensures k in LevelScan(l, r) <==> ListAt(m, k) != [] && InKeys(r, k) && !CK.Composite(k)
    ensures k in MemScan(m, r) ==> MemScan(m, r)[k] == ListAt(m, k)[|ListAt(m, k)| - 1]
    ensures k in LevelScan(l, r) ==> LevelScan(l, r)[k] == ListAt(m, k)[|ListAt(m, k)| - 1]
  {
    assert SameVersionsAt(m, l, k);
  }

  /** Two requests that tell the backends apart, after one write: the top zero entries of
      the key, and any scan that reaches a key that starts like an index entry. */
  lemma TopZeroDiffers(limit: nat, k: Blob, v: Blob)
    ensures var ops := [SetVersion(k, v, 0)];
      MemStep(limit, MemRun(limit, ops), Top(k, 0)).1 != LevelStep(limit, LevelRun(limit, ops), Top(k, 0)).1
  {
    var m := OneWrite(limit, k, v);
    VersionsAgree(limit, [SetVersion(k, v, 0)]);
    assert !Alike(m, Top(k, 0));
  }

  lemma ScanDiffers(limit: nat, k: Blob, v: Blob, r: KeyRange)
    requires CK.Composite(k) && InKeys(r, k)
    ensures var ops := [SetVersion(k, v, 0)];
      MemStep(limit, MemRun(limit, ops), Scan(r)).1 != LevelStep(limit, LevelRun(limit, ops), Scan(r)).1
  {
    var m := OneWrite(limit, k, v);
    VersionsAgree(limit, [SetVersion(k, v, 0)]);
    assert !Alike(m, Scan(r));
  }

  lemma OneWrite(limit: nat, k: Blob, v: Blob) returns (m: Lists)
    ensures m == MemRun(limit, [SetVersion(k, v, 0)]) && k in m && m[k] == [Item(v, 1)]
  {
    var ops := [SetVersion(k, v, 0)];
    assert ops[..0] == [];
    assert [] + [Item(v, 1)] == [Item(v, 1)];
    m := MemRun(limit, ops);
  }

  // ---------------------------------------------------------------- sequence histories

  /** Sequence numbers never go down along a history. */
  ghost predicate Rising(h: seq<Item>) {
    && (forall i, j :: 0 <= i <= j < |h| ==> h[i].num <= h[j].num)
    && (forall i :: 0 <= i < |h| ==> h[i].num >= 0)
  }

  ghost predicate SameSeqsAt(limit: nat, m: Lists, l: Store, k: Blob) {
    && ListAt(m, k) == Projected(BySeq, HistoryAt(l, k))
    && (k in m ==> m[k] != [])
    && Rising(ListAt(m, k)) && |ListAt(m, k)| <= limit
  }

  ghost predicate SameSeqs(limit: nat, m: Lists, l: Store) {
    forall k :: SameSeqsAt(limit, m, l, k)
  }

  lemma NewestProjects(h: seq<Value>, x: Value, limit: nat)
    ensures Projected(BySeq, Newest(h + [x], limit)) == Newest(Projected(BySeq, h) + [BySeq(x)], limit)
  {
    assert Projected(BySeq, h + [x]) == Projected(BySeq, h) + [BySeq(x)];
  }

  lemma NewestRises(h: seq<Item>, x: Item, limit: nat)
    requires Rising(h) && x.num >= 0 && (h != [] ==> h[|h| - 1].num <= x.num)
    ensures Rising(Newest(h + [x], limit)) && |Newest(h + [x], limit)| <= limit
  {
    assert Rising(h + [x]);
  }

  lemma SetSeqAgrees(limit: nat, m: Lists, l: Store, k: Blob, v: Blob, n: nat)
    requires limit >= 1 && SameSeqs(limit, m, l)
    ensures MemSetSeq(limit, m, k, v, n).1 == LevelSetSeq(limit, l, k, v, n).1
    ensures SameSeqs(limit, MemSetSeq(limit, m, k, v, n).0, LevelSetSeq(limit, l, k, v, n).0)
  {
    var (m', c) := MemSetSeq(limit, m, k, v, n);
    var (l', d) := LevelSetSeq(limit, l, k, v, n);
    var h := HistoryAt(l, k);
    assert SameSeqsAt(limit, m, l, k);
    if c == 0 {
      NewestProjects(h, Value(v, 0, n), limit);
      NewestRises(ListAt(m, k), Item(v, n), limit);
      forall j ensures SameSeqsAt(limit, m', l', j) { assert SameSeqsAt(limit, m, l, j); }
    }
  }

  /** The early exit of MemoryDB skips only values below the wanted sequence. */
  lemma {:induction false} FindSeqAgrees(h: seq<Value>, i: nat, seqNo: nat)
    requires Rising(Projected(BySeq, h)) && i < |h| && seqNo > 0
    ensures MemFindSeq(Projected(BySeq, h), i, seqNo) == LevelFindSeq(h, i + 1, seqNo)
  {
    var p := Projected(BySeq, h);
    if p[i].num < seqNo {
      NoneBelow(h, i + 1, seqNo);
    } else if p[i].num > seqNo && i > 0 {
      FindSeqAgrees(h, i - 1, seqNo);
    }
  }

  lemma {:induction false} NoneBelow(h: seq<Value>, n: nat, seqNo: nat)
    requires Rising(Projected(BySeq, h)) && n <= |h| && (n > 0 ==> h[n - 1].seqNo < seqNo)
    ensures LevelFindSeq(h, n, seqNo) == NOTHING
  {
    if n > 1 {
      assert Projected(BySeq, h)[n - 2].num <= Projected(BySeq, h)[n - 1].num;
      NoneBelow(h, n - 1, seqNo);
    }
  }

  lemma GetSeqAgrees(limit: nat, m: Lists, l: Store, k: Blob, n: nat)
    requires SameSeqs(limit, m, l)
    ensures MemGetSeq(m, k, n) == LevelGetSeq(l, k, n)
  {
    var h := HistoryAt(l, k);
    assert SameSeqsAt(limit, m, l, k);
    if h != [] && n > 0 { FindSeqAgrees(h, |h| - 1, n); }
  }

  lemma AllSeqsAgree(limit: nat, m: Lists, l: Store)
    requires SameSeqs(limit, m, l)
    ensures m == LevelAll(l)
  {
    forall k ensures k in m <==> k in LevelAll(l) { assert SameSeqsAt(limit, m, l, k); }
    forall k | k in m ensures m[k] == LevelAll(l)[k] { assert SameSeqsAt(limit, m, l, k); }
  }

  /** Over every run of sequence operations, with room for at least one entry, the two
      backends hold the same bounded, rising histories and give the same answers. */
  lemma {:induction false} SeqsAgree(limit: nat, ops: seq<Op>)
    requires limit >= 1 && forall i :: 0 <= i < |ops| ==> !VersionFamily(ops[i])
    ensures SameSeqs(limit, MemRun(limit, ops), LevelRun(limit, ops))
    ensures forall op :: !VersionFamily(op) ==>
      MemStep(limit, MemRun(limit, ops), op).1 == LevelStep(limit, LevelRun(limit, ops), op).1
  {
    if ops != [] {
      var n := |ops| - 1;
      SeqsAgree(limit, ops[..n]);
      if ops[n].SetSeq? {
        SetSeqAgrees(limit, MemRun(limit, ops[..n]), LevelRun(limit, ops[..n]), ops[n].key, ops[n].val, ops[n].seqNo);
      }
    }
    var m, l := MemRun(limit, ops), LevelRun(limit, ops);
    forall op | !VersionFamily(op)
      ensures MemStep(limit, m, op).1 == LevelStep(limit, l, op).1
    {
      match op
      case SetSeq(k, v, x) => SetSeqAgrees(limit, m, l, k, v, x);
      case GetSeq(k, x) => GetSeqAgrees(limit, m, l, k, x);
      case AllSeqs => AllSeqsAgree(limit, m, l);
    }
  }

  /** What is left of a history at its limit is its end. */
  lemma NewestIsEnd<T>(h: seq<T>, limit: nat)
    ensures var kept := Newest(h, limit); |kept| == Min(limit, |h|) && kept == h[|h| - |kept|..]
  {
  }

  /** A write with sequence n, from (m, l) to (m', l'): it is accepted exactly if its
      sequence is not below the newest one of its key; it then stands behind the end of the
      old history that the limit leaves room for, nothing else changes, and the newest read
      returns it. A refused write changes nothing. */
  ghost predicate SeqWrite(limit: nat, m: Lists, l: Store, k: Blob, v: Blob, n: nat, m': Lists, l': Store, code: int) {
    var h, h' := ListAt(m, k), ListAt(m', k);
    if h == [] || h[|h| - 1].num <= n then
      && code == 0
      && |h'| == Min(limit, |h| + 1) && h' == (h + [Item(v, n)])[|h| + 1 - |h'|..]
      && m' == m[k := h'] && SameSeqs(limit, m', l')
      && MemGetSeq(m', k, 0) == LevelGetSeq(l', k, 0) == Item(v, n)
    else
      code == -2 && m' == m && l' == l
  }

  lemma SeqWritten(limit: nat, m: Lists, l: Store, k: Blob, v: Blob, n: nat)
    requires limit >= 1 && SameSeqs(limit, m, l)
    ensures var (m', c) := MemSetSeq(limit, m, k, v, n);
      var (l', d) := LevelSetSeq(limit, l, k, v, n);
      c == d && SeqWrite(limit, m, l, k, v, n, m', l', c)
  {
    assert SameSeqsAt(limit, m, l, k);
    SetSeqAgrees(limit, m, l, k, v, n);
    NewestIsEnd(ListAt(m, k) + [Item(v, n)], limit);
    GetSeqAgrees(limit, MemSetSeq(limit, m, k, v, n).0, LevelSetSeq(limit, l, k, v, n).0, k, 0);
  }

  /** So it is after any run, in both backends. */
  lemma SeqWriteExactly(limit: nat, ops: seq<Op>, k: Blob, v: Blob, n: nat)
    requires limit >= 1 && forall i :: 0 <= i < |ops| ==> !VersionFamily(ops[i])
    ensures var more := ops + [SetSeq(k, v, n)];
      exists code ::
        && MemStep(limit, MemRun(limit, ops), SetSeq(k, v, n)).1 == Status(code)
        && LevelStep(limit, LevelRun(limit, ops), SetSeq(k, v, n)).1 == Status(code)
        && SeqWrite(limit, MemRun(limit, ops), LevelRun(limit, ops), k, v, n,
                    MemRun(limit, more), LevelRun(limit, more), code)
  {
    SeqsAgree(limit, ops);
    RunSnoc(limit, ops, SetSeq(k, v, n));
    SeqWritten(limit, MemRun(limit, ops), LevelRun(limit, ops), k, v, n);
  }

  /** The newest item with this sequence number. */
  ghost predicate NewestWith(h: seq<Item>, n: nat, i: nat) {
    i < |h| && h[i].num == n && forall j :: i < j < |h| ==> h[j].num != n
  }

  lemma {:induction false} FindSeqExactly(h: seq<Value>, c: nat, n: nat)
    requires c <= |h|
    ensures var p, x := Projected(BySeq, h)[..c], LevelFindSeq(h, c, n);
      || (exists i: nat :: NewestWith(p, n, i) && x == p[i])
      || (x == NOTHING && forall i :: 0 <= i < c ==> p[i].num != n)
  {
    var p := Projected(BySeq, h)[..c];
    if c > 0 {
      if h[c - 1].seqNo == n {
        assert NewestWith(p, n, c - 1);
      } else {
        FindSeqExactly(h, c - 1, n);
        var q, x := Projected(BySeq, h)[..c - 1], LevelFindSeq(h, c - 1, n);
        assert p == q + [BySeq(h[c - 1])];
        if i: nat :| NewestWith(q, n, i) && x == q[i] { assert NewestWith(p, n, i); }
      }
    }
  }

  /** After any run, in both backends: a read with sequence zero gives the newest item, any
      other the newest item with that sequence, and nothing where there is none. */
  lemma SeqReadExactly(limit: nat, ops: seq<Op>, k: Blob, n: nat)
    requires limit >= 1 && forall i :: 0 <= i < |ops| ==> !VersionFamily(ops[i])
    ensures var m, l := MemRun(limit, ops), LevelRun(limit, ops);
      var h, x := ListAt(m, k), MemGetSeq(m, k, n);
      && x == LevelGetSeq(l, k, n)
      && (n == 0 && h != [] ==> x == h[|h| - 1])
      && (n > 0 || h == [] ==>
          || (exists i: nat :: NewestWith(h, n, i) && x == h[i])
          || (x == NOTHING && forall i :: 0 <= i < |h| ==> h[i].num != n))
  {
    SeqsAgree(limit, ops);
    SeqRead(limit, MemRun(limit, ops), LevelRun(limit, ops), k, n);
  }

  lemma SeqRead(limit: nat, m: Lists, l: Store, k: Blob, n: nat)
    requires SameSeqs(limit, m, l)
    ensures var h, x := ListAt(m, k), MemGetSeq(m, k, n);
      && x == LevelGetSeq(l, k, n)
      && (n == 0 && h != [] ==> x == h[|h| - 1])
      && (n > 0 || h == [] ==>
          || (exists i: nat :: NewestWith(h, n, i) && x == h[i])
          || (x == NOTHING && forall i :: 0 <= i < |h| ==> h[i].num != n))
  {
    assert SameSeqsAt(limit, m, l, k);
    GetSeqAgrees(limit, m, l, k, n);
    var h := HistoryAt(l, k);
    FindSeqExactly(h, |h|, n);
    assert Projected(BySeq, h)[..|h|] == Projected(BySeq, h);
  }

  /** The newest n of a list of versions, the newest first. */
  ghost predicate NewestOf(h: seq<Item>, n: int, top: seq<Item>) {
    |top| == n <= |h| && forall j :: 0 <= j < n ==> top[j] == h[|h| - 1 - j]
  }

  /** After any run: what the two backends give for the top entries of a key. A negative
      number is a size_t near 2^64, which asks for all of any history below that. */
  lemma TopExactly(limit: nat, ops: seq<Op>, k: Blob, top: int)
    requires top >= -0x8000_0000 && forall i :: 0 <= i < |ops| ==> VersionFamily(ops[i])
    ensures var m, l := MemRun(limit, ops), LevelRun(limit, ops);
      var h := ListAt(m, k);
      var n := if top < 0 then 0x1_0000_0000_0000_0000 + top else top;
      && NewestOf(h, Min(|h|, n), LevelTopHistory(l, k, top))
      && NewestOf(h, Min(|h|, Max(n, 1)), MemTopHistory(m, k, top))
  {
    VersionsAgree(limit, ops);
    TopEntries(MemRun(limit, ops), LevelRun(limit, ops), k, top);
  }

  lemma TopEntries(m: Lists, l: Store, k: Blob, top: int)
    requires SameVersions(m, l) && top >= -0x8000_0000
    ensures var h := ListAt(m, k);
      var n := if top < 0 then 0x1_0000_0000_0000_0000 + top else top;
      && NewestOf(h, Min(|h|, n), LevelTopHistory(l, k, top))
      && NewestOf(h, Min(|h|, Max(n, 1)), MemTopHistory(m, k, top))
  {
    var h := HistoryAt(l, k);
    assert SameVersionsAt(m, l, k);
    SizeOf(top);
    TopOrNone(h, |h|, 0, AsSize(top));
    if h != [] { NewestFirst(ListAt(m, k), |h| - 1, 0, AsSize(top)); }
  }

  lemma SizeOf(n: int)
    requires n >= -0x8000_0000
    ensures AsSize(n) == if n < 0 then 0x1_0000_0000_0000_0000 + n else n
  {
  }

  // ---------------------------------------------------------------- the classes

  /** MemoryDB's two history maps; one of them is in use, by the API family chosen. */
  class MemoryDB {
    var lists: Lists
    const maxHistory: nat

    constructor (maxHistory: nat)
      ensures lists == map[] && this.maxHistory == maxHistory
      ensures maxHistory >= 1 ==> Valid()
    {
      lists, this.maxHistory := map[], maxHistory;
    }

    /** No list is ever empty, so `back` is always defined. */
    ghost predicate Valid()
      reads this
    {
      maxHistory >= 1 && forall k :: k in lists ==> lists[k] != []
    }

    method SetValueWithVersion(key: Blob, value: Blob, version: int) returns (status: int)
      requires Valid()
      modifies this
      ensures Valid() && (lists, status) == MemSetVersion(old(lists), key, value, version)
    {
      if (key !in lists && version != 0) || (key in lists && lists[key][|lists[key]| - 1].num != version) {
        return -2;
      }
      lists := lists[key := (if key in lists then lists[key] else []) + [Item(value, version + 1)]];
      status := 0;
    }

    method GetValueWithVersion(key: Blob, version: int) returns (item: Item)
      requires Valid()
      ensures item == MemGetVersion(lists, key, version)
    {
      if key !in lists { return NOTHING; }
      var h := lists[key];
      var i := |h| - 1;
      while true
        invariant 0 <= i < |h|
        invariant MemFindVersion(h, i, version) == MemFindVersion(h, |h| - 1, version)
        decreases i
      {
        if h[i].num == version { return h[i]; }
        if h[i].num < version || i == 0 { break; }
        i := i - 1;
      }
      item := h[|h| - 1];
    }

    method GetHistory(key: Blob, min: int, max: int) returns (items: seq<Item>)
      requires Valid()
      ensures items == MemHistory(lists, key, min, max)
    {
      items := [];
      if key !in lists { return; }
      var h := lists[key];
      var i := |h| - 1;
      while true
        invariant 0 <= i < |h|
        invariant items + MemRange(h, i, min, max) == MemRange(h, |h| - 1, min, max)
        decreases i
      {
        if h[i].num < min { break; }
        if h[i].num <= max { items := items + [h[i]]; }
        if i == 0 { break; }
        i := i - 1;
      }
    }

    /** GetAllItems and GetKeyRange: one pass over the map, looking at every key. */
    method ScanKeys(order: seq<Blob>, range: KeyRange) returns (resp: map<Blob, Item>)
      requires Valid() && Visits(order, lists)
      ensures resp == MemScan(lists, range)
    {
      resp := map[];
      for i := 0 to |order|
        invariant forall k :: k in resp <==> k in order[..i] && InKeys(range, k)
        invariant forall k :: k in resp ==> k in lists && resp[k] == lists[k][|lists[k]| - 1]
      {
        assert order[i] in lists;
        if InKeys(range, order[i]) { resp := resp[order[i] := lists[order[i]][|lists[order[i]]| - 1]]; }
      }
      assert order[..|order|] == order;
    }

    method GetTopHistory(key: Blob, top: int) returns (items: seq<Item>)
      requires Valid()
      ensures items == MemTopHistory(lists, key, top)
    {
      if key !in lists { return []; }
      items := WalkBack(lists[key], AsSize(top));
    }

    /** From the newest item towards the oldest; the limit is looked at after each item. */
    static method WalkBack(h: seq<Item>, limit: nat) returns (items: seq<Item>)
      requires h != []
      ensures items == MemTop(h, |h| - 1, 0, limit)
    {
      items := [];
      var i := |h| - 1;
      while true
        invariant 0 <= i < |h| && |items| == |h| - 1 - i
        invariant forall j :: 0 <= j < |items| ==> items[j] == h[|h| - 1 - j]
        invariant |items| == 0 || |items| < limit
        decreases i
      {
        items := items + [h[i]];
        if |items| >= limit || i == 0 { break; }
        i := i - 1;
      }
      NewestFirst(h, |h| - 1, 0, limit);
    }

    method SetValueWithSeq(key: Blob, value: Blob, seqNo: nat) returns (status: int)
      requires Valid()
      modifies this
      ensures Valid() && (lists, status) == MemSetSeq(maxHistory, old(lists), key, value, seqNo)
    {
      if key in lists && lists[key][|lists[key]| - 1].num > seqNo { return -2; }
      var h := (if key in lists then lists[key] else []) + [Item(value, seqNo)];
      var kept := DropOldest(h, maxHistory);
      lists := lists[key := kept];
      status := 0;
    }

    method GetValueWithSeq(key: Blob, seqNo: nat) returns (item: Item)
      requires Valid()
      ensures item == MemGetSeq(lists, key, seqNo)
    {
      if key !in lists { return NOTHING; }
      var h := lists[key];
      var i := |h| - 1;
      while true
        invariant 0 <= i < |h|
        invariant MemFindSeq(h, i, seqNo) == MemFindSeq(h, |h| - 1, seqNo)
        decreases i
      {
        if h[i].num == seqNo || seqNo == 0 { return h[i]; }
        if h[i].num < seqNo || i == 0 { break; }
        i := i - 1;
      }
      item := NOTHING;
    }
  }

  /** The keys of a store as its iterator visits them. */
  ghost predicate Ascending(order: seq<Blob>) {
    forall i, j :: 0 <= i < j < |order| ==> Below(order[i], order[j])
  }

  ghost predicate Visits<T>(order: seq<Blob>, store: map<Blob, T>) {
    Ascending(order) && forall k :: k in store <==> k in order
  }

  /** Seek and stop lose nothing: before the first key not below `lo` and from the first
      key above `hi` on, no key is in range. */
  lemma OutsideRange(order: seq<Blob>, lo: Blob, hi: Blob, i: nat, j: nat)
    requires Ascending(order) && i < |order| && j < |order|
    ensures j <= i && Below(order[i], lo) ==> Below(order[j], lo)
    ensures i <= j && Below(hi, order[i]) ==> Below(hi, order[j])
  {
    if j < i && Below(order[i], lo) { CK.LessTransitive(order[j].bytes, order[i].bytes, lo.bytes); }
    if i < j && Below(hi, order[i]) { CK.LessTransitive(hi.bytes, order[i].bytes, order[j].bytes); }
  }

  /** MemoryDB's top entries: the newest first, as many as asked for and stored, but
      never none. */
  lemma NewestFirst(h: seq<Item>, i: nat, taken: nat, top: nat)
    requires i < |h|
    ensures |MemTop(h, i, taken, top)| == if top <= taken + 1 then 1 else Min(i + 1, top - taken)
    ensures forall j :: 0 <= j < |MemTop(h, i, taken, top)| ==> i - j >= 0 && MemTop(h, i, taken, top)[j] == h[i - j]
  {
    TopCount(h, i, taken, top);
    forall j | 0 <= j < |MemTop(h, i, taken, top)| ensures i - j >= 0 && MemTop(h, i, taken, top)[j] == h[i - j] {
      TopAt(h, i, taken, top, j);
    }
  }

  lemma {:induction false} TopCount(h: seq<Item>, i: nat, taken: nat, top: nat)
    requires i < |h|
    ensures |MemTop(h, i, taken, top)| == if top <= taken + 1 then 1 else Min(i + 1, top - taken)
  {
    if taken + 1 < top && i > 0 { TopCount(h, i - 1, taken + 1, top); }
  }

  lemma {:induction false} TopAt(h: seq<Item>, i: nat, taken: nat, top: nat, j: nat)
    requires i < |h| && j < |MemTop(h, i, taken, top)|
    ensures i - j >= 0 && MemTop(h, i, taken, top)[j] == h[i - j]
  {
    if j > 0 { TopAt(h, i - 1, taken + 1, top, j - 1); }
  }

  /** ResLevelDB's top entries: the newest first, as many as asked for and stored. */
  lemma {:induction false} TopOrNone(h: seq<Value>, n: nat, taken: nat, top: nat)
    requires n <= |h|
    ensures |LevelTop(h, n, taken, top)| == if top <= taken then 0 else Min(n, top - taken)
    ensures forall j :: 0 <= j < |LevelTop(h, n, taken, top)| ==>
      n - 1 - j >= 0 && LevelTop(h, n, taken, top)[j] == ByVersion(h[n - 1 - j])
  {
    if n > 0 && taken < top { TopOrNone(h, n - 1, taken + 1, top); }
  }

  /** Erase from the front while the history is over its limit. */
  method DropOldest<T>(h: seq<T>, limit: nat) returns (kept: seq<T>)
    ensures kept == Newest(h, limit) && |kept| == Min(limit, |h|) && kept == h[|h| - |kept|..]
  {
    kept := h;
    while |kept| > limit
      invariant |kept| <= |h| && kept == h[|h| - |kept|..] && (|kept| < limit ==> kept == h)
      invariant |h| > limit ==> |kept| >= limit
    {
      kept := kept[1..];
    }
  }
}
