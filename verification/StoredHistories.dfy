/**
  `ResLevelDB`'s versioned and sequenced histories over its own database, batch and cache:
  one serialised history per key, read through GetValue and written through SetValue, and
  the checkpoint counter that shares the key space with them.
 */
module StoredHistories {
  import opened Common
  import opened Histories
  import LS = LevelStore
  import CK = CompositeKey

  /** Protobuf's serialising and parsing of a history, and to_string and stoll of a
      checkpoint. */
  datatype Codec = Codec(
    show: seq<Value> -> Blob,
    parse: Blob -> Option<seq<Value>>,
    number: nat -> Blob,
    value: Blob -> nat)

  ghost predicate Lossless(codec: Codec) {
    && codec.parse(EMPTY) == Some([])
    && (forall h :: codec.parse(codec.show(h)) == Some(h))
    && (forall n :: codec.number(n) != EMPTY && codec.value(codec.number(n)) == n)
  }

  /** "leveldb_checkpoint" */
  const CKPT_KEY := Blob([108, 101, 118, 101, 108, 100, 98, 95, 99, 104, 101, 99, 107, 112, 111, 105, 110, 116])

  /** The histories that a table holds; values that do not parse count as none. */
  function Decoded(codec: Codec, table: LS.Table): Store {
    map k | k in table && codec.parse(table[k]).Some? :: codec.parse(table[k]).value
  }

  /** Only the checkpoint may hold something that is not a history. */
  ghost predicate AllParse(codec: Codec, table: LS.Table) {
    forall k :: k in table && k != CKPT_KEY ==> codec.parse(table[k]).Some?
  }

  lemma DecodedAt(codec: Codec, table: LS.Table, k: Blob)
    requires Lossless(codec)
    ensures codec.parse(LS.Lookup(table, k)).Some? ==> codec.parse(LS.Lookup(table, k)).value == HistoryAt(Decoded(codec, table), k)
    ensures codec.parse(LS.Lookup(table, k)).None? ==> HistoryAt(Decoded(codec, table), k) == []
    ensures AllParse(codec, table) && k != CKPT_KEY ==> codec.parse(LS.Lookup(table, k)).Some?
  {
  }

  lemma DecodedUpdate(codec: Codec, table: LS.Table, k: Blob, h: seq<Value>)
    requires Lossless(codec)
    ensures Decoded(codec, table[k := codec.show(h)]) == Decoded(codec, table)[k := h]
    ensures AllParse(codec, table) ==> AllParse(codec, table[k := codec.show(h)])
  {
    assert codec.parse(codec.show(h)) == Some(h);
  }

  lemma DecodedCkpt(codec: Codec, table: LS.Table, v: Blob)
    ensures Decoded(codec, table[CKPT_KEY := v]) - {CKPT_KEY} == Decoded(codec, table) - {CKPT_KEY}
    ensures AllParse(codec, table) ==> AllParse(codec, table[CKPT_KEY := v])
  {
  }

  // ---------------------------------------------------------------- the checkpoint counter

  /** `last_ckpt_` and `update_time_`, with the checkpoint that the database holds. */
  datatype Counter = Counter(last: nat, time: nat, stored: nat)

  /** UpdateLastCkpt: every hundredth counted update stores the checkpoint. */
  function Count(c: Counter, seqNo: nat): Counter {
    if c.last > seqNo then c
    else if (c.time + 1) % 100 == 0 && seqNo > 0 then Counter(seqNo, 0, seqNo)
    else Counter(seqNo, c.time + 1, c.stored)
  }

  predicate Stores(c: Counter, seqNo: nat) { c.last <= seqNo && (c.time + 1) % 100 == 0 && seqNo > 0 }

  /** What SetValueWithSeq counts: the sequence of the newest value, kept or just written. */
  function Newer(h: seq<Value>, seqNo: nat): nat {
    if h != [] && h[|h| - 1].seqNo > seqNo then h[|h| - 1].seqNo else seqNo
  }

  /** So the counter takes the sequence of an accepted write, and the newest stored one on a
      refusal, unless it is further already. */
  lemma CountsNewest(limit: nat, l: Store, k: Blob, v: Blob, n: nat, c: Counter)
    ensures var h := HistoryAt(l, k);
      Count(c, Newer(h, n)).last == Max(c.last, if LevelSetSeq(limit, l, k, v, n).1 == 0 then n else h[|h| - 1].seqNo)
  {
  }

  function CountAll(seqs: seq<nat>): Counter {
    if seqs == [] then Counter(0, 0, 0) else Count(CountAll(seqs[..|seqs| - 1]), seqs[|seqs| - 1])
  }

  function MaxOf(seqs: seq<nat>): nat {
    if seqs == [] then 0 else
      var m := MaxOf(seqs[..|seqs| - 1]);
      if seqs[|seqs| - 1] > m then seqs[|seqs| - 1] else m
  }

  /** The updates from `m` on that are counted: those not below anything before them. */
  function Counted(seqs: seq<nat>, m: nat): nat {
    if |seqs| <= m then 0 else
      var n := |seqs| - 1;
      Counted(seqs[..n], m) + if MaxOf(seqs[..n]) <= seqs[n] then 1 else 0
  }

  lemma CountedSnoc(seqs: seq<nat>, x: nat, m: nat)
    ensures Counted(seqs + [x], m) ==
      if |seqs| < m then 0 else Counted(seqs, m) + if MaxOf(seqs) <= x then 1 else 0
    ensures MaxOf(seqs + [x]) == if x > MaxOf(seqs) then x else MaxOf(seqs)
  {
    assert (seqs + [x])[..|seqs|] == seqs;
  }

  /** The counter after these updates, when the database holds what was the greatest of the
      first m. */
  ghost predicate Lags(seqs: seq<nat>, c: Counter, m: int) {
    && 0 <= m <= |seqs|
    && c.last == MaxOf(seqs) && c.time == Counted(seqs, 0) % 100
    && c.stored == MaxOf(seqs[..m]) <= c.last && c.time == Counted(seqs, m) < 100
    && Counted(seqs[..m], 0) % 100 == 0
  }

  lemma LagStep(seqs: seq<nat>, c: Counter, m: int, x: nat)
    requires Lags(seqs, c, m) && x > 0
    ensures Lags(seqs + [x], Count(c, x), if Stores(c, x) then |seqs| + 1 else m)
  {
    var all := seqs + [x];
    CountedSnoc(seqs, x, 0);
    CountedSnoc(seqs, x, m);
    CountedSnoc(seqs, x, |seqs| + 1);
    assert all[..m] == seqs[..m] && all[..|all|] == all;
  }

  /** The counter is the greatest sequence seen; what the database holds was that greatest
      sequence when the number of counted updates was last a multiple of a hundred, since
      when exactly `time` updates were counted, so it never runs ahead. */
  lemma {:induction false} CounterLags(seqs: seq<nat>) returns (m: nat)
    requires forall i :: 0 <= i < |seqs| ==> seqs[i] > 0
    ensures var c := CountAll(seqs);
      && m <= |seqs|
      && c.last == MaxOf(seqs) && c.time == Counted(seqs, 0) % 100
      && c.stored == MaxOf(seqs[..m]) <= c.last && c.time == Counted(seqs, m) < 100
      && Counted(seqs[..m], 0) % 100 == 0
  {
    m := 0;
    if seqs == [] {
      assert seqs[..0] == [];
    } else {
      var n := |seqs| - 1;
      var k := CounterLags(seqs[..n]);
      var before := CountAll(seqs[..n]);
      LagStep(seqs[..n], before, k, seqs[n]);
      assert seqs == seqs[..n] + [seqs[n]];
      m := if Stores(before, seqs[n]) then |seqs| else k;
    }
  }

  // ---------------------------------------------------------------- loops over one history

  method FindVersion(h: seq<Value>, version: int) returns (item: Option<Item>)
    ensures item == LevelFindVersion(h, |h|, version)
  {
    var n := |h|;
    while n > 0
      invariant 0 <= n <= |h|
      invariant LevelFindVersion(h, n, version) == LevelFindVersion(h, |h|, version)
    {
      if h[n - 1].version == version { return Some(Item(h[n - 1].val, h[n - 1].version)); }
      if h[n - 1].version < version { break; }
      n := n - 1;
    }
    item := None;
  }

  method FindSeq(h: seq<Value>, seqNo: nat) returns (item: Item)
    ensures item == LevelFindSeq(h, |h|, seqNo)
  {
    var n := |h|;
    while n > 0
      invariant 0 <= n <= |h|
      invariant LevelFindSeq(h, n, seqNo) == LevelFindSeq(h, |h|, seqNo)
    {
      if h[n - 1].seqNo == seqNo { return Item(h[n - 1].val, h[n - 1].seqNo); }
      n := n - 1;
    }
    item := NOTHING;
  }

  method RangeOf(h: seq<Value>, min: int, max: int) returns (items: seq<Item>)
    ensures items == LevelRange(h, |h|, min, max)
  {
    items := [];
    var n := |h|;
    while n > 0
      invariant 0 <= n <= |h|
      invariant items + LevelRange(h, n, min, max) == LevelRange(h, |h|, min, max)
    {
      if h[n - 1].version < min { break; }
      if h[n - 1].version <= max { items := items + [Item(h[n - 1].val, h[n - 1].version)]; }
      n := n - 1;
    }
  }

  method TopOf(h: seq<Value>, top: int) returns (items: seq<Item>)
    ensures items == LevelTop(h, |h|, 0, AsSize(top))
  {
    items := [];
    var n := |h|;
    while n > 0 && |items| < AsSize(top)
      invariant 0 <= n <= |h| && |items| == |h| - n <= AsSize(top)
      invariant forall j :: 0 <= j < |items| ==> items[j] == ByVersion(h[|h| - 1 - j])
    {
      items := items + [Item(h[n - 1].val, h[n - 1].version)];
      n := n - 1;
    }
    TopOrNone(h, |h|, 0, AsSize(top));
  }

  // ---------------------------------------------------------------- loops over the database

  lemma PastRange(order: seq<Blob>, range: KeyRange, i: nat)
    requires Ascending(order) && i < |order| && range.Between? && Below(range.hi, order[i])
    ensures forall j :: i <= j < |order| ==> !InKeys(range, order[j])
  {
    forall j | i <= j < |order| ensures !InKeys(range, order[j]) {
      OutsideRange(order, range.lo, range.hi, i, j);
    }
  }

  /** What the walk has gathered from the keys it has visited. */
  ghost predicate Collected(l: Store, r: KeyRange, visited: seq<Blob>, resp: map<Blob, Item>) {
    && (forall k :: k in resp <==> k in visited && Shown(l, r, k))
    && (forall k :: k in resp ==> resp[k] == ByVersion(l[k][|l[k]| - 1]))
  }

  lemma CollectStep(l: Store, r: KeyRange, order: seq<Blob>, i: nat, resp: map<Blob, Item>)
    requires i < |order| && InKeys(r, order[i]) && Collected(l, r, order[..i], resp)
    ensures var k := order[i];
      Collected(l, r, order[..i + 1],
        if !CK.Composite(k) && k in l && l[k] != [] then resp[k := ByVersion(l[k][|l[k]| - 1])] else resp)
  {
    assert order[..i + 1] == order[..i] + [order[i]];
  }

  lemma AllCollected(l: Store, r: KeyRange, order: seq<Blob>, i: nat, resp: map<Blob, Item>)
    requires (forall k :: k in l ==> k in order) && i <= |order| && Collected(l, r, order[..i], resp)
    requires forall j :: i <= j < |order| ==> !InKeys(r, order[j])
    ensures resp == LevelScan(l, r)
  {
    forall k | k in l && Shown(l, r, k) ensures k in order[..i] {
      var j :| 0 <= j < |order| && order[j] == k;
      assert order[..i][j] == k;
    }
  }

  /** The iterator's walk: index entries, values that do not parse and empty histories are
      skipped. */
  method Walk(codec: Codec, table: LS.Table, order: seq<Blob>, from: nat, range: KeyRange) returns (resp: map<Blob, Item>)
    requires Visits(order, table) && from <= |order|
    requires forall j :: 0 <= j < from ==> !InKeys(range, order[j])
    requires range.Between? && from < |order| ==> !Below(order[from], range.lo)
    ensures resp == LevelScan(Decoded(codec, table), range)
  {
    ghost var store := Decoded(codec, table);
    resp := map[];
    var i := from;
    while i < |order| && (range.Everything? || !Below(range.hi, order[i]))
      invariant from <= i <= |order|
      invariant Collected(store, range, order[..i], resp)
    {
      assert order[i] in table;
      if range.Between? { OutsideRange(order, range.lo, range.hi, i, from); }
      CollectStep(store, range, order, i, resp);
      var parsed := codec.parse(table[order[i]]);
      if !CK.Composite(order[i]) && parsed.Some? && |parsed.value| > 0 {
        var last := parsed.value[|parsed.value| - 1];
        resp := resp[order[i] := Item(last.val, last.version)];
      }
      i := i + 1;
    }
    if i < |order| { PastRange(order, range, i); }
    AllCollected(store, range, order, i, resp);
  }

  ghost predicate Gathered(l: Store, visited: seq<Blob>, resp: Lists) {
    && (forall k :: k in resp <==> k in visited && k in l && l[k] != [])
    && (forall k :: k in resp ==> resp[k] == Projected(BySeq, l[k]))
  }

  lemma GatherStep(l: Store, order: seq<Blob>, i: nat, resp: Lists)
    requires i < |order| && Gathered(l, order[..i], resp)
    ensures var k := order[i];
      Gathered(l, order[..i + 1], if k in l && l[k] != [] then resp[k := Projected(BySeq, l[k])] else resp)
  {
    assert order[..i + 1] == order[..i] + [order[i]];
  }

  method Items(h: seq<Value>) returns (items: seq<Item>)
    ensures items == Projected(BySeq, h)
  {
    items := [];
    for i := 0 to |h|
      invariant |items| == i && forall j :: 0 <= j < i ==> items[j] == BySeq(h[j])
    {
      items := items + [Item(h[i].val, h[i].seqNo)];
    }
  }

  /** GetAllItemsWithSeq: every history that parses and is not empty. */
  method WalkAll(codec: Codec, table: LS.Table, order: seq<Blob>) returns (resp: Lists)
    requires Visits(order, table)
    ensures resp == LevelAll(Decoded(codec, table))
  {
    ghost var store := Decoded(codec, table);
    resp := map[];
    for i := 0 to |order|
      invariant Gathered(store, order[..i], resp)
    {
      assert order[i] in table;
      GatherStep(store, order, i, resp);
      var parsed := codec.parse(table[order[i]]);
      if parsed.Some? && |parsed.value| > 0 {
        var items := Items(parsed.value);
        resp := resp[order[i] := items];
      }
    }
    assert order[..|order|] == order;
  }

  // ---------------------------------------------------------------- the class

  class LevelHistories {
    const db: LS.ResLevelDB
    const codec: Codec
    const maxHistory: nat
    var lastCkpt: nat
    var updateTime: nat

    ghost function Histories(): Store
      reads db
    {
      Decoded(codec, db.db)
    }

    ghost predicate Valid()
      reads this, db, db.blockCache
    {
      && db.Valid() && Lossless(codec)
      && LS.Flushes(db.cfg) && LS.Settled(db.cfg, db.View())
      && AllParse(codec, db.db)
    }

    /** The counter has taken this update. */
    ghost predicate Ticked(before: Counter, seqNo: nat)
      reads this
    {
      lastCkpt == Count(before, seqNo).last && updateTime == Count(before, seqNo).time
    }

    constructor (cfg: LS.Config, codec: Codec, maxHistory: nat)
      requires LS.Sound(cfg) && LS.Flushes(cfg) && Lossless(codec)
      ensures Valid() && fresh(db) && fresh(db.blockCache)
      ensures Histories() == map[] && this.codec == codec && this.maxHistory == maxHistory
      ensures lastCkpt == 0 && updateTime == 0
    {
      this.codec, this.maxHistory := codec, maxHistory;
      lastCkpt, updateTime := 0, 0;
      db := new LS.ResLevelDB(cfg);
    }

    /** GetValue and ParseFromString. */
    method Load(key: Blob) returns (h: Option<seq<Value>>)
      requires Valid()
      modifies db.blockCache
      ensures Valid() && h == codec.parse(LS.Lookup(db.db, key))
      ensures h.Some? ==> h.value == HistoryAt(Histories(), key)
      ensures h.None? ==> HistoryAt(Histories(), key) == []
      ensures key != CKPT_KEY ==> h.Some?
    {
      LS.SettledRead(db.cfg, db.View(), key);
      DecodedAt(codec, db.db, key);
      var value := db.GetValue(key);
      h := codec.parse(value);
    }

    /** SerializeToString and SetValue; `ok` is the status of the database write. */
    method Save(key: Blob, h: seq<Value>, ok: bool) returns (status: int)
      requires Valid()
      modifies db, db.blockCache
      ensures ok ==> Valid() && status == 0 && Histories() == old(Histories())[key := h]
      ensures !ok ==> status == -1 && Histories() == old(Histories())
    {
      LS.SettledSet(db.cfg, db.View(), key, codec.show(h));
      DecodedUpdate(codec, db.db, key, h);
      status := db.SetValue(key, codec.show(h), ok);
    }

    /** A refused version leaves everything alone; a failing write answers -1 and leaves the
        stored histories alone. */
    method SetValueWithVersion(key: Blob, value: Blob, version: int, ok: bool) returns (status: int)
      requires Valid()
      modifies db, db.blockCache
      ensures ok || status == -2 ==> Valid()
      ensures key != CKPT_KEY && ok ==>
        (Histories(), status) == LevelSetVersion(old(Histories()), key, value, version)
      ensures key != CKPT_KEY && !ok ==>
        && Histories() == old(Histories())
        && status == if LevelSetVersion(old(Histories()), key, value, version).1 == 0 then -1 else -2
    {
      var history := Load(key);
      if history.None? { return -2; }
      var h := history.value;
      var last := if |h| > 0 then h[|h| - 1].version else 0;
      if last != version { return -2; }
      status := Save(key, h + [Value(value, version + 1, 0)], ok);
    }

    method GetValueWithVersion(key: Blob, version: int) returns (item: Item)
      requires Valid()
      modifies db.blockCache
      ensures Valid() && item == LevelGetVersion(Histories(), key, version)
    {
      var history := Load(key);
      if history.None? || |history.value| == 0 { return NOTHING; }
      var h := history.value;
      if version > 0 {
        var found := FindVersion(h, version);
        if found.Some? { return found.value; }
      }
      item := Item(h[|h| - 1].val, h[|h| - 1].version);
    }

    method GetHistory(key: Blob, min: int, max: int) returns (items: seq<Item>)
      requires Valid()
      modifies db.blockCache
      ensures Valid() && items == LevelHistory(Histories(), key, min, max)
    {
      var history := Load(key);
      if history.None? { return []; }
      items := RangeOf(history.value, min, max);
    }

    method GetTopHistory(key: Blob, top: int) returns (items: seq<Item>)
      requires Valid()
      modifies db.blockCache
      ensures Valid() && items == LevelTopHistory(Histories(), key, top)
    {
      var history := Load(key);
      if history.None? { return []; }
      items := TopOf(history.value, top);
    }

    method GetAllItems(order: seq<Blob>) returns (resp: map<Blob, Item>)
      requires Visits(order, db.db)
      ensures resp == LevelScan(Histories(), Everything)
    {
      resp := Walk(codec, db.db, order, 0, Everything);
    }

    /** GetKeyRange: seek to the first key not below `min`, walk to the first above `max`. */
    method GetKeyRange(order: seq<Blob>, min: Blob, max: Blob) returns (resp: map<Blob, Item>)
      requires Visits(order, db.db)
      ensures resp == LevelScan(Histories(), Between(min, max))
    {
      var i := 0;
      while i < |order| && Below(order[i], min)
        invariant 0 <= i <= |order|
        invariant forall j :: 0 <= j < i ==> Below(order[j], min)
      {
        i := i + 1;
      }
      resp := Walk(codec, db.db, order, i, Between(min, max));
    }

    method GetAllItemsWithSeq(order: seq<Blob>) returns (resp: Lists)
      requires Visits(order, db.db)
      ensures resp == LevelAll(Histories())
    {
      resp := WalkAll(codec, db.db, order);
    }

    /** `ok` is the status of the history's write, `ckptOk` that of the checkpoint's. */
    method SetValueWithSeq(key: Blob, value: Blob, seqNo: nat, ok: bool, ckptOk: bool) returns (status: int)
      requires Valid()
      modifies this, db, db.blockCache
      ensures ok && ckptOk ==> Valid()
      ensures key != CKPT_KEY && ok && ckptOk ==>
        && status == LevelSetSeq(maxHistory, old(Histories()), key, value, seqNo).1
        && Histories() - {CKPT_KEY} == LevelSetSeq(maxHistory, old(Histories()), key, value, seqNo).0 - {CKPT_KEY}
      ensures key != CKPT_KEY && status != -1 ==>
        Ticked(Counter(old(lastCkpt), old(updateTime), 0), Newer(HistoryAt(old(Histories()), key), seqNo))
      ensures status == -1 ==> lastCkpt == old(lastCkpt) && updateTime == old(updateTime)
      ensures key != CKPT_KEY && !ok ==>
        && Histories() - {CKPT_KEY} == old(Histories()) - {CKPT_KEY}
        && status == if LevelSetSeq(maxHistory, old(Histories()), key, value, seqNo).1 == 0 then -1 else -2
    {
      var history := Load(key);
      if history.None? { return -2; }
      var h := history.value;
      var last := if |h| > 0 then h[|h| - 1].seqNo else 0;
      if last > seqNo {
        UpdateLastCkpt(last, ckptOk);
        return -2;
      }
      var kept := DropOldest(h + [Value(value, 0, seqNo)], maxHistory);
      status := Save(key, kept, ok);
      if status != 0 { return; }
      UpdateLastCkpt(seqNo, ckptOk);
    }

    method GetValueWithSeq(key: Blob, seqNo: nat) returns (item: Item)
      requires Valid()
      modifies db.blockCache
      ensures Valid() && item == LevelGetSeq(Histories(), key, seqNo)
    {
      var history := Load(key);
      if history.None? || |history.value| == 0 { return NOTHING; }
      var h := history.value;
      if seqNo > 0 {
        item := FindSeq(h, seqNo);
        return;
      }
      item := Item(h[|h| - 1].val, h[|h| - 1].seqNo);
    }

    method UpdateLastCkpt(seqNo: nat, ok: bool)
      requires Valid()
      modifies this, db, db.blockCache
      ensures ok ==> Valid()
      ensures Histories() - {CKPT_KEY} == old(Histories()) - {CKPT_KEY}
      ensures Ticked(Counter(old(lastCkpt), old(updateTime), 0), seqNo)
      ensures Stores(Counter(old(lastCkpt), old(updateTime), 0), seqNo) && ok ==> LS.Lookup(db.db, CKPT_KEY) == codec.number(seqNo)
      ensures !Stores(Counter(old(lastCkpt), old(updateTime), 0), seqNo) ==> db.db == old(db.db)
    {
      if lastCkpt > seqNo { return; }
      lastCkpt := seqNo;
      updateTime := updateTime + 1;
      if updateTime % 100 == 0 && lastCkpt > 0 {
        LS.SettledSet(db.cfg, db.View(), CKPT_KEY, codec.number(seqNo));
        DecodedCkpt(codec, db.db, codec.number(seqNo));
        var _ := db.SetValue(CKPT_KEY, codec.number(seqNo), ok);
        updateTime := 0;
      }
    }

    /** The counter if it has run since the start, else the checkpoint that was stored. */
    method GetLastCheckpoint() returns (n: nat)
      requires Valid()
      modifies db.blockCache
      ensures Valid()
      ensures lastCkpt > 0 ==> n == lastCkpt
      ensures lastCkpt == 0 && LS.Lookup(db.db, CKPT_KEY) == EMPTY ==> n == 0
      ensures forall m :: lastCkpt == 0 && LS.Lookup(db.db, CKPT_KEY) == codec.number(m) ==> n == m
    {
      if lastCkpt > 0 { return lastCkpt; }
      LS.SettledRead(db.cfg, db.View(), CKPT_KEY);
      var value := db.GetValue(CKPT_KEY);
      if value == EMPTY { return 0; }
      n := codec.value(value);
    }
  }
}
