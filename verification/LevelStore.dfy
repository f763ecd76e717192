/**
  `ResLevelDB` as a store: a database, a pending write batch and an LRU cache that have
  to act as one map. LevelDB itself is a finite map with atomic batch writes; every
  write carries its outcome.
 */
module LevelStore {
  import opened Common
  import opened LruCache
  import CK = CompositeKey

  datatype Put = Put(key: Blob, val: Blob)

  type Table = map<Blob, Blob>

  /** `size` is LevelDB's approximate size of a batch, `limit` the write_batch_size_. */
  datatype Config = Config(cached: bool, cap: nat, limit: nat, size: seq<Put> -> nat)

  ghost predicate Sound(cfg: Config) { cfg.cached ==> cfg.cap > 0 }

  datatype Store = Store(db: Table, batch: seq<Put>, cache: Lru<Blob, Blob>)

  datatype Op =
    | Set(key: Blob, val: Blob, ok: bool)
    | Get(key: Blob)
    | Flush(ok: bool)
    | Clear(ok: bool)
    | CreateKey(key: Blob, ok: bool)
    | DeleteKey(key: Blob, ok: bool)
    | UpdateKey(from: Blob, to: Blob, ok: bool)
    | Reopen  // the process restarts: batch and cache are gone

  /** The database with the batch's puts applied in order. */
  function Merged(db: Table, batch: seq<Put>): Table {
    if batch == [] then db else
      Merged(db, batch[..|batch| - 1])[batch[|batch| - 1].key := batch[|batch| - 1].val]
  }

  function Lookup(t: Table, k: Blob): Blob { if k in t then t[k] else EMPTY }

  /** The batch grows by one put and is written out once it is large enough. */
  function Batched(cfg: Config, s: Store, cache: Lru<Blob, Blob>, p: Put, ok: bool): Store {
    var batch := s.batch + [p];
    if cfg.size(batch) >= cfg.limit && ok then Store(Merged(s.db, batch), [], cache)
    else Store(s.db, batch, cache)
  }

  function Step(cfg: Config, s: Store, op: Op): Store
    requires cfg.cached ==> cfg.cap > 0
  {
    match op
    case Set(k, v, ok) =>
      Batched(cfg, s, if cfg.cached then Stored(cfg.cap, s.cache, k, v) else s.cache, Put(k, v), ok)
    case Get(k) => if cfg.cached then s.(cache := Used(s.cache, k)) else s
    case Flush(ok) => if ok then s.(db := Merged(s.db, s.batch), batch := []) else s
    case Clear(ok) => Store(if ok then map[] else s.db, [], if cfg.cached then Lru([], map[]) else s.cache)
    case CreateKey(k, ok) => if ok then s.(db := s.db[k := EMPTY]) else s
    case DeleteKey(k, ok) => if ok then s.(db := s.db - {k}) else s
    case UpdateKey(o, n, ok) => if ok then s.(db := (s.db - {o})[n := EMPTY]) else s
    case Reopen => Store(s.db, [], Lru([], map[]))
  }

  /** GetValue: a cached empty value counts as a miss and is looked up in the database;
      the pending batch is never consulted. */
  function Read(cfg: Config, s: Store, k: Blob): Blob {
    if cfg.cached && Lookup(s.cache.vals, k) != EMPTY then Lookup(s.cache.vals, k) else Lookup(s.db, k)
  }

  function Run(cfg: Config, ops: seq<Op>): Store
    requires cfg.cached ==> cfg.cap > 0
  {
    if ops == [] then Store(map[], [], Lru([], map[])) else
      Step(cfg, Run(cfg, ops[..|ops| - 1]), ops[|ops| - 1])
  }

  // ---------------------------------------------------------------- the simple store

  /** What a caller thinks of: the last value written under each user key, and what of
      it would survive a restart. */
  datatype Simple = Simple(last: Table, saved: Table)

  function SimpleStep(cfg: Config, m: Simple, batch: seq<Put>, op: Op): Simple {
    match op
    case Set(k, v, ok) =>
      var last := m.last[k := v];
      Simple(last, if cfg.size(batch + [Put(k, v)]) >= cfg.limit && ok then last else m.saved)
    case Flush(ok) => if ok then m.(saved := m.last) else m
    case Clear(ok) => if ok then Simple(map[], map[]) else m.(last := m.saved)
    case Reopen => m.(last := m.saved)
    case _ => m
  }

  function SimpleRun(cfg: Config, ops: seq<Op>): Simple
    requires cfg.cached ==> cfg.cap > 0
  {
    if ops == [] then Simple(map[], map[]) else
      SimpleStep(cfg, SimpleRun(cfg, ops[..|ops| - 1]), Run(cfg, ops[..|ops| - 1]).batch, ops[|ops| - 1])
  }

  predicate Separate(op: Op) {
    match op
    case Set(k, _, _) => !CK.Composite(k)
    case Get(k) => !CK.Composite(k)
    case CreateKey(k, _) => CK.Composite(k)
    case DeleteKey(k, _) => CK.Composite(k)
    case UpdateKey(o, n, _) => CK.Composite(o) && CK.Composite(n)
    case _ => true
  }

  // ---------------------------------------------------------------- refinement

  ghost predicate SameUserPart(a: Table, b: Table) {
    forall k :: !CK.Composite(k) ==> (k in a <==> k in b) && (k in a ==> a[k] == b[k])
  }

  /** Every cached value is the database overlaid by the batch. */
  ghost predicate Coherent(s: Store) {
    forall k :: k in s.cache.vals ==>
      !CK.Composite(k) && k in Merged(s.db, s.batch) && s.cache.vals[k] == Merged(s.db, s.batch)[k]
  }

  ghost predicate Refines(cfg: Config, s: Store, m: Simple) {
    && (cfg.cached ==> Inv(cfg.cap, s.cache))
    && (!cfg.cached ==> s.cache.vals == map[])
    && SameUserPart(Merged(s.db, s.batch), m.last)
    && SameUserPart(s.db, m.saved)
    && Coherent(s)
    && (forall i :: 0 <= i < |s.batch| ==> !CK.Composite(s.batch[i].key))
  }

  lemma MergedSnoc(db: Table, batch: seq<Put>, p: Put)
    ensures Merged(db, batch + [p]) == Merged(db, batch)[p.key := p.val]
  {
    assert (batch + [p])[..|batch|] == batch;
  }

  /** Index entries under other keys pass through the batch untouched. */
  lemma {:induction false} MergedApart(a: Table, b: Table, batch: seq<Put>)
    requires SameUserPart(a, b)
    ensures SameUserPart(Merged(a, batch), Merged(b, batch))
  {
    if batch != [] { MergedApart(a, b, batch[..|batch| - 1]); }
  }

  lemma StoredOrEvicted(cap: nat, c: Lru<Blob, Blob>, k: Blob, v: Blob)
    requires cap > 0 && Inv(cap, c)
    ensures var d := Stored(cap, c, k, v);
      && Inv(cap, d)
      && k in d.vals && d.vals[k] == v
      && forall j :: j in d.vals && j != k ==> j in c.vals && d.vals[j] == c.vals[j]
  {
    PutKeepsInv(cap, c, k, v);
  }

  lemma BatchedRefines(cfg: Config, s: Store, m: Simple, cache: Lru<Blob, Blob>, k: Blob, v: Blob, ok: bool)
    requires Refines(cfg, s, m) && !CK.Composite(k)
    requires (cfg.cached ==> Inv(cfg.cap, cache)) && (!cfg.cached ==> cache.vals == map[])
    requires k in cache.vals ==> cache.vals[k] == v
    requires forall j :: j in cache.vals && j != k ==> j in s.cache.vals && cache.vals[j] == s.cache.vals[j]
    ensures Refines(cfg, Batched(cfg, s, cache, Put(k, v), ok), SimpleStep(cfg, m, s.batch, Set(k, v, ok)))
  {
    PendingRefines(cfg, s, m, cache, k, v);
    BatchedIs(cfg, Store(s.db, s.batch + [Put(k, v)], cache), m.(last := m.last[k := v]), s, m, k, v, ok);
  }

  lemma BatchedIs(cfg: Config, t: Store, n: Simple, s: Store, m: Simple, k: Blob, v: Blob, ok: bool)
    requires Refines(cfg, t, n)
    requires t == Store(s.db, s.batch + [Put(k, v)], t.cache) && n == m.(last := m.last[k := v])
    ensures Refines(cfg, Batched(cfg, s, t.cache, Put(k, v), ok), SimpleStep(cfg, m, s.batch, Set(k, v, ok)))
  {
    FlushRefines(cfg, t, n);
    if cfg.size(t.batch) >= cfg.limit && ok {
      assert Batched(cfg, s, t.cache, Put(k, v), ok) == t.(db := Merged(t.db, t.batch), batch := []);
    } else {
      assert Batched(cfg, s, t.cache, Put(k, v), ok) == t;
    }
  }

  lemma PendingRefines(cfg: Config, s: Store, m: Simple, cache: Lru<Blob, Blob>, k: Blob, v: Blob)
    requires Refines(cfg, s, m) && !CK.Composite(k)
    requires (cfg.cached ==> Inv(cfg.cap, cache)) && (!cfg.cached ==> cache.vals == map[])
    requires k in cache.vals ==> cache.vals[k] == v
    requires forall j :: j in cache.vals && j != k ==> j in s.cache.vals && cache.vals[j] == s.cache.vals[j]
    ensures Refines(cfg, Store(s.db, s.batch + [Put(k, v)], cache), m.(last := m.last[k := v]))
  {
    MergedSnoc(s.db, s.batch, Put(k, v));
    UserPartUpdate(Merged(s.db, s.batch), m.last, k, v);
  }

  lemma FlushRefines(cfg: Config, s: Store, m: Simple)
    requires Refines(cfg, s, m)
    ensures Refines(cfg, s.(db := Merged(s.db, s.batch), batch := []), m.(saved := m.last))
  {
  }

  lemma SetRefines(cfg: Config, s: Store, m: Simple, k: Blob, v: Blob, ok: bool)
    requires Sound(cfg) && Refines(cfg, s, m) && !CK.Composite(k)
    ensures Refines(cfg, Step(cfg, s, Set(k, v, ok)), SimpleStep(cfg, m, s.batch, Set(k, v, ok)))
  {
    if cfg.cached {
      StoredOrEvicted(cfg.cap, s.cache, k, v);
      BatchedRefines(cfg, s, m, Stored(cfg.cap, s.cache, k, v), k, v, ok);
    } else {
      BatchedRefines(cfg, s, m, s.cache, k, v, ok);
    }
  }

  lemma UserPartUpdate(a: Table, b: Table, k: Blob, v: Blob)
    requires SameUserPart(a, b)
    ensures SameUserPart(a[k := v], b[k := v])
  {
  }

  lemma IndexRefines(cfg: Config, s: Store, m: Simple, db: Table)
    requires Refines(cfg, s, m) && SameUserPart(s.db, db)
    ensures Refines(cfg, s.(db := db), m)
  {
    MergedApart(s.db, db, s.batch);
  }

  lemma GetRefines(cfg: Config, s: Store, m: Simple, k: Blob)
    requires Sound(cfg) && Refines(cfg, s, m)
    ensures Refines(cfg, Step(cfg, s, Get(k)), m)
  {
    if cfg.cached && k in s.cache.vals { TouchKeepsInv(cfg.cap, s.cache, k); }
  }

  lemma StepRefines(cfg: Config, s: Store, m: Simple, op: Op)
    requires Sound(cfg) && Refines(cfg, s, m) && Separate(op)
    ensures Refines(cfg, Step(cfg, s, op), SimpleStep(cfg, m, s.batch, op))
  {
    match op
    case Set(k, v, ok) => SetRefines(cfg, s, m, k, v, ok);
    case Get(k) => GetRefines(cfg, s, m, k);
    case Flush(ok) => FlushRefines(cfg, s, m);
    case Clear(ok) =>
    case CreateKey(k, ok) => IndexRefines(cfg, s, m, Step(cfg, s, op).db);
    case DeleteKey(k, ok) => IndexRefines(cfg, s, m, Step(cfg, s, op).db);
    case UpdateKey(o, n, ok) => IndexRefines(cfg, s, m, Step(cfg, s, op).db);
    case Reopen =>
  }

  /** Over any run, with user keys apart from composite keys: the database overlaid by the
      batch is the last-write map, the database alone is its saved part, and every cached
      value agrees, across evictions, failed writes, Flush, Clear and restarts. */
  lemma {:induction false} RunRefines(cfg: Config, ops: seq<Op>)
    requires Sound(cfg) && forall i :: 0 <= i < |ops| ==> Separate(ops[i])
    ensures Refines(cfg, Run(cfg, ops), SimpleRun(cfg, ops))
  {
    if ops != [] {
      var n := |ops| - 1;
      RunRefines(cfg, ops[..n]);
      StepRefines(cfg, Run(cfg, ops[..n]), SimpleRun(cfg, ops[..n]), ops[n]);
    }
  }

  /** Operations that put an index entry, and that take one away. */
  predicate Indexes(op: Op, k: Blob) {
    (op.CreateKey? && op.ok && op.key == k) || (op.UpdateKey? && op.ok && op.to == k)
  }

  predicate Unindexes(op: Op, k: Blob) {
    || (op.DeleteKey? && op.ok && op.key == k)
    || (op.UpdateKey? && op.ok && op.from == k && op.to != k)
    || (op.Clear? && op.ok)
  }

  ghost predicate Indexed(ops: seq<Op>, k: Blob) {
    exists i :: 0 <= i < |ops| && Indexes(ops[i], k) && forall j :: i < j < |ops| ==> !Unindexes(ops[j], k)
  }

  lemma IndexedSnoc(ops: seq<Op>, op: Op, k: Blob)
    ensures Indexed(ops + [op], k) <==> Indexes(op, k) || (Indexed(ops, k) && !Unindexes(op, k))
  {
    var all := ops + [op];
    assert all[|ops|] == op && forall i :: 0 <= i < |ops| ==> all[i] == ops[i];
    if Indexed(ops, k) && !Unindexes(op, k) {
      var i :| 0 <= i < |ops| && Indexes(ops[i], k) && forall j :: i < j < |ops| ==> !Unindexes(ops[j], k);
      assert Indexes(all[i], k);
    }
    if Indexed(all, k) && !Indexes(op, k) {
      var i :| 0 <= i < |all| && Indexes(all[i], k) && forall j :: i < j < |all| ==> !Unindexes(all[j], k);
      assert i < |ops| && Indexes(ops[i], k);
    }
  }

  lemma {:induction false} MergedIndex(db: Table, batch: seq<Put>, k: Blob)
    requires CK.Composite(k) && forall i :: 0 <= i < |batch| ==> !CK.Composite(batch[i].key)
    ensures k in Merged(db, batch) <==> k in db
    ensures k in db ==> Merged(db, batch)[k] == db[k]
  {
    if batch != [] { MergedIndex(db, batch[..|batch| - 1], k); }
  }

  lemma StepIndex(cfg: Config, s: Store, op: Op, k: Blob)
    requires Sound(cfg) && CK.Composite(k) && Separate(op)
    requires forall i :: 0 <= i < |s.batch| ==> !CK.Composite(s.batch[i].key)
    requires k in s.db ==> s.db[k] == EMPTY
    ensures k in Step(cfg, s, op).db <==> Indexes(op, k) || (k in s.db && !Unindexes(op, k))
    ensures k in Step(cfg, s, op).db ==> Step(cfg, s, op).db[k] == EMPTY
  {
    match op
    case Set(u, v, _) => MergedIndex(s.db, s.batch + [Put(u, v)], k);
    case Flush(_) => MergedIndex(s.db, s.batch, k);
    case _ =>
  }

  /** Over any run the database holds under composite keys exactly the entries created, or
      renamed to, and not deleted, renamed away or cleared since, each with no value; the
      batch and restarts do not touch them. */
  lemma {:induction false} IndexExactly(cfg: Config, ops: seq<Op>, k: Blob)
    requires Sound(cfg) && CK.Composite(k) && forall i :: 0 <= i < |ops| ==> Separate(ops[i])
    ensures k in Run(cfg, ops).db <==> Indexed(ops, k)
    ensures k in Run(cfg, ops).db ==> Run(cfg, ops).db[k] == EMPTY
  {
    if ops != [] {
      var n := |ops| - 1;
      var init, op := ops[..n], ops[n];
      IndexExactly(cfg, init, k);
      RunRefines(cfg, init);
      StepIndex(cfg, Run(cfg, init), op, k);
      assert ops == init + [op];
      IndexedSnoc(init, op, k);
    }
  }

  lemma StoreRunSnoc(cfg: Config, ops: seq<Op>, op: Op)
    requires cfg.cached ==> cfg.cap > 0
    ensures Run(cfg, ops + [op]) == Step(cfg, Run(cfg, ops), op)
  {
    assert (ops + [op])[..|ops|] == ops;
  }

  /** What a restart and a Clear leave, after any run: the database without the batch, and
      nothing if the Clear succeeded, */
  lemma DroppedExactly(cfg: Config, ops: seq<Op>, ok: bool, k: Blob)
    requires cfg.cached ==> cfg.cap > 0
    ensures Read(cfg, Run(cfg, ops + [Reopen]), k) == Lookup(Run(cfg, ops).db, k)
    ensures Read(cfg, Run(cfg, ops + [Clear(ok)]), k) == if ok then EMPTY else Lookup(Run(cfg, ops).db, k)
  {
    StoreRunSnoc(cfg, ops, Reopen);
    StoreRunSnoc(cfg, ops, Clear(ok));
    Uncached(cfg, ops);
  }

  /** and no later Flush brings the batch back. */
  lemma DroppedForGood(cfg: Config, ops: seq<Op>, op: Op)
    requires (cfg.cached ==> cfg.cap > 0) && (op.Reopen? || op.Clear?)
    ensures Run(cfg, ops + [op] + [Flush(true)]).db == if op == Clear(true) then map[] else Run(cfg, ops).db
  {
    FlushedAfter(cfg, ops, op);
    DropStep(cfg, Run(cfg, ops), op);
  }

  lemma DropStep(cfg: Config, s: Store, op: Op)
    requires (cfg.cached ==> cfg.cap > 0) && (op.Reopen? || op.Clear?)
    ensures var t := Step(cfg, s, op); Merged(t.db, t.batch) == if op == Clear(true) then map[] else s.db
  {
  }

  lemma FlushedAfter(cfg: Config, ops: seq<Op>, op: Op)
    requires cfg.cached ==> cfg.cap > 0
    ensures var s := Step(cfg, Run(cfg, ops), op); Run(cfg, ops + [op] + [Flush(true)]).db == Merged(s.db, s.batch)
  {
    StoreRunSnoc(cfg, ops, op);
    StoreRunSnoc(cfg, ops + [op], Flush(true));
  }

  lemma {:induction false} Uncached(cfg: Config, ops: seq<Op>)
    requires cfg.cached ==> cfg.cap > 0
    ensures !cfg.cached ==> Run(cfg, ops).cache.vals == map[]
  {
    if ops != [] { Uncached(cfg, ops[..|ops| - 1]); }
  }

  /** When puts reach the database, after any run: with a SetValue whose batch is then at
      or above the limit, or a Flush, if the write succeeds; until then they wait. */
  lemma WrittenExactly(cfg: Config, ops: seq<Op>, k: Blob, v: Blob, ok: bool)
    requires cfg.cached ==> cfg.cap > 0
    ensures var s := Run(cfg, ops); var batch := s.batch + [Put(k, v)];
      var t, u := Run(cfg, ops + [Set(k, v, ok)]), Run(cfg, ops + [Flush(ok)]);
      && (t.db, t.batch) == (if ok && cfg.limit <= cfg.size(batch) then (Merged(s.db, batch), []) else (s.db, batch))
      && (u.db, u.batch) == (if ok then (Merged(s.db, s.batch), []) else (s.db, s.batch))
  {
    StoreRunSnoc(cfg, ops, Set(k, v, ok));
    StoreRunSnoc(cfg, ops, Flush(ok));
  }

  /** GetValue returns the last written value exactly when the key has a non-empty cached
      value or its last write has reached the database. */
  lemma ReadExactly(cfg: Config, ops: seq<Op>, k: Blob)
    requires Sound(cfg) && !CK.Composite(k) && forall i :: 0 <= i < |ops| ==> Separate(ops[i])
    ensures var s, m := Run(cfg, ops), SimpleRun(cfg, ops);
      Read(cfg, s, k) == Lookup(m.last, k) <==>
        (cfg.cached && Lookup(s.cache.vals, k) != EMPTY) || Lookup(m.saved, k) == Lookup(m.last, k)
  {
    RunRefines(cfg, ops);
  }

  /** write_batch_size_ is so small that every put is written out at once. */
  ghost predicate Flushes(cfg: Config) {
    forall b: seq<Put> :: b != [] ==> cfg.size(b) >= cfg.limit
  }

  /** Every SetValue flushes and succeeds. */
  ghost predicate Flushing(cfg: Config, ops: seq<Op>) {
    && Flushes(cfg)
    && (forall i :: 0 <= i < |ops| ==> (ops[i].Set? ==> ops[i].ok) && (ops[i].Clear? ==> ops[i].ok))
  }

  /** The last value written under each key since the last Clear. */
  function LastWrite(ops: seq<Op>): Table {
    if ops == [] then map[] else
      var m := LastWrite(ops[..|ops| - 1]);
      match ops[|ops| - 1]
      case Set(k, v, _) => m[k := v]
      case Clear(_) => map[]
      case _ => m
  }

  lemma {:induction false} FlushingSaves(cfg: Config, ops: seq<Op>)
    requires Sound(cfg) && Flushing(cfg, ops)
    ensures SimpleRun(cfg, ops) == Simple(LastWrite(ops), LastWrite(ops))
  {
    if ops != [] { FlushingSaves(cfg, ops[..|ops| - 1]); }
  }

  /** When every SetValue flushes, GetValue is the simple last-write map, whatever the
      cache has evicted and however often the process restarted. */
  lemma ReadsLastWrite(cfg: Config, ops: seq<Op>, k: Blob)
    requires Sound(cfg) && Flushing(cfg, ops) && !CK.Composite(k)
    requires forall i :: 0 <= i < |ops| ==> Separate(ops[i])
    ensures Read(cfg, Run(cfg, ops), k) == Lookup(LastWrite(ops), k)
  {
    FlushingSaves(cfg, ops);
    ReadExactly(cfg, ops, k);
  }

  /** With a larger batch the promise fails as soon as the cache does not hold the key:
      here without a cache, one unflushed write of any non-empty value. */
  lemma UnflushedWriteUnread(cfg: Config, k: Blob, v: Blob)
    requires !cfg.cached && cfg.size([Put(k, v)]) < cfg.limit && v != EMPTY
    ensures var ops := [Set(k, v, true)];
      Read(cfg, Run(cfg, ops), k) == EMPTY && Lookup(SimpleRun(cfg, ops).last, k) == v
  {
    var ops := [Set(k, v, true)];
    assert ops[..0] == [];
    assert [] + [Put(k, v)] == [Put(k, v)];
  }

  // ---------------------------------------------------------------- a store that always flushes

  /** Nothing is pending and the cache repeats the database. */
  ghost predicate Settled(cfg: Config, s: Store) {
    && s.batch == []
    && (cfg.cached ==> Inv(cfg.cap, s.cache))
    && (!cfg.cached ==> s.cache.vals == map[])
    && forall k :: k in s.cache.vals ==> k in s.db && s.cache.vals[k] == s.db[k]
  }

  lemma SettledRead(cfg: Config, s: Store, k: Blob)
    requires Sound(cfg) && Settled(cfg, s)
    ensures Read(cfg, s, k) == Lookup(s.db, k)
    ensures Settled(cfg, Step(cfg, s, Get(k))) && Step(cfg, s, Get(k)).db == s.db
  {
    if cfg.cached && k in s.cache.vals { TouchKeepsInv(cfg.cap, s.cache, k); }
  }

  lemma SettledSet(cfg: Config, s: Store, k: Blob, v: Blob)
    requires Sound(cfg) && Flushes(cfg) && Settled(cfg, s)
    ensures Settled(cfg, Step(cfg, s, Set(k, v, true))) && Step(cfg, s, Set(k, v, true)).db == s.db[k := v]
    ensures Step(cfg, s, Set(k, v, false)).db == s.db
  {
    FlushedBatch(cfg, s, if cfg.cached then Stored(cfg.cap, s.cache, k, v) else s.cache, Put(k, v));
    if cfg.cached { StoredOrEvicted(cfg.cap, s.cache, k, v); }
  }

  lemma FlushedBatch(cfg: Config, s: Store, cache: Lru<Blob, Blob>, p: Put)
    requires Flushes(cfg) && s.batch == []
    ensures Batched(cfg, s, cache, p, true) == Store(s.db[p.key := p.val], [], cache)
    ensures Batched(cfg, s, cache, p, false) == Store(s.db, [p], cache)
  {
    MergedSnoc(s.db, [], p);
    assert [] + [p] == [p];
  }

  // ---------------------------------------------------------------- the class

  class ResLevelDB {
    const cfg: Config
    var db: Table
    var batch: seq<Put>
    const blockCache: LRUCache<Blob, Blob>

    ghost function View(): Store
      reads this, blockCache
    {
      Store(db, batch, blockCache.View())
    }

    ghost predicate Valid()
      reads this, blockCache
    {
      && Sound(cfg)
      && blockCache.Valid() && blockCache.none == EMPTY
      && (cfg.cached ==> blockCache.capacity == cfg.cap)
      && (!cfg.cached ==> blockCache.View() == Lru([], map[]))
    }

    constructor (cfg: Config)
      requires Sound(cfg)
      ensures Valid() && fresh(blockCache) && this.cfg == cfg
      ensures View() == Run(cfg, [])
    {
      this.cfg := cfg;
      db, batch := map[], [];
      blockCache := new LRUCache(cfg.cap, EMPTY);
    }

    /** `ok` is the status of the database write, if the batch is due. */
    method SetValue(key: Blob, value: Blob, ok: bool) returns (status: int)
      requires Valid()
      modifies this, blockCache
      ensures Valid() && View() == Step(cfg, old(View()), Set(key, value, ok))
      ensures status == if cfg.size(old(batch) + [Put(key, value)]) >= cfg.limit && !ok then -1 else 0
    {
      if cfg.cached { blockCache.Put(key, value); }
      batch := batch + [Put(key, value)];
      status := 0;
      if cfg.size(batch) >= cfg.limit {
        if ok {
          db := WriteBatch();
          batch := [];
        } else {
          status := -1;
        }
      }
    }

    /** leveldb::DB::Write: the puts in order, all at once. */
    method WriteBatch() returns (table: Table)
      ensures table == Merged(db, batch)
    {
      table := db;
      for i := 0 to |batch|
        invariant table == Merged(db, batch[..i])
      {
        assert batch[..i + 1] == batch[..i] + [batch[i]];
        MergedSnoc(db, batch[..i], batch[i]);
        table := table[batch[i].key := batch[i].val];
      }
      assert batch[..|batch|] == batch;
    }

    method GetValue(key: Blob) returns (value: Blob)
      requires Valid()
      modifies blockCache
      ensures Valid() && View() == Step(cfg, old(View()), Get(key))
      ensures value == Read(cfg, old(View()), key)
    {
      value := EMPTY;
      if cfg.cached { value := blockCache.Get(key); }
      if value == EMPTY {
        value := if key in db then db[key] else EMPTY;
      }
    }

    method FlushBatch(ok: bool) returns (done: bool)
      requires Valid()
      modifies this
      ensures Valid() && View() == Step(cfg, old(View()), Flush(ok)) && done == ok
    {
      if ok {
        db := WriteBatch();
        batch := [];
      }
      done := ok;
    }

    /** Delete every key in one batch, then forget the pending batch and the cache. The
        status of the delete is not looked at. */
    method ClearAll(ok: bool)
      requires Valid()
      modifies this, blockCache
      ensures Valid() && View() == Step(cfg, old(View()), Clear(ok))
    {
      if ok { db := map[]; }
      batch := [];
      if cfg.cached { blockCache.Flush(); }
    }

    method CreateCompositeKey(key: Blob, ok: bool) returns (status: int)
      requires Valid()
      modifies this
      ensures Valid() && View() == Step(cfg, old(View()), CreateKey(key, ok))
      ensures status == if ok then 0 else -1
    {
      if ok { db := db[key := EMPTY]; }
      status := if ok then 0 else -1;
    }

    method DeleteCompositeKey(key: Blob, ok: bool) returns (status: int)
      requires Valid()
      modifies this
      ensures Valid() && View() == Step(cfg, old(View()), DeleteKey(key, ok))
      ensures status == if ok then 0 else -1
    {
      if ok { db := db - {key}; }
      status := if ok then 0 else -1;
    }

    method UpdateCompositeKey(from: Blob, to: Blob, ok: bool) returns (status: int)
      requires Valid()
      modifies this
      ensures Valid() && View() == Step(cfg, old(View()), UpdateKey(from, to, ok))
      ensures status == if ok then 0 else -1
    {
      if ok { db := (db - {from})[to := EMPTY]; }
      status := if ok then 0 else -1;
    }
  }
}
