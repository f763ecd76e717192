/**
  The LRU cache: a recency list, a value map and a map of list iterators, refined from
  a duplicate-free recency sequence, and the inclusion of smaller caches in larger ones.
 */
module LruCache {
  import opened Common

  // ---------------------------------------------------------------- recency sequences

  function Without<K(==)>(s: seq<K>, k: K): seq<K> {
    if s == [] then []
    else if s[0] == k then Without(s[1..], k)
    else [s[0]] + Without(s[1..], k)
  }

  /** Most recently used first. */
  function Touch<K(==)>(s: seq<K>, k: K): seq<K> { [k] + Without(s, k) }

  function Keep<K(==)>(s: seq<K>, ks: set<K>): seq<K> {
    if s == [] then []
    else if s[0] in ks then [s[0]] + Keep(s[1..], ks)
    else Keep(s[1..], ks)
  }

  ghost function Set<K>(s: seq<K>): set<K> { set k | k in s }

  lemma KeepCons<K>(k: K, s: seq<K>, ks: set<K>)
    ensures Keep([k] + s, ks) == if k in ks then [k] + Keep(s, ks) else Keep(s, ks)
  {
    assert ([k] + s)[1..] == s;
  }

  lemma WithoutCons<K>(x: K, s: seq<K>, k: K)
    ensures Without([x] + s, k) == if x == k then Without(s, k) else [x] + Without(s, k)
  {
    assert ([x] + s)[1..] == s;
  }

  lemma {:induction false} WithoutIsKeep<K>(s: seq<K>, ks: set<K>, k: K)
    ensures Without(Keep(s, ks), k) == Keep(s, ks - {k})
    ensures Keep(Without(s, k), ks) == Keep(s, ks - {k})
  {
    if s != [] {
      WithoutIsKeep(s[1..], ks, k);
      WithoutCons(s[0], Keep(s[1..], ks), k);
      KeepCons(s[0], Without(s[1..], k), ks);
    }
  }

  lemma {:induction false} KeepAll<K>(s: seq<K>, ks: set<K>)
    requires forall i :: 0 <= i < |s| ==> s[i] in ks
    ensures Keep(s, ks) == s
  {
    if s != [] {
      KeepAll(s[1..], ks);
      assert s == [s[0]] + s[1..];
    }
  }

  lemma {:induction false} KeepAgrees<K>(s: seq<K>, ks: set<K>, js: set<K>)
    requires forall i :: 0 <= i < |s| ==> (s[i] in ks <==> s[i] in js)
    ensures Keep(s, ks) == Keep(s, js)
  {
    if s != [] { KeepAgrees(s[1..], ks, js); }
  }

  lemma {:induction false} KeepMembers<K>(s: seq<K>, ks: set<K>)
    ensures forall k :: k in Keep(s, ks) <==> k in s && k in ks
    ensures Distinct(s) ==> Distinct(Keep(s, ks))
  {
    if s != [] {
      KeepMembers(s[1..], ks);
      assert s == [s[0]] + s[1..];
      var rest := Keep(s[1..], ks);
      assert forall i :: 0 <= i < |rest| ==> rest[i] in rest;
      if Distinct(s) {
        assert forall i :: 0 <= i < |s| - 1 ==> s[1..][i] == s[i + 1];
        assert s[0] !in rest;
      }
    }
  }

  lemma WithoutMembers<K>(s: seq<K>, k: K)
    ensures Without(s, k) == Keep(s, Set(s) - {k})
    ensures forall j :: j in Without(s, k) <==> j in s && j != k
    ensures Distinct(s) ==> Distinct(Without(s, k))
  {
    KeepAll(s, Set(s));
    WithoutIsKeep(s, Set(s), k);
    KeepMembers(s, Set(s) - {k});
  }

  lemma WithoutLast<K>(s: seq<K>)
    requires s != [] && Distinct(s)
    ensures Without(s, s[|s| - 1]) == s[..|s| - 1]
  {
    WithoutMiddle(s, |s| - 1);
    assert s[|s|..] == [];
  }

  lemma {:induction false} WithoutMiddle<K>(s: seq<K>, i: nat)
    requires i < |s| && Distinct(s)
    ensures Without(s, s[i]) == s[..i] + s[i + 1..]
  {
    if i == 0 {
      assert s[0] !in s[1..];
      WithoutAbsent(s[1..], s[0]);
    } else {
      assert Distinct(s[1..]);
      WithoutMiddle(s[1..], i - 1);
      assert s[..i] == [s[0]] + s[1..][..i - 1];
    }
  }

  lemma {:induction false} WithoutAbsent<K>(s: seq<K>, k: K)
    requires k !in s
    ensures Without(s, k) == s
  {
    if s != [] {
      WithoutAbsent(s[1..], k);
      assert s == [s[0]] + s[1..];
    }
  }

  // ---------------------------------------------------------------- the cache as a value

  datatype Lru<K, V> = Lru(keys: seq<K>, vals: map<K, V>)

  ghost predicate Inv<K, V>(cap: nat, c: Lru<K, V>) {
    Distinct(c.keys) && Set(c.keys) == c.vals.Keys && |c.keys| <= cap
  }

  function Used<K(==), V>(c: Lru<K, V>, k: K): Lru<K, V> {
    if k in c.vals then c.(keys := Touch(c.keys, k)) else c
  }

  function Evict<K(==), V>(c: Lru<K, V>): Lru<K, V>
    requires c.keys != []
  {
    var n := |c.keys| - 1;
    Lru(c.keys[..n], c.vals - {c.keys[n]})
  }

  function Stored<K(==), V>(cap: nat, c: Lru<K, V>, k: K, v: V): Lru<K, V>
    requires cap > 0
  {
    if k in c.vals then Lru(Touch(c.keys, k), c.vals[k := v])
    else
      var d := if |c.keys| == cap then Evict(c) else c;
      Lru([k] + d.keys, d.vals[k := v])
  }

  lemma TouchSpec<K>(s: seq<K>, k: K)
    requires Distinct(s) && k in s
    ensures Distinct(Touch(s, k)) && Set(Touch(s, k)) == Set(s) && |Touch(s, k)| == |s|
  {
    WithoutMembers(s, k);
    var w := Without(s, k);
    var i :| 0 <= i < |s| && s[i] == k;
    WithoutMiddle(s, i);
    assert forall j :: 0 <= j < |w| ==> w[j] in w;
    assert forall j :: j in Touch(s, k) <==> j == k || j in w;
  }

  lemma TouchKeepsInv<K, V>(cap: nat, c: Lru<K, V>, k: K)
    requires Inv(cap, c) && k in c.vals
    ensures Inv(cap, c.(keys := Touch(c.keys, k)))
  {
    assert k in Set(c.keys);
    TouchSpec(c.keys, k);
  }

  lemma EvictKeepsInv<K, V>(cap: nat, c: Lru<K, V>)
    requires Inv(cap, c) && c.keys != []
    ensures Inv(cap, Evict(c))
    ensures Set(Evict(c).keys) == Set(c.keys) - {c.keys[|c.keys| - 1]}
  {
    SetButLast(c.keys);
  }

  lemma SetButLast<K>(s: seq<K>)
    requires Distinct(s) && s != []
    ensures var n := |s| - 1; Distinct(s[..n]) && Set(s[..n]) == Set(s) - {s[n]}
  {
    var n := |s| - 1;
    assert s == s[..n] + [s[n]];
    assert s[n] !in s[..n];
  }

  lemma PushKeepsInv<K, V>(cap: nat, c: Lru<K, V>, k: K, v: V)
    requires Inv(cap, c) && k !in c.vals && |c.keys| < cap
    ensures Inv(cap, Lru([k] + c.keys, c.vals[k := v]))
  {
    assert k !in Set(c.keys);
    assert forall i :: 0 <= i < |c.keys| ==> c.keys[i] in c.keys;
    assert forall j :: j in Set([k] + c.keys) <==> j == k || j in Set(c.keys);
  }

  lemma PutKeepsInv<K, V>(cap: nat, c: Lru<K, V>, k: K, v: V)
    requires cap > 0 && Inv(cap, c)
    ensures Inv(cap, Stored(cap, c, k, v))
  {
    if k in c.vals {
      TouchKeepsInv(cap, c, k);
      assert c.vals[k := v].Keys == c.vals.Keys;
    } else if |c.keys| == cap {
      EvictKeepsInv(cap, c);
      PushKeepsInv(cap, Evict(c), k, v);
    } else {
      PushKeepsInv(cap, c, k, v);
    }
  }

  // ---------------------------------------------------------------- inclusion

  datatype CacheOp<K, V> = OpGet(key: K) | OpPut(key: K, val: V) | OpFlush

  function CacheStep<K(==), V>(cap: nat, c: Lru<K, V>, op: CacheOp<K, V>): Lru<K, V>
    requires cap > 0
  {
    match op
    case OpGet(k) => Used(c, k)
    case OpPut(k, v) => Stored(cap, c, k, v)
    case OpFlush => Lru([], map[])
  }

  function CacheRun<K(==), V>(cap: nat, ops: seq<CacheOp<K, V>>): Lru<K, V>
    requires cap > 0
  {
    if ops == [] then Lru([], map[]) else CacheStep(cap, CacheRun(cap, ops[..|ops| - 1]), ops[|ops| - 1])
  }

  /** The small list is the large one restricted to the small one's keys, with the same
      values, and the two differ only once the small cache is full. */
  ghost predicate Included<K, V>(cap: nat, c: Lru<K, V>, d: Lru<K, V>) {
    && c.keys == Keep(d.keys, Set(c.keys))
    && (forall k :: k in c.vals ==> k in d.vals && c.vals[k] == d.vals[k])
    && (|c.keys| == cap || c.keys == d.keys)
  }

  lemma TouchBoth<K>(cs: seq<K>, ds: seq<K>, k: K)
    requires Distinct(cs) && cs == Keep(ds, Set(cs)) && k in cs
    ensures Touch(cs, k) == Keep(Touch(ds, k), Set(Touch(cs, k)))
  {
    TouchSpec(cs, k);
    WithoutIsKeep(ds, Set(cs), k);
    KeepCons(k, Without(ds, k), Set(cs));
  }

  lemma TouchLarger<K>(cs: seq<K>, ds: seq<K>, k: K)
    requires cs == Keep(ds, Set(cs)) && k !in cs
    ensures cs == Keep(Touch(ds, k), Set(cs))
  {
    WithoutIsKeep(ds, Set(cs), k);
    assert Set(cs) - {k} == Set(cs);
    KeepCons(k, Without(ds, k), Set(cs));
  }

  lemma InKeys<K, V>(cap: nat, c: Lru<K, V>, k: K)
    requires Inv(cap, c)
    ensures k in c.vals <==> k in c.keys
  {
    assert k in c.vals.Keys <==> k in Set(c.keys);
  }

  /** Touching a key that both hold, or only the larger. */
  lemma TouchIncluded<K, V>(cap: nat, dcap: nat, c: Lru<K, V>, d: Lru<K, V>, k: K)
    requires Inv(cap, c) && Inv(dcap, d) && Included(cap, c, d) && k in d.vals
    ensures Included(cap, Used(c, k), Used(d, k))
  {
    InKeys(cap, c, k);
    InKeys(dcap, d, k);
    if k in c.vals {
      TouchBoth(c.keys, d.keys, k);
      TouchSpec(c.keys, k);
    } else {
      TouchLarger(c.keys, d.keys, k);
    }
  }

  /** The small cache is full, so a new key pushes its last key out; in the larger list,
      from which at most a key outside the small one's rest is dropped, the new key is in
      front as well. */
  lemma PushIncluded<K, V>(cap: nat, c: Lru<K, V>, rest: seq<K>, dkeys: seq<K>, k: K)
    requires cap > 0 && Inv(cap, c) && |c.keys| == cap && k !in c.vals
    requires c.keys == Keep(dkeys, Set(c.keys))
    requires Keep(rest, Set(Evict(c).keys)) == Keep(dkeys, Set(Evict(c).keys))
    requires k !in rest
    ensures [k] + Evict(c).keys == Keep([k] + rest, Set([k] + Evict(c).keys))
  {
    var n := |c.keys| - 1;
    EvictKeepsInv(cap, c);
    var kept := Set(Evict(c).keys);
    WithoutIsKeep(dkeys, Set(c.keys), c.keys[n]);
    WithoutLast(c.keys);
    assert Evict(c).keys == Keep(dkeys, kept);
    assert ([k] + rest)[1..] == rest;
    KeepAgrees(rest, kept, Set([k] + Evict(c).keys));
  }

  lemma LastOfKept<K>(s: seq<K>, ks: set<K>)
    requires s != [] && s[|s| - 1] in ks
    ensures Keep(s, ks) != [] && Keep(s, ks)[|Keep(s, ks)| - 1] == s[|s| - 1]
  {
    if |s| > 1 { LastOfKept(s[1..], ks); }
  }

  lemma DropKeeps<K>(cs: seq<K>, ds: seq<K>)
    requires Distinct(ds) && cs == Keep(ds, Set(cs)) && cs != [] && ds != []
    ensures var kept := Set(cs) - {cs[|cs| - 1]};
      && ds[|ds| - 1] !in kept
      && Keep(ds[..|ds| - 1], kept) == Keep(ds, kept)
  {
    var dl, kept := ds[|ds| - 1], Set(cs) - {cs[|cs| - 1]};
    if dl in Set(cs) { LastOfKept(ds, Set(cs)); }
    assert kept - {dl} == kept;
    WithoutLast(ds);
    WithoutIsKeep(ds, kept, dl);
  }

  /** What the larger cache drops to make room, the small one has dropped too. */
  lemma RoomKeeps<K, V>(cap: nat, dcap: nat, c: Lru<K, V>, d: Lru<K, V>)
    requires Inv(cap, c) && Inv(dcap, d) && Included(cap, c, d) && c.keys != [] && d.keys != []
    ensures Keep(Evict(d).keys, Set(Evict(c).keys)) == Keep(d.keys, Set(Evict(c).keys))
    ensures forall j :: j in Evict(c).vals ==> j in Evict(d).vals
  {
    EvictKeepsInv(cap, c);
    DropKeeps(c.keys, d.keys);
    forall j | j in Evict(c).vals ensures j != d.keys[|d.keys| - 1] {
      assert j in Set(Evict(c).keys);
    }
  }

  lemma PutTouch<K, V>(cap: nat, dcap: nat, c: Lru<K, V>, d: Lru<K, V>, k: K, v: V)
    requires 0 < cap <= dcap && Inv(cap, c) && Inv(dcap, d) && Included(cap, c, d) && k in c.vals
    ensures Included(cap, Stored(cap, c, k, v), Stored(dcap, d, k, v))
  {
    TouchIncluded(cap, dcap, c, d, k);
    InKeys(cap, c, k);
    TouchSpec(c.keys, k);
  }

  lemma PutPush<K, V>(cap: nat, dcap: nat, c: Lru<K, V>, d: Lru<K, V>, k: K, v: V)
    requires 0 < cap <= dcap && Inv(cap, c) && Inv(dcap, d) && Included(cap, c, d)
    requires k !in c.vals && |c.keys| < cap
    ensures Included(cap, Stored(cap, c, k, v), Stored(dcap, d, k, v))
  {
    InKeys(cap, c, k);
    InKeys(dcap, d, k);
    KeepAll([k] + c.keys, Set([k] + c.keys));
  }

  lemma PutIncluded<K, V>(cap: nat, dcap: nat, c: Lru<K, V>, d: Lru<K, V>, k: K, v: V)
    requires 0 < cap <= dcap && Inv(cap, c) && Inv(dcap, d) && Included(cap, c, d)
    ensures Included(cap, Stored(cap, c, k, v), Stored(dcap, d, k, v))
  {
    if k in c.vals {
      PutTouch(cap, dcap, c, d, k, v);
    } else if |c.keys| < cap {
      PutPush(cap, dcap, c, d, k, v);
    } else if k in d.vals {
      FullPutTouch(cap, dcap, c, d, k, v);
    } else {
      FullPutPush(cap, dcap, c, d, k, v);
    }
  }

  lemma FullPutTouch<K, V>(cap: nat, dcap: nat, c: Lru<K, V>, d: Lru<K, V>, k: K, v: V)
    requires 0 < cap <= dcap && Inv(cap, c) && Inv(dcap, d) && Included(cap, c, d)
    requires |c.keys| == cap && k !in c.vals && k in d.vals
    ensures Included(cap, Stored(cap, c, k, v), Stored(dcap, d, k, v))
  {
    EvictKeepsInv(cap, c);
    var kept := Set(Evict(c).keys);
    WithoutIsKeep(d.keys, kept, k);
    assert kept - {k} == kept;
    WithoutMembers(d.keys, k);
    PushIncluded(cap, c, Without(d.keys, k), d.keys, k);
  }

  lemma FullPutPush<K, V>(cap: nat, dcap: nat, c: Lru<K, V>, d: Lru<K, V>, k: K, v: V)
    requires 0 < cap <= dcap && Inv(cap, c) && Inv(dcap, d) && Included(cap, c, d)
    requires |c.keys| == cap && k !in c.vals && k !in d.vals
    ensures Included(cap, Stored(cap, c, k, v), Stored(dcap, d, k, v))
  {
    var room := if |d.keys| == dcap then Evict(d) else d;
    EvictKeepsInv(cap, c);
    assert k !in Set(d.keys);
    if |d.keys| == dcap {
      EvictKeepsInv(dcap, d);
      RoomKeeps(cap, dcap, c, d);
    }
    assert k !in Set(room.keys);
    PushIncluded(cap, c, room.keys, d.keys, k);
  }

  /** Larger caches contain smaller ones: after any trace of Get, Put and Flush the key
      list at capacity c is the one at capacity d restricted to its own keys, with equal
      values; in particular every hit at c is a hit at d. */
  lemma {:induction false} LargerContainsSmaller<K, V>(cap: nat, dcap: nat, ops: seq<CacheOp<K, V>>)
    requires 0 < cap <= dcap
    ensures Inv(cap, CacheRun(cap, ops)) && Inv(dcap, CacheRun(dcap, ops))
    ensures Included(cap, CacheRun(cap, ops), CacheRun(dcap, ops))
  {
    if ops != [] {
      var n := |ops| - 1;
      LargerContainsSmaller(cap, dcap, ops[..n]);
      var c, d := CacheRun(cap, ops[..n]), CacheRun(dcap, ops[..n]);
      match ops[n]
      case OpGet(k) =>
        if k in c.vals { TouchKeepsInv(cap, c, k); }
        if k in d.vals {
          TouchKeepsInv(dcap, d, k);
          TouchIncluded(cap, dcap, c, d, k);
        }
      case OpPut(k, v) =>
        PutKeepsInv(cap, c, k, v);
        PutKeepsInv(dcap, d, k, v);
        PutIncluded(cap, dcap, c, d, k, v);
      case OpFlush =>
    }
  }

  function Hits<K(==), V>(cap: nat, ops: seq<CacheOp<K, V>>): nat
    requires cap > 0
  {
    if ops == [] then 0 else
      var n := |ops| - 1;
      Hits(cap, ops[..n]) + if ops[n].OpGet? && ops[n].key in CacheRun(cap, ops[..n]).vals then 1 else 0
  }

  lemma {:induction false} LargerHitsMore<K, V>(cap: nat, dcap: nat, ops: seq<CacheOp<K, V>>)
    requires 0 < cap <= dcap
    ensures Hits(cap, ops) <= Hits(dcap, ops)
  {
    if ops != [] {
      LargerHitsMore(cap, dcap, ops[..|ops| - 1]);
      LargerContainsSmaller(cap, dcap, ops[..|ops| - 1]);
    }
  }

  // ---------------------------------------------------------------- recency

  predicate Uses<K(==), V>(op: CacheOp<K, V>, k: K) { !op.OpFlush? && op.key == k }

  /** When a key was last got or put; -1 if never. */
  ghost function LastUse<K, V>(ops: seq<CacheOp<K, V>>, k: K): (i: int)
    ensures -1 <= i < |ops| && (i >= 0 ==> Uses(ops[i], k))
    ensures forall j :: i < j < |ops| ==> !Uses(ops[j], k)
  {
    if ops == [] then -1
    else if Uses(ops[|ops| - 1], k) then |ops| - 1
    else LastUse(ops[..|ops| - 1], k)
  }

  /** The values of `f` strictly go down along the list. */
  ghost predicate Falls<K(!new)>(f: K -> int, s: seq<K>) {
    forall i, j :: 0 <= i < j < |s| ==> f(s[i]) > f(s[j])
  }

  lemma {:induction false} WithoutFalls<K(!new)>(f: K -> int, s: seq<K>, k: K)
    requires Falls(f, s)
    ensures Falls(f, Without(s, k))
  {
    if s != [] {
      assert forall i :: 0 <= i < |s| - 1 ==> s[1..][i] == s[i + 1];
      WithoutFalls(f, s[1..], k);
      WithoutMembers(s[1..], k);
      var w := Without(s[1..], k);
      forall j | 0 <= j < |w| ensures f(s[0]) > f(w[j]) {
        assert w[j] in w;
        var i :| 0 <= i < |s[1..]| && s[1..][i] == w[j];
        assert s[i + 1] == w[j];
      }
    }
  }

  /** A newly used key goes to the front of keys that were used before. */
  lemma FrontFalls<K(!new)>(f: K -> int, g: K -> int, s: seq<K>, k: K)
    requires Falls(f, s) && forall j :: j in s ==> g(j) == f(j) && f(j) < g(k)
    ensures Falls(g, [k] + s)
  {
    assert forall i :: 0 <= i < |s| ==> s[i] in s;
  }

  ghost function LastUses<K(!new), V(!new)>(ops: seq<CacheOp<K, V>>): K -> int { (k: K) => LastUse(ops, k) }

  lemma LastUseSnoc<K, V>(ops: seq<CacheOp<K, V>>, op: CacheOp<K, V>, k: K)
    ensures LastUse(ops + [op], k) == if Uses(op, k) then |ops| else LastUse(ops, k)
  {
    assert (ops + [op])[..|ops|] == ops;
  }

  lemma CacheRunSnoc<K, V>(cap: nat, ops: seq<CacheOp<K, V>>, op: CacheOp<K, V>)
    requires cap > 0
    ensures CacheRun(cap, ops + [op]) == CacheStep(cap, CacheRun(cap, ops), op)
  {
    assert (ops + [op])[..|ops|] == ops;
  }

  /** After any trace the key list is in order of last use, the latest first. */
  lemma {:induction false} RecencyOrder<K(!new), V(!new)>(cap: nat, ops: seq<CacheOp<K, V>>)
    requires cap > 0
    ensures Falls(LastUses(ops), CacheRun(cap, ops).keys)
  {
    if ops != [] {
      var n := |ops| - 1;
      RecencyOrder(cap, ops[..n]);
      LargerContainsSmaller(cap, cap, ops[..n]);
      assert ops == ops[..n] + [ops[n]];
      StepFalls(cap, ops[..n], CacheRun(cap, ops[..n]), ops[n]);
    }
  }

  lemma StepFalls<K(!new), V(!new)>(cap: nat, ops: seq<CacheOp<K, V>>, c: Lru<K, V>, op: CacheOp<K, V>)
    requires cap > 0 && Inv(cap, c) && Falls(LastUses(ops), c.keys)
    ensures Falls(LastUses(ops + [op]), CacheStep(cap, c, op).keys)
  {
    var f, g := LastUses(ops), LastUses(ops + [op]);
    if !op.OpFlush? {
      var k := op.key;
      forall j: K ensures g(j) == if j == k then |ops| else f(j) { LastUseSnoc(ops, op, j); }
      if k in c.vals {
        TouchFalls(f, g, c.keys, k, |ops|);
      } else {
        InKeys(cap, c, k);
        SameFalls(f, g, c.keys, k, |ops|);
        if op.OpPut? { NewFalls(f, g, if |c.keys| == cap then c.keys[..cap - 1] else c.keys, k, |ops|); }
      }
    }
  }

  /** `g` is `f` but for k, which is now used at `now`. */
  ghost predicate UsedNow<K(!new)>(f: K -> int, g: K -> int, k: K, now: int) {
    forall j :: f(j) < now && g(j) == if j == k then now else f(j)
  }

  lemma TouchFalls<K(!new)>(f: K -> int, g: K -> int, s: seq<K>, k: K, now: int)
    requires Falls(f, s) && UsedNow(f, g, k, now)
    ensures Falls(g, Touch(s, k))
  {
    WithoutFalls(f, s, k);
    WithoutMembers(s, k);
    FrontFalls(f, g, Without(s, k), k);
  }

  lemma SameFalls<K(!new)>(f: K -> int, g: K -> int, s: seq<K>, k: K, now: int)
    requires Falls(f, s) && UsedNow(f, g, k, now) && k !in s
    ensures Falls(g, s)
  {
    assert forall i :: 0 <= i < |s| ==> s[i] in s;
  }

  lemma NewFalls<K(!new)>(f: K -> int, g: K -> int, s: seq<K>, k: K, now: int)
    requires Falls(f, s) && UsedNow(f, g, k, now) && k !in s
    ensures Falls(g, [k] + s)
  {
    FrontFalls(f, g, s, k);
  }

  /** After any trace a Put of a new key drops a key exactly if the cache is full, and it
      drops the one whose last use is the oldest; a Get drops and changes nothing. */
  lemma DropsLeastRecent<K(!new), V(!new)>(cap: nat, ops: seq<CacheOp<K, V>>, k: K, v: V)
    requires cap > 0
    ensures CacheRun(cap, ops + [OpGet(k)]).vals == CacheRun(cap, ops).vals
    ensures var c, d := CacheRun(cap, ops), CacheRun(cap, ops + [OpPut(k, v)]);
      if k in c.vals || |c.vals| < cap then d.vals == c.vals[k := v]
      else exists oldest :: d.vals == (c.vals - {oldest})[k := v] && IsLeast(LastUses(ops), c.vals.Keys, oldest)
  {
    LargerContainsSmaller(cap, cap, ops);
    RecencyOrder(cap, ops);
    CacheRunSnoc(cap, ops, OpGet(k));
    CacheRunSnoc(cap, ops, OpPut(k, v));
    StoredDrops(cap, CacheRun(cap, ops), k, v, LastUses(ops));
  }

  ghost predicate IsLeast<K(!new)>(f: K -> int, ks: set<K>, k: K) {
    k in ks && forall j :: j in ks && j != k ==> f(k) < f(j)
  }

  lemma StoredDrops<K(!new), V>(cap: nat, c: Lru<K, V>, k: K, v: V, f: K -> int)
    requires cap > 0 && Inv(cap, c) && Falls(f, c.keys)
    ensures var d := Stored(cap, c, k, v);
      if k in c.vals || |c.vals| < cap then d.vals == c.vals[k := v]
      else exists oldest :: d.vals == (c.vals - {oldest})[k := v] && IsLeast(f, c.vals.Keys, oldest)
  {
    CountVals(cap, c);
    if k !in c.vals && |c.keys| == cap {
      LastIsLeast(f, c.keys);
      FullDrops(cap, c, k, v);
    }
  }

  lemma CountVals<K, V>(cap: nat, c: Lru<K, V>)
    requires Inv(cap, c)
    ensures |c.vals| == |c.keys| && Set(c.keys) == c.vals.Keys
  {
    CountKeys(c.keys);
    assert |c.vals.Keys| == |c.vals|;
  }

  lemma FullDrops<K, V>(cap: nat, c: Lru<K, V>, k: K, v: V)
    requires cap > 0 && |c.keys| == cap && k !in c.vals
    ensures Stored(cap, c, k, v).vals == (c.vals - {c.keys[cap - 1]})[k := v]
  {
  }

  lemma LastIsLeast<K(!new)>(f: K -> int, s: seq<K>)
    requires s != [] && Falls(f, s)
    ensures IsLeast(f, Set(s), s[|s| - 1])
  {
    forall j | j in Set(s) && j != s[|s| - 1] ensures f(s[|s| - 1]) < f(j) {
      var i :| 0 <= i < |s| && s[i] == j;
    }
  }

  lemma {:induction false} CountKeys<K>(s: seq<K>)
    requires Distinct(s)
    ensures |Set(s)| == |s|
  {
    if s != [] {
      SetButLast(s);
      CountKeys(s[..|s| - 1]);
      assert s[|s| - 1] in Set(s);
    }
  }

  /** After any trace a cached value is the one last put under its key. */
  lemma {:induction false} HoldsLastPut<K(!new), V(!new)>(cap: nat, ops: seq<CacheOp<K, V>>, k: K)
    requires cap > 0 && k in CacheRun(cap, ops).vals
    ensures exists i :: LastPut(ops, k, i) && ops[i].val == CacheRun(cap, ops).vals[k]
  {
    var n := |ops| - 1;
    var init, op := ops[..n], ops[n];
    assert ops == init + [op];
    if op.OpPut? && op.key == k {
      assert LastPut(ops, k, n);
    } else {
      HoldsLastPut(cap, init, k);
      var i :| LastPut(init, k, i) && init[i].val == CacheRun(cap, init).vals[k];
      LastPutSnoc(init, op, k, i);
    }
  }

  ghost predicate LastPut<K, V>(ops: seq<CacheOp<K, V>>, k: K, i: int) {
    && 0 <= i < |ops| && ops[i].OpPut? && ops[i].key == k
    && forall j :: i < j < |ops| ==> !(ops[j].OpPut? && ops[j].key == k)
  }

  lemma LastPutSnoc<K, V>(ops: seq<CacheOp<K, V>>, op: CacheOp<K, V>, k: K, i: int)
    requires LastPut(ops, k, i) && !(op.OpPut? && op.key == k)
    ensures LastPut(ops + [op], k, i) && (ops + [op])[i] == ops[i]
  {
  }

  // ---------------------------------------------------------------- the class

  /** A list node; `id` stands for the iterator that stays valid while it is spliced. */
  datatype Node<K> = Node(id: nat, key: K)

  function KeysOf<K>(nodes: seq<Node<K>>): (ks: seq<K>)
    ensures |ks| == |nodes| && forall i :: 0 <= i < |ks| ==> ks[i] == nodes[i].key
  {
    seq(|nodes|, i requires 0 <= i < |nodes| => nodes[i].key)
  }

  function Shrunk<K(==), V>(c: Lru<K, V>, n: nat): Lru<K, V>
    decreases |c.keys|
  {
    if |c.keys| <= n then c else Shrunk(Evict(c), n)
  }

  lemma {:induction false} ShrinkKeepsNewest<K, V>(cap: nat, c: Lru<K, V>, n: nat)
    requires Inv(cap, c)
    ensures Inv(if |c.keys| < n then |c.keys| else n, Shrunk(c, n))
    ensures Shrunk(c, n).keys == if |c.keys| <= n then c.keys else c.keys[..n]
    ensures forall k :: k in Shrunk(c, n).vals ==> k in c.vals && Shrunk(c, n).vals[k] == c.vals[k]
    decreases |c.keys|
  {
    if |c.keys| > n {
      EvictKeepsInv(cap, c);
      ShrinkKeepsNewest(cap, Evict(c), n);
    }
  }

  /** The iterator map points every key at its own node, and nodes are distinct. */
  ghost predicate Linked<K>(nodes: seq<Node<K>>, rlookup: map<K, nat>, nextId: nat) {
    && (forall i, j :: 0 <= i < j < |nodes| ==> nodes[i].id != nodes[j].id)
    && (forall i :: 0 <= i < |nodes| ==>
          nodes[i].key in rlookup && rlookup[nodes[i].key] == nodes[i].id && nodes[i].id < nextId)
  }

  function MovedToFront<K>(nodes: seq<Node<K>>, at: nat): seq<Node<K>>
    requires at < |nodes|
  {
    [nodes[at]] + nodes[..at] + nodes[at + 1..]
  }

  lemma SpliceLinked<K>(nodes: seq<Node<K>>, rlookup: map<K, nat>, nextId: nat, at: nat)
    requires at < |nodes| && Linked(nodes, rlookup, nextId)
    ensures Linked(MovedToFront(nodes, at), rlookup, nextId)
  {
    var m := MovedToFront(nodes, at);
    assert forall i :: 0 <= i < |m| ==> m[i] == nodes[if i == 0 then at else if i <= at then i - 1 else i];
  }

  lemma SpliceTouches<K>(nodes: seq<Node<K>>, at: nat)
    requires at < |nodes| && Distinct(KeysOf(nodes))
    ensures KeysOf(MovedToFront(nodes, at)) == Touch(KeysOf(nodes), nodes[at].key)
  {
    var keys := KeysOf(nodes);
    WithoutMiddle(keys, at);
    assert KeysOf(MovedToFront(nodes, at)) == [keys[at]] + (keys[..at] + keys[at + 1..]);
  }

  lemma PopLinked<K>(nodes: seq<Node<K>>, rlookup: map<K, nat>, nextId: nat)
    requires nodes != [] && Linked(nodes, rlookup, nextId) && Distinct(KeysOf(nodes))
    ensures var n := |nodes| - 1;
      && Linked(nodes[..n], rlookup - {nodes[n].key}, nextId)
      && KeysOf(nodes[..n]) == KeysOf(nodes)[..n]
  {
    var n := |nodes| - 1;
    assert forall i :: 0 <= i < n ==> KeysOf(nodes)[i] != KeysOf(nodes)[n];
  }

  lemma PushLinked<K>(nodes: seq<Node<K>>, rlookup: map<K, nat>, nextId: nat, key: K)
    requires Linked(nodes, rlookup, nextId) && key !in KeysOf(nodes)
    ensures Linked([Node(nextId, key)] + nodes, rlookup[key := nextId], nextId + 1)
    ensures KeysOf([Node(nextId, key)] + nodes) == [key] + KeysOf(nodes)
  {
    assert forall i :: 0 <= i < |nodes| ==> KeysOf(nodes)[i] != key;
  }

  /** The list, the value map and the iterator map agree. */
  ghost predicate Coupled<K, V>(cap: nat, nodes: seq<Node<K>>, lookup: map<K, V>, rlookup: map<K, nat>, nextId: nat) {
    && Inv(cap, Lru(KeysOf(nodes), lookup))
    && rlookup.Keys == lookup.Keys
    && Linked(nodes, rlookup, nextId)
  }

  lemma EvictCoupled<K, V>(cap: nat, nodes: seq<Node<K>>, lookup: map<K, V>, rlookup: map<K, nat>, nextId: nat)
    requires Coupled(cap, nodes, lookup, rlookup, nextId) && nodes != []
    ensures var n := |nodes| - 1; var last := nodes[n].key;
      && Coupled(cap, nodes[..n], lookup - {last}, rlookup - {last}, nextId)
      && Lru(KeysOf(nodes[..n]), lookup - {last}) == Evict(Lru(KeysOf(nodes), lookup))
  {
    EvictKeepsInv(cap, Lru(KeysOf(nodes), lookup));
    PopLinked(nodes, rlookup, nextId);
  }

  lemma PushCoupled<K, V>(cap: nat, nodes: seq<Node<K>>, lookup: map<K, V>, rlookup: map<K, nat>, nextId: nat,
                          key: K, value: V)
    requires Coupled(cap, nodes, lookup, rlookup, nextId) && key !in lookup && |nodes| < cap
    ensures Coupled(cap, [Node(nextId, key)] + nodes, lookup[key := value], rlookup[key := nextId], nextId + 1)
    ensures KeysOf([Node(nextId, key)] + nodes) == [key] + KeysOf(nodes)
  {
    var c := Lru(KeysOf(nodes), lookup);
    PushKeepsInv(cap, c, key, value);
    InKeys(cap, c, key);
    PushLinked(nodes, rlookup, nextId, key);
  }

  lemma OverwriteCoupled<K, V>(cap: nat, nodes: seq<Node<K>>, lookup: map<K, V>, rlookup: map<K, nat>, nextId: nat,
                               key: K, value: V)
    requires Coupled(cap, nodes, lookup, rlookup, nextId) && key in lookup
    ensures Coupled(cap, nodes, lookup[key := value], rlookup, nextId)
  {
    assert lookup[key := value].Keys == lookup.Keys;
  }

  lemma SpliceCoupled<K, V>(cap: nat, nodes: seq<Node<K>>, lookup: map<K, V>, rlookup: map<K, nat>, nextId: nat,
                            at: nat)
    requires Coupled(cap, nodes, lookup, rlookup, nextId) && at < |nodes|
    ensures Coupled(cap, MovedToFront(nodes, at), lookup, rlookup, nextId)
    ensures KeysOf(MovedToFront(nodes, at)) == Touch(KeysOf(nodes), nodes[at].key)
  {
    SpliceLinked(nodes, rlookup, nextId, at);
    SpliceTouches(nodes, at);
    assert KeysOf(nodes)[at] in KeysOf(nodes);
    TouchSpec(KeysOf(nodes), nodes[at].key);
  }

  class LRUCache<K(==), V> {
    var capacity: nat
    var hits: nat
    var misses: nat
    var keyList: seq<Node<K>>
    var lookup: map<K, V>
    var rlookup: map<K, nat>
    var nextId: nat
    const none: V

    ghost function View(): Lru<K, V>
      reads this
    {
      Lru(KeysOf(keyList), lookup)
    }

    ghost predicate Valid()
      reads this
    {
      Coupled(capacity, keyList, lookup, rlookup, nextId)
    }

    constructor (capacity: nat, none: V)
      ensures Valid() && View() == Lru([], map[]) && this.capacity == capacity && this.none == none
      ensures hits == 0 && misses == 0
    {
      this.capacity, this.none := capacity, none;
      hits, misses, keyList, lookup, rlookup, nextId := 0, 0, [], map[], map[], 0;
    }

    /** list::splice of one node to the front, found through its iterator. */
    method Splice(id: nat, ghost at: nat)
      requires Valid() && at < |keyList| && keyList[at].id == id
      modifies this`keyList
      ensures Valid()
      ensures KeysOf(keyList) == Touch(old(KeysOf(keyList)), old(keyList[at].key))
    {
      var i := FindNode(id, at);
      SpliceCoupled(capacity, keyList, lookup, rlookup, nextId, i);
      keyList := MovedToFront(keyList, i);
    }

    method FindNode(id: nat, ghost at: nat) returns (i: nat)
      requires Linked(keyList, rlookup, nextId) && at < |keyList| && keyList[at].id == id
      ensures i == at
    {
      i := 0;
      while keyList[i].id != id
        invariant 0 <= i <= at
        decreases at - i
      {
        i := i + 1;
      }
    }

    lemma NodeOf(k: K) returns (i: nat)
      requires Valid() && k in lookup
      ensures i < |keyList| && keyList[i].key == k && k in rlookup && keyList[i].id == rlookup[k]
    {
      assert k in Set(KeysOf(keyList));
      i :| 0 <= i < |keyList| && KeysOf(keyList)[i] == k;
    }

    method Use(key: K)
      requires Valid() && key in lookup
      modifies this`keyList
      ensures Valid() && View() == Used(old(View()), key)
    {
      ghost var at := NodeOf(key);
      Splice(rlookup[key], at);
    }

    method Get(key: K) returns (value: V)
      requires Valid()
      modifies this`keyList, this`hits, this`misses
      ensures Valid() && View() == Used(old(View()), key)
      ensures value == if key in lookup then lookup[key] else none
      ensures hits == old(hits) + (if key in lookup then 1 else 0)
      ensures misses == old(misses) + (if key in lookup then 0 else 1)
    {
      if key in lookup {
        value := Hit(key);
      } else {
        misses := misses + 1;
        value := none;
      }
    }

    method Hit(key: K) returns (value: V)
      requires Valid() && key in lookup
      modifies this`keyList, this`hits
      ensures Valid() && View() == Used(old(View()), key) && value == lookup[key] && hits == old(hits) + 1
    {
      Use(key);
      hits := hits + 1;
      value := lookup[key];
    }

    /** Drop the least recently used key from the list and both maps. */
    method EvictLast()
      requires Valid() && keyList != []
      modifies this`keyList, this`lookup, this`rlookup
      ensures Valid() && View() == Evict(old(View()))
    {
      EvictCoupled(capacity, keyList, lookup, rlookup, nextId);
      var n := |keyList| - 1;
      var last := keyList[n].key;
      keyList := keyList[..n];
      lookup := lookup - {last};
      rlookup := rlookup - {last};
    }

    /** A capacity of zero would take the back of an empty list. */
    method Put(key: K, value: V)
      requires Valid() && capacity > 0
      modifies this`keyList, this`lookup, this`rlookup, this`nextId
      ensures Valid() && View() == Stored(capacity, old(View()), key, value)
    {
      if key !in lookup {
        if |keyList| == capacity { EvictLast(); }
        PushNode(key, value);
      } else {
        Use(key);
        OverwriteCoupled(capacity, keyList, lookup, rlookup, nextId, key, value);
        lookup := lookup[key := value];
      }
    }

    method PushNode(key: K, value: V)
      requires Valid() && key !in lookup && |keyList| < capacity
      modifies this`keyList, this`lookup, this`rlookup, this`nextId
      ensures Valid()
      ensures View() == Lru([key] + old(View()).keys, old(View()).vals[key := value])
    {
      PushCoupled(capacity, keyList, lookup, rlookup, nextId, key, value);
      keyList := [Node(nextId, key)] + keyList;
      rlookup := rlookup[key := nextId];
      lookup := lookup[key := value];
      nextId := nextId + 1;
    }

    method SetCapacity(newCapacity: nat)
      requires Valid()
      modifies this
      ensures Valid() && capacity == newCapacity && View() == Shrunk(old(View()), newCapacity)
      ensures hits == old(hits) && misses == old(misses)
    {
      if newCapacity < capacity { ShrinkTo(newCapacity); }
      capacity := newCapacity;
    }

    method ShrinkTo(n: nat)
      requires Valid() && n <= capacity
      modifies this`keyList, this`lookup, this`rlookup
      ensures Valid() && |keyList| <= n && View() == Shrunk(old(View()), n)
    {
      while |keyList| > n
        invariant Valid() && Shrunk(View(), n) == Shrunk(old(View()), n)
        decreases |keyList|
      {
        EvictLast();
      }
    }

    method Flush()
      modifies this
      ensures Valid() && View() == Lru([], map[]) && capacity == old(capacity)
      ensures hits == 0 && misses == 0
    {
      lookup, keyList, rlookup := map[], [], map[];
      hits, misses := 0, 0;
    }
  }
}
