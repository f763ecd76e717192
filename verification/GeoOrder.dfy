/**
  `GeoGlobalExecutor`: requests keyed by (sequence, region) are executed in the
  fixed round order (1,1), (1,2), ..., (1,R), (2,1), ... .
 */
module GeoOrder {
  import opened Common

  datatype Key = Key(seqNo: nat, region: int)

  datatype Request = Request(key: Key, payload: string)

  predicate Less(a: Key, b: Key) {
    a.seqNo < b.seqNo || (a.seqNo == b.seqNo && a.region < b.region)
  }

  /** The key after k when there are `regions` regions. */
  function Succ(regions: nat, k: Key): Key {
    if k.region + 1 > regions then Key(k.seqNo + 1, 1) else Key(k.seqNo, k.region + 1)
  }

  /** The n-th key of the round order. */
  ghost function KeyAt(regions: nat, n: nat): Key {
    if n == 0 then Key(1, 1) else Succ(regions, KeyAt(regions, n - 1))
  }

  predicate OnGrid(regions: nat, k: Key) {
    1 <= k.seqNo && 1 <= k.region && (k.region <= regions || k.region == 1)
  }

  datatype Geo = Geo(pending: map<Key, Request>, executed: seq<Request>)

  ghost predicate CanPop(regions: nat, g: Geo) {
    g.pending != map[] && Least(Less, g.pending.Keys) == KeyAt(regions, |g.executed|)
  }

  ghost function Pop(regions: nat, g: Geo): Geo
    requires CanPop(regions, g)
  {
    var k := KeyAt(regions, |g.executed|);
    Geo(g.pending - {k}, g.executed + [g.pending[k]])
  }

  ghost function Drain(regions: nat, g: Geo): Geo
    decreases |g.pending|
  {
    if CanPop(regions, g) then
      var k := KeyAt(regions, |g.executed|);
      assert g.pending.Keys == (g.pending - {k}).Keys + {k};
      Drain(regions, Pop(regions, g))
    else g
  }

  ghost function Deliver(regions: nat, g: Geo, r: Request): Geo {
    Drain(regions, g.(pending := g.pending[r.key := r]))
  }

  /** The executor after receiving `ds` in this order. */
  ghost function Play(regions: nat, ds: seq<Request>): Geo {
    if ds == [] then Geo(map[], []) else
      Deliver(regions, Play(regions, ds[..|ds| - 1]), ds[|ds| - 1])
  }

  // ---------------------------------------------------------------- the round order

  lemma {:induction false} KeyAtOnGrid(regions: nat, n: nat)
    ensures OnGrid(regions, KeyAt(regions, n))
  {
    if n > 0 { KeyAtOnGrid(regions, n - 1); }
  }

  lemma {:induction false} KeyAtIncreases(regions: nat, i: nat, j: nat)
    requires i < j
    ensures Less(KeyAt(regions, i), KeyAt(regions, j))
  {
    if i < j - 1 { KeyAtIncreases(regions, i, j - 1); }
  }

  /** No grid key lies between a grid key and its successor. */
  lemma SuccIsNext(regions: nat, p: Key, k: Key)
    requires OnGrid(regions, p) && OnGrid(regions, k) && Less(p, k)
    ensures k == Succ(regions, p) || Less(Succ(regions, p), k)
  {
  }

  lemma {:induction false} KeyAtWalk(regions: nat, n: nat, j: nat)
    requires KeyAt(regions, n).region == 1 && (j == 0 || j < regions)
    ensures KeyAt(regions, n + j) == Key(KeyAt(regions, n).seqNo, 1 + j)
  {
    if j > 0 { KeyAtWalk(regions, n, j - 1); }
  }

  lemma {:induction false} KeyAtReaches(regions: nat, s: nat) returns (n: nat)
    requires s >= 1
    ensures KeyAt(regions, n) == Key(s, 1)
  {
    if s == 1 { return 0; }
    var m := KeyAtReaches(regions, s - 1);
    var j := if regions == 0 then 0 else regions - 1;
    KeyAtWalk(regions, m, j);
    n := m + j + 1;
  }

  // ---------------------------------------------------------------- all delivery orders

  /** Executed keys are the round order, pending entries sit under their own key. */
  ghost predicate Inv(regions: nat, g: Geo) {
    && (forall i :: 0 <= i < |g.executed| ==> g.executed[i].key == KeyAt(regions, i))
    && (forall k :: k in g.pending ==> g.pending[k].key == k)
  }

  ghost function Keys(rs: seq<Request>): set<Key> { set r | r in rs :: r.key }

  lemma PopMovesKey(regions: nat, g: Geo)
    requires CanPop(regions, g)
    ensures |Pop(regions, g).pending| < |g.pending|
    ensures g.pending.Keys == Pop(regions, g).pending.Keys + {KeyAt(regions, |g.executed|)}
  {
    var k := KeyAt(regions, |g.executed|);
    assert g.pending.Keys == Pop(regions, g).pending.Keys + {k};
  }

  lemma KeysSnoc(rs: seq<Request>, r: Request)
    ensures Keys(rs + [r]) == Keys(rs) + {r.key}
  {
    assert forall q :: q in rs + [r] <==> q in rs || q == r;
  }

  lemma PlaySnoc(regions: nat, ds: seq<Request>, r: Request)
    ensures Play(regions, ds + [r]) == Deliver(regions, Play(regions, ds), r)
  {
    assert (ds + [r])[..|ds|] == ds;
  }

  lemma {:induction false} DrainKeepsInv(regions: nat, g: Geo)
    requires Inv(regions, g)
    ensures Inv(regions, Drain(regions, g))
    ensures g.executed <= Drain(regions, g).executed
    ensures !CanPop(regions, Drain(regions, g))
    ensures Drain(regions, g).pending.Keys + Keys(Drain(regions, g).executed) == g.pending.Keys + Keys(g.executed)
    decreases |g.pending|
  {
    if CanPop(regions, g) {
      PopMovesKey(regions, g);
      KeysSnoc(g.executed, g.pending[KeyAt(regions, |g.executed|)]);
      DrainKeepsInv(regions, Pop(regions, g));
    }
  }

  lemma DeliverKeepsInv(regions: nat, g: Geo, r: Request)
    requires Inv(regions, g)
    ensures var h := Deliver(regions, g, r);
      && Inv(regions, h)
      && !CanPop(regions, h)
      && h.pending.Keys + Keys(h.executed) == g.pending.Keys + Keys(g.executed) + {r.key}
  {
    DrainKeepsInv(regions, g.(pending := g.pending[r.key := r]));
  }

  /** Whatever arrives, in whatever order: what is executed is a prefix of the round
      order, and every delivered key is either executed or still pending. */
  lemma {:induction false} ExecutesRoundOrder(regions: nat, ds: seq<Request>)
    ensures Inv(regions, Play(regions, ds))
    ensures !CanPop(regions, Play(regions, ds))
    ensures Play(regions, ds).pending.Keys + Keys(Play(regions, ds).executed) == Keys(ds)
  {
    if ds != [] {
      var n := |ds| - 1;
      ExecutesRoundOrder(regions, ds[..n]);
      assert ds == ds[..n] + [ds[n]];
      PlaySnoc(regions, ds[..n], ds[n]);
      KeysSnoc(ds[..n], ds[n]);
      DeliverKeepsInv(regions, Play(regions, ds[..n]), ds[n]);
    }
  }

  /** A pending key that the round order can no longer reach. */
  ghost predicate Bad(regions: nat, g: Geo, k: Key) {
    k in g.pending && (!OnGrid(regions, k) || Less(k, KeyAt(regions, |g.executed|)))
  }

  ghost predicate Clear(regions: nat, g: Geo) {
    forall k :: k in g.pending ==> !Bad(regions, g, k)
  }

  lemma {:induction false} DrainWithBad(regions: nat, g: Geo, k: Key)
    requires Inv(regions, g) && Bad(regions, g, k)
    ensures var h := Drain(regions, g);
      && Bad(regions, h, k)
      && |g.executed| <= |h.executed|
      && forall i :: |g.executed| <= i < |h.executed| ==> Less(KeyAt(regions, i), k)
    decreases |g.pending|
  {
    if CanPop(regions, g) {
      var n := |g.executed|;
      KeyAtOnGrid(regions, n);
      assert g.pending.Keys == (g.pending - {KeyAt(regions, n)}).Keys + {KeyAt(regions, n)};
      assert k != KeyAt(regions, n) && Less(KeyAt(regions, n), k);
      DrainWithBad(regions, Pop(regions, g), k);
    }
  }

  lemma DeliverWithBad(regions: nat, g: Geo, r: Request, k: Key)
    requires Inv(regions, g) && Bad(regions, g, k)
    ensures var h := Deliver(regions, g, r);
      && Bad(regions, h, k)
      && |g.executed| <= |h.executed|
      && forall i :: |g.executed| <= i < |h.executed| ==> Less(KeyAt(regions, i), k)
  {
    DrainWithBad(regions, g.(pending := g.pending[r.key := r]), k);
  }

  /** A key delivered off the grid, or below the round already reached, caps the
      executor for good: nothing at or beyond that key ever executes afterwards. */
  lemma {:induction false} BadKeyCaps(regions: nat, ds: seq<Request>, es: seq<Request>, k: Key)
    requires Bad(regions, Play(regions, ds), k)
    ensures var g, h := Play(regions, ds), Play(regions, ds + es);
      && Bad(regions, h, k)
      && |g.executed| <= |h.executed|
      && forall i :: |g.executed| <= i < |h.executed| ==> Less(KeyAt(regions, i), k)
  {
    if es == [] {
      assert ds + es == ds;
    } else {
      var n := |es| - 1;
      BadKeyCaps(regions, ds, es[..n], k);
      assert ds + es == ds + es[..n] + [es[n]];
      PlaySnoc(regions, ds + es[..n], es[n]);
      ExecutesRoundOrder(regions, ds + es[..n]);
      DeliverWithBad(regions, Play(regions, ds + es[..n]), es[n], k);
    }
  }

  lemma ClearCanPop(regions: nat, g: Geo)
    requires Clear(regions, g) && KeyAt(regions, |g.executed|) in g.pending
    ensures CanPop(regions, g)
  {
    assert !Bad(regions, g, Least(Less, g.pending.Keys));
  }

  lemma PopKeepsClear(regions: nat, g: Geo)
    requires Inv(regions, g) && Clear(regions, g) && CanPop(regions, g)
    ensures Inv(regions, Pop(regions, g)) && Clear(regions, Pop(regions, g))
  {
    var p := KeyAt(regions, |g.executed|);
    KeyAtOnGrid(regions, |g.executed|);
    forall k | k in Pop(regions, g).pending ensures !Bad(regions, Pop(regions, g), k) {
      assert !Bad(regions, g, k);
      SuccIsNext(regions, p, k);
    }
  }

  lemma {:induction false} DrainKeepsClear(regions: nat, g: Geo)
    requires Inv(regions, g) && Clear(regions, g)
    ensures Clear(regions, Drain(regions, g))
    ensures KeyAt(regions, |Drain(regions, g).executed|) !in Drain(regions, g).pending
    ensures KeyAt(regions, |g.executed|) in g.pending ==> |Drain(regions, g).executed| > |g.executed|
    decreases |g.pending|
  {
    var p := KeyAt(regions, |g.executed|);
    if p in g.pending {
      ClearCanPop(regions, g);
      PopMovesKey(regions, g);
      PopKeepsClear(regions, g);
      DrainKeepsClear(regions, Pop(regions, g));
      DrainKeepsInv(regions, Pop(regions, g));
    }
  }

  /** A grid key at or above the round reached keeps the state clear; the very next
      one also gets executed. */
  lemma DeliverKeepsClear(regions: nat, g: Geo, r: Request)
    requires Inv(regions, g) && Clear(regions, g)
    requires OnGrid(regions, r.key) && !Less(r.key, KeyAt(regions, |g.executed|))
    ensures Clear(regions, Deliver(regions, g, r))
    ensures r.key == KeyAt(regions, |g.executed|) ==> |Deliver(regions, g, r).executed| > |g.executed|
  {
    var g' := g.(pending := g.pending[r.key := r]);
    assert forall k :: k in g'.pending ==> k == r.key || !Bad(regions, g, k);
    DrainKeepsClear(regions, g');
  }

  /** Every delivered key is on the grid and was not executed before it arrived. */
  ghost predicate Clean(regions: nat, ds: seq<Request>) {
    forall i :: 0 <= i < |ds| ==> CleanAt(regions, ds, i)
  }

  ghost predicate CleanAt(regions: nat, ds: seq<Request>, i: nat)
    requires i < |ds|
  {
    OnGrid(regions, ds[i].key) && ds[i].key !in Keys(Play(regions, ds[..i]).executed)
  }

  lemma {:induction false} ExecutedBelowNext(regions: nat, g: Geo, k: Key)
    requires Inv(regions, g) && OnGrid(regions, k) && k !in Keys(g.executed)
    ensures !Less(k, KeyAt(regions, |g.executed|))
    decreases |g.executed|
  {
    var n := |g.executed|;
    if n > 0 {
      var h := g.(executed := g.executed[..n - 1]);
      assert forall r :: r in h.executed ==> r in g.executed;
      ExecutedBelowNext(regions, h, k);
      assert g.executed[n - 1] in g.executed;
      KeyAtOnGrid(regions, n - 1);
      SuccIsNextOf(regions, KeyAt(regions, n - 1), k);
    }
  }

  lemma SuccIsNextOf(regions: nat, p: Key, k: Key)
    requires OnGrid(regions, p) && OnGrid(regions, k) && !Less(k, p) && k != p
    ensures !Less(k, Succ(regions, p))
  {
    SuccIsNext(regions, p, k);
  }

  lemma {:induction false} CleanStaysClear(regions: nat, ds: seq<Request>)
    requires Clean(regions, ds)
    ensures Clear(regions, Play(regions, ds))
  {
    if ds != [] {
      var n := |ds| - 1;
      var init := ds[..n];
      forall i | 0 <= i < n ensures CleanAt(regions, init, i) {
        assert CleanAt(regions, ds, i) && init[..i] == ds[..i];
      }
      CleanStaysClear(regions, init);
      assert CleanAt(regions, ds, n);
      ExecutesRoundOrder(regions, init);
      var g := Play(regions, init);
      ExecutedBelowNext(regions, g, ds[n].key);
      DeliverKeepsClear(regions, g, ds[n]);
    }
  }

  /** With clean deliveries the executed keys are the longest delivered prefix of
      the round order. */
  lemma LongestPrefix(regions: nat, ds: seq<Request>)
    requires Clean(regions, ds)
    ensures var n := |Play(regions, ds).executed|;
      && (forall i :: 0 <= i < n ==> KeyAt(regions, i) in Keys(ds))
      && KeyAt(regions, n) !in Keys(ds)
  {
    CleanStaysClear(regions, ds);
    ExecutesRoundOrder(regions, ds);
    var g := Play(regions, ds);
    forall i | 0 <= i < |g.executed| ensures KeyAt(regions, i) in Keys(ds) {
      assert g.executed[i] in g.executed;
    }
    var p := KeyAt(regions, |g.executed|);
    if p in g.pending {
      ClearCanPop(regions, g);
      assert false;
    }
    if p in Keys(g.executed) {
      var r :| r in g.executed && r.key == p;
      var i :| 0 <= i < |g.executed| && g.executed[i] == r;
      KeyAtIncreases(regions, i, |g.executed|);
      assert false;
    }
  }

  /** Replicas that receive the same keys cleanly, in any two orders, execute the
      same keys; with one payload per key, the same requests. */
  lemma SameDeliveriesSameOrder(regions: nat, ds: seq<Request>, es: seq<Request>)
    requires Clean(regions, ds) && Clean(regions, es)
    requires forall r :: r in ds <==> r in es
    requires forall r, q :: r in ds && q in ds && r.key == q.key ==> r == q
    ensures Play(regions, ds).executed == Play(regions, es).executed
  {
    LongestPrefix(regions, ds);
    LongestPrefix(regions, es);
    assert Keys(ds) == Keys(es);
    var n, m := |Play(regions, ds).executed|, |Play(regions, es).executed|;
    assert n == m;
    forall i | 0 <= i < n ensures Play(regions, ds).executed[i] == Play(regions, es).executed[i] {
      ExecutedAt(regions, ds, i);
      ExecutedAt(regions, es, i);
    }
  }

  lemma ExecutedAt(regions: nat, ds: seq<Request>, i: nat)
    requires i < |Play(regions, ds).executed|
    ensures Play(regions, ds).executed[i] in ds
    ensures Play(regions, ds).executed[i].key == KeyAt(regions, i)
  {
    ExecutesRoundOrder(regions, ds);
    ExecutedWereDelivered(regions, ds);
    assert Play(regions, ds).executed[i] in Play(regions, ds).executed;
  }

  ghost predicate FromDelivered(g: Geo, ds: seq<Request>) {
    && (forall r :: r in g.executed ==> r in ds)
    && (forall k :: k in g.pending ==> g.pending[k] in ds)
  }

  lemma {:induction false} DrainFromDelivered(regions: nat, g: Geo, ds: seq<Request>)
    requires FromDelivered(g, ds)
    ensures FromDelivered(Drain(regions, g), ds)
    decreases |g.pending|
  {
    if CanPop(regions, g) {
      var k := KeyAt(regions, |g.executed|);
      assert g.pending.Keys == (g.pending - {k}).Keys + {k};
      DrainFromDelivered(regions, Pop(regions, g), ds);
    }
  }

  lemma {:induction false} ExecutedWereDelivered(regions: nat, ds: seq<Request>)
    ensures FromDelivered(Play(regions, ds), ds)
  {
    if ds != [] {
      var n := |ds| - 1;
      ExecutedWereDelivered(regions, ds[..n]);
      var g := Play(regions, ds[..n]);
      assert ds == ds[..n] + [ds[n]];
      DrainFromDelivered(regions, g.(pending := g.pending[ds[n].key := ds[n]]), ds);
    }
  }

  /** The latest delivery under its key. */
  ghost predicate Latest(ds: seq<Request>, r: Request) {
    exists i :: 0 <= i < |ds| && ds[i] == r && forall j :: i < j < |ds| ==> ds[j].key != r.key
  }

  lemma LatestSnoc(ds: seq<Request>, r: Request, q: Request)
    ensures Latest(ds + [r], r)
    ensures Latest(ds, q) && q.key != r.key ==> Latest(ds + [r], q)
  {
    var all := ds + [r];
    assert all[|ds|] == r;
    if Latest(ds, q) && q.key != r.key {
      var i :| 0 <= i < |ds| && ds[i] == q && forall j :: i < j < |ds| ==> ds[j].key != q.key;
      assert all[i] == q;
    }
  }

  /** Pending entries, and what was executed from position `from` on, are the latest. */
  ghost predicate AllLatest(g: Geo, ds: seq<Request>, from: nat) {
    && (forall k :: k in g.pending ==> Latest(ds, g.pending[k]))
    && (forall i :: from <= i < |g.executed| ==> Latest(ds, g.executed[i]))
  }

  lemma {:induction false} DrainLatest(regions: nat, g: Geo, ds: seq<Request>, from: nat)
    requires AllLatest(g, ds, from) && from <= |g.executed|
    ensures AllLatest(Drain(regions, g), ds, from)
    ensures g.executed <= Drain(regions, g).executed
    decreases |g.pending|
  {
    if CanPop(regions, g) {
      PopMovesKey(regions, g);
      DrainLatest(regions, Pop(regions, g), ds, from);
    }
  }

  /** A repeated delivery replaces the one that waits: what waits, and what the n-th
      delivery makes execute, is the latest delivery under its key so far. */
  lemma {:induction false} ExecutesLatest(regions: nat, ds: seq<Request>)
    ensures var done := if ds == [] then 0 else |Play(regions, ds[..|ds| - 1]).executed|;
      AllLatest(Play(regions, ds), ds, done)
    ensures ds != [] ==> Play(regions, ds[..|ds| - 1]).executed <= Play(regions, ds).executed
  {
    if ds != [] {
      var n := |ds| - 1;
      var init, r := ds[..n], ds[n];
      ExecutesLatest(regions, init);
      assert ds == init + [r];
      ExecutesRoundOrder(regions, init);
      DeliverLatest(regions, Play(regions, init), init, r);
      PlaySnoc(regions, init, r);
    }
  }

  lemma DeliverLatest(regions: nat, g: Geo, ds: seq<Request>, r: Request)
    requires forall k :: k in g.pending ==> g.pending[k].key == k && Latest(ds, g.pending[k])
    ensures AllLatest(Deliver(regions, g, r), ds + [r], |g.executed|)
    ensures g.executed <= Deliver(regions, g, r).executed
  {
    var h := g.(pending := g.pending[r.key := r]);
    forall k | k in h.pending ensures Latest(ds + [r], h.pending[k]) { LatestSnoc(ds, r, h.pending[k]); }
    DrainLatest(regions, h, ds + [r], |g.executed|);
  }

  // ---------------------------------------------------------------- when the executor jams

  /** From a clear state, delivering the next keys one by one executes them. */
  lemma {:induction false} ClearReaches(regions: nat, ds: seq<Request>, m: nat) returns (es: seq<Request>)
    requires Clear(regions, Play(regions, ds))
    ensures Clear(regions, Play(regions, ds + es))
    ensures |Play(regions, ds + es).executed| >= m
  {
    if m == 0 {
      es := [];
      assert ds + es == ds;
    } else {
      var fs := ClearReaches(regions, ds, m - 1);
      var g := Play(regions, ds + fs);
      if |g.executed| >= m { return fs; }
      var r := Request(KeyAt(regions, |g.executed|), "");
      es := fs + [r];
      assert ds + es == ds + fs + [r];
      PlaySnoc(regions, ds + fs, r);
      ExecutesRoundOrder(regions, ds + fs);
      KeyAtOnGrid(regions, |g.executed|);
      DeliverKeepsClear(regions, g, r);
    }
  }

  /** A key off the grid, or executed already, is in the way as soon as it is delivered. */
  lemma BadDelivery(regions: nat, g: Geo, r: Request)
    requires Inv(regions, g) && (!OnGrid(regions, r.key) || r.key in Keys(g.executed))
    ensures var h := Deliver(regions, g, r);
      && Bad(regions, h, r.key)
      && |g.executed| <= |h.executed|
      && forall i :: |g.executed| <= i < |h.executed| ==> Less(KeyAt(regions, i), r.key)
  {
    var h := g.(pending := g.pending[r.key := r]);
    if OnGrid(regions, r.key) {
      var j :| 0 <= j < |g.executed| && g.executed[j].key == r.key;
      KeyAtIncreases(regions, j, |g.executed|);
    }
    DrainWithBad(regions, h, r.key);
  }

  /** The deliveries were clean exactly if no pending key is off the grid or stale. */
  lemma ClearExactly(regions: nat, ds: seq<Request>)
    ensures Clear(regions, Play(regions, ds)) <==> Clean(regions, ds)
  {
    if Clean(regions, ds) {
      CleanStaysClear(regions, ds);
    } else {
      var i :| 0 <= i < |ds| && !CleanAt(regions, ds, i);
      UncleanStays(regions, ds, i);
    }
  }

  lemma UncleanStays(regions: nat, ds: seq<Request>, i: nat)
    requires i < |ds| && !CleanAt(regions, ds, i)
    ensures !Clear(regions, Play(regions, ds))
  {
    assert ds == ds[..i] + [ds[i]] + ds[i + 1..];
    BadStays(regions, ds[..i], ds[i], ds[i + 1..]);
  }

  lemma BadStays(regions: nat, ds: seq<Request>, r: Request, es: seq<Request>)
    requires !OnGrid(regions, r.key) || r.key in Keys(Play(regions, ds).executed)
    ensures var g, h := Play(regions, ds), Play(regions, ds + [r] + es);
      && Bad(regions, h, r.key)
      && |g.executed| <= |h.executed|
      && forall i :: |g.executed| <= i < |h.executed| ==> Less(KeyAt(regions, i), r.key)
  {
    ExecutesRoundOrder(regions, ds);
    BadDelivery(regions, Play(regions, ds), r);
    PlaySnoc(regions, ds, r);
    BadKeyCaps(regions, ds + [r], es, r.key);
  }

  /** The executor can still get arbitrarily far exactly when every delivery so far was on
      the grid and not of a key executed before it. */
  lemma ProgressExactly(regions: nat, ds: seq<Request>)
    ensures (forall m: nat :: Reaches(regions, ds, m)) <==> Clean(regions, ds)
  {
    ClearExactly(regions, ds);
    ProgressIfClear(regions, ds);
  }

  /** One request of region zero stops the executor for good, whatever follows. */
  lemma RegionZeroStops(regions: nat, ds: seq<Request>, payload: string, es: seq<Request>)
    ensures |Play(regions, ds + [Request(Key(1, 0), payload)] + es).executed| == |Play(regions, ds).executed|
  {
    var r := Request(Key(1, 0), payload);
    BadStays(regions, ds, r, es);
    var g, h := Play(regions, ds), Play(regions, ds + [r] + es);
    if |g.executed| < |h.executed| {
      KeyAtOnGrid(regions, |g.executed|);
      assert false;
    }
  }

  lemma ProgressIfClear(regions: nat, ds: seq<Request>)
    ensures (forall m: nat :: Reaches(regions, ds, m)) <==> Clear(regions, Play(regions, ds))
  {
    var g := Play(regions, ds);
    if Clear(regions, g) {
      forall m: nat ensures Reaches(regions, ds, m) {
        var es := ClearReaches(regions, ds, m);
      }
    } else {
      var k :| k in g.pending && Bad(regions, g, k);
      var n := KeyAtReaches(regions, k.seqNo + 1);
      var m := n + |g.executed| + 1;
      if Reaches(regions, ds, m) {
        var es :| |Play(regions, ds + es).executed| >= m;
        BadKeyCaps(regions, ds, es, k);
        var i := n + |g.executed|;
        assert Less(KeyAt(regions, i), k);
        if n < i { KeyAtIncreases(regions, n, i); }
        assert false;
      }
    }
  }

  ghost predicate Reaches(regions: nat, ds: seq<Request>, m: nat) {
    exists es :: |Play(regions, ds + es).executed| >= m
  }

  // ---------------------------------------------------------------- the ordering thread

  class GeoExecutor {
    var executeMap: map<Key, Request>
    var nextSeq: nat
    var nextRegion: int
    var executed: seq<Request>
    ghost var delivered: seq<Request>
    const regionSize: nat

    constructor (regionSize: nat)
      ensures Valid() && delivered == [] && this.regionSize == regionSize
    {
      this.regionSize := regionSize;
      executeMap, nextSeq, nextRegion, executed, delivered := map[], 1, 1, [], [];
    }

    ghost function View(): Geo
      reads this
    {
      Geo(executeMap, executed)
    }

    ghost predicate AtNext()
      reads this
    {
      Key(nextSeq, nextRegion) == KeyAt(regionSize, |executed|)
    }

    ghost predicate Valid()
      reads this
    {
      AtNext() && View() == Play(regionSize, delivered)
    }

    method GetNextMap() returns (r: Option<Request>)
      requires AtNext()
      modifies this`executeMap, this`nextSeq, this`nextRegion
      ensures r.Some? <==> old(CanPop(regionSize, View()))
      ensures r.None? ==> executeMap == old(executeMap) && nextSeq == old(nextSeq) && nextRegion == old(nextRegion)
      ensures r.Some? ==>
        && Geo(executeMap, executed + [r.value]) == Pop(regionSize, old(View()))
        && Key(nextSeq, nextRegion) == KeyAt(regionSize, |executed| + 1)
    {
      if executeMap == map[] { return None; }
      var next := Key(nextSeq, nextRegion);
      if Least(Less, executeMap.Keys) == next {
        r := Some(executeMap[next]);
        executeMap := executeMap - {next};
        nextRegion := nextRegion + 1;
        if nextRegion > regionSize {
          nextRegion := 1;
          nextSeq := nextSeq + 1;
        }
      } else {
        r := None;
      }
    }

    /** The inner loop of OrderRound: execute while the next key is first. */
    method ExecuteDue()
      requires AtNext()
      modifies this`executeMap, this`nextSeq, this`nextRegion, this`executed
      ensures AtNext() && View() == old(Drain(regionSize, View()))
    {
      while true
        invariant AtNext()
        invariant Drain(regionSize, View()) == old(Drain(regionSize, View()))
        decreases |executeMap|
      {
        ghost var before := View();
        var r := GetNextMap();
        if r.None? { break; }
        executed := executed + [r.value];
        PopMovesKey(regionSize, before);
      }
    }

    /** One turn of OrderRound: take what the queue gave, then execute what is due. */
    method OrderRound(request: Option<Request>)
      requires Valid()
      modifies this
      ensures Valid()
      ensures delivered == old(delivered) + if request.Some? then [request.value] else []
    {
      if request.Some? {
        PlaySnoc(regionSize, delivered, request.value);
        executeMap := executeMap[request.value.key := request.value];
        delivered := delivered + [request.value];
      } else {
        ExecutesRoundOrder(regionSize, delivered);
      }
      ExecuteDue();
    }
  }
}
