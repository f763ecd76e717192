/**
  `DuplicateManager`: the set of recently executed hashes, the queue that remembers
  when each was added, and the sweep that forgets them after the window. The
  proposed-hash half is the same without the sequence map.
 */
module DuplicateWindow {

  const WINDOW := 20_000_000

  datatype Hash = Hash(digest: string)

  datatype Entry = Entry(hash: Hash, time: nat)

  datatype Recent = Recent(hashes: set<Hash>, seqOf: map<Hash, nat>, queue: seq<Entry>)

  /** One locked section each, with the clock reading it made. `Evict` is one turn of
      the sweep's loop; `time` is the sweep's own deadline, which has passed by then. */
  datatype Event =
    | Check(hash: Hash, seqNo: nat, now: nat)  // CheckAndAddExecuted
    | Push(hash: Hash, seqNo: nat, now: nat)   // AddExecuted
    | Evict(time: nat, now: nat)

  function Add(d: Recent, hash: Hash, seqNo: nat, now: nat): Recent {
    Recent(d.hashes + {hash}, d.seqOf[hash := seqNo], d.queue + [Entry(hash, now)])
  }

  predicate Expired(d: Recent, time: nat) {
    d.queue != [] && d.queue[0].time + WINDOW < time
  }

  function DropFront(d: Recent): Recent
    requires d.queue != []
  {
    var h := d.queue[0].hash;
    Recent(d.hashes - {h}, d.seqOf - {h}, d.queue[1..])
  }

  function Step(d: Recent, e: Event): Recent {
    match e
    case Check(h, s, now) => if h in d.hashes then d else Add(d, h, s, now)
    case Push(h, s, now) => Add(d, h, s, now)
    case Evict(time, _) => if Expired(d, time) then DropFront(d) else d
  }

  function Replay(es: seq<Event>): Recent {
    if es == [] then Recent({}, map[], []) else Step(Replay(es[..|es| - 1]), es[|es| - 1])
  }

  /** The clock never goes back, and a sweep sleeps until its deadline has passed. */
  ghost predicate Timed(es: seq<Event>) {
    && (forall i, j :: 0 <= i < j < |es| ==> es[i].now <= es[j].now)
    && (forall i :: 0 <= i < |es| && es[i].Evict? ==> es[i].time <= es[i].now)
  }

  /** No unchecked addition. */
  ghost predicate Checked(es: seq<Event>) {
    forall i :: 0 <= i < |es| ==> !es[i].Push?
  }

  ghost predicate Accepted(es: seq<Event>, i: nat)
    requires i < |es|
  {
    es[i].Check? && es[i].hash !in Replay(es[..i]).hashes
  }

  ghost function Hashes(q: seq<Entry>): set<Hash> { set e | e in q :: e.hash }

  ghost predicate Rising(q: seq<Entry>) {
    forall i, j :: 0 <= i < j < |q| ==> q[i].time <= q[j].time
  }

  /** Oldest first, and no hash twice. */
  ghost predicate Ordered(q: seq<Entry>) {
    forall i, j :: 0 <= i < j < |q| ==> q[i].time <= q[j].time && q[i].hash != q[j].hash
  }

  ghost predicate Inv(d: Recent) {
    Ordered(d.queue) && d.hashes == Hashes(d.queue) && d.seqOf.Keys == d.hashes
  }

  lemma HashesSplit(p: seq<Entry>, q: seq<Entry>)
    ensures Hashes(p + q) == Hashes(p) + Hashes(q)
  {
    assert forall e :: e in p + q <==> e in p || e in q;
  }

  lemma HashesOne(e: Entry)
    ensures Hashes([e]) == {e.hash}
  {
    assert e in [e];
  }

  lemma HashIn(q: seq<Entry>, e: Entry)
    requires e in q
    ensures e.hash in Hashes(q)
  {
  }

  lemma DropFrontKeepsInv(d: Recent)
    requires Inv(d) && d.queue != []
    ensures Inv(DropFront(d))
  {
    var front, rest := d.queue[0], d.queue[1..];
    assert d.queue == [front] + rest;
    HashesSplit([front], rest);
    HashesOne(front);
    FrontIsDistinct(d.queue);
  }

  lemma FrontIsDistinct(q: seq<Entry>)
    requires Ordered(q) && q != []
    ensures Ordered(q[1..]) && q[0].hash !in Hashes(q[1..])
  {
    assert forall i :: 0 <= i < |q| - 1 ==> q[1..][i] == q[i + 1];
  }

  lemma OrderedSnoc(q: seq<Entry>, e: Entry)
    requires Ordered(q) && e.hash !in Hashes(q)
    requires forall f :: f in q ==> f.time <= e.time
    ensures Ordered(q + [e])
  {
    assert forall i :: 0 <= i < |q| ==> q[i] in q;
  }

  lemma AddKeepsInv(d: Recent, hash: Hash, seqNo: nat, now: nat)
    requires Inv(d) && hash !in d.hashes
    requires forall e :: e in d.queue ==> e.time <= now
    ensures Inv(Add(d, hash, seqNo, now))
  {
    OrderedSnoc(d.queue, Entry(hash, now));
    HashesSplit(d.queue, [Entry(hash, now)]);
    HashesOne(Entry(hash, now));
  }

  /** In every reachable state, whatever was added unchecked, the queue is sorted by time,
      every known hash is in it and has its sequence number. */
  lemma {:induction false} ReplayRises(es: seq<Event>, now: nat)
    requires Timed(es) && forall i :: 0 <= i < |es| ==> es[i].now <= now
    ensures var d := Replay(es); Rising(d.queue) && d.hashes <= Hashes(d.queue) && d.seqOf.Keys == d.hashes
    ensures forall e :: e in Replay(es).queue ==> e.time <= now
  {
    if es != [] {
      var n := |es| - 1;
      ReplayRises(es[..n], es[n].now);
      var d := Replay(es[..n]);
      match es[n]
      case Check(h, s, t) => if h !in d.hashes { AddRises(d, h, s, t); }
      case Push(h, s, t) => AddRises(d, h, s, t);
      case Evict(time, _) => if Expired(d, time) { DropRises(d); }
    }
  }

  lemma AddRises(d: Recent, hash: Hash, seqNo: nat, now: nat)
    requires Rising(d.queue) && d.hashes <= Hashes(d.queue) && forall e :: e in d.queue ==> e.time <= now
    ensures Rising(Add(d, hash, seqNo, now).queue) && Add(d, hash, seqNo, now).hashes <= Hashes(d.queue + [Entry(hash, now)])
    ensures forall e :: e in d.queue + [Entry(hash, now)] ==> e.time <= now
  {
    assert forall i :: 0 <= i < |d.queue| ==> d.queue[i] in d.queue;
    HashesSplit(d.queue, [Entry(hash, now)]);
    HashesOne(Entry(hash, now));
  }

  lemma DropRises(d: Recent)
    requires Rising(d.queue) && d.hashes <= Hashes(d.queue) && d.queue != []
    ensures Rising(DropFront(d).queue) && DropFront(d).hashes <= Hashes(DropFront(d).queue)
    ensures forall e :: e in d.queue[1..] ==> e in d.queue
  {
    var front, rest := d.queue[0], d.queue[1..];
    assert d.queue == [front] + rest;
    HashesSplit([front], rest);
    HashesOne(front);
  }

  /** Without unchecked additions the queue is also duplicate-free and its hashes are
      exactly the set. */
  lemma {:induction false} ReplayKeepsInv(es: seq<Event>, now: nat)
    requires Timed(es) && Checked(es) && forall i :: 0 <= i < |es| ==> es[i].now <= now
    ensures Inv(Replay(es))
    ensures forall e :: e in Replay(es).queue ==> e.time <= now
  {
    if es != [] {
      var n := |es| - 1;
      ReplayKeepsInv(es[..n], es[n].now);
      var d := Replay(es[..n]);
      match es[n]
      case Check(h, s, t) => if h !in d.hashes { AddKeepsInv(d, h, s, t); }
      case Evict(time, _) => if Expired(d, time) { DropFrontKeepsInv(d); }
    }
  }

  /** An accepted hash stays in the queue until the clock is past its window. */
  lemma {:induction false} AcceptedStays(es: seq<Event>, i: nat, k: nat)
    requires Timed(es) && Checked(es) && i < k <= |es| && Accepted(es, i)
    ensures Entry(es[i].hash, es[i].now) in Replay(es[..k]).queue || es[i].now + WINDOW < es[k - 1].now
    decreases k
  {
    assert es[..k][..k - 1] == es[..k - 1];
    var e := Entry(es[i].hash, es[i].now);
    var d := Replay(es[..k - 1]);
    assert Replay(es[..k]) == Step(d, es[k - 1]);
    if k == i + 1 {
      assert Replay(es[..k]).queue[|d.queue|] == e;
    } else {
      AcceptedStays(es, i, k - 1);
      if e in d.queue {
        var q :| 0 <= q < |d.queue| && d.queue[q] == e;
        match es[k - 1]
        case Check(h, s, t) =>
          if h !in d.hashes { assert Replay(es[..k]).queue[q] == e; }
        case Evict(time, _) =>
          if Expired(d, time) && q > 0 { assert Replay(es[..k]).queue[q - 1] == e; }
      }
    }
  }

  /** Two acceptances of the same hash are always more than the window apart. */
  lemma AcceptancesApart(es: seq<Event>, i: nat, j: nat)
    requires Timed(es) && Checked(es) && i < j < |es|
    requires Accepted(es, i) && Accepted(es, j) && es[i].hash == es[j].hash
    ensures es[i].now + WINDOW < es[j].now
  {
    AcceptedStays(es, i, j);
    var d := Replay(es[..j]);
    ReplayKeepsInv(es[..j], es[j].now);
    var e := Entry(es[i].hash, es[i].now);
    if e in d.queue {
      HashIn(d.queue, e);
      assert false;
    }
  }

  /** The i-th event adds this hash: unchecked, or checked and not known. */
  ghost predicate Adds(es: seq<Event>, h: Hash, i: int) {
    && 0 <= i < |es| && !es[i].Evict? && es[i].hash == h
    && (es[i].Push? || h !in Replay(es[..i]).hashes)
  }

  ghost predicate LastAdd(es: seq<Event>, h: Hash, i: int) {
    Adds(es, h, i) && forall j :: i < j < |es| ==> !Adds(es, h, j)
  }

  lemma AddsSnoc(es: seq<Event>, e: Event, h: Hash, i: int)
    requires i < |es|
    ensures Adds(es + [e], h, i) <==> Adds(es, h, i)
  {
    if 0 <= i { assert (es + [e])[..i] == es[..i] && (es + [e])[i] == es[i]; }
  }

  /** The sequence number kept for a known hash is that of its latest addition. */
  lemma {:induction false} SeqOfExactly(es: seq<Event>, h: Hash)
    requires h in Replay(es).seqOf
    ensures exists i :: LastAdd(es, h, i) && es[i].seqNo == Replay(es).seqOf[h]
  {
    if es != [] {
      var n := |es| - 1;
      var init := es[..n];
      assert es == init + [es[n]];
      if Adds(es, h, n) {
        assert LastAdd(es, h, n);
      } else {
        SeqOfExactly(init, h);
        var i :| LastAdd(init, h, i) && init[i].seqNo == Replay(init).seqOf[h];
        forall j | j < n ensures Adds(es, h, j) <==> Adds(init, h, j) { AddsSnoc(init, es[n], h, j); }
        assert LastAdd(es, h, i);
      }
    }
  }

  // ---------------------------------------------------------------- the sweep

  function SweepOf(d: Recent, time: nat): Recent
    decreases |d.queue|
  {
    if Expired(d, time) then SweepOf(DropFront(d), time) else d
  }

  /** A sweep forgets exactly the entries whose window has run out. */
  lemma {:induction false} SweepExactly(d: Recent, time: nat)
    requires Inv(d)
    ensures Inv(SweepOf(d, time))
    ensures forall e :: e in SweepOf(d, time).queue <==> e in d.queue && time <= e.time + WINDOW
    decreases |d.queue|
  {
    if Expired(d, time) {
      DropFrontKeepsInv(d);
      SweepExactly(DropFront(d), time);
      DropFrontMembers(d.queue);
    } else {
      forall e | e in d.queue ensures time <= e.time + WINDOW { FrontIsOldest(d.queue, e); }
    }
  }

  lemma DropFrontMembers(q: seq<Entry>)
    requires q != []
    ensures forall e :: e in q <==> e == q[0] || e in q[1..]
  {
    assert q == [q[0]] + q[1..];
  }

  lemma FrontIsOldest(q: seq<Entry>, e: Entry)
    requires Rising(q) && e in q
    ensures q[0].time <= e.time
  {
    var i :| 0 <= i < |q| && q[i] == e;
  }

  /** and the sequence numbers of those that remain are untouched. */
  lemma {:induction false} SweepKeepsSeqs(d: Recent, time: nat)
    ensures forall h :: h in SweepOf(d, time).seqOf ==> h in d.seqOf && SweepOf(d, time).seqOf[h] == d.seqOf[h]
    decreases |d.queue|
  {
    if Expired(d, time) { SweepKeepsSeqs(DropFront(d), time); }
  }

  /** Whatever was added unchecked: after a sweep a hash is still known exactly if it was
      and none of its entries has run out. A hash added again is therefore forgotten with
      its oldest entry, however fresh the newest is. */
  lemma {:induction false} KnownExactly(d: Recent, time: nat, h: Hash)
    requires Rising(d.queue)
    ensures h in SweepOf(d, time).hashes <==>
      h in d.hashes && forall e :: e in d.queue && e.hash == h ==> time <= e.time + WINDOW
    decreases |d.queue|
  {
    if Expired(d, time) {
      DropFrontMembers(d.queue);
      if h == d.queue[0].hash {
        SweepOnlyForgets(DropFront(d), time);
      } else {
        KnownExactly(DropFront(d), time, h);
      }
    } else {
      forall e | e in d.queue ensures time <= e.time + WINDOW { FrontIsOldest(d.queue, e); }
    }
  }

  /** For instance a hash added at t0 and again at t1 is forgotten by t0's window. */
  lemma ReAddForgetsEarly(h: Hash, s0: nat, s1: nat, t0: nat, t1: nat, time: nat)
    requires t0 <= t1
    ensures h in SweepOf(Replay([Push(h, s0, t0), Push(h, s1, t1)]), time).hashes <==> time <= t0 + 20_000_000
  {
    var es := [Push(h, s0, t0), Push(h, s1, t1)];
    assert es[..1] == [Push(h, s0, t0)] && es[..1][..0] == [];
    assert Replay(es[..1]) == Add(Recent({}, map[], []), h, s0, t0);
    var d := Replay(es);
    assert d == Add(Replay(es[..1]), h, s1, t1);
    assert d.queue == [Entry(h, t0), Entry(h, t1)];
    assert d.queue[0] in d.queue;
    KnownExactly(d, time, h);
  }

  lemma {:induction false} SweepOnlyForgets(d: Recent, time: nat)
    ensures SweepOf(d, time).hashes <= d.hashes
    decreases |d.queue|
  {
    if Expired(d, time) { SweepOnlyForgets(DropFront(d), time); }
  }

  class DuplicateManager {
    var hashes: set<Hash>
    var seqOf: map<Hash, nat>
    var queue: seq<Entry>

    constructor ()
      ensures View() == Recent({}, map[], [])
    {
      hashes, seqOf, queue := {}, map[], [];
    }

    ghost function View(): Recent
      reads this
    {
      Recent(hashes, seqOf, queue)
    }

    method CheckAndAddExecuted(hash: Hash, seqNo: nat, now: nat) returns (duplicate: bool)
      modifies this
      ensures duplicate <==> hash in old(hashes)
      ensures View() == Step(old(View()), Check(hash, seqNo, now))
    {
      if hash in hashes { return true; }
      queue := queue + [Entry(hash, now)];
      hashes := hashes + {hash};
      seqOf := seqOf[hash := seqNo];
      duplicate := false;
    }

    method AddExecuted(hash: Hash, seqNo: nat, now: nat)
      modifies this
      ensures View() == Step(old(View()), Push(hash, seqNo, now))
    {
      queue := queue + [Entry(hash, now)];
      hashes := hashes + {hash};
      seqOf := seqOf[hash := seqNo];
    }

    /** The sequence a known hash was executed at, else zero. */
    method CheckIfExecuted(hash: Hash) returns (seqNo: nat)
      requires seqOf.Keys == hashes
      ensures hash in hashes ==> seqNo == seqOf[hash]
      ensures hash !in hashes ==> seqNo == 0
    {
      if hash in hashes {
        seqNo := seqOf[hash];
      } else {
        seqNo := 0;
      }
    }

    /** The sweep of UpdateRecentHash for one deadline. */
    method Sweep(time: nat)
      modifies this
      ensures View() == SweepOf(old(View()), time)
    {
      while queue != [] && queue[0].time + WINDOW < time
        invariant SweepOf(View(), time) == SweepOf(old(View()), time)
        decreases |queue|
      {
        var it := queue[0];
        queue := queue[1..];
        hashes := hashes - {it.hash};
        seqOf := seqOf - {it.hash};
      }
    }
  }
}
