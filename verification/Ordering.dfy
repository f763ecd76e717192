/**
  The ordering thread of `TransactionExecutor`: it turns commits that arrive out
  of order, with gaps and with duplicates, into the gap-free stream that the
  workers of WorkerRing consume.
 */
module Ordering {
  import opened Common
  import opened WorkerRing

  /** The first message that carried sequence number k. */
  ghost function FirstArrival(arrivals: seq<Request>, k: nat): Option<Request> {
    if arrivals == [] then None else
      var last := arrivals[|arrivals| - 1];
      match FirstArrival(arrivals[..|arrivals| - 1], k)
      case Some(r) => Some(r)
      case None => if last.seqNo == k then Some(last) else None
  }

  ghost function Arrived(arrivals: seq<Request>): set<nat> {
    set r | r in arrivals :: r.seqNo
  }

  /** The end of the maximal run of consecutive members of `arrived` from `start`. */
  ghost function RunEnd(arrived: set<nat>, start: nat): nat
    decreases arrived
  {
    if start in arrived then RunEnd(arrived - {start}, start + 1) else start
  }

  /** What the execution queue must hold after a drain. */
  ghost function Expected(arrivals: seq<Request>, start: nat): (stream: seq<Request>) {
    seq(Monus(RunEnd(Arrived(arrivals), start), start), i requires 0 <= i =>
      match FirstArrival(arrivals, start + i)
      case Some(r) => r
      case None => Request(start + i, false, ""))
  }

  function Monus(a: nat, b: nat): nat { if a < b then 0 else a - b }

  // ---------------------------------------------------------------- specification laws

  /** The request at `i` is the first with its sequence number. */
  ghost predicate IsFirst(arrivals: seq<Request>, k: nat, i: nat) {
    i < |arrivals| && arrivals[i].seqNo == k && forall j :: 0 <= j < i ==> arrivals[j].seqNo != k
  }

  lemma {:induction false} FirstArrivalSpec(arrivals: seq<Request>, k: nat)
    ensures FirstArrival(arrivals, k).Some? <==> k in Arrived(arrivals)
    ensures FirstArrival(arrivals, k).Some? ==>
      exists i: nat :: IsFirst(arrivals, k, i) && arrivals[i] == FirstArrival(arrivals, k).value
  {
    if arrivals != [] {
      var n := |arrivals| - 1;
      var init := arrivals[..n];
      FirstArrivalSpec(init, k);
      assert arrivals == init + [arrivals[n]];
      ArrivedSnoc(init, arrivals[n]);
      if FirstArrival(init, k).Some? {
        var i: nat :| IsFirst(init, k, i) && init[i] == FirstArrival(init, k).value;
        assert IsFirst(arrivals, k, i);
      } else if arrivals[n].seqNo == k {
        assert forall j :: 0 <= j < n ==> init[j].seqNo in Arrived(init);
        assert IsFirst(arrivals, k, n);
      }
    }
  }

  lemma ArrivedSnoc(arrivals: seq<Request>, m: Request)
    ensures Arrived(arrivals + [m]) == Arrived(arrivals) + {m.seqNo}
  {
    assert m in arrivals + [m];
  }

  /** RunEnd is the least number from `start` on that has not arrived. */
  lemma {:induction false} RunEndSpec(arrived: set<nat>, start: nat, end: nat)
    requires start <= end && end !in arrived
    requires forall k: nat :: start <= k < end ==> k in arrived
    ensures RunEnd(arrived, start) == end
    decreases end - start
  {
    if start < end {
      RunEndSpec(arrived - {start}, start + 1, end);
    }
  }

  lemma {:induction false} RunEndBounds(arrived: set<nat>, start: nat)
    ensures start <= RunEnd(arrived, start) && RunEnd(arrived, start) !in arrived
    ensures forall k: nat :: start <= k < RunEnd(arrived, start) ==> k in arrived
    decreases arrived
  {
    if start in arrived {
      RunEndBounds(arrived - {start}, start + 1);
    }
  }

  /** Replicas that receive the same commits, in whatever order and however often,
      as long as a sequence number always carries the same request, push the same
      stream. */
  lemma SameCommitsSameStream(as1: seq<Request>, as2: seq<Request>, start: nat)
    requires forall r :: r in as1 <==> r in as2
    requires forall r, q :: r in as1 && q in as1 && r.seqNo == q.seqNo ==> r == q
    ensures Expected(as1, start) == Expected(as2, start)
  {
    assert Arrived(as1) == Arrived(as2);
    RunEndBounds(Arrived(as1), start);
    var s1, s2 := Expected(as1, start), Expected(as2, start);
    forall i | 0 <= i < |s1| ensures s1[i] == s2[i] {
      FirstArrivalSpec(as1, start + i);
      FirstArrivalSpec(as2, start + i);
    }
  }

  /** The pushed stream is one the workers accept: consecutive from `start`. */
  lemma ExpectedIsContiguous(arrivals: seq<Request>, start: nat)
    ensures forall i :: 0 <= i < |Expected(arrivals, start)| ==> Expected(arrivals, start)[i].seqNo == start + i
  {
    RunEndBounds(Arrived(arrivals), start);
    forall i | 0 <= i < |Expected(arrivals, start)|
      ensures Expected(arrivals, start)[i].seqNo == start + i
    {
      FirstArrivalSpec(arrivals, start + i);
    }
  }

  /** The first arrivals with n sequence numbers from `start` on. */
  ghost predicate FirstOf(arrivals: seq<Request>, start: nat, n: nat, r: Request) {
    start <= r.seqNo < start + n && exists j: nat :: IsFirst(arrivals, r.seqNo, j) && arrivals[j] == r
  }

  lemma ExpectedFromArrivals(arrivals: seq<Request>, start: nat, n: nat)
    requires n <= |Expected(arrivals, start)|
    ensures forall r :: r in Expected(arrivals, start)[..n] <==> FirstOf(arrivals, start, n, r)
  {
    var expected := Expected(arrivals, start);
    RunEndBounds(Arrived(arrivals), start);
    forall i | 0 <= i < n ensures expected[i].seqNo == start + i && FirstOf(arrivals, start, n, expected[i]) {
      FirstArrivalSpec(arrivals, start + i);
    }
    forall r | FirstOf(arrivals, start, n, r) ensures r in expected[..n] {
      var j: nat :| IsFirst(arrivals, r.seqNo, j) && arrivals[j] == r;
      var i := r.seqNo - start;
      assert FirstOf(arrivals, start, n, expected[i]) && expected[i].seqNo == r.seqNo;
      var k: nat :| IsFirst(arrivals, r.seqNo, k) && arrivals[k] == expected[i];
      assert j == k && expected[..n][i] == r;
    }
  }

  // ---------------------------------------------------------------- what the thread keeps

  /** The candidates are the first arrivals from `next` on, the pushed stream those before. */
  ghost predicate Kept(start: nat, arrivals: seq<Request>, candidates: map<nat, Request>, next: nat, pushed: seq<Request>) {
    && start <= next && |pushed| == next - start
    && (forall k :: k in candidates ==> next <= k && FirstArrival(arrivals, k) == Some(candidates[k]))
    && (forall k: nat :: next <= k && FirstArrival(arrivals, k).Some? ==> k in candidates)
    && (forall i :: 0 <= i < |pushed| ==> FirstArrival(arrivals, start + i) == Some(pushed[i]))
  }

  /** A stale commit is dropped, any other becomes a candidate unless its sequence has one. */
  function Accepted(candidates: map<nat, Request>, next: nat, m: Request): map<nat, Request> {
    if next > m.seqNo || m.seqNo in candidates then candidates else candidates[m.seqNo := m]
  }

  lemma FirstArrivalSnoc(arrivals: seq<Request>, m: Request, k: nat)
    ensures FirstArrival(arrivals + [m], k) ==
      if FirstArrival(arrivals, k).Some? then FirstArrival(arrivals, k) else if m.seqNo == k then Some(m) else None
  {
    assert (arrivals + [m])[..|arrivals|] == arrivals;
  }

  lemma AcceptKeeps(start: nat, arrivals: seq<Request>, candidates: map<nat, Request>, next: nat, pushed: seq<Request>, m: Request)
    requires Kept(start, arrivals, candidates, next, pushed)
    ensures Kept(start, arrivals + [m], Accepted(candidates, next, m), next, pushed)
  {
    forall k: nat ensures FirstArrival(arrivals + [m], k) ==
      if FirstArrival(arrivals, k).Some? then FirstArrival(arrivals, k) else if m.seqNo == k then Some(m) else None
    {
      FirstArrivalSnoc(arrivals, m, k);
    }
  }

  lemma PushKeeps(start: nat, arrivals: seq<Request>, candidates: map<nat, Request>, next: nat, pushed: seq<Request>)
    requires Kept(start, arrivals, candidates, next, pushed) && next in candidates
    ensures Kept(start, arrivals, candidates - {next}, next + 1, pushed + [candidates[next]])
    ensures candidates[next].seqNo == next
  {
    FirstArrivalSpec(arrivals, next);
  }

  /** What was pushed is a prefix of what is expected, and all of it once drained. */
  lemma PushedIsPrefix(start: nat, arrivals: seq<Request>, candidates: map<nat, Request>, next: nat, pushed: seq<Request>)
    requires Kept(start, arrivals, candidates, next, pushed)
    ensures pushed <= Expected(arrivals, start)
    ensures next !in candidates ==> next == RunEnd(Arrived(arrivals), start) && pushed == Expected(arrivals, start)
  {
    var arrived := Arrived(arrivals);
    RunEndBounds(arrived, start);
    var end := RunEnd(arrived, start);
    forall k: nat | start <= k < next ensures k in arrived {
      FirstArrivalSpec(arrivals, k);
      assert FirstArrival(arrivals, start + (k - start)) == Some(pushed[k - start]);
    }
    assert next <= end;
    if next !in candidates {
      FirstArrivalSpec(arrivals, next);
      RunEndSpec(arrived, start, next);
    }
  }

  // ---------------------------------------------------------------- the whole pipeline

  /** The ordering thread together with the ten workers. */
  datatype Pipeline = Pipeline(arrivals: seq<Request>, candidates: map<nat, Request>, next: nat, ring: State)

  datatype Move =
    | Commit(m: Request)          // the ordering thread takes a commit
    | Forward                     // it pushes the next candidate
    | Worker(step: Step, w: nat)  // a worker acts

  ghost predicate CanMove(p: Pipeline, a: Move) {
    match a
    case Commit(_) => true
    case Forward => p.next in p.candidates && Enabled(p.ring, Push(p.candidates[p.next]))
    case Worker(step, w) => CanWork(p.ring, step, w)
  }

  ghost function Moved(p: Pipeline, a: Move): Pipeline
    requires CanMove(p, a)
  {
    match a
    case Commit(m) => p.(arrivals := p.arrivals + [m], candidates := Accepted(p.candidates, p.next, m))
    case Forward =>
      Pipeline(p.arrivals, p.candidates - {p.next}, p.next + 1, Apply(p.ring, Push(p.candidates[p.next])))
    case Worker(step, w) => p.(ring := DoWork(p.ring, step, w))
  }

  ghost predicate Moves(p: Pipeline, q: Pipeline) { exists a :: CanMove(p, a) && q == Moved(p, a) }

  ghost predicate IsJointRun(run: seq<Pipeline>) {
    && |run| > 0
    && (exists start: nat :: run[0] == Pipeline([], map[], start, Init(start)))
    && forall i :: 0 <= i < |run| - 1 ==> Moves(run[i], run[i + 1])
  }

  ghost predicate JointInv(p: Pipeline) {
    Inv(p.ring) && Kept(p.ring.start, p.arrivals, p.candidates, p.next, p.ring.stream)
  }

  lemma MoveKeepsInv(p: Pipeline, a: Move)
    requires JointInv(p) && CanMove(p, a)
    ensures JointInv(Moved(p, a))
    ensures Moved(p, a).arrivals == p.arrivals + if a.Commit? then [a.m] else []
  {
    match a
    case Commit(m) => AcceptKeeps(p.ring.start, p.arrivals, p.candidates, p.next, p.ring.stream, m);
    case Forward =>
      PushKeeps(p.ring.start, p.arrivals, p.candidates, p.next, p.ring.stream);
      NextKeepsInv(p.ring, Push(p.candidates[p.next]));
    case Worker(step, w) => NextKeepsInv(p.ring, Work(step, w));
  }

  lemma {:induction false} JointReachable(run: seq<Pipeline>, i: nat)
    requires IsJointRun(run) && i < |run|
    ensures JointInv(run[i])
  {
    if i == 0 {
      var start: nat :| run[0] == Pipeline([], map[], start, Init(start));
      InitKeepsInv(start);
    } else {
      JointReachable(run, i - 1);
      assert Moves(run[i - 1], run[i - 1 + 1]);
      var a :| CanMove(run[i - 1], a) && run[i] == Moved(run[i - 1], a);
      MoveKeepsInv(run[i - 1], a);
    }
  }

  /** The ordering thread is never held up: a candidate that is next can be pushed. */
  lemma ForwardEnabled(run: seq<Pipeline>, i: nat)
    requires IsJointRun(run) && i < |run|
    ensures CanMove(run[i], Forward) <==> run[i].next in run[i].candidates
  {
    JointReachable(run, i);
    var p := run[i];
    if p.next in p.candidates { PushKeeps(p.ring.start, p.arrivals, p.candidates, p.next, p.ring.stream); }
  }

  /** From commits to execution, over every interleaving of commits, pushes and workers:
      what has run is the batches of a prefix of the arrived run, that is, in rising order
      exactly the first arrivals of its numbers that are not no-ops; and when neither the
      thread nor a worker can move, of all of it. */
  lemma CommitsExecuteInOrder(run: seq<Pipeline>, i: nat)
    requires IsJointRun(run) && i < |run|
    ensures var p := run[i]; var expected := Expected(p.arrivals, p.ring.start);
      && (exists n: nat :: n <= |expected| && p.ring.finished <= n <= p.ring.finished + 1
                        && p.ring.ran == Batches(expected[..n]) && RanFirsts(p, n))
      && (!CanMove(p, Forward) && Quiescent(p.ring) ==> p.ring.ran == Batches(expected) && RanFirsts(p, |expected|))
  {
    JointReachable(run, i);
    ForwardEnabled(run, i);
    var p := run[i];
    var s, expected := p.ring, Expected(p.arrivals, p.ring.start);
    PushedIsPrefix(s.start, p.arrivals, p.candidates, p.next, s.stream);
    var n := RanCount(s);
    assert s.stream[..n] == expected[..n];
    FirstsRan(p, n);
    if !CanMove(p, Forward) && Quiescent(s) {
      QuietIsDone(s);
      assert expected[..|expected|] == expected;
      FirstsRan(p, |expected|);
    }
  }

  /** What has run is, in rising order, the first arrivals of n numbers but no no-ops. */
  ghost predicate RanFirsts(p: Pipeline, n: nat) {
    && (forall r :: r in p.ring.ran <==> FirstOf(p.arrivals, p.ring.start, n, r) && !r.noop)
    && Rising(p.ring.ran)
  }

  lemma FirstsRan(p: Pipeline, n: nat)
    requires var expected := Expected(p.arrivals, p.ring.start);
      n <= |expected| && p.ring.ran == Batches(expected[..n])
    ensures RanFirsts(p, n)
  {
    ExpectedIsContiguous(p.arrivals, p.ring.start);
    BatchesExactly(Expected(p.arrivals, p.ring.start)[..n]);
    ExpectedFromArrivals(p.arrivals, p.ring.start, n);
  }

  // ---------------------------------------------------------------- the thread

  class OrderingThread {
    var candidates: map<nat, Request>
    var next: nat
    var pushed: seq<Request>
    ghost var arrivals: seq<Request>
    ghost const start: nat

    /** `start` is what SetPendingExecutedSeq installed before the first commit. */
    constructor (start: nat)
      ensures Valid() && Drained()
      ensures this.start == start && arrivals == [] && pushed == []
    {
      this.start, next := start, start;
      candidates, pushed, arrivals := map[], [], [];
    }

    ghost predicate Valid()
      reads this
    {
      Kept(start, arrivals, candidates, next, pushed)
    }

    ghost predicate Drained()
      reads this
    {
      next !in candidates
    }

    method AddNewData(message: Request)
      modifies this`candidates
      ensures candidates == if message.seqNo in old(candidates) then old(candidates)
                            else old(candidates)[message.seqNo := message]
    {
      if message.seqNo !in candidates {
        candidates := candidates[message.seqNo := message];
      }
    }

    method GetNextData() returns (r: Option<Request>)
      requires Valid()
      modifies this`candidates
      ensures r.None? <==> old(next !in candidates)
      ensures r.None? ==> candidates == old(candidates)
      ensures r.Some? ==> r.value == old(candidates)[next] && candidates == old(candidates) - {next}
    {
      if candidates == map[] || Least((a: nat, b: nat) => a < b, candidates.Keys) != next {
        return None;
      }
      r := Some(candidates[next]);
      candidates := candidates - {next};
    }

    /** The first half of OrderMessage's loop body. */
    method Accept(message: Request)
      requires Valid()
      modifies this`candidates, this`arrivals
      ensures Valid() && arrivals == old(arrivals) + [message]
      ensures candidates == Accepted(old(candidates), next, message)
    {
      AcceptKeeps(start, arrivals, candidates, next, pushed, message);
      arrivals := arrivals + [message];
      if next > message.seqNo { return; }
      AddNewData(message);
    }

    /** The inner loop: push candidates while the next sequence is there. */
    method Drain()
      requires Valid()
      modifies this`candidates, this`next, this`pushed
      ensures Valid() && Drained() && old(pushed) <= pushed
    {
      while true
        invariant Valid() && old(pushed) <= pushed
        decreases |candidates|
      {
        if next in candidates { PushKeeps(start, arrivals, candidates, next, pushed); }
        var m := GetNextData();
        if m.None? { break; }
        pushed := pushed + [m.value];
        next := next + 1;
      }
    }

    /** One turn of OrderMessage's loop: `message` is what the commit queue gave. */
    method OrderMessage(message: Option<Request>)
      requires Valid() && Drained()
      modifies this
      ensures Valid() && Drained()
      ensures arrivals == old(arrivals) + if message.Some? then [message.value] else []
      ensures pushed == Expected(arrivals, start)
      ensures next == RunEnd(Arrived(arrivals), start)
      ensures old(pushed) <= pushed
    {
      if message.Some? {
        Accept(message.value);
        if message.value.seqNo < next {
          PushedIsPrefix(start, arrivals, candidates, next, pushed);
          return;
        }
      }
      Drain();
      PushedIsPrefix(start, arrivals, candidates, next, pushed);
    }

    /** GetMaxPendingExecutedSeq: the last sequence of the arrived run. */
    method GetMaxPendingExecutedSeq() returns (s: int)
      requires Valid() && Drained()
      ensures s == RunEnd(Arrived(arrivals), start) - 1
    {
      PushedIsPrefix(start, arrivals, candidates, next, pushed);
      s := next - 1;
    }
  }
}
