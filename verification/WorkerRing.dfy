/**
  The ordered parallel execution of `TransactionExecutor`: ten workers pop a
  gap-free stream, prepare in parallel and execute in stream order, synchronised
  only by a ring of 1024 marks.

  Every action below is one mutex-protected section (or one unprotected section
  that only its own thread can reach) of a worker thread, or one push by the
  ordering thread. Runs end before `Stop`.
 */
module WorkerRing {

  const SLOTS := 1024
  const WORKERS := 10

  datatype Request = Request(seqNo: nat, noop: bool, payload: string)

  /** Where a worker thread stands in its loop. */
  datatype Worker =
    | Idle
    | Popped(req: Request)   // holds e_mutex_, not yet registered
    | Waiting(req: Request)  // registered; preparing or inside WaitForExecute
    | Entered(req: Request)  // past WaitForExecute
    | Stamped(req: Request)  // last_seq_ updated
    | Ran(req: Request)      // batch handed to the transaction manager
  {
    predicate Inside() { Entered? || Stamped? || Ran? }
  }

  /** `stream` is everything ever pushed; the execute queue is `stream[popped..]`.
      `registered`, `finished` and `owner` are history variables: how many stream
      positions went through RegisterExecute and FinishExecute, and which worker
      popped each position. */
  datatype State = State(
    start: nat,
    stream: seq<Request>,
    popped: nat,
    registered: nat,
    finished: nat,
    owner: seq<nat>,
    ring: seq<nat>,
    workers: seq<Worker>,
    lastSeq: int,
    ran: seq<Request>)

  datatype Step = Pop | Register | Enter | Stamp | Run | Finish

  datatype Action = Push(req: Request) | Work(step: Step, w: nat)

  function Slot(seqNo: int): nat { seqNo % SLOTS }

  /** The wait condition of WaitForExecute: bit 2 is set or the mark is zero. */
  predicate Passable(mark: nat) { (mark / 2) % 2 == 1 || mark == 0 }

  /** `last_seq_` is an int32_t that is assigned 64-bit sequence numbers. */
  function Wrap32(n: int): int {
    (n + 0x8000_0000) % 0x1_0000_0000 - 0x8000_0000
  }

  function Init(start: nat): State {
    State(start, [], 0, 0, 0, [], seq(SLOTS, _ => 0), seq(WORKERS, _ => Idle), 0, [])
  }

  ghost predicate CanWork(s: State, step: Step, w: nat) {
    && |s.ring| == SLOTS
    && w < |s.workers|
    && var me := s.workers[w];
       match step
       case Pop =>
         me.Idle? && s.popped < |s.stream| && forall v :: 0 <= v < |s.workers| ==> !s.workers[v].Popped?
       case Register => me.Popped?
       case Enter => me.Waiting? && Passable(s.ring[Slot(me.req.seqNo - 1 + SLOTS)])
       case Stamp => me.Entered?
       case Run => me.Stamped? && !me.req.noop
       case Finish => me.Ran? || (me.Stamped? && me.req.noop)
  }

  ghost predicate Enabled(s: State, a: Action) {
    match a
    case Push(r) => r.seqNo == s.start + |s.stream|
    case Work(step, w) => CanWork(s, step, w)
  }

  ghost function DoWork(s: State, step: Step, w: nat): State
    requires CanWork(s, step, w)
  {
    var me := s.workers[w];
    match step
    case Pop =>
      s.(popped := s.popped + 1, owner := s.owner + [w],
         workers := s.workers[w := Popped(s.stream[s.popped])])
    case Register =>
      s.(registered := s.registered + 1, ring := s.ring[Slot(me.req.seqNo) := 1],
         workers := s.workers[w := Waiting(me.req)])
    case Enter => s.(workers := s.workers[w := Entered(me.req)])
    case Stamp =>
      s.(lastSeq := if s.lastSeq == 0 then Wrap32(me.req.seqNo) else Wrap32(s.lastSeq + 1),
         workers := s.workers[w := Stamped(me.req)])
    case Run => s.(ran := s.ran + [me.req], workers := s.workers[w := Ran(me.req)])
    case Finish =>
      s.(finished := s.finished + 1, ring := s.ring[Slot(me.req.seqNo) := 3],
         workers := s.workers[w := Idle])
  }

  ghost function Apply(s: State, a: Action): State
    requires Enabled(s, a)
  {
    match a
    case Push(r) => s.(stream := s.stream + [r])
    case Work(step, w) => DoWork(s, step, w)
  }

  /** The `assert` that RegisterExecute evaluates. */
  ghost predicate RegisterAssert(s: State, w: nat)
    requires CanWork(s, Register, w)
  {
    var mark := s.ring[Slot(s.workers[w].req.seqNo)];
    mark == 0 || mark == 3
  }

  /** The `assert` on `last_seq_`; a no-op and the first request skip it. */
  ghost predicate StampAssert(s: State, w: nat)
    requires CanWork(s, Stamp, w)
  {
    var r := s.workers[w].req;
    r.noop || s.lastSeq == 0 || Wrap32(s.lastSeq + 1) == r.seqNo
  }

  ghost predicate Quiescent(s: State) {
    forall step, w: nat :: !CanWork(s, step, w)
  }

  ghost predicate Next(s: State, t: State) {
    exists a :: Enabled(s, a) && t == Apply(s, a)
  }

  ghost predicate IsRun(run: seq<State>) {
    && |run| > 0
    && (exists start: nat :: run[0] == Init(start))
    && forall i :: 0 <= i < |run| - 1 ==> Next(run[i], run[i + 1])
  }

  /** The batches of a stretch of the stream: what is left without Raft no-ops. */
  function Batches(rs: seq<Request>): seq<Request> {
    if rs == [] then [] else
      Batches(rs[..|rs| - 1]) + if rs[|rs| - 1].noop then [] else [rs[|rs| - 1]]
  }

  /** Sequence numbers strictly go up. */
  ghost predicate Rising(rs: seq<Request>) {
    forall i, j :: 0 <= i < j < |rs| ==> rs[i].seqNo < rs[j].seqNo
  }

  /** Every request that is not a no-op, as it is, once and in order. */
  lemma BatchesExactly(rs: seq<Request>)
    requires Rising(rs)
    ensures forall r :: r in Batches(rs) <==> r in rs && !r.noop
    ensures Rising(Batches(rs))
  {
    forall r ensures r in Batches(rs) <==> r in rs && !r.noop { InBatches(rs, r); }
    BatchesRise(rs);
  }

  lemma {:induction false} InBatches(rs: seq<Request>, r: Request)
    ensures r in Batches(rs) <==> r in rs && !r.noop
  {
    if rs != [] {
      var n := |rs| - 1;
      InBatches(rs[..n], r);
      assert rs == rs[..n] + [rs[n]];
    }
  }

  lemma {:induction false} BatchesRise(rs: seq<Request>)
    requires Rising(rs)
    ensures Rising(Batches(rs))
  {
    if rs != [] {
      var n := |rs| - 1;
      var init, before := rs[..n], Batches(rs[..n]);
      BatchesRise(init);
      forall i | 0 <= i < |before| ensures before[i].seqNo < rs[n].seqNo {
        InBatches(init, before[i]);
        var j :| 0 <= j < n && init[j] == before[i];
        assert rs[j] == before[i];
      }
    }
  }

  // ---------------------------------------------------------------- invariant

  ghost predicate Shape(s: State) {
    && |s.ring| == SLOTS
    && |s.workers| == WORKERS
    && s.finished <= s.registered <= s.popped <= |s.stream|
    && s.popped <= s.registered + 1
    && |s.owner| == s.popped
  }

  ghost predicate Contiguous(s: State) {
    forall p :: 0 <= p < |s.stream| ==> s.stream[p].seqNo == s.start + p
  }

  /** A busy worker holds a stream position in the window that its stage allows. */
  ghost predicate WorkerOk(s: State, w: nat)
    requires Shape(s) && w < WORKERS
  {
    var me := s.workers[w];
    me.Idle? ||
    (var p := me.req.seqNo - s.start;
     && 0 <= p < s.popped
     && s.owner[p] == w
     && me.req == s.stream[p]
     && (me.Popped? ==> p == s.registered)
     && (me.Waiting? ==> s.finished <= p < s.registered)
     && (me.Inside() ==> p == s.finished < s.registered))
  }

  /** Every unfinished popped position is still held by the worker that popped it. */
  ghost predicate PositionOk(s: State, p: nat)
    requires Shape(s) && p < s.popped
  {
    && s.owner[p] < WORKERS
    && !s.workers[s.owner[p]].Idle?
    && s.workers[s.owner[p]].req == s.stream[p]
    && (p == s.registered ==> s.workers[s.owner[p]].Popped?)
  }

  /** How far slot j lies past the slot of the lowest unfinished sequence. */
  function Ahead(j: int, base: int): nat { (j - base) % SLOTS }

  /** A slot is marked 1 exactly when a registered, unfinished sequence owns it. */
  ghost predicate SlotOk(s: State, j: nat)
    requires Shape(s) && j < SLOTS
  {
    && (s.ring[j] == 0 || s.ring[j] == 1 || s.ring[j] == 3)
    && (s.ring[j] == 1 <==> Ahead(j, s.start + s.finished) < s.registered - s.finished)
  }

  ghost function Front(s: State): Worker
    requires Shape(s)
  {
    if s.finished < s.registered && s.owner[s.finished] < WORKERS
    then s.workers[s.owner[s.finished]] else Idle
  }

  ghost function StampedCount(s: State): nat
    requires Shape(s)
  {
    s.finished + if Front(s).Stamped? || Front(s).Ran? then 1 else 0
  }

  ghost function RanCount(s: State): nat
    requires Shape(s)
    ensures s.finished <= RanCount(s) <= |s.stream|
  {
    s.finished + if Front(s).Ran? then 1 else 0
  }

  ghost predicate LastSeqOk(s: State)
    requires Shape(s)
  {
    s.lastSeq == if StampedCount(s) == 0 then 0 else Wrap32(s.start + StampedCount(s) - 1)
  }

  ghost predicate Inv(s: State) {
    && Shape(s)
    && Contiguous(s)
    && (forall w: nat :: w < WORKERS ==> WorkerOk(s, w))
    && (forall p: nat :: s.finished <= p < s.popped ==> PositionOk(s, p))
    && (forall j: nat :: j < SLOTS ==> SlotOk(s, j))
    && LastSeqOk(s)
    && s.ran == Batches(s.stream[..RanCount(s)])
  }

  // ---------------------------------------------------------------- the window

  /** Pigeonhole: distinct numbers below n are at most n many. */
  lemma {:induction false} DistinctBelow(xs: seq<nat>, n: nat)
    requires forall i :: 0 <= i < |xs| ==> xs[i] < n
    requires forall i, j :: 0 <= i < j < |xs| ==> xs[i] != xs[j]
    ensures |xs| <= n
  {
    if xs != [] {
      assert xs[0] < n;
      if i :| 0 <= i < |xs| && xs[i] == n - 1 {
        var rest := xs[..i] + xs[i + 1..];
        assert forall k :: 0 <= k < |rest| ==> rest[k] == if k < i then xs[k] else xs[k + 1];
        DistinctBelow(rest, n - 1);
      } else {
        DistinctBelow(xs, n - 1);
      }
    }
  }

  /** Ten workers, so at most ten popped and unfinished sequences. */
  lemma WindowBound(s: State)
    requires Inv(s)
    ensures s.popped - s.finished <= 10
  {
    var live := s.owner[s.finished..];
    forall i | 0 <= i < |live| ensures live[i] < WORKERS {
      assert PositionOk(s, s.finished + i);
    }
    forall i, j | 0 <= i < j < |live| ensures live[i] != live[j] {
      assert PositionOk(s, s.finished + i) && PositionOk(s, s.finished + j);
      assert s.stream[s.finished + i].seqNo != s.stream[s.finished + j].seqNo;
    }
    DistinctBelow(live, WORKERS);
  }

  lemma AheadOfOwn(j: nat, base: int, d: nat)
    requires j < SLOTS && d < SLOTS
    ensures Ahead(j, base) == d <==> j == Slot(base + d)
  {
  }

  lemma AheadOfPredecessor(seqNo: int, base: int)
    requires base <= seqNo < base + SLOTS
    ensures Ahead(Slot(seqNo - 1 + SLOTS), base) == if seqNo == base then SLOTS - 1 else seqNo - 1 - base
  {
  }

  lemma AheadOfNext(j: nat, base: int)
    requires j < SLOTS
    ensures Ahead(j, base) == 0 <==> j == Slot(base)
    ensures Ahead(j, base + 1) == if j == Slot(base) then SLOTS - 1 else Ahead(j, base) - 1
  {
  }

  lemma WrapSucc(n: int)
    ensures Wrap32(Wrap32(n) + 1) == Wrap32(n + 1)
  {
  }

  /** The wait of a registered worker ends exactly when its predecessor has
      finished: no stale mark lets it through early, and none holds it back. */
  lemma EnterExactly(s: State, w: nat)
    requires Inv(s) && w < WORKERS && s.workers[w].Waiting?
    ensures CanWork(s, Enter, w) <==> s.workers[w].req.seqNo == s.start + s.finished
  {
    WindowBound(s);
    assert WorkerOk(s, w);
    var r := s.workers[w].req;
    assert SlotOk(s, Slot(r.seqNo - 1 + SLOTS));
    AheadOfPredecessor(r.seqNo, s.start + s.finished);
  }

  // ---------------------------------------------------------------- preservation

  lemma InitKeepsInv(start: nat)
    ensures Inv(Init(start))
  {
    var s := Init(start);
    assert s.stream[..0] == [];
  }

  lemma PushKeepsInv(s: State, r: Request)
    requires Inv(s) && Enabled(s, Push(r))
    ensures Inv(Apply(s, Push(r)))
  {
    var t := Apply(s, Push(r));
    assert forall w: nat :: w < WORKERS ==> WorkerOk(s, w) ==> WorkerOk(t, w);
    assert forall p: nat :: s.finished <= p < s.popped ==> PositionOk(s, p) ==> PositionOk(t, p);
    assert forall j: nat :: j < SLOTS ==> SlotOk(s, j) ==> SlotOk(t, j);
    assert t.stream[..RanCount(t)] == s.stream[..RanCount(s)];
  }

  /** A popped, unregistered position means some worker holds e_mutex_. */
  lemma RegistrarHoldsMutex(s: State)
    requires Inv(s) && s.popped == s.registered + 1
    ensures s.owner[s.registered] < WORKERS && s.workers[s.owner[s.registered]].Popped?
  {
    assert PositionOk(s, s.registered);
  }

  lemma PopKeepsInv(s: State, w: nat)
    requires Inv(s) && CanWork(s, Pop, w)
    ensures Inv(DoWork(s, Pop, w))
  {
    var t := DoWork(s, Pop, w);
    if s.popped == s.registered + 1 {
      RegistrarHoldsMutex(s);
      assert false;
    }
    forall v: nat | v < WORKERS ensures WorkerOk(t, v) { assert WorkerOk(s, v); }
    forall p: nat | t.finished <= p < t.popped ensures PositionOk(t, p) {
      if p < s.popped { assert PositionOk(s, p); }
    }
    assert forall j: nat :: j < SLOTS ==> SlotOk(s, j) ==> SlotOk(t, j);
    assert s.finished < s.registered ==> PositionOk(s, s.finished);
    assert Front(t) == Front(s);
  }

  lemma RegisterKeepsRing(s: State, w: nat)
    requires Inv(s) && CanWork(s, Register, w)
    ensures RegisterAssert(s, w)
    ensures Shape(DoWork(s, Register, w)) && forall j: nat :: j < SLOTS ==> SlotOk(DoWork(s, Register, w), j)
  {
    var t := DoWork(s, Register, w);
    WindowBound(s);
    assert WorkerOk(s, w);
    var base, d := s.start + s.finished, s.registered - s.finished;
    assert s.workers[w].req.seqNo == base + d;
    AheadOfOwn(Slot(base + d), base, d);
    assert SlotOk(s, Slot(base + d));
    forall j: nat | j < SLOTS ensures SlotOk(t, j) {
      assert SlotOk(s, j);
      AheadOfOwn(j, base, d);
    }
  }

  lemma RegisterKeepsInv(s: State, w: nat)
    requires Inv(s) && CanWork(s, Register, w)
    ensures RegisterAssert(s, w)
    ensures Inv(DoWork(s, Register, w))
  {
    var t := DoWork(s, Register, w);
    RegisterKeepsRing(s, w);
    assert WorkerOk(s, w);
    forall v: nat | v < WORKERS ensures WorkerOk(t, v) { assert WorkerOk(s, v); }
    forall p: nat | t.finished <= p < t.popped ensures PositionOk(t, p) { assert PositionOk(s, p); }
    assert s.finished < s.registered ==> PositionOk(s, s.finished);
    assert !Front(t).Inside() ==> !Front(s).Inside();
  }

  /** The three actions between the wait and the finish touch only the front worker. */
  lemma InsideKeepsShape(s: State, step: Step, w: nat)
    requires Inv(s) && CanWork(s, step, w)
    requires step == Enter || step == Stamp || step == Run
    ensures var t := DoWork(s, step, w);
      && Shape(t) && Contiguous(t)
      && s.finished < s.registered
      && s.owner[s.finished] == w
      && s.workers[w].req == s.stream[s.finished]
      && Front(s) == s.workers[w] && Front(t) == t.workers[w]
      && (forall v: nat :: v < WORKERS ==> WorkerOk(t, v))
      && (forall p: nat :: t.finished <= p < t.popped ==> PositionOk(t, p))
      && (forall j: nat :: j < SLOTS ==> SlotOk(t, j))
  {
    var t := DoWork(s, step, w);
    assert WorkerOk(s, w);
    if step == Enter { EnterExactly(s, w); }
    forall v: nat | v < WORKERS ensures WorkerOk(t, v) { assert WorkerOk(s, v); }
    forall p: nat | t.finished <= p < t.popped ensures PositionOk(t, p) { assert PositionOk(s, p); }
    assert forall j: nat :: j < SLOTS ==> SlotOk(s, j) ==> SlotOk(t, j);
  }

  lemma EnterKeepsInv(s: State, w: nat)
    requires Inv(s) && CanWork(s, Enter, w)
    ensures Inv(DoWork(s, Enter, w))
  {
    InsideKeepsShape(s, Enter, w);
  }

  lemma StampKeepsInv(s: State, w: nat)
    requires Inv(s) && CanWork(s, Stamp, w)
    ensures Inv(DoWork(s, Stamp, w))
  {
    InsideKeepsShape(s, Stamp, w);
    WrapSucc(s.start + s.finished - 1);
  }

  lemma RunKeepsInv(s: State, w: nat)
    requires Inv(s) && CanWork(s, Run, w)
    ensures Inv(DoWork(s, Run, w))
  {
    InsideKeepsShape(s, Run, w);
    assert s.stream[..s.finished + 1][..s.finished] == s.stream[..s.finished];
  }

  lemma FinishKeepsRing(s: State, w: nat)
    requires Inv(s) && CanWork(s, Finish, w)
    ensures Shape(DoWork(s, Finish, w)) && forall j: nat :: j < SLOTS ==> SlotOk(DoWork(s, Finish, w), j)
  {
    var t := DoWork(s, Finish, w);
    WindowBound(s);
    assert WorkerOk(s, w);
    forall j: nat | j < SLOTS ensures SlotOk(t, j) {
      assert SlotOk(s, j);
      AheadOfNext(j, s.start + s.finished);
    }
  }

  lemma FinishKeepsWorkers(s: State, w: nat)
    requires Inv(s) && CanWork(s, Finish, w)
    ensures var t := DoWork(s, Finish, w);
      && Shape(t)
      && Front(s) == s.workers[w] && !Front(t).Inside()
      && (forall v: nat :: v < WORKERS ==> WorkerOk(t, v))
      && (forall p: nat :: t.finished <= p < t.popped ==> PositionOk(t, p))
  {
    var t := DoWork(s, Finish, w);
    assert WorkerOk(s, w);
    forall v: nat | v < WORKERS ensures WorkerOk(t, v) { assert WorkerOk(s, v); }
    forall p: nat | t.finished <= p < t.popped ensures PositionOk(t, p) { assert PositionOk(s, p); }
    if t.finished < t.registered {
      assert PositionOk(t, t.finished) && WorkerOk(s, t.owner[t.finished]);
    }
  }

  /** After a finish the next registered position moves to the front, and the
      ring holds exactly the remaining window. */
  lemma FinishKeepsInv(s: State, w: nat)
    requires Inv(s) && CanWork(s, Finish, w)
    ensures Inv(DoWork(s, Finish, w))
  {
    FinishKeepsRing(s, w);
    FinishKeepsWorkers(s, w);
    assert WorkerOk(s, w);
    assert s.stream[..s.finished + 1][..s.finished] == s.stream[..s.finished];
  }

  lemma NextKeepsInv(s: State, a: Action)
    requires Inv(s) && Enabled(s, a)
    ensures Inv(Apply(s, a))
    ensures Apply(s, a).stream == s.stream + if a.Push? then [a.req] else []
  {
    match a
    case Push(r) => PushKeepsInv(s, r);
    case Work(Pop, w) => PopKeepsInv(s, w);
    case Work(Register, w) => RegisterKeepsInv(s, w);
    case Work(Enter, w) => EnterKeepsInv(s, w);
    case Work(Stamp, w) => StampKeepsInv(s, w);
    case Work(Run, w) => RunKeepsInv(s, w);
    case Work(Finish, w) => FinishKeepsInv(s, w);
  }

  // ---------------------------------------------------------------- whole runs

  /** Every state of every interleaving satisfies the invariant. */
  lemma {:induction false} ReachableInv(run: seq<State>, i: nat)
    requires IsRun(run) && i < |run|
    ensures Inv(run[i])
  {
    if i == 0 {
      var start: nat :| run[0] == Init(start);
      InitKeepsInv(start);
    } else {
      ReachableInv(run, i - 1);
      assert Next(run[i - 1], run[i - 1 + 1]);
      var a :| Enabled(run[i - 1], a) && run[i] == Apply(run[i - 1], a);
      NextKeepsInv(run[i - 1], a);
    }
  }

  /** At most one batch is between WaitForExecute and FinishExecute. */
  lemma OneBatchInside(run: seq<State>, i: nat, v: nat, w: nat)
    requires IsRun(run) && i < |run|
    requires v < |run[i].workers| && w < |run[i].workers|
    requires run[i].workers[v].Inside() && run[i].workers[w].Inside()
    ensures v == w
  {
    ReachableInv(run, i);
    assert WorkerOk(run[i], v) && WorkerOk(run[i], w);
  }

  /** Batches run in stream order with none skipped or repeated: what ran is the
      batches of a stream prefix that covers every finished request and at most
      one more, and the stream carries consecutive sequence numbers. */
  lemma RunsInStreamOrder(run: seq<State>, i: nat)
    requires IsRun(run) && i < |run|
    ensures Contiguous(run[i])
    ensures exists n :: run[i].finished <= n <= run[i].finished + 1
                     && n <= |run[i].stream|
                     && run[i].ran == Batches(run[i].stream[..n])
                     && (forall r :: r in run[i].ran <==> r in run[i].stream[..n] && !r.noop)
    ensures Rising(run[i].ran)
  {
    ReachableInv(run, i);
    var n := RanCount(run[i]);
    assert run[i].ran == Batches(run[i].stream[..n]);
    BatchesExactly(run[i].stream[..n]);
  }

  /** At rest everything pushed has run. */
  lemma QuietIsDone(s: State)
    requires Inv(s) && Quiescent(s)
    ensures s.finished == |s.stream| && s.ran == Batches(s.stream)
  {
    if s.finished < |s.stream| {
      var step, w := SomeoneMoves(s);
      assert false;
    }
    assert s.stream[..RanCount(s)] == s.stream;
  }

  /** The sequences between RegisterExecute and FinishExecute. */
  ghost function LiveSeqs(s: State): set<int> {
    set w | 0 <= w < |s.workers| && (s.workers[w].Waiting? || s.workers[w].Inside()) :: s.workers[w].req.seqNo
  }

  /** The live sequences are one contiguous window of at most ten, so no two of
      them share a ring slot. */
  lemma LiveWindow(run: seq<State>, i: nat)
    requires IsRun(run) && i < |run|
    ensures var s := run[i];
      && (forall n :: n in LiveSeqs(s) <==> s.start + s.finished <= n < s.start + s.registered)
      && 0 <= s.registered - s.finished <= WORKERS
      && (forall m, n :: m in LiveSeqs(s) && n in LiveSeqs(s) && Slot(m) == Slot(n) ==> m == n)
  {
    var s := run[i];
    ReachableInv(run, i);
    WindowBound(s);
    forall n | n in LiveSeqs(s)
      ensures s.start + s.finished <= n < s.start + s.registered
    {
      var w :| 0 <= w < |s.workers| && !s.workers[w].Idle? && s.workers[w].req.seqNo == n
            && (s.workers[w].Waiting? || s.workers[w].Inside());
      assert WorkerOk(s, w);
    }
    forall n | s.start + s.finished <= n < s.start + s.registered
      ensures n in LiveSeqs(s)
    {
      var p := n - s.start;
      assert PositionOk(s, p) && WorkerOk(s, s.owner[p]);
      assert s.workers[s.owner[p]].req.seqNo == n;
    }
  }

  /** RegisterExecute's assert never fails; the one on the 32-bit `last_seq_`
      holds exactly for the first request, a no-op, sequences below 2^31, and
      where the wrapped counter happens to read zero. */
  lemma AssertsExactly(run: seq<State>, i: nat, w: nat)
    requires IsRun(run) && i < |run|
    ensures CanWork(run[i], Register, w) ==> RegisterAssert(run[i], w)
    ensures CanWork(run[i], Stamp, w) ==>
      var r := run[i].workers[w].req;
      StampAssert(run[i], w) <==>
        r.noop || run[i].finished == 0 || r.seqNo < 0x8000_0000 || (r.seqNo - 1) % 0x1_0000_0000 == 0
  {
    ReachableInv(run, i);
    if CanWork(run[i], Register, w) {
      RegisterKeepsInv(run[i], w);
    }
    if CanWork(run[i], Stamp, w) {
      InsideKeepsShape(run[i], Stamp, w);
      StampExactly(run[i].workers[w].req.seqNo);
    }
  }

  function Tip(run: seq<State>): State
    requires run != []
  {
    run[|run| - 1]
  }

  lemma Extend(run: seq<State>, a: Action) returns (more: seq<State>)
    requires IsRun(run) && Enabled(Tip(run), a)
    ensures IsRun(more) && Tip(more) == Apply(Tip(run), a)
  {
    more := run + [Apply(Tip(run), a)];
    assert more[0] == run[0];
    forall i | 0 <= i < |more| - 1 ensures Next(more[i], more[i + 1]) {
      if i < |run| - 1 { assert Next(run[i], run[i + 1]); }
    }
  }

  ghost predicate AllIdle(s: State) {
    |s.ring| == SLOTS && |s.workers| == WORKERS && forall v :: 0 <= v < WORKERS ==> s.workers[v].Idle?
  }

  /** From rest, the first worker can take the next request past its wait. */
  lemma TakeNext(run: seq<State>) returns (more: seq<State>)
    requires IsRun(run) && AllIdle(Tip(run))
    requires Tip(run).finished == Tip(run).popped < |Tip(run).stream|
    ensures IsRun(more)
    ensures var s, t := Tip(run), Tip(more);
      && t.start == s.start && t.stream == s.stream && t.finished == s.finished && t.popped == s.popped + 1
      && |t.ring| == SLOTS && t.workers == s.workers[0 := Entered(s.stream[s.popped])]
  {
    var s := Tip(run);
    more := Extend(run, Work(Pop, 0));
    more := Extend(more, Work(Register, 0));
    var u := Tip(more);
    ReachableInv(more, |more| - 1);
    assert u.workers == s.workers[0 := Waiting(s.stream[s.popped])];
    assert WorkerOk(u, 0) && Contiguous(u);
    EnterExactly(u, 0);
    more := Extend(more, Work(Enter, 0));
    assert Tip(more).workers == s.workers[0 := Entered(s.stream[s.popped])];
  }

  /** and finish it. */
  lemma FinishIt(run: seq<State>) returns (more: seq<State>)
    requires IsRun(run) && |Tip(run).ring| == SLOTS && |Tip(run).workers| == WORKERS
    requires Tip(run).workers[0].Entered? && !Tip(run).workers[0].req.noop
    requires forall v :: 1 <= v < WORKERS ==> Tip(run).workers[v].Idle?
    ensures IsRun(more) && AllIdle(Tip(more))
    ensures var s, t := Tip(run), Tip(more);
      t.start == s.start && t.stream == s.stream && t.popped == s.popped && t.finished == s.finished + 1
  {
    more := Extend(run, Work(Stamp, 0));
    more := Extend(more, Work(Run, 0));
    more := Extend(more, Work(Finish, 0));
  }

  /** A run in which the 32-bit assert fails: two requests on either side of 2^31. */
  lemma LastSeqAssertFails(r1: Request, r2: Request) returns (run: seq<State>)
    requires r1.seqNo == 0x7FFF_FFFF && r2.seqNo == 0x8000_0000 && !r1.noop && !r2.noop
    ensures IsRun(run) && CanWork(Tip(run), Stamp, 0) && !StampAssert(Tip(run), 0)
  {
    run := [Init(0x7FFF_FFFF)];
    assert IsRun(run);
    run := Extend(run, Push(r1));
    run := Extend(run, Push(r2));
    assert Tip(run).stream == [r1] + [r2];
    run := TakeNext(run);
    run := FinishIt(run);
    run := TakeNext(run);
    AssertsExactly(run, |run| - 1, 0);
  }

  lemma StampExactly(n: nat)
    ensures Wrap32(n - 1) == 0 <==> (n - 1) % 0x1_0000_0000 == 0
    ensures Wrap32(Wrap32(n - 1) + 1) == n <==> n < 0x8000_0000
  {
  }

  /** While anything is queued or in hand some worker can move; in particular the
      worker with the lowest unfinished sequence is never blocked. */
  lemma NeverStuck(run: seq<State>, i: nat) returns (step: Step, w: nat)
    requires IsRun(run) && i < |run|
    requires run[i].finished < |run[i].stream|
    ensures CanWork(run[i], step, w)
    ensures run[i].finished < run[i].registered ==>
      !run[i].workers[w].Idle? && run[i].workers[w].req.seqNo == run[i].start + run[i].finished
  {
    ReachableInv(run, i);
    step, w := SomeoneMoves(run[i]);
  }

  lemma SomeoneMoves(s: State) returns (step: Step, w: nat)
    requires Inv(s) && s.finished < |s.stream|
    ensures CanWork(s, step, w)
    ensures s.finished < s.registered ==> !s.workers[w].Idle? && s.workers[w].req.seqNo == s.start + s.finished
  {
    if s.finished < s.registered {
      w := s.owner[s.finished];
      assert PositionOk(s, s.finished) && WorkerOk(s, w);
      match s.workers[w] {
        case Waiting(_) => step := Enter; EnterExactly(s, w);
        case Entered(_) => step := Stamp;
        case Stamped(r) => step := if r.noop then Finish else Run;
        case Ran(_) => step := Finish;
      }
    } else if s.popped == s.registered + 1 {
      step, w := Register, s.owner[s.registered];
      RegistrarHoldsMutex(s);
    } else {
      step, w := Pop, 0;
      assert forall v: nat :: v < WORKERS ==> WorkerOk(s, v) ==> s.workers[v].Idle?;
    }
  }

  function StepsLeft(w: Worker): nat {
    match w
    case Idle => 0
    case Popped(_) => 5
    case Waiting(_) => 4
    case Entered(_) => 3
    case Stamped(_) => 2
    case Ran(_) => 1
  }

  function TotalLeft(ws: seq<Worker>): nat {
    if ws == [] then 0 else StepsLeft(ws[0]) + TotalLeft(ws[1..])
  }

  /** An upper bound on the worker steps still to come if nothing more is pushed. */
  function WorkLeft(s: State): int { 6 * (|s.stream| - s.popped) + TotalLeft(s.workers) }

  lemma {:induction false} TotalLeftUpdate(ws: seq<Worker>, w: nat, x: Worker)
    requires w < |ws|
    ensures TotalLeft(ws[w := x]) == TotalLeft(ws) - StepsLeft(ws[w]) + StepsLeft(x)
  {
    if w == 0 {
      assert ws[0 := x][1..] == ws[1..];
    } else {
      TotalLeftUpdate(ws[1..], w - 1, x);
      assert ws[w := x][1..] == ws[1..][w - 1 := x];
    }
  }

  lemma StepShrinksWork(s: State, step: Step, w: nat)
    requires CanWork(s, step, w)
    ensures WorkLeft(DoWork(s, step, w)) < WorkLeft(s)
    ensures DoWork(s, step, w).stream == s.stream
    ensures s.popped <= |s.stream| ==> DoWork(s, step, w).popped <= |s.stream|
  {
    var t := DoWork(s, step, w);
    assert t.workers == s.workers[w := t.workers[w]];
    TotalLeftUpdate(s.workers, w, t.workers[w]);
  }

  ghost predicate IsWorkerRun(run: seq<State>) {
    forall i :: 0 <= i < |run| - 1 ==>
      exists step, w: nat :: CanWork(run[i], step, w) && run[i + 1] == DoWork(run[i], step, w)
  }

  lemma {:induction false} WorkShrinks(run: seq<State>, k: nat)
    requires IsWorkerRun(run) && k < |run|
    requires run[0].popped <= |run[0].stream|
    ensures run[k].stream == run[0].stream && run[k].popped <= |run[k].stream|
    ensures WorkLeft(run[k]) <= WorkLeft(run[0]) - k
  {
    if k > 0 {
      WorkShrinks(run, k - 1);
      var s := run[k - 1];
      assert exists step, w: nat :: CanWork(s, step, w) && run[k - 1 + 1] == DoWork(s, step, w);
      var step, w: nat :| CanWork(s, step, w) && run[k] == DoWork(s, step, w);
      StepShrinksWork(s, step, w);
    }
  }

  /** Once the ordering thread is quiet every schedule of the workers is finite,
      and it can only end with the whole stream executed in order. */
  lemma WorkersDrain(run: seq<State>, i: nat, tail: seq<State>)
    requires IsRun(run) && i < |run|
    requires |tail| > 0 && tail[0] == run[i] && IsWorkerRun(tail)
    ensures |tail| - 1 <= WorkLeft(run[i])
    ensures var last := tail[|tail| - 1];
      Quiescent(last) ==>
        && last.finished == |run[i].stream| && last.ran == Batches(run[i].stream)
        && (forall r :: r in last.ran <==> r in run[i].stream && !r.noop) && Rising(last.ran)
  {
    ReachableInv(run, i);
    WorkShrinks(tail, |tail| - 1);
    var whole := run[..i] + tail;
    Concatenate(run, i, tail);
    var last := tail[|tail| - 1];
    assert last == whole[|whole| - 1];
    ReachableInv(whole, |whole| - 1);
    if Quiescent(last) {
      QuietIsDone(last);
      BatchesExactly(last.stream);
    }
  }

  lemma Concatenate(run: seq<State>, i: nat, tail: seq<State>)
    requires IsRun(run) && i < |run|
    requires |tail| > 0 && tail[0] == run[i] && IsWorkerRun(tail)
    ensures IsRun(run[..i] + tail)
  {
    forall k | 0 <= k < |tail| - 1 ensures Next(tail[k], tail[k + 1]) { WorkIsNext(tail, k); }
    Joined(Next, run, i, tail);
    assert (run[..i] + tail)[0] == run[0];
  }

  lemma WorkIsNext(run: seq<State>, k: nat)
    requires IsWorkerRun(run) && k < |run| - 1
    ensures Next(run[k], run[k + 1])
  {
    var step, w: nat :| CanWork(run[k], step, w) && run[k + 1] == DoWork(run[k], step, w);
    assert Enabled(run[k], Work(step, w)) && run[k + 1] == Apply(run[k], Work(step, w));
  }

  /** Two runs that meet in a state make one. */
  lemma Joined(next: (State, State) -> bool, run: seq<State>, i: nat, tail: seq<State>)
    requires i < |run| && |tail| > 0 && tail[0] == run[i]
    requires forall k :: 0 <= k < |run| - 1 ==> next(run[k], run[k + 1])
    requires forall k :: 0 <= k < |tail| - 1 ==> next(tail[k], tail[k + 1])
    ensures var whole := run[..i] + tail; forall k :: 0 <= k < |whole| - 1 ==> next(whole[k], whole[k + 1])
  {
    var whole := run[..i] + tail;
    forall k | 0 <= k < |whole| - 1 ensures next(whole[k], whole[k + 1]) {
      if k < i {
        assert whole[k] == run[k] && whole[k + 1] == run[k + 1];
      } else {
        assert whole[k] == tail[k - i] && whole[k + 1] == tail[k - i + 1];
      }
    }
  }
}
