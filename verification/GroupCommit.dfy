/**
  RaftRecovery's write-ahead-log pipeline as a state machine: callers enqueue batches
  of serialised records, one writer thread takes the whole queue, writes it as one
  frame, syncs it and then resolves the callers' futures in order, while checkpoints
  rotate the file. One action per mutex-protected section, with the write and the sync
  inside the writer's section kept apart so that a crash can fall between them.
 */
module GroupCommit {
  import opened Common
  import opened Framing

  datatype Phase =
    | Waiting    // at the top of WalWriterLoop
    | Holding    // swapped the queue into `inHand`
    | Written    // holds mutex_: the frame is in the file, fsync has not returned
    | Resolving  // setting the promises of `inHand`
    | Exited

  /** `closed` holds the frames of each rotated file, `open` those of the current one;
      `history` is every batch ever enqueued, `written` and `resolved` count how many of
      them reached a file and had their future resolved. */
  datatype State = State(
    history: seq<seq<Bytes>>,
    queue: seq<seq<Bytes>>,
    inHand: seq<seq<Bytes>>,
    phase: Phase,
    closed: seq<seq<seq<Bytes>>>,
    open: seq<seq<Bytes>>,
    written: nat,
    resolved: nat,
    stopped: bool)

  datatype Action =
    | Enqueue(batch: seq<Bytes>)  // AddLogEntry or TruncateLog
    | Swap
    | Write
    | Sync
    | Resolve
    | Rotate                      // FinishFile
    | Stop
    | Exit

  function Init(): State { State([], [], [], Waiting, [], [], 0, 0, false) }

  predicate Enabled(s: State, a: Action) {
    match a
    case Enqueue(batch) => !s.stopped && batch != []
    case Swap => s.phase.Waiting? && s.queue != []
    case Write => s.phase.Holding?
    case Sync => s.phase.Written?
    case Resolve => s.phase.Resolving? && s.inHand != []
    case Rotate => !s.phase.Written?
    case Stop => true
    case Exit => s.phase.Waiting? && s.stopped && s.queue == []
  }

  function Apply(s: State, a: Action): State
    requires Enabled(s, a)
  {
    match a
    case Enqueue(batch) => s.(history := s.history + [batch], queue := s.queue + [batch])
    case Swap => s.(inHand := s.queue, queue := [], phase := Holding)
    case Write => s.(open := s.open + [Concat(s.inHand)], written := s.written + |s.inHand|, phase := Written)
    case Sync => s.(phase := Resolving)
    case Resolve =>
      s.(inHand := s.inHand[1..], resolved := s.resolved + 1,
         phase := if |s.inHand| == 1 then Waiting else Resolving)
    case Rotate => s.(closed := s.closed + [s.open], open := [])
    case Stop => s.(stopped := true)
    case Exit => s.(phase := Exited)
  }

  ghost predicate Next(s: State, t: State) {
    exists a :: Enabled(s, a) && t == Apply(s, a)
  }

  ghost predicate IsRun(run: seq<State>) {
    && |run| > 0
    && run[0] == Init()
    && forall i :: 0 <= i < |run| - 1 ==> Next(run[i], run[i + 1])
  }

  // ---------------------------------------------------------------- invariant

  ghost predicate NonEmpty(batches: seq<seq<Bytes>>) {
    forall i :: 0 <= i < |batches| ==> batches[i] != []
  }

  ghost predicate PhaseOk(s: State) {
    match s.phase
    case Waiting => s.inHand == [] && s.resolved == s.written
    case Holding => s.inHand != [] && s.resolved == s.written
    case Written => s.inHand != [] && s.open != [] && s.resolved + |s.inHand| == s.written
    case Resolving => s.inHand != [] && s.resolved + |s.inHand| == s.written
    case Exited => s.inHand == [] && s.queue == [] && s.resolved == s.written && s.stopped
  }

  /** All frames written so far, and the records in them. */
  ghost function Frames(s: State): seq<seq<Bytes>> { Concat(s.closed) + s.open }

  ghost function OnDisk(s: State): seq<Bytes> { Concat(Frames(s)) }

  ghost function Unwritten(s: State): seq<seq<Bytes>> {
    (if s.phase.Holding? then s.inHand else []) + s.queue
  }

  ghost predicate Inv(s: State) {
    && s.written <= |s.history|
    && PhaseOk(s)
    && NonEmpty(s.history)
    && NonEmpty(Frames(s))
    && s.history[s.written..] == Unwritten(s)
    && (s.phase.Written? || s.phase.Resolving? ==> s.history[s.resolved..s.written] == s.inHand)
    && OnDisk(s) == Concat(s.history[..s.written])
    && (s.phase.Written? ==> s.open[|s.open| - 1] == Concat(s.inHand))
  }

  lemma ConcatOne<T>(b: seq<T>)
    ensures Concat([b]) == b
  {
    assert [b][1..] == [];
    assert b + [] == b;
  }

  lemma ConcatNonEmpty(batches: seq<seq<Bytes>>)
    requires batches != [] && NonEmpty(batches)
    ensures Concat(batches) != []
  {
    assert batches[0] != [];
  }

  lemma WriteKeepsInv(s: State)
    requires Inv(s) && s.phase.Holding?
    ensures Inv(Apply(s, Write))
  {
    Slices(s.history, s.written, s.inHand, s.queue);
    WriteGrows(s);
    assert Unwritten(Apply(s, Write)) == [] + s.queue == s.queue;
  }

  lemma WriteGrows(s: State)
    requires Inv(s) && s.phase.Holding?
    ensures var t := Apply(s, Write);
      t.written <= |t.history| && NonEmpty(Frames(t)) && OnDisk(t) == Concat(t.history[..t.written])
  {
    Slices(s.history, s.written, s.inHand, s.queue);
    assert forall i :: 0 <= i < |s.inHand| ==> s.inHand[i] == s.history[s.written + i];
    ConcatNonEmpty(s.inHand);
    ConcatSplit(s.history[..s.written], s.inHand);
    ConcatGrows(s, Concat(s.inHand));
  }

  lemma Slices(history: seq<seq<Bytes>>, written: nat, inHand: seq<seq<Bytes>>, queue: seq<seq<Bytes>>)
    requires written <= |history| && history[written..] == inHand + queue
    ensures var n := written + |inHand|;
      && n <= |history|
      && inHand == history[written..n] && queue == history[n..]
      && history[..n] == history[..written] + inHand
  {
    var rest := history[written..];
    assert inHand == rest[..|inHand|] && queue == rest[|inHand|..];
  }

  lemma ConcatGrows(s: State, frame: seq<Bytes>)
    ensures Frames(s.(open := s.open + [frame])) == Frames(s) + [frame]
    ensures OnDisk(s.(open := s.open + [frame])) == OnDisk(s) + frame
  {
    assert Concat(s.closed) + (s.open + [frame]) == Frames(s) + [frame];
    ConcatSplit(Frames(s), [frame]);
    ConcatOne(frame);
  }

  lemma EnqueueKeepsInv(s: State, batch: seq<Bytes>)
    requires Inv(s) && Enabled(s, Enqueue(batch))
    ensures Inv(Apply(s, Enqueue(batch)))
  {
    var t := Apply(s, Enqueue(batch));
    assert t.history[t.written..] == s.history[s.written..] + [batch];
    assert Unwritten(t) == Unwritten(s) + [batch];
    assert t.history[..t.written] == s.history[..s.written];
    assert t.history[t.resolved..t.written] == s.history[s.resolved..s.written];
  }

  lemma SwapKeepsInv(s: State)
    requires Inv(s) && Enabled(s, Swap)
    ensures Inv(Apply(s, Swap))
  {
    assert Unwritten(Apply(s, Swap)) == s.queue + [] == s.queue;
    assert Unwritten(s) == [] + s.queue == s.queue;
  }

  lemma ResolveKeepsInv(s: State)
    requires Inv(s) && Enabled(s, Resolve)
    ensures Inv(Apply(s, Resolve))
  {
    assert s.history[s.resolved + 1..s.written] == s.history[s.resolved..s.written][1..];
  }

  lemma RotateKeepsInv(s: State)
    requires Inv(s) && Enabled(s, Rotate)
    ensures Inv(Apply(s, Rotate))
  {
    ConcatSplit(s.closed, [s.open]);
    ConcatOne(s.open);
    assert Frames(Apply(s, Rotate)) == Frames(s);
  }

  lemma NextKeepsInv(s: State, a: Action)
    requires Inv(s) && Enabled(s, a)
    ensures Inv(Apply(s, a))
    ensures Apply(s, a).history == s.history + if a.Enqueue? then [a.batch] else []
  {
    match a
    case Enqueue(batch) => EnqueueKeepsInv(s, batch);
    case Swap => SwapKeepsInv(s);
    case Write => WriteKeepsInv(s);
    case Sync =>
    case Resolve => ResolveKeepsInv(s);
    case Rotate => RotateKeepsInv(s);
    case Stop =>
    case Exit =>
  }

  lemma {:induction false} ReachableInv(run: seq<State>, i: nat)
    requires IsRun(run) && i < |run|
    ensures Inv(run[i])
  {
    if i > 0 {
      ReachableInv(run, i - 1);
      assert Next(run[i - 1], run[i - 1 + 1]);
      var a :| Enabled(run[i - 1], a) && run[i] == Apply(run[i - 1], a);
      NextKeepsInv(run[i - 1], a);
    }
  }

  // ---------------------------------------------------------------- whole runs

  /** Nothing is lost, repeated or reordered: the files, the batch in hand and the
      queue together are always the enqueue history. */
  lemma HistoryConserved(run: seq<State>, i: nat)
    requires IsRun(run) && i < |run|
    ensures OnDisk(run[i]) + (if run[i].phase.Holding? then Concat(run[i].inHand) else []) + Concat(run[i].queue)
         == Concat(run[i].history)
  {
    var s := run[i];
    ReachableInv(run, i);
    var hand := if s.phase.Holding? then s.inHand else [];
    assert s.history == s.history[..s.written] + (hand + s.queue);
    ConcatSplit(s.history[..s.written], hand + s.queue);
    ConcatSplit(hand, s.queue);
    assert OnDisk(s) + (Concat(hand) + Concat(s.queue)) == OnDisk(s) + Concat(hand) + Concat(s.queue);
  }

  /** A future resolves only after its own records and everything enqueued before them
      are in the files and synced: the writer is past its fsync. */
  lemma ResolvedIsOnDisk(run: seq<State>, i: nat)
    requires IsRun(run) && i < |run|
    ensures run[i].resolved <= |run[i].history|
    ensures Concat(run[i].history[..run[i].resolved]) <= Concat(Concat(run[i].closed) + Synced(run[i]))
  {
    var s := run[i];
    ReachableInv(run, i);
    var done, rest := s.history[..s.resolved], s.history[s.resolved..s.written];
    assert s.history[..s.written] == done + rest;
    ConcatSplit(done, rest);
    if s.phase.Written? {
      assert s.open == Synced(s) + [Concat(s.inHand)];
      ConcatGrows(s.(open := Synced(s)), Concat(s.inHand));
      assert s.(open := Synced(s) + [Concat(s.inHand)]) == s;
      assert Concat(done) + Concat(rest) == OnDisk(s);
      assert Concat(done) == OnDisk(s)[..|OnDisk(s)| - |Concat(rest)|];
    } else {
      assert Synced(s) == s.open;
    }
  }

  /** The frames of the open file that an fsync has covered. */
  ghost function Synced(s: State): seq<seq<Bytes>> {
    if s.phase.Written? && s.open != [] then s.open[..|s.open| - 1] else s.open
  }

  /** Stopping drains: when the writer has left its loop, every batch ever enqueued is
      in the files and every future is resolved. */
  lemma StopDrains(run: seq<State>, i: nat)
    requires IsRun(run) && i < |run| && run[i].phase.Exited?
    ensures OnDisk(run[i]) == Concat(run[i].history)
    ensures run[i].resolved == |run[i].history|
  {
    ReachableInv(run, i);
    assert run[i].history[..run[i].written] == run[i].history;
  }

  /** The writer is never stuck: with work left or a stop pending it has a step. */
  lemma WriterNeverStuck(run: seq<State>, i: nat) returns (a: Action)
    requires IsRun(run) && i < |run|
    requires run[i].resolved < |run[i].history| || (run[i].stopped && !run[i].phase.Exited?)
    ensures a.Swap? || a.Write? || a.Sync? || a.Resolve? || a.Exit?
    ensures Enabled(run[i], a)
  {
    ReachableInv(run, i);
    var s := run[i];
    match s.phase {
      case Waiting => a := if s.queue != [] then Swap else Exit;
      case Holding => a := Write;
      case Written => a := Sync;
      case Resolving => a := Resolve;
      case Exited => a := Exit;
    }
  }

  // ---------------------------------------------------------------- crashes

  /** Every file in turn, each up to its first frame over 64 MiB. */
  function ReadFiles(files: seq<Bytes>): Option<seq<Bytes>> {
    if files == [] then Some([]) else
      match ReadFiles(files[..|files| - 1])
      case None => None
      case Some(items) => Prepend(items, Read(files[|files| - 1]))
  }

  /** How many leading frames a file of n bytes holds in full. */
  function Complete(batches: seq<seq<Bytes>>, n: nat): (k: nat)
    ensures k <= |batches|
  {
    if batches == [] || |Frame(batches[0])| > n then 0 else 1 + Complete(batches[1..], n - |Frame(batches[0])|)
  }

  function Images(closed: seq<seq<seq<Bytes>>>): seq<Bytes> {
    seq(|closed|, i requires 0 <= i < |closed| => FileOf(closed[i]))
  }

  /** What is read back when a crash leaves n bytes of the open file. */
  function Recovered(s: State, n: nat): Option<seq<Bytes>>
    requires n <= |FileOf(s.open)|
  {
    ReadFiles(Images(s.closed) + [FileOf(s.open)[..n]])
  }

  ghost predicate AllSmall(batches: seq<seq<Bytes>>) {
    forall i :: 0 <= i < |batches| ==> Small(batches[i])
  }

  lemma {:induction false} ReadableComplete(batches: seq<seq<Bytes>>, n: nat)
    ensures Readable(batches, n) <= Complete(batches, n)
    ensures Readable(batches, n) == Complete(batches, n) <==> AllSmall(batches[..Complete(batches, n)])
  {
    if batches != [] && |Frame(batches[0])| <= n {
      var rest, m := batches[1..], n - |Frame(batches[0])|;
      ReadableComplete(rest, m);
      var c := Complete(rest, m);
      assert batches[..c + 1] == [batches[0]] + rest[..c];
      assert forall i :: 0 <= i < c ==> rest[..c][i] == batches[..c + 1][i + 1];
    }
  }

  lemma {:induction false} CompleteAll(batches: seq<seq<Bytes>>)
    ensures Complete(batches, |FileOf(batches)|) == |batches|
  {
    if batches != [] { CompleteAll(batches[1..]); }
  }

  lemma {:induction false} CompleteAtLeast(batches: seq<seq<Bytes>>, m: nat, n: nat)
    requires m <= |batches| && |FileOf(batches[..m])| <= n
    ensures m <= Complete(batches, n)
  {
    if m > 0 {
      assert batches[..m][1..] == batches[1..][..m - 1];
      CompleteAtLeast(batches[1..], m - 1, n - |Frame(batches[0])|);
    }
  }

  /** What is read of one file compared with the frames it holds in full: never more, and
      all of them exactly if none is over 64 MiB. */
  lemma CutRead(batches: seq<seq<Bytes>>, n: nat)
    requires AllFlushable(batches) && n <= |FileOf(batches)|
    ensures var whole := batches[..Complete(batches, n)]; var read := Read(FileOf(batches)[..n]);
      && read.Some?
      && (AllSmall(whole) ==> read.value == Concat(whole))
      && (!AllSmall(whole) ==> |read.value| < |Concat(whole)|)
  {
    ReadsWholeFrames(batches, n);
    ReadableComplete(batches, n);
    var k, c := Readable(batches, n), Complete(batches, n);
    if k < c {
      assert batches[..c][..k] == batches[..k];
      FewerRecords(batches[..c], k);
    }
  }

  lemma FewerRecords(batches: seq<seq<Bytes>>, k: nat)
    requires AllFlushable(batches) && k < |batches|
    ensures |Concat(batches[..k])| < |Concat(batches)|
  {
    assert batches == batches[..k] + batches[k..];
    ConcatSplit(batches[..k], batches[k..]);
    assert Flushable(batches[k]);
    assert |Concat(batches[k..])| >= |batches[k]|;
  }

  lemma {:induction false} ClosedRead(closed: seq<seq<seq<Bytes>>>)
    requires AllFlushable(Concat(closed))
    ensures var whole := Concat(closed); var read := ReadFiles(Images(closed));
      && read.Some?
      && (AllSmall(whole) ==> read.value == Concat(whole))
      && (!AllSmall(whole) ==> |read.value| < |Concat(whole)|)
  {
    if closed != [] {
      var n := |closed| - 1;
      var init, f := closed[..n], closed[n];
      assert closed == init + [f];
      ConcatSplit(init, [f]);
      ConcatOne(f);
      Halves(Concat(init), f);
      ClosedRead(init);
      CompleteAll(f);
      assert f[..|f|] == f && FileOf(f)[..|FileOf(f)|] == FileOf(f);
      CutRead(f, |FileOf(f)|);
      assert Images(closed)[..n] == Images(init);
      BothRead(ReadFiles(Images(init)).value, Read(FileOf(f)).value, Concat(init), f);
    }
  }

  lemma Halves(xs: seq<seq<Bytes>>, ys: seq<seq<Bytes>>)
    ensures AllFlushable(xs + ys) <==> AllFlushable(xs) && AllFlushable(ys)
    ensures AllSmall(xs + ys) <==> AllSmall(xs) && AllSmall(ys)
  {
    assert forall i :: 0 <= i < |xs| ==> xs[i] == (xs + ys)[i];
    assert forall i :: 0 <= i < |ys| ==> ys[i] == (xs + ys)[|xs| + i];
  }

  lemma BothRead(a: seq<Bytes>, b: seq<Bytes>, xs: seq<seq<Bytes>>, ys: seq<seq<Bytes>>)
    requires (AllSmall(xs) ==> a == Concat(xs)) && (!AllSmall(xs) ==> |a| < |Concat(xs)|)
    requires (AllSmall(ys) ==> b == Concat(ys)) && (!AllSmall(ys) ==> |b| < |Concat(ys)|)
    ensures AllSmall(xs + ys) ==> a + b == Concat(xs + ys)
    ensures !AllSmall(xs + ys) ==> |a + b| < |Concat(xs + ys)|
  {
    Halves(xs, ys);
    ConcatSplit(xs, ys);
  }

  /** A crash can cut the open file anywhere behind its last synced frame. The frames left
      whole are a prefix of the enqueue history that contains every batch whose future was
      resolved, and reading all files gives back exactly those frames if and only if none
      of them is over 64 MiB; otherwise records are missing. */
  lemma CrashExactly(run: seq<State>, i: nat, n: nat)
    requires IsRun(run) && i < |run| && AllFlushable(Frames(run[i]))
    requires |FileOf(Synced(run[i]))| <= n <= |FileOf(run[i].open)|
    ensures var s := run[i]; var whole := Whole(s, n); var read := Recovered(s, n);
      && s.resolved <= |s.history|
      && Concat(s.history[..s.resolved]) <= Concat(whole) <= Concat(s.history)
      && read.Some?
      && (read.value == Concat(whole) <==> AllSmall(whole))
      && |read.value| <= |Concat(whole)|
  {
    WholeIsPrefix(run, i, n);
    RecoveredExactly(run[i], n);
  }

  lemma WholeIsPrefix(run: seq<State>, i: nat, n: nat)
    requires IsRun(run) && i < |run| && |FileOf(Synced(run[i]))| <= n
    ensures run[i].resolved <= |run[i].history|
    ensures Concat(run[i].history[..run[i].resolved]) <= Concat(Whole(run[i], n)) <= Concat(run[i].history)
  {
    ReachableInv(run, i);
    ResolvedIsOnDisk(run, i);
    WholeBounds(run[i], n);
    WrittenIsPrefix(run[i]);
  }

  lemma WholeBounds(s: State, n: nat)
    requires |FileOf(Synced(s))| <= n
    ensures Concat(Concat(s.closed) + Synced(s)) <= Concat(Whole(s, n)) <= OnDisk(s)
  {
    var m, c := |Synced(s)|, Complete(s.open, n);
    assert Synced(s) == s.open[..m] && s.open[..|s.open|] == s.open;
    CompleteAtLeast(s.open, m, n);
    MoreFrames(Concat(s.closed), s.open, m, c);
    MoreFrames(Concat(s.closed), s.open, c, |s.open|);
  }

  /** The frames that n bytes of the open file leave whole, behind the closed files. */
  ghost function Whole(s: State, n: nat): seq<seq<Bytes>> {
    Concat(s.closed) + s.open[..Complete(s.open, n)]
  }

  lemma RecoveredExactly(s: State, n: nat)
    requires AllFlushable(Frames(s)) && n <= |FileOf(s.open)|
    ensures Recovered(s, n).Some?
    ensures AllSmall(Whole(s, n)) ==> Recovered(s, n).value == Concat(Whole(s, n))
    ensures !AllSmall(Whole(s, n)) ==> |Recovered(s, n).value| < |Concat(Whole(s, n))|
  {
    Halves(Concat(s.closed), s.open);
    ClosedRead(s.closed);
    CutRead(s.open, n);
    var files, last := Images(s.closed), FileOf(s.open)[..n];
    assert (files + [last])[..|files|] == files;
    BothRead(ReadFiles(files).value, Read(last).value, Concat(s.closed), s.open[..Complete(s.open, n)]);
  }

  /** With the writer at rest: every batch ever resolved, and nothing else, is read back
      if and only if no frame is over 64 MiB. */
  lemma SettledExactly(run: seq<State>, i: nat)
    requires IsRun(run) && i < |run| && AllFlushable(Frames(run[i]))
    requires run[i].phase.Waiting? || run[i].phase.Exited?
    ensures var s := run[i];
      && s.resolved <= |s.history|
      && (Recovered(s, |FileOf(s.open)|) == Some(Concat(s.history[..s.resolved])) <==> AllSmall(Frames(s)))
  {
    var s := run[i];
    ReachableInv(run, i);
    RecoveredExactly(s, |FileOf(s.open)|);
    CompleteAll(s.open);
    assert s.open[..|s.open|] == s.open;
  }

  /** The writer packs the whole queue into one frame: two batches that are small on their
      own, enqueued together, are resolved and not read back if their frame is too large. */
  lemma PackedBatchesLost(a: seq<Bytes>, b: seq<Bytes>) returns (run: seq<State>)
    requires a != [] && b != [] && Small(a) && Small(b)
    requires Flushable(a + b) && !Small(a + b)
    ensures IsRun(run)
    ensures var s := run[|run| - 1];
      && s.history == [a] + [b] && s.resolved == 2
      && Recovered(s, |FileOf(s.open)|) == Some([])
  {
    run := PackedRun(a, b);
    FrameUnread(a + b);
    var file := FileOf([a + b]);
    assert Images([]) + [file[..|file|]] == [file[..|file|]];
  }

  lemma PackedRun(a: seq<Bytes>, b: seq<Bytes>) returns (run: seq<State>)
    requires a != [] && b != []
    ensures IsRun(run)
    ensures run[|run| - 1] == State([a] + [b], [], [], Waiting, [], [a + b], 2, 2, false)
  {
    var s0 := Init();
    var s1 := Apply(s0, Enqueue(a));
    var s2 := Apply(s1, Enqueue(b));
    var s3 := Apply(s2, Swap);
    var s4 := Apply(s3, Write);
    var s5 := Apply(s4, Sync);
    var s6 := Apply(s5, Resolve);
    var s7 := Apply(s6, Resolve);
    run := [s0, s1, s2, s3, s4, s5, s6, s7];
    assert Next(s0, s1) && Next(s1, s2) && Next(s2, s3) && Next(s3, s4);
    assert Next(s4, s5) && Next(s5, s6) && Next(s6, s7);
    assert [] + [a] == [a] && [] + [a + b] == [a + b];
    ConcatSplit([a], [b]);
    ConcatOne(a);
    ConcatOne(b);
    assert s3.inHand == [a] + [b] && s7.open == [a + b];
  }

  lemma FrameUnread(items: seq<Bytes>)
    requires Flushable(items) && !Small(items)
    ensures var file := FileOf([items]); ReadFiles([file[..|file|]]) == Some([])
  {
    FileOne(items);
    ReadFrame(items, []);
    var file := Frame(items);
    assert file + [] == file && file[..|file|] == file;
    ReadOne(file);
  }

  lemma ReadOne(file: Bytes)
    ensures ReadFiles([file]) == Read(file)
  {
    var files: seq<Bytes> := [file];
    assert files[..0] == [];
    PrependNothing(Read(file));
  }

  /** Such batches exist. */
  lemma LargeBatches() returns (a: seq<Bytes>)
    ensures a != [] && Small(a) && Flushable(a + a) && !Small(a + a)
    ensures |Encode(a)| == 64 * 1024 * 1024
  {
    var x: Bytes := seq(MAX_FRAME - HEADER, _ => 0);
    a := [x];
    EncodeOne(x);
    EncodeSnoc([x], x);
  }

  lemma MoreFrames(closed: seq<seq<Bytes>>, open: seq<seq<Bytes>>, m: nat, k: nat)
    requires m <= k <= |open|
    ensures Concat(closed + open[..m]) <= Concat(closed + open[..k])
  {
    assert closed + open[..k] == (closed + open[..m]) + open[m..k];
    ConcatSplit(closed + open[..m], open[m..k]);
  }

  lemma WrittenIsPrefix(s: State)
    requires Inv(s)
    ensures OnDisk(s) <= Concat(s.history)
  {
    assert s.history == s.history[..s.written] + s.history[s.written..];
    ConcatSplit(s.history[..s.written], s.history[s.written..]);
  }
}
