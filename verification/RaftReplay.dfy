/**
  Raft's log records and their replay: entries and truncations in the order they
  were written, the filter that recovery applies at a checkpoint, and when the
  filtered replay rebuilds the log. Truncation follows section 5.3 of the extended
  Raft paper, compaction at a checkpoint section 7.
 */
module RaftReplay {
  import opened Common

  /** A truncation is stored under the last index that remains, `keep`. */
  datatype Record =
    | Entry(index: nat, term: nat, command: string)
    | Truncation(keep: nat)
  {
    function SeqNo(): nat { if Entry? then index else keep }
  }

  type History = seq<Record>

  /** One record applied to a log whose entries follow index `base`: AddToLog appends
      whatever it is given, TruncateLog erases from keep + 1 on; None where its
      asserts on the range would fail. */
  function Apply(base: nat, log: seq<Record>, r: Record): Option<seq<Record>> {
    match r
    case Entry(_, _, _) => Some(log + [r])
    case Truncation(keep) =>
      if base <= keep < base + |log| then Some(log[..keep - base]) else None
  }

  function Play(base: nat, h: History): Option<seq<Record>> {
    if h == [] then Some([]) else
      match Play(base, h[..|h| - 1])
      case None => None
      case Some(log) => Apply(base, log, h[|h| - 1])
  }

  /** A replay goes on past a truncation exactly if it cuts inside the log built so far, and
      past every entry. */
  lemma PlaysOn(base: nat, h: History, r: Record)
    requires Play(base, h).Some?
    ensures Play(base, h + [r]).Some? <==> (r.Truncation? ==> base <= r.keep < base + |Play(base, h).value|)
  {
    assert (h + [r])[..|h|] == h;
  }

  /** What Raft writes: each entry gets the next index, each truncation cuts inside
      the log. */
  predicate Contiguous(h: History) {
    h == [] ||
    (var init, r := h[..|h| - 1], h[|h| - 1];
     Contiguous(init) && Play(0, init).Some? && Writable(Play(0, init).value, r))
  }

  lemma {:induction false} ContiguousPlays(h: History)
    requires Contiguous(h)
    ensures Play(0, h).Some?
  {
  }

  function Log(h: History): seq<Record>
    requires Contiguous(h)
  {
    ContiguousPlays(h);
    Play(0, h).value
  }

  /** The i-th record wrote index j and no later truncation cut it. */
  ghost predicate Standing(h: History, j: nat, i: int) {
    && 0 <= i < |h| && h[i].Entry? && h[i].index == j
    && forall k :: i < k < |h| && h[k].Truncation? ==> j <= h[k].keep
  }

  /** The log holds at an index exactly what was written there and not cut since. */
  lemma {:induction false} LogExactly(h: History, j: nat)
    requires Contiguous(h) && j >= 1
    ensures j <= |Log(h)| <==> exists i :: Standing(h, j, i)
    ensures forall i :: Standing(h, j, i) ==> j <= |Log(h)| && Log(h)[j - 1] == h[i]
  {
    if h != [] {
      var n := |h| - 1;
      var init, r := h[..n], h[n];
      LogExactly(init, j);
      forall i | i < n ensures Standing(h, j, i) <==> Standing(init, j, i) && (r.Truncation? ==> j <= r.keep) {
        StandingSnoc(init, r, j, i);
        assert h == init + [r];
      }
      if j <= |Log(h)| && !(r.Entry? && r.index == j) {
        var i :| Standing(init, j, i);
        assert Standing(h, j, i);
      }
      if r.Entry? && r.index == j { assert Standing(h, j, n); }
    }
  }

  lemma StandingSnoc(h: History, r: Record, j: nat, i: int)
    requires i < |h|
    ensures Standing(h + [r], j, i) <==> Standing(h, j, i) && (r.Truncation? ==> j <= r.keep)
  {
    var all := h + [r];
    assert all[|h|] == r && forall k :: 0 <= k < |h| ==> all[k] == h[k];
  }

  // ---------------------------------------------------------------- filtered replay

  /** PerformCallback's test: above the checkpoint, or a truncation right at it. */
  predicate Kept(ckpt: int, r: Record) {
    ckpt < r.SeqNo() || (ckpt == r.SeqNo() && r.Truncation?)
  }

  function KeptBy(ckpt: int): Record -> bool { (r: Record) => Kept(ckpt, r) }

  /** The log that recovery builds on a snapshot ending at `ckpt`. */
  function Recovered(ckpt: nat, h: History): Option<seq<Record>> {
    Play(ckpt, Filter(KeptBy(ckpt), h))
  }

  /** The part of a log above the checkpoint. */
  function Above(ckpt: nat, log: seq<Record>): seq<Record> {
    if ckpt <= |log| then log[ckpt..] else []
  }

  /** A truncation below the checkpoint of a log that reaches past it. */
  predicate CutsLow(ckpt: nat, h: History, r: Record) {
    r.Truncation? && r.keep < ckpt && Contiguous(h) && ckpt < |Log(h)|
  }

  predicate NoLowTruncation(ckpt: nat, h: History) {
    h == [] || (NoLowTruncation(ckpt, h[..|h| - 1]) && !CutsLow(ckpt, h[..|h| - 1], h[|h| - 1]))
  }

  /** Playing `g` on the snapshot gives exactly the log of `h` above the checkpoint. */
  predicate Agrees(ckpt: nat, g: History, h: History) {
    Contiguous(h) && Play(ckpt, g) == Some(Above(ckpt, Log(h)))
  }

  ghost predicate Faithful(ckpt: nat, h: History)
    requires Contiguous(h)
  {
    Agrees(ckpt, Filter(KeptBy(ckpt), h), h)
  }

  /** Recovery is faithful at every point where a crash can cut the history. */
  ghost predicate FaithfulAtEveryCrash(ckpt: nat, h: History)
    requires Contiguous(h)
  {
    Faithful(ckpt, h) && (h == [] || FaithfulAtEveryCrash(ckpt, h[..|h| - 1]))
  }

  lemma PlaySnoc(base: nat, h: History, r: Record)
    ensures Play(base, h + [r]) == if Play(base, h).None? then None else Apply(base, Play(base, h).value, r)
  {
    assert (h + [r])[..|h|] == h;
  }

  lemma WriteSnoc(h: History, r: Record)
    requires Contiguous(h) && Writable(Log(h), r)
    ensures Contiguous(h + [r]) && Log(h + [r]) == Apply(0, Log(h), r).value
  {
    assert (h + [r])[..|h|] == h;
  }

  lemma RecoveredSnoc(ckpt: nat, h: History, r: Record)
    ensures Recovered(ckpt, h + [r]) ==
      if !Kept(ckpt, r) then Recovered(ckpt, h)
      else if Recovered(ckpt, h).None? then None
      else Apply(ckpt, Recovered(ckpt, h).value, r)
  {
    FilterSnoc(KeptBy(ckpt), h, r);
    PlaySnoc(ckpt, Filter(KeptBy(ckpt), h), r);
  }

  /** What Raft may write next on this log. */
  predicate Writable(log: seq<Record>, r: Record) {
    match r
    case Entry(index, _, _) => index == |log| + 1
    case Truncation(keep) => keep < |log|
  }

  /** A kept record acts on the part above the checkpoint as it acts on the log. */
  lemma KeptStep(ckpt: nat, log: seq<Record>, r: Record)
    requires Writable(log, r) && Kept(ckpt, r)
    ensures Apply(ckpt, Above(ckpt, log), r) == Some(Above(ckpt, Apply(0, log, r).value))
  {
    match r
    case Entry(_, _, _) => assert Above(ckpt, log + [r]) == Above(ckpt, log) + [r];
    case Truncation(keep) => assert Above(ckpt, log[..keep]) == Above(ckpt, log)[..keep - ckpt];
  }

  /** A dropped record leaves that part alone unless it is a low truncation that cuts it. */
  lemma DroppedStep(ckpt: nat, log: seq<Record>, r: Record)
    requires Writable(log, r) && !Kept(ckpt, r)
    ensures Above(ckpt, Apply(0, log, r).value) == Above(ckpt, log) <==> !(r.Truncation? && |log| > ckpt)
  {
    match r
    case Entry(_, _, _) => assert Above(ckpt, log + [r]) == Above(ckpt, log);
    case Truncation(keep) => assert Above(ckpt, log[..keep]) == [];
  }

  /** One more record keeps a replay in step unless it is a low truncation that cuts. */
  lemma StepAgrees(ckpt: nat, g: History, h: History, r: Record)
    requires Agrees(ckpt, g, h) && Writable(Log(h), r)
    ensures Agrees(ckpt, if Kept(ckpt, r) then g + [r] else g, h + [r]) <==> !CutsLow(ckpt, h, r)
  {
    WriteSnoc(h, r);
    if Kept(ckpt, r) {
      PlaySnoc(ckpt, g, r);
      KeptStep(ckpt, Log(h), r);
    } else {
      DroppedStep(ckpt, Log(h), r);
    }
  }

  lemma StepFaithful(ckpt: nat, h: History, r: Record)
    requires Contiguous(h + [r]) && Contiguous(h) && Faithful(ckpt, h)
    ensures Faithful(ckpt, h + [r]) <==> !CutsLow(ckpt, h, r)
  {
    assert (h + [r])[..|h|] == h;
    FilterSnoc(KeptBy(ckpt), h, r);
    StepAgrees(ckpt, Filter(KeptBy(ckpt), h), h, r);
  }

  /** Replaying only entries above the checkpoint and truncations at or above it
      rebuilds exactly the log above the checkpoint, at every crash point, if and only
      if no truncation below the checkpoint was written while the log reached past it. */
  lemma {:induction false} ReplayExactly(ckpt: nat, h: History)
    requires Contiguous(h)
    ensures FaithfulAtEveryCrash(ckpt, h) <==> NoLowTruncation(ckpt, h)
  {
    if h == [] {
      assert Above(ckpt, []) == [];
    } else {
      var init, r := h[..|h| - 1], h[|h| - 1];
      ReplayExactly(ckpt, init);
      if FaithfulAtEveryCrash(ckpt, init) {
        assert h == init + [r];
        FaithfulNow(ckpt, init);
        StepFaithful(ckpt, init, r);
      }
    }
  }

  lemma FaithfulNow(ckpt: nat, h: History)
    requires Contiguous(h) && FaithfulAtEveryCrash(ckpt, h)
    ensures Faithful(ckpt, h)
  {
  }

  // ---------------------------------------------------------------- histories in parts

  /** What was written before a point was written properly. */
  lemma {:induction false} ContiguousPrefix(h: History, rs: seq<Record>)
    requires Contiguous(h + rs)
    ensures Contiguous(h)
  {
    if rs == [] {
      assert h + rs == h;
    } else {
      assert (h + rs)[..|h + rs| - 1] == h + rs[..|rs| - 1];
      ContiguousPrefix(h, rs[..|rs| - 1]);
    }
  }

  lemma ContiguousAt(h: History, rs: seq<Record>, n: nat)
    requires Contiguous(h + rs) && n < |rs|
    ensures Contiguous(h + rs[..n]) && Writable(Log(h + rs[..n]), rs[n])
    ensures h + rs[..n + 1] == h + rs[..n] + [rs[n]]
  {
    assert h + rs == h + rs[..n + 1] + rs[n + 1..];
    assert h + rs[..n + 1] == h + rs[..n] + [rs[n]];
    ContiguousPrefix(h + rs[..n + 1], rs[n + 1..]);
    assert (h + rs[..n] + [rs[n]])[..|h| + n] == h + rs[..n];
  }

  lemma WriteBehind(h: History, rs: seq<Record>, r: Record)
    requires Contiguous(h + rs) && Writable(Log(h + rs), r)
    ensures Contiguous(h + (rs + [r])) && Log(h + (rs + [r])) == Apply(0, Log(h + rs), r).value
  {
    assert h + (rs + [r]) == h + rs + [r];
    WriteSnoc(h + rs, r);
  }

  /** No record of `rs`, written behind `h`, cuts low. */
  ghost predicate NoCuts(ckpt: nat, h: History, rs: seq<Record>) {
    forall n :: 0 <= n < |rs| ==> !CutsLow(ckpt, h + rs[..n], rs[n])
  }

  lemma NoCutsSnoc(ckpt: nat, h: History, rs: seq<Record>, r: Record)
    ensures NoCuts(ckpt, h, rs + [r]) <==> NoCuts(ckpt, h, rs) && !CutsLow(ckpt, h + rs, r)
  {
    var all := rs + [r];
    assert all[..|rs|] == rs;
    assert forall n :: 0 <= n < |rs| ==> all[..n] == rs[..n] && all[n] == rs[n];
    assert CutsLow(ckpt, h + all[..|rs|], all[|rs|]) <==> CutsLow(ckpt, h + rs, r);
  }

  lemma {:induction false} NoLowSplit(ckpt: nat, h: History, rs: seq<Record>)
    ensures NoLowTruncation(ckpt, h + rs) <==> NoLowTruncation(ckpt, h) && NoCuts(ckpt, h, rs)
  {
    if rs == [] {
      assert h + rs == h;
    } else {
      var n := |rs| - 1;
      NoLowSplit(ckpt, h, rs[..n]);
      assert rs == rs[..n] + [rs[n]];
      NoCutsSnoc(ckpt, h, rs[..n], rs[n]);
      assert (h + rs)[..|h + rs| - 1] == h + rs[..n];
    }
  }

  /** A replay that stays in step through every record of `rs`. */
  ghost predicate AgreesThrough(ckpt: nat, g: History, h: History, rs: seq<Record>) {
    forall n :: 0 <= n <= |rs| ==> AgreesBehind(ckpt, g, h, rs[..n])
  }

  predicate AgreesBehind(ckpt: nat, g: History, h: History, rs: seq<Record>) {
    Agrees(ckpt, g + Filter(KeptBy(ckpt), rs), h + rs)
  }

  lemma AgreesSnoc(ckpt: nat, g: History, h: History, rs: seq<Record>, r: Record)
    ensures AgreesThrough(ckpt, g, h, rs + [r]) <==>
      AgreesThrough(ckpt, g, h, rs) && AgreesBehind(ckpt, g, h, rs + [r])
  {
    var all := rs + [r];
    assert all[..|all|] == all;
    assert forall n :: 0 <= n <= |rs| ==> all[..n] == rs[..n];
  }

  lemma AgreesLast(ckpt: nat, g: History, h: History, rs: seq<Record>)
    requires AgreesThrough(ckpt, g, h, rs)
    ensures Agrees(ckpt, g + Filter(KeptBy(ckpt), rs), h + rs)
  {
    assert rs[..|rs|] == rs;
  }

  /** Replayed records keep a replay in step, one after the other, if and only if none of
      them cuts low. */
  lemma {:induction false} ThroughExactly(ckpt: nat, g: History, h: History, rs: seq<Record>)
    requires Agrees(ckpt, g, h) && Contiguous(h + rs)
    ensures AgreesThrough(ckpt, g, h, rs) <==> NoCuts(ckpt, h, rs)
  {
    if rs == [] {
      assert g + Filter(KeptBy(ckpt), rs[..0]) == g && h + rs[..0] == h;
    } else {
      var n := |rs| - 1;
      ContiguousAt(h, rs, n);
      ThroughExactly(ckpt, g, h, rs[..n]);
      ThroughSnoc(ckpt, g, h, rs[..n], rs[n]);
      assert rs == rs[..n] + [rs[n]];
    }
  }

  lemma ThroughSnoc(ckpt: nat, g: History, h: History, rs: seq<Record>, r: Record)
    requires Contiguous(h + rs) && Writable(Log(h + rs), r)
    requires AgreesThrough(ckpt, g, h, rs) <==> NoCuts(ckpt, h, rs)
    ensures AgreesThrough(ckpt, g, h, rs + [r]) <==> NoCuts(ckpt, h, rs + [r])
  {
    NoCutsSnoc(ckpt, h, rs, r);
    AgreesSnoc(ckpt, g, h, rs, r);
    if AgreesThrough(ckpt, g, h, rs) {
      AgreesLast(ckpt, g, h, rs);
      ThroughStep(ckpt, g, h, rs, r);
    }
  }

  lemma ThroughStep(ckpt: nat, g: History, h: History, rs: seq<Record>, r: Record)
    requires Contiguous(h + rs) && Writable(Log(h + rs), r)
    requires Agrees(ckpt, g + Filter(KeptBy(ckpt), rs), h + rs)
    ensures Agrees(ckpt, g + Filter(KeptBy(ckpt), rs + [r]), h + (rs + [r])) <==> !CutsLow(ckpt, h + rs, r)
  {
    FilterBehind(ckpt, g, rs, r);
    assert h + rs + [r] == h + (rs + [r]);
    StepAgrees(ckpt, g + Filter(KeptBy(ckpt), rs), h + rs, r);
  }

  lemma FilterBehind(ckpt: nat, g: History, rs: seq<Record>, r: Record)
    ensures var played := g + Filter(KeptBy(ckpt), rs);
      g + Filter(KeptBy(ckpt), rs + [r]) == if Kept(ckpt, r) then played + [r] else played
  {
    FilterSnoc(KeptBy(ckpt), rs, r);
  }

  /** Records that leave the log above the checkpoint as it was. */
  ghost predicate Untouched(ckpt: nat, h: History, rs: seq<Record>) {
    Contiguous(h) && Contiguous(h + rs) && Above(ckpt, Log(h + rs)) == Above(ckpt, Log(h))
  }

  /** Records that a replay drops leave the log above the checkpoint if none cuts low. */
  lemma {:induction false} DroppedThrough(ckpt: nat, h: History, rs: seq<Record>)
    requires Contiguous(h + rs) && Contiguous(h) && NoCuts(ckpt, h, rs) && Filter(KeptBy(ckpt), rs) == []
    ensures Untouched(ckpt, h, rs)
  {
    if rs == [] {
      assert h + rs == h;
    } else {
      var n := |rs| - 1;
      assert rs == rs[..n] + [rs[n]];
      ContiguousAt(h, rs, n);
      DroppedSnoc(ckpt, h, rs[..n], rs[n]);
      DroppedThrough(ckpt, h, rs[..n]);
      DroppedNext(ckpt, h, rs[..n], rs[n]);
    }
  }

  lemma DroppedSnoc(ckpt: nat, h: History, rs: seq<Record>, r: Record)
    requires NoCuts(ckpt, h, rs + [r]) && Filter(KeptBy(ckpt), rs + [r]) == []
    ensures NoCuts(ckpt, h, rs) && Filter(KeptBy(ckpt), rs) == [] && !Kept(ckpt, r) && !CutsLow(ckpt, h + rs, r)
  {
    NoCutsSnoc(ckpt, h, rs, r);
    FilterSnoc(KeptBy(ckpt), rs, r);
  }

  lemma DroppedNext(ckpt: nat, h: History, rs: seq<Record>, r: Record)
    requires Untouched(ckpt, h, rs) && Writable(Log(h + rs), r) && !Kept(ckpt, r) && !CutsLow(ckpt, h + rs, r)
    ensures Untouched(ckpt, h, rs + [r])
  {
    WriteBehind(h, rs, r);
    DroppedStep(ckpt, Log(h + rs), r);
  }

  /** Passing over records keeps a replay in step exactly if they leave it untouched. */
  lemma UntouchedAgrees(ckpt: nat, g: History, h: History, rs: seq<Record>)
    requires Agrees(ckpt, g, h) && Contiguous(h + rs)
    ensures Agrees(ckpt, g, h + rs) <==> Untouched(ckpt, h, rs)
  {
  }

  // ---------------------------------------------------------------- what one file leaves

  ghost function LiveAfter(live: set<int>, r: Record): set<int> {
    match r
    case Entry(index, _, _) => live + {index}
    case Truncation(keep) => set i | i in live && i <= keep
  }

  /** The indices that these records wrote and did not cut again. */
  ghost function Live(rs: seq<Record>): set<int> {
    if rs == [] then {} else LiveAfter(Live(rs[..|rs| - 1]), rs[|rs| - 1])
  }

  lemma LiveSnoc(rs: seq<Record>, r: Record)
    ensures Live(rs + [r]) == LiveAfter(Live(rs), r)
  {
    assert (rs + [r])[..|rs|] == rs;
  }

  /** What the log holds after `rs` was written there and is live, or was there before. */
  ghost predicate LiveOrOld(before: seq<Record>, after: seq<Record>, live: set<int>) {
    && (forall i :: i in live ==> 1 <= i <= |after|)
    && forall i :: 1 <= i <= |after| && i !in live ==> i <= |before| && after[i - 1] == before[i - 1]
  }

  lemma LiveStep(before: seq<Record>, log: seq<Record>, live: set<int>, r: Record)
    requires LiveOrOld(before, log, live) && Writable(log, r)
    ensures LiveOrOld(before, Apply(0, log, r).value, LiveAfter(live, r))
  {
  }

  lemma {:induction false} LiveExactly(h: History, rs: seq<Record>)
    requires Contiguous(h) && Contiguous(h + rs)
    ensures LiveOrOld(Log(h), Log(h + rs), Live(rs))
  {
    if rs == [] {
      assert h + rs == h;
    } else {
      var n := |rs| - 1;
      ContiguousAt(h, rs, n);
      LiveExactly(h, rs[..n]);
      assert rs == rs[..n] + [rs[n]];
      LiveNow(h, rs[..n], rs[n]);
    }
  }

  lemma LiveNow(h: History, rs: seq<Record>, r: Record)
    requires Contiguous(h) && Contiguous(h + rs) && LiveOrOld(Log(h), Log(h + rs), Live(rs))
    requires Contiguous(h + (rs + [r])) && Writable(Log(h + rs), r)
    ensures LiveOrOld(Log(h), Log(h + (rs + [r])), Live(rs + [r]))
  {
    LiveSnoc(rs, r);
    LiveStep(Log(h), Log(h + rs), Live(rs), r);
    WriteBehind(h, rs, r);
  }

  /** Every live index above the checkpoint holds what it held before. */
  ghost predicate SameWritten(ckpt: nat, before: seq<Record>, after: seq<Record>, live: set<int>) {
    forall i :: i in live && ckpt < i <= |after| && i <= |before| ==> after[i - 1] == before[i - 1]
  }

  /** Records leave the log above the checkpoint as it was if and only if it is as long as
      before and every index they wrote holds what it held. */
  lemma UnchangedExactly(ckpt: nat, h: History, rs: seq<Record>)
    requires Contiguous(h) && Contiguous(h + rs)
    ensures var before, after := Log(h), Log(h + rs);
      Above(ckpt, after) == Above(ckpt, before) <==>
        |Above(ckpt, after)| == |Above(ckpt, before)| && SameWritten(ckpt, before, after, Live(rs))
  {
    LiveExactly(h, rs);
    SameAbove(ckpt, Log(h), Log(h + rs), Live(rs));
  }

  lemma SameAbove(ckpt: nat, before: seq<Record>, after: seq<Record>, live: set<int>)
    requires LiveOrOld(before, after, live)
    ensures Above(ckpt, after) == Above(ckpt, before) <==>
      |Above(ckpt, after)| == |Above(ckpt, before)| && SameWritten(ckpt, before, after, live)
  {
    var a, b := Above(ckpt, after), Above(ckpt, before);
    if a == b {
      forall i | i in live && ckpt < i <= |after| && i <= |before| ensures after[i - 1] == before[i - 1] {
        assert a[i - 1 - ckpt] == b[i - 1 - ckpt];
      }
    }
    if |a| == |b| && SameWritten(ckpt, before, after, live) {
      forall j | 0 <= j < |a| ensures a[j] == b[j] {
        var i := ckpt + j + 1;
        assert a[j] == after[i - 1] && b[j] == before[i - 1];
        assert i in live || i !in live;
      }
    }
  }

  // ---------------------------------------------------------------- low truncations

  /** The failing family: rewriting the last checkpointed index of a log that reaches
      past the checkpoint. The truncation is dropped, so everything it cut comes back in
      front of the entry that replaced it. */
  lemma LowTruncationResurrects(ckpt: nat, h: History, e1: Record, e2: Record)
    requires Contiguous(h) && Faithful(ckpt, h) && 0 < ckpt < |Log(h)|
    requires e1.Entry? && e1.index == ckpt && e2.Entry? && e2.index == ckpt + 1
    ensures var g := h + [Truncation(ckpt - 1)] + [e1] + [e2];
      && Contiguous(g)
      && Above(ckpt, Log(g)) == [e2]
      && Recovered(ckpt, g) == Some(Above(ckpt, Log(h)) + [e2])
  {
    RewrittenLog(ckpt, h, e1, e2);
    RewrittenReplay(ckpt, h, e1, e2);
  }

  lemma RewrittenLog(ckpt: nat, h: History, e1: Record, e2: Record)
    requires Contiguous(h) && 0 < ckpt < |Log(h)|
    requires e1.Entry? && e1.index == ckpt && e2.Entry? && e2.index == ckpt + 1
    ensures var g := h + [Truncation(ckpt - 1)] + [e1] + [e2]; Contiguous(g) && Above(ckpt, Log(g)) == [e2]
  {
    var r := Truncation(ckpt - 1);
    WriteSnoc(h, r);
    WriteSnoc(h + [r], e1);
    WriteSnoc(h + [r] + [e1], e2);
    assert Above(ckpt, Log(h)[..ckpt - 1] + [e1] + [e2]) == [e2];
  }

  lemma RewrittenReplay(ckpt: nat, h: History, e1: Record, e2: Record)
    requires Recovered(ckpt, h).Some? && 0 < ckpt
    requires e1.Entry? && e1.index == ckpt && e2.Entry? && e2.index == ckpt + 1
    ensures Recovered(ckpt, h + [Truncation(ckpt - 1)] + [e1] + [e2]) == Some(Recovered(ckpt, h).value + [e2])
  {
    var r := Truncation(ckpt - 1);
    RecoveredSnoc(ckpt, h, r);
    RecoveredSnoc(ckpt, h + [r], e1);
    RecoveredSnoc(ckpt, h + [r] + [e1], e2);
  }

  /** Concretely: two entries, the log cut back to nothing, checkpoint 1. The second
      entry is recovered although the log no longer holds it. */
  lemma LowTruncationExample(a: string, b: string)
    ensures var h := [Entry(1, 1, a)] + [Entry(2, 1, b)] + [Truncation(0)];
      Contiguous(h) && Log(h) == [] && Recovered(1, h) == Some([Entry(2, 1, b)])
  {
    var e1, e2, r := Entry(1, 1, a), Entry(2, 1, b), Truncation(0);
    var h := [e1] + [e2];
    TwoEntries(e1, e2);
    WriteSnoc(h, r);
    RecoveredSnoc(1, h, r);
    RecoveredEntries(1, e1, e2);
  }

  lemma TwoEntries(e1: Record, e2: Record)
    requires e1.Entry? && e1.index == 1 && e2.Entry? && e2.index == 2
    ensures Contiguous([e1] + [e2]) && Log([e1] + [e2]) == [e1] + [e2]
  {
    assert [] + [e1] == [e1];
    WriteSnoc([], e1);
    WriteSnoc([e1], e2);
  }

  lemma RecoveredEntries(ckpt: nat, e1: Record, e2: Record)
    requires e1.Entry? && e2.Entry? && e1.index <= ckpt < e2.index
    ensures Recovered(ckpt, [e1] + [e2]) == Some([e2])
  {
    assert [] + [e1] == [e1] && [] + [e2] == [e2];
    RecoveredSnoc(ckpt, [], e1);
    RecoveredSnoc(ckpt, [e1], e2);
  }
}
