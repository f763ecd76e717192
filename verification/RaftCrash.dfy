/**
  The write-ahead log and its files together: after a crash, the log that Raft rebuilds
  from the files that recovery chooses, and which of the entries whose futures were
  resolved it holds.
 */
module RaftCrash {
  import opened Common
  import opened LogFiles
  import FileNames
  import Framing
  import GC = GroupCommit
  import RF = RaftFiles
  import RR = RaftReplay

  /** How a serialised record is parsed. */
  type Parser = Bytes -> RR.Record

  function Parsed(parse: Parser, items: seq<Bytes>): seq<RR.Record> {
    seq(|items|, i requires 0 <= i < |items| => parse(items[i]))
  }

  function ReadBack(image: Bytes): seq<Bytes> {
    match Framing.Read(image)
    case None => []
    case Some(items) => items
  }

  /** Files read back under their names. */
  function Reread(parse: Parser, infos: seq<FileNames.Info>, images: seq<Bytes>): seq<Log<RR.Record>>
    requires |infos| == |images|
  {
    seq(|images|, i requires 0 <= i < |images| => Log(infos[i], Parsed(parse, ReadBack(images[i]))))
  }

  /** What a crash that leaves n bytes of the open file leaves on disk. */
  function AfterCrash(parse: Parser, infos: seq<FileNames.Info>, s: GC.State, n: nat): seq<Log<RR.Record>>
    requires n <= |Framing.FileOf(s.open)| && |infos| == |s.closed| + 1
  {
    Reread(parse, infos, GC.Images(s.closed) + [Framing.FileOf(s.open)[..n]])
  }

  // ---------------------------------------------------------------- what is read back

  ghost predicate Holds(image: Bytes, frames: seq<seq<Bytes>>) {
    Framing.Read(image) == Some(Framing.Concat(frames))
  }

  lemma ParsedSplit(parse: Parser, xs: seq<Bytes>, ys: seq<Bytes>)
    ensures Parsed(parse, xs + ys) == Parsed(parse, xs) + Parsed(parse, ys)
  {
  }

  lemma ParsedPrefix(parse: Parser, xs: seq<Bytes>, ys: seq<Bytes>)
    requires xs <= ys
    ensures Parsed(parse, xs) <= Parsed(parse, ys)
  {
  }

  lemma {:induction false} RereadRecords(parse: Parser, infos: seq<FileNames.Info>, images: seq<Bytes>, frames: seq<seq<seq<Bytes>>>)
    requires |infos| == |images| == |frames| && forall i :: 0 <= i < |images| ==> Holds(images[i], frames[i])
    ensures AllRecords(Reread(parse, infos, images)) == Parsed(parse, Framing.Concat(Framing.Concat(frames)))
  {
    if images != [] {
      var k := |images| - 1;
      var front, last := Reread(parse, infos[..k], images[..k]), Log(infos[k], Parsed(parse, ReadBack(images[k])));
      RereadRecords(parse, infos[..k], images[..k], frames[..k]);
      assert Reread(parse, infos, images) == front + [last];
      AllRecordsSnoc(front, last);
      assert Holds(images[k], frames[k]);
      LastFrames(frames);
      ParsedSplit(parse, Framing.Concat(Framing.Concat(frames[..k])), Framing.Concat(frames[k]));
    }
  }

  lemma LastFrames(frames: seq<seq<seq<Bytes>>>)
    requires frames != []
    ensures var k := |frames| - 1;
      && Framing.Concat(frames) == Framing.Concat(frames[..k]) + frames[k]
      && Framing.Concat(Framing.Concat(frames)) ==
         Framing.Concat(Framing.Concat(frames[..k])) + Framing.Concat(frames[k])
  {
    var k := |frames| - 1;
    assert frames == frames[..k] + [frames[k]];
    Framing.ConcatSplit(frames[..k], [frames[k]]);
    GC.ConcatOne(frames[k]);
    Framing.ConcatSplit(Framing.Concat(frames[..k]), frames[k]);
  }

  lemma ClosedHolds(frames: seq<seq<Bytes>>)
    requires Framing.AllFlushable(frames) && GC.AllSmall(frames)
    ensures Holds(Framing.FileOf(frames), frames)
  {
    var file := Framing.FileOf(frames);
    GC.CompleteAll(frames);
    GC.CutRead(frames, |file|);
    assert file[..|file|] == file && frames[..|frames|] == frames;
  }

  lemma EachPart(closed: seq<seq<seq<Bytes>>>, i: nat)
    requires i < |closed| && Framing.AllFlushable(Framing.Concat(closed)) && GC.AllSmall(Framing.Concat(closed))
    ensures Framing.AllFlushable(closed[i]) && GC.AllSmall(closed[i])
  {
    var before, after := Framing.Concat(closed[..i]), Framing.Concat(closed[i + 1..]);
    ConcatAt(closed, i);
    GC.Halves(before, closed[i] + after);
    GC.Halves(closed[i], after);
  }

  lemma ConcatAt<T>(xs: seq<seq<T>>, i: nat)
    requires i < |xs|
    ensures Framing.Concat(xs) == Framing.Concat(xs[..i]) + (xs[i] + Framing.Concat(xs[i + 1..]))
  {
    var tail := xs[i..];
    assert xs == xs[..i] + tail;
    Framing.ConcatSplit(xs[..i], tail);
    assert tail[1..] == xs[i + 1..];
  }

  /** With no frame over 64 MiB, the files hold exactly the frames left whole. */
  lemma AfterCrashRecords(parse: Parser, infos: seq<FileNames.Info>, s: GC.State, n: nat)
    requires n <= |Framing.FileOf(s.open)| && |infos| == |s.closed| + 1
    requires Framing.AllFlushable(GC.Frames(s)) && GC.AllSmall(GC.Whole(s, n))
    ensures AllRecords(AfterCrash(parse, infos, s, n)) == Parsed(parse, Framing.Concat(GC.Whole(s, n)))
  {
    var whole := s.open[..GC.Complete(s.open, n)];
    var images, frames := GC.Images(s.closed) + [Framing.FileOf(s.open)[..n]], s.closed + [whole];
    GC.Halves(Framing.Concat(s.closed), s.open);
    GC.Halves(Framing.Concat(s.closed), whole);
    forall i | 0 <= i < |images| ensures Holds(images[i], frames[i]) {
      if i < |s.closed| {
        EachPart(s.closed, i);
        ClosedHolds(s.closed[i]);
      } else {
        GC.CutRead(s.open, n);
      }
    }
    RereadRecords(parse, infos, images, frames);
    LastFrames(frames);
    assert frames[..|s.closed|] == s.closed;
  }

  // ---------------------------------------------------------------- entries that survive

  ghost predicate CutBelow(rs: seq<RR.Record>, j: nat) {
    exists i :: 0 <= i < |rs| && rs[i].Truncation? && rs[i].keep < j
  }

  lemma CutBelowSnoc(rs: seq<RR.Record>, r: RR.Record, j: nat)
    ensures CutBelow(rs + [r], j) <==> CutBelow(rs, j) || (r.Truncation? && r.keep < j)
  {
    var all := rs + [r];
    assert all[|rs|] == r && forall i :: 0 <= i < |rs| ==> all[i] == rs[i];
  }

  /** Index j of a log holds what it held, and was not written again, unless it was cut. */
  ghost predicate Stands(before: seq<RR.Record>, log: seq<RR.Record>, live: set<int>, j: nat, cut: bool) {
    && 1 <= j <= |before|
    && (j <= |log| && j !in live <==> !cut)
    && (!cut ==> log[j - 1] == before[j - 1])
  }

  lemma StandsStep(before: seq<RR.Record>, log: seq<RR.Record>, live: set<int>, j: nat, cut: bool, r: RR.Record)
    requires Stands(before, log, live, j, cut) && RR.Writable(log, r)
    ensures Stands(before, RR.Apply(0, log, r).value, RR.LiveAfter(live, r), j, cut || (r.Truncation? && r.keep < j))
  {
  }

  /** An entry of the log is still there, not written again, exactly if nothing written
      since cut below it. */
  lemma {:induction false} SurvivesExactly(h: RR.History, rs: seq<RR.Record>, j: nat)
    requires RR.Contiguous(h) && RR.Contiguous(h + rs) && 1 <= j <= |RR.Log(h)|
    ensures Stands(RR.Log(h), RR.Log(h + rs), RR.Live(rs), j, CutBelow(rs, j))
  {
    if rs == [] {
      assert h + rs == h;
    } else {
      var k := |rs| - 1;
      RR.ContiguousAt(h, rs, k);
      SurvivesExactly(h, rs[..k], j);
      assert rs == rs[..k] + [rs[k]];
      SurvivesNext(h, rs[..k], rs[k], j);
    }
  }

  lemma SurvivesNext(h: RR.History, rs: seq<RR.Record>, r: RR.Record, j: nat)
    requires RR.Contiguous(h) && RR.Contiguous(h + rs) && 1 <= j <= |RR.Log(h)|
    requires Stands(RR.Log(h), RR.Log(h + rs), RR.Live(rs), j, CutBelow(rs, j)) && RR.Writable(RR.Log(h + rs), r)
    ensures RR.Contiguous(h + (rs + [r]))
    ensures Stands(RR.Log(h), RR.Log(h + (rs + [r])), RR.Live(rs + [r]), j, CutBelow(rs + [r], j))
  {
    CutBelowSnoc(rs, r, j);
    RR.LiveSnoc(rs, r);
    RR.WriteBehind(h, rs, r);
    StandsStep(RR.Log(h), RR.Log(h + rs), RR.Live(rs), j, CutBelow(rs, j), r);
  }

  // ---------------------------------------------------------------- the theorem

  /** After a crash anywhere behind the last synced frame, with no frame over 64 MiB, on
      files under any names: what is on disk is a prefix of what was enqueued that contains
      everything resolved; the files that recovery chooses stay in step with its log
      exactly if every file is harmless, and then they rebuild it above the checkpoint. */
  lemma CrashRebuilds(run: seq<GC.State>, i: nat, n: nat, parse: Parser, infos: seq<FileNames.Info>, ckpt: nat)
    requires GC.IsRun(run) && i < |run| && Framing.AllFlushable(GC.Frames(run[i]))
    requires |Framing.FileOf(GC.Synced(run[i]))| <= n <= |Framing.FileOf(run[i].open)|
    requires GC.AllSmall(GC.Whole(run[i], n)) && |infos| == |run[i].closed| + 1
    requires RR.Contiguous(Parsed(parse, Framing.Concat(run[i].history)))
    ensures run[i].resolved <= |run[i].history|
    ensures var s, files := run[i], AfterCrash(parse, infos, run[i], n);
      var all, newest := AllRecords(files), Last(files).info.time;
      && Parsed(parse, Framing.Concat(s.history[..s.resolved])) <= all <= Parsed(parse, Framing.Concat(s.history))
      && RR.Contiguous(all)
      && (RF.AgreesAlong(ckpt, newest, files) <==> RF.Harmless(ckpt, newest, files))
      && (RF.Harmless(ckpt, newest, files) ==> RF.Rebuilt(ckpt, files) == Some(RR.Above(ckpt, RR.Log(all))))
  {
    var s, files := run[i], AfterCrash(parse, infos, run[i], n);
    GC.WholeIsPrefix(run, i, n);
    AfterCrashRecords(parse, infos, s, n);
    ParsedPrefix(parse, Framing.Concat(s.history[..s.resolved]), Framing.Concat(GC.Whole(s, n)));
    ParsedPrefix(parse, Framing.Concat(GC.Whole(s, n)), Framing.Concat(s.history));
    PrefixContiguous(AllRecords(files), Parsed(parse, Framing.Concat(s.history)));
    RF.RebuildsExactly(ckpt, files);
  }

  lemma PrefixContiguous(h: RR.History, all: RR.History)
    requires h <= all && RR.Contiguous(all)
    ensures RR.Contiguous(h)
  {
    assert all == h + all[|h|..];
    RR.ContiguousPrefix(h, all[|h|..]);
  }

  /** And which resolved entries are in it: with harmless files, the entry that the resolved
      batches left at an index above the checkpoint is rebuilt at its place unless a
      truncation that reached the disk after them cut it. */
  lemma ResolvedRebuilt(run: seq<GC.State>, i: nat, n: nat, parse: Parser, infos: seq<FileNames.Info>, ckpt: nat, j: nat)
    requires GC.IsRun(run) && i < |run| && Framing.AllFlushable(GC.Frames(run[i]))
    requires |Framing.FileOf(GC.Synced(run[i]))| <= n <= |Framing.FileOf(run[i].open)|
    requires GC.AllSmall(GC.Whole(run[i], n)) && |infos| == |run[i].closed| + 1
    requires RR.Contiguous(Parsed(parse, Framing.Concat(run[i].history)))
    requires var files := AfterCrash(parse, infos, run[i], n); RF.Harmless(ckpt, Last(files).info.time, files)
    ensures run[i].resolved <= |run[i].history|
    ensures var s, files := run[i], AfterCrash(parse, infos, run[i], n);
      var all, done := AllRecords(files), Parsed(parse, Framing.Concat(s.history[..s.resolved]));
      && done <= all && RR.Contiguous(done)
      && (ckpt < j <= |RR.Log(done)| ==>
          var later, log := all[|done|..], RF.Rebuilt(ckpt, files);
          && log.Some?
          && (j <= ckpt + |log.value| && j !in RR.Live(later) <==> !CutBelow(later, j))
          && (!CutBelow(later, j) ==> log.value[j - 1 - ckpt] == RR.Log(done)[j - 1]))
  {
    var s, files := run[i], AfterCrash(parse, infos, run[i], n);
    CrashRebuilds(run, i, n, parse, infos, ckpt);
    var all, done := AllRecords(files), Parsed(parse, Framing.Concat(s.history[..s.resolved]));
    PrefixContiguous(done, all);
    assert all == done + all[|done|..];
    if ckpt < j <= |RR.Log(done)| { SurvivesExactly(done, all[|done|..], j); }
  }
}
