/**
  Raft recovery over rotated log files: the range that WriteLog tracks, the files that
  recovery picks by it, and the log that the filtered replay of those files rebuilds.
 */
module RaftFiles {
  import opened Common
  import opened FileNames
  import opened LogFiles
  import RR = RaftReplay

  type Record = RR.Record

  // ---------------------------------------------------------------- the tracked range

  /** The sequence range of the current file, as WriteLog maintains it. */
  function Track(lastCkpt: int, g: Range, r: Record): Range {
    match r
    case Entry(index, _, _) => Range(if g.min == -1 then index else Min(g.min, index), Max(g.max, index))
    case Truncation(keep) =>
      var max := if g.max > keep then keep else g.max;
      if max <= lastCkpt then NO_RANGE
      else Range(if g.min == -1 then keep else Min(g.min, keep), max)
  }

  /** The restart scan replays the file at checkpoint zero and takes a truncation's index
      for an entry's. */
  function Scan(rs: seq<Record>): Range {
    if rs == [] then NO_RANGE else
      var g, r := Scan(rs[..|rs| - 1]), rs[|rs| - 1];
      if RR.Kept(0, r) then Range(if g.min == -1 then r.SeqNo() else Min(g.min, r.SeqNo()), Max(g.max, r.SeqNo())) else g
  }

  /** The range covers every index above the checkpoint that the file wrote and did not
      cut again. */
  ghost predicate Covers(g: Range, rs: seq<Record>, ckpt: int) {
    && g.min >= -1 && (g.min == -1 ==> g.max == -1)
    && forall i :: i in RR.Live(rs) && ckpt < i ==> g.min <= i <= g.max
  }

  /** A record leaves no range exactly if it is a truncation that keeps nothing of it above
      the checkpoint; otherwise it is in the range, which only a truncation cuts. */
  lemma TrackExactly(ckpt: nat, g: Range, r: Record)
    requires g.min >= -1 && (g.min == -1 ==> g.max == -1)
    ensures Track(ckpt, g, r) == NO_RANGE <==> r.Truncation? && (g.max <= ckpt || r.keep <= ckpt)
    ensures Track(ckpt, g, r) != NO_RANGE ==>
      && Track(ckpt, g, r).min == (if g.min != -1 && g.min < r.SeqNo() then g.min else r.SeqNo())
      && Track(ckpt, g, r).max == (if (g.max < r.SeqNo()) == r.Entry? then r.SeqNo() else g.max)
  {
  }

  lemma TrackCovers(ckpt: nat, g: Range, rs: seq<Record>, r: Record)
    requires Covers(g, rs, ckpt)
    ensures Covers(Track(ckpt, g, r), rs + [r], ckpt)
  {
    RR.LiveSnoc(rs, r);
  }

  lemma {:induction false} ScanCovers(rs: seq<Record>)
    ensures Covers(Scan(rs), rs, 0)
  {
    if rs != [] { ScanCovers(rs[..|rs| - 1]); }
  }

  ghost predicate InScan(r: Record) { r.SeqNo() > 0 || r.Truncation? }

  /** The restart scan finds the least and the greatest number of any entry or truncation,
      or an empty range if it sees none. */
  lemma {:induction false} ScanExactly(rs: seq<Record>)
    ensures Scan(rs).min >= -1
    ensures Scan(rs) == NO_RANGE <==> forall r :: r in rs ==> !InScan(r)
    ensures Scan(rs) != NO_RANGE ==>
      && 0 <= Scan(rs).min
      && (exists r :: r in rs && InScan(r) && r.SeqNo() == Scan(rs).min)
      && (exists r :: r in rs && InScan(r) && r.SeqNo() == Scan(rs).max)
      && (forall r :: r in rs && InScan(r) ==> Scan(rs).min <= r.SeqNo() <= Scan(rs).max)
  {
    if rs != [] {
      var init, r := rs[..|rs| - 1], rs[|rs| - 1];
      ScanExactly(init);
      assert rs == init + [r];
      assert RR.Kept(0, r) <==> InScan(r);
      assert r in rs && forall q :: q in init ==> q in rs;
    }
  }

  ghost predicate OnlyTruncations(rs: seq<Record>) { forall i :: 0 <= i < |rs| ==> rs[i].Truncation? }

  /** What a range says of the records of its file: it covers the live indices, and, unless
      a restart has scanned the file, it does not show truncations. */
  ghost predicate Tells(g: Range, rs: seq<Record>, ckpt: int, rescanned: bool) {
    Covers(g, rs, ckpt) && (OnlyTruncations(rs) && !rescanned ==> g == NO_RANGE)
  }

  lemma TrackTells(ckpt: nat, g: Range, rs: seq<Record>, rescanned: bool, r: Record)
    requires Tells(g, rs, ckpt, rescanned)
    ensures Tells(Track(ckpt, g, r), rs + [r], ckpt, rescanned)
  {
    TrackCovers(ckpt, g, rs, r);
    if OnlyTruncations(rs + [r]) {
      assert (rs + [r])[|rs|] == r && forall i :: 0 <= i < |rs| ==> rs[i] == (rs + [r])[i];
    }
  }

  // ---------------------------------------------------------------- the rebuilt log

  /** The log that the chosen files rebuild on a snapshot ending at the checkpoint. */
  function Rebuilt(ckpt: nat, files: seq<Log<Record>>): Option<seq<Record>>
    requires files != []
  {
    RR.Play(ckpt, Replay(RR.KeptBy(ckpt), Picked(ckpt, Last(files).info.time, files)))
  }

  /** No file passed over holds an entry above the checkpoint or a truncation at or above it. */
  ghost predicate NothingSkipped(ckpt: nat, files: seq<Log<Record>>)
    requires files != []
  {
    NonePassedOver(RR.KeptBy(ckpt), ckpt, Last(files).info.time, files)
  }

  /** The chosen files replay exactly what the whole history would, in order, if and only
      if no file passed over holds a record that replay keeps. */
  lemma ChosenExactly(ckpt: nat, files: seq<Log<Record>>)
    requires files != []
    ensures Replay(RR.KeptBy(ckpt), Picked(ckpt, Last(files).info.time, files)) == Filter(RR.KeptBy(ckpt), AllRecords(files))
        <==> NothingSkipped(ckpt, files)
  {
    PickedLoses(RR.KeptBy(ckpt), ckpt, Last(files).info.time, files);
    ReplayIsFilter(RR.KeptBy(ckpt), files);
  }

  // ---------------------------------------------------------------- in step with the log

  /** What the chosen ones of these files replay. */
  function Played(ckpt: nat, newest: int, files: seq<Log<Record>>): seq<Record> {
    Replay(RR.KeptBy(ckpt), Picked(ckpt, newest, files))
  }

  /** The replay equals the log above the checkpoint after every record of a chosen file,
      and after a file passed over. */
  ghost predicate FileAgrees(ckpt: nat, newest: int, before: seq<Log<Record>>, f: Log<Record>) {
    if Selected(ckpt, newest, f)
    then RR.AgreesThrough(ckpt, Played(ckpt, newest, before), AllRecords(before), f.records)
    else RR.Agrees(ckpt, Played(ckpt, newest, before), AllRecords(before) + f.records)
  }

  /** A chosen file holds no truncation below the checkpoint of a log that reaches past it;
      a file passed over leaves the log above the checkpoint as it was. */
  ghost predicate FileHarmless(ckpt: nat, newest: int, before: seq<Log<Record>>, f: Log<Record>) {
    if Selected(ckpt, newest, f)
    then RR.NoCuts(ckpt, AllRecords(before), f.records)
    else RR.Untouched(ckpt, AllRecords(before), f.records)
  }

  ghost predicate AgreesAlong(ckpt: nat, newest: int, files: seq<Log<Record>>) {
    forall i :: 0 <= i < |files| ==> FileAgrees(ckpt, newest, files[..i], files[i])
  }

  ghost predicate Harmless(ckpt: nat, newest: int, files: seq<Log<Record>>) {
    forall i :: 0 <= i < |files| ==> FileHarmless(ckpt, newest, files[..i], files[i])
  }

  lemma AlongSnoc(ckpt: nat, newest: int, files: seq<Log<Record>>, f: Log<Record>)
    ensures AgreesAlong(ckpt, newest, files + [f]) <==> AgreesAlong(ckpt, newest, files) && FileAgrees(ckpt, newest, files, f)
  {
    var all := files + [f];
    assert all[..|files|] == files && all[|files|] == f;
    assert forall i :: 0 <= i < |files| ==> all[..i] == files[..i] && all[i] == files[i];
  }

  lemma HarmlessSnoc(ckpt: nat, newest: int, files: seq<Log<Record>>, f: Log<Record>)
    ensures Harmless(ckpt, newest, files + [f]) <==> Harmless(ckpt, newest, files) && FileHarmless(ckpt, newest, files, f)
  {
    var all := files + [f];
    assert all[..|files|] == files && all[|files|] == f;
    assert forall i :: 0 <= i < |files| ==> all[..i] == files[..i] && all[i] == files[i];
  }

  lemma PlayedSnoc(ckpt: nat, newest: int, files: seq<Log<Record>>, f: Log<Record>)
    ensures Played(ckpt, newest, files + [f]) ==
      if Selected(ckpt, newest, f) then Played(ckpt, newest, files) + Filter(RR.KeptBy(ckpt), f.records)
      else Played(ckpt, newest, files)
  {
    PickedSnoc(ckpt, newest, files, f);
    ReplaySnoc(RR.KeptBy(ckpt), Picked(ckpt, newest, files), f);
  }

  /** One more file keeps a replay in step exactly if it is harmless. */
  lemma FileExactly(ckpt: nat, newest: int, before: seq<Log<Record>>, f: Log<Record>)
    requires RR.Agrees(ckpt, Played(ckpt, newest, before), AllRecords(before))
    requires RR.Contiguous(AllRecords(before) + f.records)
    ensures FileAgrees(ckpt, newest, before, f) <==> FileHarmless(ckpt, newest, before, f)
    ensures FileAgrees(ckpt, newest, before, f) ==>
      RR.Agrees(ckpt, Played(ckpt, newest, before + [f]), AllRecords(before + [f]))
  {
    var g, h := Played(ckpt, newest, before), AllRecords(before);
    AllRecordsSnoc(before, f);
    PlayedSnoc(ckpt, newest, before, f);
    if Selected(ckpt, newest, f) {
      RR.ThroughExactly(ckpt, g, h, f.records);
      if RR.AgreesThrough(ckpt, g, h, f.records) { RR.AgreesLast(ckpt, g, h, f.records); }
    } else {
      RR.UntouchedAgrees(ckpt, g, h, f.records);
    }
  }

  lemma {:induction false} AlongExactly(ckpt: nat, newest: int, files: seq<Log<Record>>)
    requires RR.Contiguous(AllRecords(files))
    ensures AgreesAlong(ckpt, newest, files) <==> Harmless(ckpt, newest, files)
    ensures Harmless(ckpt, newest, files) ==> RR.Agrees(ckpt, Played(ckpt, newest, files), AllRecords(files))
  {
    if files == [] {
      assert RR.Above(ckpt, []) == [];
    } else {
      var n := |files| - 1;
      var init, f := files[..n], files[n];
      assert files == init + [f];
      AllRecordsSnoc(init, f);
      RR.ContiguousPrefix(AllRecords(init), f.records);
      AlongExactly(ckpt, newest, init);
      AlongSnoc(ckpt, newest, init, f);
      HarmlessSnoc(ckpt, newest, init, f);
      if Harmless(ckpt, newest, init) { FileExactly(ckpt, newest, init, f); }
    }
  }

  /** Files passed over that hold nothing for replay, in a history without low truncations,
      are harmless, and so are the chosen ones. */
  lemma {:induction false} SkipsNothing(ckpt: nat, newest: int, files: seq<Log<Record>>)
    requires RR.Contiguous(AllRecords(files)) && RR.NoLowTruncation(ckpt, AllRecords(files))
    requires NonePassedOver(RR.KeptBy(ckpt), ckpt, newest, files)
    ensures Harmless(ckpt, newest, files)
  {
    if files != [] {
      var n := |files| - 1;
      var init, f := files[..n], files[n];
      assert files == init + [f];
      AllRecordsSnoc(init, f);
      RR.ContiguousPrefix(AllRecords(init), f.records);
      RR.NoLowSplit(ckpt, AllRecords(init), f.records);
      assert forall i :: 0 <= i < n ==> init[i] == files[i];
      SkipsNothing(ckpt, newest, init);
      HarmlessSnoc(ckpt, newest, init, f);
      if !Selected(ckpt, newest, f) { RR.DroppedThrough(ckpt, AllRecords(init), f.records); }
    }
  }

  /** From names to the log, for every history with truncations: the chosen files stay in
      step with the log above the checkpoint, after every record replayed and after every
      file passed over, if and only if every file is harmless; and then they rebuild
      exactly the log above the checkpoint. Histories without low truncations whose skipped
      files hold nothing for replay are among these. */
  lemma RebuildsExactly(ckpt: nat, files: seq<Log<Record>>)
    requires files != [] && RR.Contiguous(AllRecords(files))
    ensures var newest := Last(files).info.time;
      && (AgreesAlong(ckpt, newest, files) <==> Harmless(ckpt, newest, files))
      && (Harmless(ckpt, newest, files) ==> Rebuilt(ckpt, files) == Some(RR.Above(ckpt, RR.Log(AllRecords(files)))))
    ensures NothingSkipped(ckpt, files) && RR.NoLowTruncation(ckpt, AllRecords(files)) ==>
      Harmless(ckpt, Last(files).info.time, files)
  {
    if NothingSkipped(ckpt, files) && RR.NoLowTruncation(ckpt, AllRecords(files)) {
      SkipsNothing(ckpt, Last(files).info.time, files);
    }
    AlongExactly(ckpt, Last(files).info.time, files);
  }

  // ---------------------------------------------------------------- which files are passed over

  /** What runs of the log leave behind: the names of closed files tell what they hold. */
  ghost predicate WellNamed(ckpt: nat, files: seq<Log<Record>>, rescans: seq<bool>) {
    && Layout(ckpt, files) && |rescans| == |files|
    && forall i :: 0 <= i < |files| - 1 ==>
         Tells(Range(files[i].info.min, files[i].info.max), files[i].records, ckpt, rescans[i])
  }

  ghost predicate LiveAbove(ckpt: nat, rs: seq<Record>) { exists i :: i in RR.Live(rs) && ckpt < i }

  /** A closed file that holds a live entry above the checkpoint is passed over exactly if
      its name gives a minimum above the checkpoint. */
  lemma PassedOverExactly(ckpt: nat, files: seq<Log<Record>>, rescans: seq<bool>, i: nat)
    requires WellNamed(ckpt, files, rescans) && i < |files| - 1 && LiveAbove(ckpt, files[i].records)
    ensures !Selected(ckpt, Last(files).info.time, files[i]) <==> files[i].info.min > ckpt
  {
    var f := files[i];
    assert Tells(Range(f.info.min, f.info.max), f.records, ckpt, rescans[i]);
  }

  /** The records handed over: those of the chosen files above the checkpoint, and
      truncations right at it. */
  ghost predicate HandedOver(ckpt: nat, files: seq<Log<Record>>, replayed: seq<Record>) {
    forall r :: r in replayed <==>
      && (ckpt < r.SeqNo() || r == RR.Truncation(ckpt))
      && exists i :: Chosen(ckpt, files, i) && r in files[i].records
  }

  /** Of the closed files with a live entry above the checkpoint exactly those are passed
      over whose names give a minimum above it. */
  ghost predicate OnlyLateSkipped(ckpt: nat, files: seq<Log<Record>>)
    requires files != []
  {
    forall i :: 0 <= i < |files| - 1 && LiveAbove(ckpt, files[i].records) ==>
      (!Selected(ckpt, Last(files).info.time, files[i]) <==> files[i].info.min > ckpt)
  }

  lemma ReplayExactlyOf(ckpt: nat, files: seq<Log<Record>>, rescans: seq<bool>)
    requires WellNamed(ckpt, files, rescans)
    ensures HandedOver(ckpt, files, Played(ckpt, Last(files).info.time, files)) && OnlyLateSkipped(ckpt, files)
  {
    ReplayedExactly(RR.KeptBy(ckpt), ckpt, files);
    forall i | 0 <= i < |files| - 1 && LiveAbove(ckpt, files[i].records)
      ensures !Selected(ckpt, Last(files).info.time, files[i]) <==> files[i].info.min > ckpt
    {
      PassedOverExactly(ckpt, files, rescans, i);
    }
  }

  /** A closed file passed over under a lower minimum is harmless exactly if it did not cut
      the log above the checkpoint. */
  lemma PassedOverBelow(ckpt: nat, files: seq<Log<Record>>, rescans: seq<bool>, i: nat)
    requires WellNamed(ckpt, files, rescans) && i < |files| - 1 && RR.Contiguous(AllRecords(files))
    requires !Selected(ckpt, Last(files).info.time, files[i]) && files[i].info.min <= ckpt
    ensures var h, rs := AllRecords(files[..i]), files[i].records;
      && RR.Contiguous(h) && RR.Contiguous(h + rs)
      && (FileHarmless(ckpt, Last(files).info.time, files[..i], files[i])
          <==> |RR.Above(ckpt, RR.Log(h + rs))| == |RR.Above(ckpt, RR.Log(h))|)
  {
    var h, rs := AllRecords(files[..i]), files[i].records;
    FilePrefix(files, i);
    if LiveAbove(ckpt, rs) {
      PassedOverExactly(ckpt, files, rescans, i);
      assert false;
    }
    RR.UnchangedExactly(ckpt, h, rs);
  }

  lemma {:induction false} FilePrefix(files: seq<Log<Record>>, i: nat)
    requires RR.Contiguous(AllRecords(files)) && i < |files|
    ensures RR.Contiguous(AllRecords(files[..i])) && RR.Contiguous(AllRecords(files[..i]) + files[i].records)
  {
    var n := |files| - 1;
    var init, f := files[..n], files[n];
    assert files == init + [f];
    AllRecordsSnoc(init, f);
    RR.ContiguousPrefix(AllRecords(init), f.records);
    if i < n {
      FilePrefix(init, i);
      assert init[..i] == files[..i];
    }
  }

  /** A closed file of truncations alone, not scanned by a restart, is always passed over,
      and is harmless exactly if it is empty or the log did not reach past the checkpoint. */
  lemma TruncationsPassedOver(ckpt: nat, files: seq<Log<Record>>, rescans: seq<bool>, i: nat)
    requires WellNamed(ckpt, files, rescans) && i < |files| - 1 && RR.Contiguous(AllRecords(files))
    requires OnlyTruncations(files[i].records) && !rescans[i]
    ensures !Selected(ckpt, Last(files).info.time, files[i])
    ensures RR.Contiguous(AllRecords(files[..i]))
    ensures FileHarmless(ckpt, Last(files).info.time, files[..i], files[i]) <==>
      files[i].records == [] || |RR.Log(AllRecords(files[..i]))| <= ckpt
  {
    var h, rs := AllRecords(files[..i]), files[i].records;
    assert Tells(Range(files[i].info.min, files[i].info.max), rs, ckpt, rescans[i]);
    PassedOverBelow(ckpt, files, rescans, i);
    if rs == [] {
      assert h + rs == h;
    } else {
      TruncationsShorten(h, rs);
    }
  }

  lemma {:induction false} TruncationsShorten(h: seq<Record>, rs: seq<Record>)
    requires RR.Contiguous(h) && RR.Contiguous(h + rs) && OnlyTruncations(rs) && rs != []
    ensures |RR.Log(h + rs)| < |RR.Log(h)|
  {
    var n := |rs| - 1;
    RR.ContiguousAt(h, rs, n);
    assert h + rs == h + rs[..n] + [rs[n]];
    RR.WriteSnoc(h + rs[..n], rs[n]);
    if n == 0 {
      assert h + rs[..n] == h;
    } else {
      TruncationsShorten(h, rs[..n]);
    }
  }

  /** A file passed over can hold records that replay keeps and still be harmless: an entry
      written and cut again leaves the range of its predecessor, which starts above the
      checkpoint. */
  lemma WrittenAndCut(ckpt: nat, h: seq<Record>, e: Record)
    requires RR.Contiguous(h) && ckpt < |RR.Log(h)| && e.Entry? && e.index == |RR.Log(h)| + 1
    ensures var last := |RR.Log(h)|; var rs := [e] + [RR.Truncation(last)];
      && Track(ckpt, Track(ckpt, NO_RANGE, e), RR.Truncation(last)) == Range(last, last)
      && Filter(RR.KeptBy(ckpt), rs) == rs
      && RR.Untouched(ckpt, h, rs)
  {
    BothKept(ckpt, e, RR.Truncation(|RR.Log(h)|));
    CutAgain(h, e);
  }

  lemma BothKept(ckpt: nat, r: Record, q: Record)
    requires RR.Kept(ckpt, r) && RR.Kept(ckpt, q)
    ensures Filter(RR.KeptBy(ckpt), [r] + [q]) == [r] + [q]
  {
    assert [] + [r] == [r];
    FilterSnoc(RR.KeptBy(ckpt), [], r);
    FilterSnoc(RR.KeptBy(ckpt), [r], q);
  }

  lemma CutAgain(h: seq<Record>, e: Record)
    requires RR.Contiguous(h) && e.Entry? && e.index == |RR.Log(h)| + 1
    ensures var g := h + ([e] + [RR.Truncation(|RR.Log(h)|)]); RR.Contiguous(g) && RR.Log(g) == RR.Log(h)
  {
    var t := RR.Truncation(|RR.Log(h)|);
    RR.WriteSnoc(h, e);
    RR.WriteSnoc(h + [e], t);
    assert h + [e] + [t] == h + ([e] + [t]);
  }

  // ---------------------------------------------------------------- entries alone

  ghost predicate OnlyEntries(rs: seq<Record>) { forall i :: 0 <= i < |rs| ==> rs[i].Entry? }

  lemma {:induction false} PlayEntries(base: nat, rs: seq<Record>)
    requires OnlyEntries(rs)
    ensures RR.Play(base, rs) == Some(rs)
  {
    if rs != [] {
      var n := |rs| - 1;
      PlayEntries(base, rs[..n]);
      assert rs == rs[..n] + [rs[n]];
      RR.PlaySnoc(base, rs[..n], rs[n]);
    }
  }

  lemma {:induction false} FilterEntries(keep: Record -> bool, rs: seq<Record>)
    requires OnlyEntries(rs)
    ensures OnlyEntries(Filter(keep, rs))
  {
    if rs != [] { FilterEntries(keep, rs[..|rs| - 1]); }
  }

  lemma {:induction false} EntriesNoLow(ckpt: nat, rs: seq<Record>)
    requires RR.Contiguous(rs) && OnlyEntries(rs)
    ensures RR.NoLowTruncation(ckpt, rs)
  {
    if rs != [] { EntriesNoLow(ckpt, rs[..|rs| - 1]); }
  }

  lemma EntriesSplit(a: seq<Record>, b: seq<Record>)
    ensures OnlyEntries(a + b) <==> OnlyEntries(a) && OnlyEntries(b)
  {
    assert forall i :: 0 <= i < |a| ==> a[i] == (a + b)[i];
    assert forall i :: 0 <= i < |b| ==> b[i] == (a + b)[|a| + i];
  }

  lemma {:induction false} PickedEntries(ckpt: int, newest: int, files: seq<Log<Record>>)
    requires OnlyEntries(AllRecords(files))
    ensures OnlyEntries(AllRecords(Picked(ckpt, newest, files)))
  {
    if files != [] {
      var n := |files| - 1;
      var init, f := files[..n], files[n];
      assert files == init + [f];
      AllRecordsSnoc(init, f);
      EntriesSplit(AllRecords(init), f.records);
      PickedEntries(ckpt, newest, init);
      PickedSnoc(ckpt, newest, init, f);
      AllRecordsSnoc(Picked(ckpt, newest, init), f);
      EntriesSplit(AllRecords(Picked(ckpt, newest, init)), f.records);
    }
  }

  /** Where nothing is ever cut, what is skipped never comes back: the log above the
      checkpoint is rebuilt in the end if and only if no file passed over holds an entry
      above it. */
  lemma EntriesExactly(ckpt: nat, files: seq<Log<Record>>)
    requires files != [] && RR.Contiguous(AllRecords(files)) && OnlyEntries(AllRecords(files))
    ensures Rebuilt(ckpt, files) == Some(RR.Above(ckpt, RR.Log(AllRecords(files)))) <==> NothingSkipped(ckpt, files)
  {
    var all, chosen := AllRecords(files), Picked(ckpt, Last(files).info.time, files);
    var keep := RR.KeptBy(ckpt);
    EntriesNoLow(ckpt, all);
    RR.ReplayExactly(ckpt, all);
    RR.FaithfulNow(ckpt, all);
    FilterEntries(keep, all);
    PlayEntries(ckpt, Filter(keep, all));
    PickedEntries(ckpt, Last(files).info.time, files);
    ReplayIsFilter(keep, chosen);
    FilterEntries(keep, AllRecords(chosen));
    PlayEntries(ckpt, Replay(keep, chosen));
    ChosenExactly(ckpt, files);
  }

  // ---------------------------------------------------------------- the log

  /** The files on disk, what their names tell, and the range of the open one; `last_ckpt_`
      runs ahead of the checkpoint in the names until the next rotation. */
  ghost predicate OnDisk(names: Names, closed: seq<File<Record>>, open: File<Record>, g: Range, ckpt: nat, lastCkpt: nat,
                         logs: seq<Log<Record>>, written: seq<Record>, rescans: seq<bool>)
  {
    && Stored(names, closed, open, ckpt, logs, written)
    && |rescans| == |logs| && ckpt <= lastCkpt
    && (Visible(names) ==> WellNamed(ckpt, logs, rescans))
    && Tells(g, open.records, lastCkpt, rescans[|logs| - 1])
  }

  lemma FirstOnDisk(names: Names, first: Info)
    requires first.time > 0 && first.min == -1 && first.ckpt == 0
    ensures OnDisk(names, [], File(names.show(first), []), NO_RANGE, 0, 0, [Log(first, [])], [], [false])
  {
    FirstStored<Record>(names, first);
  }

  lemma WriteOnDisk(names: Names, closed: seq<File<Record>>, open: File<Record>, g: Range, ckpt: nat, lastCkpt: nat,
                    logs: seq<Log<Record>>, written: seq<Record>, rescans: seq<bool>, r: Record)
    requires OnDisk(names, closed, open, g, ckpt, lastCkpt, logs, written, rescans)
    ensures OnDisk(names, closed, open.(records := open.records + [r]), Track(lastCkpt, g, r), ckpt, lastCkpt,
                   Grown(logs, r), written + [r], rescans)
  {
    TrackTells(lastCkpt, g, open.records, rescans[|logs| - 1], r);
    WriteStored(names, closed, open, ckpt, logs, written, r);
    assert forall i :: 0 <= i < |logs| - 1 ==> Grown(logs, r)[i] == logs[i];
  }

  lemma FinishOnDisk(names: Names, closed: seq<File<Record>>, open: File<Record>, ckpt: nat,
                     logs: seq<Log<Record>>, written: seq<Record>, rescans: seq<bool>, sealed: Info, next: Info)
    requires sealed.ckpt >= 0
    requires OnDisk(names, closed, open, Range(sealed.min, sealed.max), ckpt, sealed.ckpt, logs, written, rescans)
    requires Last(logs).info.time < sealed.time < next.time
    requires sealed.ckpt == next.ckpt && next.min == -1
    ensures OnDisk(names, closed + [File(names.show(sealed), open.records)], File(names.show(next), []), NO_RANGE,
                   next.ckpt, next.ckpt, Rotated(logs, sealed, next), written, rescans + [false])
  {
    assert (closed + [open])[|logs| - 1] == open;
    FinishStored(names, closed, open, ckpt, logs, written, sealed, next);
    if Visible(names) { FinishNamed(ckpt, logs, rescans, sealed, next); }
  }

  lemma FinishNamed(ckpt: nat, logs: seq<Log<Record>>, rescans: seq<bool>, sealed: Info, next: Info)
    requires WellNamed(ckpt, logs, rescans) && ckpt <= sealed.ckpt == next.ckpt
    requires Tells(Range(sealed.min, sealed.max), Last(logs).records, sealed.ckpt, rescans[|logs| - 1])
    requires Layout(next.ckpt, Rotated(logs, sealed, next))
    ensures WellNamed(next.ckpt, Rotated(logs, sealed, next), rescans + [false])
  {
    var after, flags := Rotated(logs, sealed, next), rescans + [false];
    forall i | 0 <= i < |after| - 1
      ensures Tells(Range(after[i].info.min, after[i].info.max), after[i].records, next.ckpt, flags[i])
    {
      if i < |logs| - 1 {
        assert after[i] == logs[i] && flags[i] == rescans[i];
      } else {
        assert after[i] == Log(sealed, Last(logs).records) && flags[i] == rescans[i];
      }
    }
  }

  /** A restart finds the open file again, at the checkpoint in its name, and scans it. */
  lemma ScanOnDisk(names: Names, closed: seq<File<Record>>, open: File<Record>, g: Range, ckpt: nat, lastCkpt: nat,
                   logs: seq<Log<Record>>, written: seq<Record>, rescans: seq<bool>)
    requires OnDisk(names, closed, open, g, ckpt, lastCkpt, logs, written, rescans)
    ensures OnDisk(names, closed, open, Scan(open.records), ckpt, ckpt, logs, written, rescans[|logs| - 1 := true])
  {
    ScanCovers(open.records);
  }

  lemma FreshOnDisk(names: Names, closed: seq<File<Record>>, open: File<Record>, g: Range, ckpt: nat, lastCkpt: nat,
                    logs: seq<Log<Record>>, written: seq<Record>, rescans: seq<bool>, i: Info)
    requires OnDisk(names, closed, open, g, ckpt, lastCkpt, logs, written, rescans) && !Visible(names)
    ensures OnDisk(names, closed + [open], File(names.show(i), []), NO_RANGE, 0, 0,
                   logs + [Log(i, [])], written, rescans + [false])
  {
    FreshStored(names, closed, open, ckpt, logs, written, i);
  }

  class RaftLog {
    const names: Names
    var closed: seq<File<Record>>
    var open: File<Record>
    var minSeq: int
    var maxSeq: int
    var lastCkpt: nat
    ghost var openCkpt: nat
    ghost var logs: seq<Log<Record>>
    ghost var written: seq<Record>
    ghost var rescans: seq<bool>

    ghost predicate Valid()
      reads this
    {
      && (Visible(names) || Unseen(names))
      && OnDisk(names, closed, open, Range(minSeq, maxSeq), openCkpt, lastCkpt, logs, written, rescans)
    }

    constructor (names: Names, time: nat)
      requires (Visible(names) || Unseen(names)) && time > 0
      ensures Valid() && this.names == names && written == [] && lastCkpt == openCkpt == 0
      ensures closed == [] && open.records == [] && logs == [Log(Info(time, -1, -1, 0), [])] && rescans == [false]
      ensures Range(minSeq, maxSeq) == NO_RANGE
    {
      FirstOnDisk(names, Info(time, -1, -1, 0));
      this.names := names;
      closed, open := [], File(names.show(Info(time, -1, -1, 0)), []);
      minSeq, maxSeq, lastCkpt, openCkpt := -1, -1, 0, 0;
      written, logs, rescans := [], [Log(Info(time, -1, -1, 0), [])], [false];
    }

    /** WriteLog: the range bookkeeping, then the record. */
    method WriteLog(record: Record)
      requires Valid()
      modifies this
      ensures Valid() && written == old(written) + [record]
      ensures closed == old(closed) && lastCkpt == old(lastCkpt) && openCkpt == old(openCkpt)
      ensures logs == Grown(old(logs), record) && rescans == old(rescans)
      ensures Range(minSeq, maxSeq) == Track(old(lastCkpt), old(Range(minSeq, maxSeq)), record)
    {
      WriteOnDisk(names, closed, open, Range(minSeq, maxSeq), openCkpt, lastCkpt, logs, written, rescans, record);
      match record {
        case Entry(index, _, _) =>
          minSeq := if minSeq == -1 then index else Min(minSeq, index);
          maxSeq := Max(maxSeq, index);
        case Truncation(keep) =>
          if maxSeq > keep { maxSeq := keep; }
          if maxSeq <= lastCkpt {
            minSeq, maxSeq := -1, -1;
          } else {
            minSeq := if minSeq == -1 then keep else Min(minSeq, keep);
          }
      }
      open := open.(records := open.records + [record]);
      written := written + [record];
      logs := Grown(logs, record);
    }

    /** UpdateStableCheckPoint, up to the call of FinishFile. */
    method Advance(ckpt: nat)
      requires Valid() && lastCkpt < ckpt
      modifies this`lastCkpt
      ensures Valid() && lastCkpt == ckpt
    {
      lastCkpt := ckpt;
    }

    /** FinishFile at the current checkpoint. */
    method FinishFile(t1: nat, t2: nat)
      requires Valid() && Last(logs).info.time < t1 < t2
      modifies this
      ensures Valid() && written == old(written) && lastCkpt == openCkpt == old(lastCkpt)
      ensures logs == Rotated(old(logs), Info(t1, old(minSeq), old(maxSeq), lastCkpt), Info(t2, -1, -1, lastCkpt))
      ensures Range(minSeq, maxSeq) == NO_RANGE && rescans == old(rescans) + [false]
    {
      var sealedInfo, nextInfo := Info(t1, minSeq, maxSeq, lastCkpt), Info(t2, -1, -1, lastCkpt);
      FinishOnDisk(names, closed, open, openCkpt, logs, written, rescans, sealedInfo, nextInfo);
      closed := closed + [File(names.show(sealedInfo), open.records)];
      minSeq, maxSeq := -1, -1;
      open := File(names.show(nextInfo), []);
      openCkpt := lastCkpt;
      logs := Rotated(logs, sealedInfo, nextInfo);
      rescans := rescans + [false];
    }

    /** The restart scan of the open file, at the checkpoint that its name carries. */
    method SwitchFile(ckpt: nat)
      requires Valid() && ckpt == openCkpt
      modifies this`minSeq, this`maxSeq, this`lastCkpt, this`rescans
      ensures Valid() && Range(minSeq, maxSeq) == Scan(open.records) && lastCkpt == openCkpt
      ensures rescans == old(rescans)[|logs| - 1 := true]
    {
      ScanOnDisk(names, closed, open, Range(minSeq, maxSeq), openCkpt, lastCkpt, logs, written, rescans);
      lastCkpt := ckpt;
      rescans := rescans[|logs| - 1 := true];
      minSeq, maxSeq := -1, -1;
      for i := 0 to |open.records|
        modifies this`minSeq, this`maxSeq
        invariant Range(minSeq, maxSeq) == Scan(open.records[..i])
      {
        var r := open.records[i];
        assert open.records[..i + 1][..i] == open.records[..i];
        if 0 < r.SeqNo() || r.Truncation? {
          minSeq := if minSeq == -1 then r.SeqNo() else Min(minSeq, r.SeqNo());
          maxSeq := Max(maxSeq, r.SeqNo());
        }
      }
      assert open.records[..|open.records|] == open.records;
    }

    method StartFresh(time: nat)
      requires Valid() && !Visible(names)
      modifies this
      ensures Valid() && written == old(written)
      ensures logs == old(logs) + [Log(Info(time, -1, -1, 0), [])] && closed == old(closed) + [old(open)]
      ensures open.records == [] && lastCkpt == openCkpt == 0 && Range(minSeq, maxSeq) == NO_RANGE
    {
      FreshOnDisk(names, closed, open, Range(minSeq, maxSeq), openCkpt, lastCkpt, logs, written, rescans, Info(time, -1, -1, 0));
      closed := closed + [open];
      open := File(names.show(Info(time, -1, -1, 0)), []);
      minSeq, maxSeq, lastCkpt, openCkpt := -1, -1, 0, 0;
      logs := logs + [Log(Info(time, -1, -1, 0), [])];
      rescans := rescans + [false];
    }

    /** A start on any listing of the directory: with visible names the file that was open
        is found again and scanned, and `last_ckpt_` falls back to the checkpoint in its
        name; with unseen ones a fresh file is opened at checkpoint zero. */
    method Init(dir: seq<File<Record>>, time: nat)
      requires Valid() && Directory(names, dir, closed + [open])
      modifies this
      ensures Valid() && written == old(written) && lastCkpt == openCkpt
      ensures Visible(names) ==>
        && logs == old(logs) && closed == old(closed) && open == old(open) && openCkpt == old(openCkpt)
        && Range(minSeq, maxSeq) == Scan(open.records)
      ensures Unseen(names) ==>
        && logs == old(logs) + [Log(Info(time, -1, -1, 0), [])]
        && closed == old(closed) + [old(open)] && open.records == [] && openCkpt == 0 && Range(minSeq, maxSeq) == NO_RANGE
    {
      var loaded := LoadNames(names, dir);
      ghost var files := Found(names, dir, closed + [open], logs);
      var last := GetLastFile(loaded, files);
      if last.None? {
        NothingFound(names, openCkpt, logs, files);
        StartFresh(time);
      } else {
        OpenFound(names, openCkpt, logs, files, last.value);
        assert (closed + [open])[|logs| - 1] == open;
        SwitchFile(last.value.info.ckpt);
      }
    }

    /** Recovery after any run of writes, rotations and restarts, on any listing. The
        replay stays in step with the log if and only if every file is harmless, and then
        it rebuilds the log above the checkpoint. Of the closed files that hold a live
        entry above the checkpoint exactly those named with a minimum above it are passed
        over. */
    method ReadLogs(dir: seq<File<Record>>) returns (replayed: seq<Record>)
      requires Valid() && Directory(names, dir, closed + [open])
      ensures Unseen(names) ==> replayed == []
      ensures Visible(names) ==> replayed == Played(openCkpt, Last(logs).info.time, logs)
      ensures Visible(names) ==> HandedOver(openCkpt, logs, replayed) && OnlyLateSkipped(openCkpt, logs)
      ensures Visible(names) && RR.Contiguous(written) ==>
        && (AgreesAlong(openCkpt, Last(logs).info.time, logs) <==> Harmless(openCkpt, Last(logs).info.time, logs))
        && (Harmless(openCkpt, Last(logs).info.time, logs) ==>
            RR.Play(openCkpt, replayed) == Some(RR.Above(openCkpt, RR.Log(written))))
      ensures Visible(names) ==>
        (replayed == Filter(RR.KeptBy(openCkpt), written) <==> NothingSkipped(openCkpt, logs))
    {
      replayed := LogFiles.ReadLogs(names, RR.KeptBy, dir, closed + [open], logs, openCkpt);
      if Visible(names) {
        ChosenExactly(openCkpt, logs);
        ReplayExactlyOf(openCkpt, logs, rescans);
        if RR.Contiguous(written) { RebuildsExactly(openCkpt, logs); }
      }
    }
  }

  // ---------------------------------------------------------------- what is passed over

  lemma WritesThree(first: Info, e1: Record, e2: Record, e3: Record)
    ensures Grown(Grown(Grown([Log(first, [])], e1), e2), e3) == [Log(first, [e1, e2, e3])]
  {
    var l0: seq<Log<Record>> := [Log(first, [])];
    assert l0[..0] == [] && [] + [e1] == [e1] && [e1] + [e2] == [e1, e2] && [e1, e2] + [e3] == [e1, e2, e3];
    assert Grown(l0, e1) == [Log(first, [e1])];
    assert Grown([Log(first, [e1])], e2) == [Log(first, [e1, e2])];
  }

  lemma RotateOne(was: Log<Record>, sealed: Info, next: Info)
    ensures Rotated([was], sealed, next) == [Log(sealed, was.records)] + [Log(next, [])]
  {
    assert [was][..0] == [];
  }

  lemma WriteAndRotate(done: Log<Record>, open: Info, r: Record, sealed: Info, next: Info)
    ensures Rotated(Grown([done] + [Log(open, [])], r), sealed, next) == [done] + [Log(sealed, [r])] + [Log(next, [])]
  {
    var grown := Grown([done] + [Log(open, [])], r);
    assert ([done] + [Log(open, [])])[..1] == [done] && [] + [r] == [r];
    assert grown == [done] + [Log(open, [r])] && grown[..1] == [done];
  }

  /** Only the first and the last of three files are chosen. */
  lemma MiddleSkipped(ckpt: nat, a: Log<Record>, b: Log<Record>, c: Log<Record>)
    requires Selected(ckpt, c.info.time, a) && !Selected(ckpt, c.info.time, b) && c.info.min == -1 && c.records == []
    ensures Replay(RR.KeptBy(ckpt), Picked(ckpt, c.info.time, [a] + [b] + [c])) == Filter(RR.KeptBy(ckpt), a.records)
  {
    var t, keep := c.info.time, RR.KeptBy(ckpt);
    assert [] + [a] == [a];
    PickedSnoc(ckpt, t, [], a);
    PickedSnoc(ckpt, t, [a], b);
    PickedSnoc(ckpt, t, [a] + [b], c);
    ReplaySnoc(keep, [], a);
    ReplaySnoc(keep, [a], c);
    assert [] + Filter(keep, a.records) + [] == Filter(keep, a.records);
  }

  lemma ThreeFiles(names: Names, onDisk: seq<File<Record>>, logs: seq<Log<Record>>)
    requires Visible(names) && Printed(names, onDisk, logs) && Sorted(logs)
    ensures Directory(names, onDisk, onDisk)
  {
    forall i, j | 0 <= i < j < |onDisk| ensures onDisk[i] != onDisk[j] {
      assert names.load(onDisk[i].name) == Read(logs[i].info) && names.load(onDisk[j].name) == Read(logs[j].info);
    }
  }

  lemma FilterThree(e1: Record, e2: Record, e3: Record)
    requires e1.Entry? && e2.Entry? && e3.Entry? && e1.index == 1 && e2.index == 2 && e3.index == 3
    ensures Filter(RR.KeptBy(2), [e1, e2, e3]) == [e3]
  {
    var keep := RR.KeptBy(2);
    assert [] + [e1] == [e1] && [e1] + [e2] == [e1, e2] && [e1, e2] + [e3] == [e1, e2, e3] && [] + [e3] == [e3];
    FilterSnoc(keep, [], e1);
    FilterSnoc(keep, [e1], e2);
    FilterSnoc(keep, [e1, e2], e3);
  }

  /** The history of the run below: its log holds nothing above checkpoint 2, and its only
      truncation is not a low one, yet replaying the third entry alone puts it back. */
  lemma CutThird(e1: Record, e2: Record, e3: Record)
    requires e1.Entry? && e2.Entry? && e3.Entry? && e1.index == 1 && e2.index == 2 && e3.index == 3
    ensures var h := [e1, e2, e3] + [RR.Truncation(2)];
      RR.Contiguous(h) && RR.NoLowTruncation(2, h) && RR.Log(h) == [e1, e2] && RR.Above(2, RR.Log(h)) == []
    ensures RR.Play(2, [e3]) == Some([e3])
  {
    PlayEntries(2, [e3]);
    var h := [e1, e2, e3];
    assert [e1] + [e2] == [e1, e2] && [e1, e2] + [e3] == h && h[..2] == [e1, e2];
    RR.TwoEntries(e1, e2);
    RR.WriteSnoc([e1, e2], e3);
    RR.WriteSnoc(h, RR.Truncation(2));
    EntriesNoLow(2, h);
    assert (h + [RR.Truncation(2)])[..3] == h;
  }

  /** A run in which a truncation is passed over: it is the only record of its file, which
      is therefore named like an empty one. The entry that it cut, and that the log no
      longer holds, is replayed. */
  method TruncationFileSkipped(names: Names, e1: Record, e2: Record, e3: Record, t0: nat, t1: nat, t2: nat, t3: nat, t4: nat)
    returns (replayed: seq<Record>)
    requires Visible(names) && 0 < t0 < t1 < t2 < t3 < t4
    requires e1.Entry? && e2.Entry? && e3.Entry? && e1.index == 1 && e2.index == 2 && e3.index == 3
    ensures replayed == [e3]
  {
    var log := ThreeEntries(names, e1, e2, e3, t0, t1, t2);
    ghost var done := Log(Info(t1, 1, 3, 1), [e1, e2, e3]);
    CutAndRotate(log, done, Info(t2, -1, -1, 1), t3, t4);
    ThreeFiles(names, log.closed + [log.open], log.logs);
    replayed := log.ReadLogs(log.closed + [log.open]);
    MiddleSkipped(2, done, Log(Info(t3, -1, -1, 2), [RR.Truncation(2)]), Log(Info(t4, -1, -1, 2), []));
    FilterThree(e1, e2, e3);
  }

  method ThreeEntries(names: Names, e1: Record, e2: Record, e3: Record, t0: nat, t1: nat, t2: nat) returns (log: RaftLog)
    requires Visible(names) && 0 < t0 < t1 < t2
    requires e1.Entry? && e2.Entry? && e3.Entry? && e1.index == 1 && e2.index == 2 && e3.index == 3
    ensures fresh(log) && log.Valid() && log.names == names && log.lastCkpt == 1
    ensures log.logs == [Log(Info(t1, 1, 3, 1), [e1, e2, e3])] + [Log(Info(t2, -1, -1, 1), [])]
    ensures Range(log.minSeq, log.maxSeq) == NO_RANGE
  {
    log := OpenThree(names, e1, e2, e3, t0);
    log.Advance(1);
    log.FinishFile(t1, t2);
    RotateOne(Log(Info(t0, -1, -1, 0), [e1, e2, e3]), Info(t1, 1, 3, 1), Info(t2, -1, -1, 1));
  }

  method OpenThree(names: Names, e1: Record, e2: Record, e3: Record, time: nat) returns (log: RaftLog)
    requires Visible(names) && 0 < time
    requires e1.Entry? && e2.Entry? && e3.Entry? && e1.index == 1 && e2.index == 2 && e3.index == 3
    ensures fresh(log) && log.Valid() && log.names == names && log.lastCkpt == 0
    ensures log.logs == [Log(Info(time, -1, -1, 0), [e1, e2, e3])] && Range(log.minSeq, log.maxSeq) == Range(1, 3)
  {
    WritesThree(Info(time, -1, -1, 0), e1, e2, e3);
    log := new RaftLog(names, time);
    log.WriteLog(e1);
    log.WriteLog(e2);
    log.WriteLog(e3);
  }

  method CutAndRotate(log: RaftLog, ghost done: Log<Record>, ghost open: Info, t1: nat, t2: nat)
    requires log.Valid() && log.lastCkpt == 1 && Range(log.minSeq, log.maxSeq) == NO_RANGE
    requires log.logs == [done] + [Log(open, [])] && open.time < t1 < t2
    modifies log
    ensures log.Valid() && log.openCkpt == 2
    ensures log.logs == [done] + [Log(Info(t1, -1, -1, 2), [RR.Truncation(2)])] + [Log(Info(t2, -1, -1, 2), [])]
  {
    log.WriteLog(RR.Truncation(2));
    log.Advance(2);
    log.FinishFile(t1, t2);
    WriteAndRotate(done, open, RR.Truncation(2), Info(t1, -1, -1, 2), Info(t2, -1, -1, 2));
  }
}
