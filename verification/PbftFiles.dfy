/**
  PBFT recovery over rotated log files: what ReadLogs replays after any run of writes,
  rotations and restarts, for every base path.
 */
module PbftFiles {
  import opened Common
  import opened FileNames
  import opened LogFiles

  datatype Record = Record(seqNo: nat, newView: bool, payload: string)

  // ---------------------------------------------------------------- ranges

  /** WriteLog's bookkeeping, which the restart scan repeats. */
  function Track(g: Range, r: Record): Range {
    Range(if g.min == -1 || r.seqNo < g.min then r.seqNo else g.min,
          if g.max < r.seqNo then r.seqNo else g.max)
  }

  /** The restart scan replays the file at checkpoint zero. */
  predicate Scanned(r: Record) { 0 < r.seqNo || r.newView }

  function Scan(rs: seq<Record>): Range {
    if rs == [] then NO_RANGE else
      var g := Scan(rs[..|rs| - 1]);
      if Scanned(rs[|rs| - 1]) then Track(g, rs[|rs| - 1]) else g
  }

  /** The range covers every record a scan would see, and its ends are records. */
  ghost predicate Tight(g: Range, rs: seq<Record>) {
    && g.min >= -1
    && (g.min == -1 <==> g == NO_RANGE)
    && (forall r :: r in rs && Scanned(r) ==> 0 <= g.min <= r.seqNo <= g.max)
    && (g != NO_RANGE ==> (exists r :: r in rs && r.seqNo == g.min) && exists r :: r in rs && r.seqNo == g.max)
  }

  lemma TrackTight(g: Range, rs: seq<Record>, r: Record)
    requires Tight(g, rs)
    ensures Tight(Track(g, r), rs + [r])
  {
    var after := rs + [r];
    assert r in after && forall q :: q in rs ==> q in after;
  }

  lemma {:induction false} ScanTight(rs: seq<Record>)
    ensures Tight(Scan(rs), rs)
  {
    if rs != [] {
      var init, r := rs[..|rs| - 1], rs[|rs| - 1];
      ScanTight(init);
      assert rs == init + [r];
      if Scanned(r) { TrackTight(Scan(init), init, r); }
    }
  }

  /** The scan finds the least and the greatest sequence it sees, or an empty range. */
  lemma {:induction false} ScanExactly(rs: seq<Record>)
    ensures Scan(rs) == NO_RANGE <==> forall r :: r in rs ==> r.seqNo == 0 && !r.newView
    ensures Scan(rs) != NO_RANGE ==>
      && (exists r :: r in rs && (r.seqNo > 0 || r.newView) && r.seqNo == Scan(rs).min)
      && (exists r :: r in rs && (r.seqNo > 0 || r.newView) && r.seqNo == Scan(rs).max)
      && (forall r :: r in rs && (r.seqNo > 0 || r.newView) ==> Scan(rs).min <= r.seqNo <= Scan(rs).max)
  {
    if rs != [] {
      var init, r := rs[..|rs| - 1], rs[|rs| - 1];
      ScanExactly(init);
      ScanTight(init);
      assert rs == init + [r];
    }
  }

  // ---------------------------------------------------------------- what recovery needs

  predicate Needed(ckpt: int, r: Record) { ckpt < r.seqNo && !r.newView }

  /** PerformCallback's test. */
  predicate Kept(ckpt: int, r: Record) { ckpt < r.seqNo || r.newView }

  function NeededBy(ckpt: int): Record -> bool { (r: Record) => Needed(ckpt, r) }
  function KeptBy(ckpt: int): Record -> bool { (r: Record) => Kept(ckpt, r) }

  function Ordinary(): Record -> bool { (r: Record) => !r.newView }

  function NeededOf(ckpt: int, rs: seq<Record>): seq<Record> { Filter(NeededBy(ckpt), rs) }

  /** The callback's filter passes every needed record. */
  lemma NeededOfReplay(ckpt: int, files: seq<Log<Record>>)
    ensures NeededOf(ckpt, Replay(KeptBy(ckpt), files)) == Replay(NeededBy(ckpt), files) == NeededOf(ckpt, AllRecords(files))
  {
    ReplayIsFilter(KeptBy(ckpt), files);
    ReplayIsFilter(NeededBy(ckpt), files);
    FilterTwice(KeptBy(ckpt), NeededBy(ckpt), AllRecords(files));
  }

  // ---------------------------------------------------------------- selection

  /** What runs of the log leave behind: the names of closed files tell their ranges. */
  ghost predicate WellNamed(ckpt: nat, files: seq<Log<Record>>) {
    && Layout(ckpt, files)
    && forall i :: 0 <= i < |files| - 1 ==> Tight(Range(files[i].info.min, files[i].info.max), files[i].records)
  }

  /** A closed file that holds a needed record and is named with a minimum above the
      checkpoint. */
  ghost predicate Lost(ckpt: nat, f: Log<Record>) {
    f.info.min > ckpt && NeededOf(ckpt, f.records) != []
  }

  /** Recovery replays exactly the non-NEWVIEW records above the latest checkpoint, in
      write order, if and only if no closed file that holds such a record carries a
      minimum above the checkpoint in its name. */
  lemma SelectionExactly(ckpt: nat, files: seq<Log<Record>>)
    requires WellNamed(ckpt, files)
    ensures
      NeededOf(ckpt, Replay(KeptBy(ckpt), Picked(ckpt, Last(files).info.time, files))) == NeededOf(ckpt, AllRecords(files))
      <==>
      forall i :: 0 <= i < |files| - 1 ==> !Lost(ckpt, files[i])
  {
    var newest := Last(files).info.time;
    NeededOfReplay(ckpt, files);
    NeededOfReplay(ckpt, Picked(ckpt, newest, files));
    PickedLoses(NeededBy(ckpt), ckpt, newest, files);
    forall i | 0 <= i < |files| && !Selected(ckpt, newest, files[i])
      ensures i < |files| - 1
      ensures files[i].info.min > ckpt || NeededOf(ckpt, files[i].records) == []
    {
      if files[i].info.min <= ckpt { UnselectedBelow(ckpt, files, i); }
    }
    forall i | 0 <= i < |files| - 1 && Lost(ckpt, files[i]) ensures !Selected(ckpt, newest, files[i]) {
    }
  }

  /** What is handed over: exactly the records of chosen files that are above the
      checkpoint or NEWVIEW; so its other records are needed as they are. */
  ghost predicate Handed(ckpt: nat, files: seq<Log<Record>>, replayed: seq<Record>) {
    && (forall r :: r in replayed <==>
        (ckpt < r.seqNo || r.newView) && exists i :: Chosen(ckpt, files, i) && r in files[i].records)
    && Filter(Ordinary(), replayed) == NeededOf(ckpt, replayed)
  }

  lemma HandedOver(ckpt: nat, files: seq<Log<Record>>)
    requires Layout(ckpt, files)
    ensures Handed(ckpt, files, Replay(KeptBy(ckpt), Picked(ckpt, Last(files).info.time, files)))
  {
    var replayed := Replay(KeptBy(ckpt), Picked(ckpt, Last(files).info.time, files));
    ReplayedExactly(KeptBy(ckpt), ckpt, files);
    FilterSame(Ordinary(), NeededBy(ckpt), replayed);
  }

  /** A closed file passed over with its minimum at or below the checkpoint ends below
      it or has no range, so it holds nothing recovery needs. */
  lemma UnselectedBelow(ckpt: nat, files: seq<Log<Record>>, i: nat)
    requires WellNamed(ckpt, files) && i < |files|
    requires !Selected(ckpt, Last(files).info.time, files[i]) && files[i].info.min <= ckpt
    ensures i < |files| - 1 && NeededOf(ckpt, files[i].records) == []
  {
    FilterNone(NeededBy(ckpt), files[i].records);
  }

  /** In terms of what was written: with sequence numbers from one up, a closed file is
      lost exactly if all its records are above the checkpoint and one is needed. */
  lemma LostExactly(ckpt: nat, f: Log<Record>)
    requires Tight(Range(f.info.min, f.info.max), f.records) && forall r :: r in f.records ==> Scanned(r)
    ensures Lost(ckpt, f) <==> AllAbove(ckpt, f.records) && exists r :: r in f.records && !r.newView
  {
    FilterNone(NeededBy(ckpt), f.records);
  }

  ghost predicate AllAbove(ckpt: nat, rs: seq<Record>) { forall r :: r in rs ==> ckpt < r.seqNo }

  // ---------------------------------------------------------------- the log

  /** The files on disk, the ranges in their names and the range of the open one. */
  ghost predicate OnDisk(names: Names, closed: seq<File<Record>>, open: File<Record>, g: Range, ckpt: nat,
                         logs: seq<Log<Record>>, written: seq<Record>)
  {
    && Stored(names, closed, open, ckpt, logs, written)
    && (Visible(names) ==> WellNamed(ckpt, logs))
    && Tight(g, open.records)
  }

  lemma WriteOnDisk(names: Names, closed: seq<File<Record>>, open: File<Record>, g: Range, ckpt: nat,
                    logs: seq<Log<Record>>, written: seq<Record>, r: Record)
    requires OnDisk(names, closed, open, g, ckpt, logs, written)
    ensures OnDisk(names, closed, open.(records := open.records + [r]), Track(g, r), ckpt, Grown(logs, r), written + [r])
  {
    TrackTight(g, open.records, r);
    WriteStored(names, closed, open, ckpt, logs, written, r);
    assert forall i :: 0 <= i < |logs| - 1 ==> Grown(logs, r)[i] == logs[i];
  }

  lemma FinishOnDisk(names: Names, closed: seq<File<Record>>, open: File<Record>, ckpt: nat,
                     logs: seq<Log<Record>>, written: seq<Record>, sealed: Info, next: Info)
    requires OnDisk(names, closed, open, Range(sealed.min, sealed.max), ckpt, logs, written)
    requires Last(logs).info.time < sealed.time < next.time
    requires ckpt <= sealed.ckpt == next.ckpt && next.min == -1
    ensures OnDisk(names, closed + [File(names.show(sealed), open.records)], File(names.show(next), []), NO_RANGE,
                   next.ckpt, Rotated(logs, sealed, next), written)
  {
    assert (closed + [open])[|logs| - 1] == open;
    FinishStored(names, closed, open, ckpt, logs, written, sealed, next);
    var after := Rotated(logs, sealed, next);
    assert forall i :: 0 <= i < |logs| - 1 ==> after[i] == logs[i];
  }

  class PbftRecovery {
    const names: Names
    var closed: seq<File<Record>>
    var open: File<Record>
    var minSeq: int
    var maxSeq: int
    var lastCkpt: nat
    ghost var logs: seq<Log<Record>>
    ghost var written: seq<Record>

    ghost predicate Valid()
      reads this
    {
      && (Visible(names) || Unseen(names))
      && OnDisk(names, closed, open, Range(minSeq, maxSeq), lastCkpt, logs, written)
    }

    constructor (names: Names, time: nat)
      requires (Visible(names) || Unseen(names)) && time > 0
      ensures Valid() && this.names == names && written == [] && lastCkpt == 0
      ensures closed == [] && open.records == [] && logs == [Log(Info(time, -1, -1, 0), [])]
      ensures Range(minSeq, maxSeq) == NO_RANGE
    {
      this.names := names;
      closed, open := [], File(names.show(Info(time, -1, -1, 0)), []);
      minSeq, maxSeq, lastCkpt := -1, -1, 0;
      written, logs := [], [Log(Info(time, -1, -1, 0), [])];
    }

    /** WriteLog: extend the range, append and flush. */
    method WriteLog(r: Record)
      requires Valid()
      modifies this
      ensures Valid() && written == old(written) + [r] && lastCkpt == old(lastCkpt)
      ensures closed == old(closed) && open == old(open).(records := old(open).records + [r])
      ensures logs == Grown(old(logs), r)
      ensures Range(minSeq, maxSeq) == Track(old(Range(minSeq, maxSeq)), r)
    {
      WriteOnDisk(names, closed, open, Range(minSeq, maxSeq), lastCkpt, logs, written, r);
      minSeq := if minSeq == -1 || r.seqNo < minSeq then r.seqNo else minSeq;
      maxSeq := if maxSeq < r.seqNo then r.seqNo else maxSeq;
      open := open.(records := open.records + [r]);
      written := written + [r];
      logs := Grown(logs, r);
    }

    /** FinishFile: close the current file under its range and the new checkpoint, and
        open the next one. The two clock readings are later than any before. */
    method FinishFile(ckpt: nat, t1: nat, t2: nat)
      requires Valid() && lastCkpt < ckpt
      requires Last(logs).info.time < t1 < t2
      modifies this
      ensures Valid() && written == old(written) && lastCkpt == ckpt
      ensures logs == Rotated(old(logs), Info(t1, old(minSeq), old(maxSeq), ckpt), Info(t2, -1, -1, ckpt))
      ensures Range(minSeq, maxSeq) == NO_RANGE
    {
      var sealedInfo, nextInfo := Info(t1, minSeq, maxSeq, ckpt), Info(t2, -1, -1, ckpt);
      FinishOnDisk(names, closed, open, lastCkpt, logs, written, sealedInfo, nextInfo);
      closed := closed + [File(names.show(sealedInfo), open.records)];
      minSeq, maxSeq := -1, -1;
      open := File(names.show(nextInfo), []);
      lastCkpt := ckpt;
      logs := Rotated(logs, sealedInfo, nextInfo);
    }

    /** The restart scan: the open file is read again for its range. */
    method SwitchFile()
      requires Valid()
      modifies this`minSeq, this`maxSeq
      ensures Valid() && Range(minSeq, maxSeq) == Scan(open.records)
    {
      minSeq, maxSeq := -1, -1;
      for i := 0 to |open.records|
        invariant Range(minSeq, maxSeq) == Scan(open.records[..i])
      {
        var r := open.records[i];
        assert open.records[..i + 1][..i] == open.records[..i];
        if 0 < r.seqNo || r.newView {
          minSeq := if minSeq == -1 || r.seqNo < minSeq then r.seqNo else minSeq;
          maxSeq := if maxSeq < r.seqNo then r.seqNo else maxSeq;
        }
      }
      assert open.records[..|open.records|] == open.records;
      ScanTight(open.records);
    }

    method StartFresh(time: nat)
      requires Valid() && !Visible(names)
      modifies this
      ensures Valid() && written == old(written)
      ensures logs == old(logs) + [Log(Info(time, -1, -1, 0), [])] && closed == old(closed) + [old(open)]
      ensures open.records == [] && lastCkpt == 0 && Range(minSeq, maxSeq) == NO_RANGE
    {
      FreshStored(names, closed, open, lastCkpt, logs, written, Info(time, -1, -1, 0));
      closed := closed + [open];
      open := File(names.show(Info(time, -1, -1, 0)), []);
      minSeq, maxSeq, lastCkpt := -1, -1, 0;
      logs := logs + [Log(Info(time, -1, -1, 0), [])];
    }

    /** A start on any listing of the directory: with visible names the file that was open
        is found again, with its checkpoint; with unseen ones a fresh file is opened at
        checkpoint zero. */
    method Init(dir: seq<File<Record>>, time: nat)
      requires Valid() && Directory(names, dir, closed + [open])
      modifies this
      ensures Valid() && written == old(written)
      ensures Visible(names) ==>
        && logs == old(logs) && closed == old(closed) && open == old(open) && lastCkpt == old(lastCkpt)
        && Range(minSeq, maxSeq) == Scan(open.records)
      ensures Unseen(names) ==>
        && logs == old(logs) + [Log(Info(time, -1, -1, 0), [])]
        && closed == old(closed) + [old(open)] && open.records == [] && lastCkpt == 0 && Range(minSeq, maxSeq) == NO_RANGE
    {
      var loaded := LoadNames(names, dir);
      ghost var files := Found(names, dir, closed + [open], logs);
      var last := GetLastFile(loaded, files);
      if last.None? {
        NothingFound(names, lastCkpt, logs, files);
        StartFresh(time);
      } else {
        OpenFound(names, lastCkpt, logs, files, last.value);
        assert (closed + [open])[|logs| - 1] == open;
        SwitchFile();
      }
    }

    /** ReadLogs after any run of writes, rotations and starts, on any listing of the
        directory. With visible names the records handed over are those of the chosen files
        that are above the checkpoint or NEWVIEW, and the others than NEWVIEW are exactly
        the needed ones, in write order, if and only if no closed file that holds one starts
        above the checkpoint; with unseen names nothing comes back. */
    method ReadLogs(dir: seq<File<Record>>) returns (replayed: seq<Record>)
      requires Valid() && Directory(names, dir, closed + [open])
      ensures Unseen(names) ==> replayed == []
      ensures Visible(names) ==> replayed == Replay(KeptBy(lastCkpt), Picked(lastCkpt, Last(logs).info.time, logs))
      ensures Visible(names) ==> Handed(lastCkpt, logs, replayed)
      ensures Visible(names) && (forall i :: 0 <= i < |logs| - 1 ==> !Lost(lastCkpt, logs[i])) ==>
        Filter(Ordinary(), replayed) == NeededOf(lastCkpt, written)
      ensures Visible(names) ==>
        (NeededOf(lastCkpt, replayed) == NeededOf(lastCkpt, written) <==>
         forall i :: 0 <= i < |logs| - 1 ==> !Lost(lastCkpt, logs[i]))
      ensures Visible(names) && (forall r :: r in written ==> Scanned(r)) ==>
        (NeededOf(lastCkpt, replayed) == NeededOf(lastCkpt, written) <==> OnlyNewViewsLate(lastCkpt, logs))
    {
      replayed := LogFiles.ReadLogs(names, KeptBy, dir, closed + [open], logs, lastCkpt);
      if Visible(names) {
        SelectionExactly(lastCkpt, logs);
        HandedOver(lastCkpt, logs);
        if forall r :: r in written ==> Scanned(r) { LateExactly(lastCkpt, logs); }
      }
    }
  }

  /** Closed files whose records are all above the checkpoint hold nothing but NEWVIEWs. */
  ghost predicate OnlyNewViewsLate(ckpt: nat, files: seq<Log<Record>>) {
    forall i :: 0 <= i < |files| - 1 && AllAbove(ckpt, files[i].records) ==> forall r :: r in files[i].records ==> r.newView
  }

  lemma LateExactly(ckpt: nat, files: seq<Log<Record>>)
    requires WellNamed(ckpt, files) && forall r :: r in AllRecords(files) ==> Scanned(r)
    ensures (forall i :: 0 <= i < |files| - 1 ==> !Lost(ckpt, files[i])) <==> OnlyNewViewsLate(ckpt, files)
  {
    forall i | 0 <= i < |files| - 1
      ensures Lost(ckpt, files[i]) <==> AllAbove(ckpt, files[i].records) && exists r :: r in files[i].records && !r.newView
    {
      WrittenLost(ckpt, files, i);
    }
  }

  lemma {:induction false} InAll(files: seq<Log<Record>>, i: nat, r: Record)
    requires i < |files| && r in files[i].records
    ensures r in AllRecords(files)
  {
    var n := |files| - 1;
    if i < n { InAll(files[..n], i, r); }
  }

  lemma WrittenLost(ckpt: nat, files: seq<Log<Record>>, i: nat)
    requires WellNamed(ckpt, files) && i < |files| - 1 && forall r :: r in AllRecords(files) ==> Scanned(r)
    ensures Lost(ckpt, files[i]) <==> AllAbove(ckpt, files[i].records) && exists r :: r in files[i].records && !r.newView
  {
    forall r | r in files[i].records ensures Scanned(r) { InAll(files, i, r); }
    LostExactly(ckpt, files[i]);
  }

  /** A run that loses a record: written first, then the file is closed at a checkpoint
      below it. The record is needed and is not replayed. */
  method LateRecordLost(names: Names, r: Record, ckpt: nat, t0: nat, t1: nat, t2: nat) returns (replayed: seq<Record>)
    requires Visible(names) && 0 < t0 < t1 < t2
    requires 0 < ckpt < r.seqNo && !r.newView
    ensures Needed(ckpt, r) && replayed == []
  {
    var log := new PbftRecovery(names, t0);
    log.WriteLog(r);
    log.FinishFile(ckpt, t1, t2);
    ghost var sealed, last := Log(Info(t1, r.seqNo, r.seqNo, ckpt), [r]), Log(Info(t2, -1, -1, ckpt), []);
    TwoLogs(Info(t0, -1, -1, 0), sealed.info, last.info, r);
    var dir := log.closed + [log.open];
    TwoFiles(names, log.closed, log.open, log.logs);
    replayed := log.ReadLogs(dir);
    OnlyLast(ckpt, sealed, last);
  }

  lemma TwoLogs(first: Info, sealed: Info, next: Info, r: Record)
    ensures Rotated(Grown([Log(first, [])], r), sealed, next) == [Log(sealed, [r])] + [Log(next, [])]
  {
    var logs: seq<Log<Record>> := [Log(first, [])];
    var grown := Grown(logs, r);
    assert logs[..0] == [] && [] + [r] == [r];
    assert grown == [Log(first, [r])] && grown[..0] == [];
  }

  lemma TwoFiles(names: Names, closed: seq<File<Record>>, open: File<Record>, logs: seq<Log<Record>>)
    requires Visible(names) && Printed(names, closed + [open], logs) && |logs| == 2 && logs[0].info != logs[1].info
    ensures Directory(names, closed + [open], closed + [open])
  {
    var files := closed + [open];
    assert names.load(files[0].name) == Read(logs[0].info) && names.load(files[1].name) == Read(logs[1].info);
  }

  lemma OnlyLast(ckpt: nat, sealed: Log<Record>, last: Log<Record>)
    requires sealed.info.min > ckpt && last.info.min == -1 && last.records == []
    ensures Replay(KeptBy(ckpt), Picked(ckpt, last.info.time, [sealed] + [last])) == []
  {
    var files, one := [sealed] + [last], [sealed];
    assert files[..1] == one && one[..0] == [];
    assert Picked(ckpt, last.info.time, one) == [];
    assert Picked(ckpt, last.info.time, files) == [last];
    assert [last][..0] == [];
  }

  /** A log whose names are unseen, as under a base path with another extension: after a
      restart it starts over at checkpoint zero in a fresh file, and nothing written before
      is replayed. */
  method UnseenLogLost(names: Names, r: Record, t0: nat, t1: nat) returns (ckpt: nat, replayed: seq<Record>)
    requires Unseen(names) && 0 < t0 && 0 < r.seqNo && !r.newView
    ensures ckpt == 0 && Needed(ckpt, r) && replayed == []
  {
    var log := new PbftRecovery(names, t0);
    log.WriteLog(r);
    assert log.closed + [log.open] == [log.open];
    log.Init([log.open], t1);
    assert log.closed[0].records == [r];
    ckpt := log.lastCkpt;
    replayed := log.ReadLogs(log.closed + [log.open]);
  }
}
