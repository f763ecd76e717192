/**
  Rotated log files, for any kind of record: every checkpoint closes the current file
  under a name that carries its sequence range, and recovery lists the directory, picks
  files by their names and takes them in time order.
 */
module LogFiles {
  import opened Common
  import opened FileNames

  /** A log file on disk, and the same file with its name read back. */
  datatype File<R> = File(name: string, records: seq<R>)
  datatype Log<R> = Log(info: Info, records: seq<R>)

  /** How names are printed and taken. All that matters here is whether recovery reads
      back what was printed, or passes every such file over. */
  datatype Names = Names(show: Info -> string, load: string -> Listed)

  ghost predicate Visible(names: Names) {
    forall i :: names.load(names.show(i)) == Read(i)
  }

  ghost predicate Unseen(names: Names) {
    forall i :: names.load(names.show(i)) == Skipped
  }

  /** The names of GenerateFile are visible exactly for base paths without an extension or
      with ".log", and unseen for all others. */
  function Stems(base: string, ext: string): (names: Names)
    requires IsExtension(ext)
    ensures Visible(names) <==> ext == "" || ext == ".log"
    ensures Unseen(names) <==> !(ext == "" || ext == ".log")
  {
    var names := Names(i => FileName(base, ext, i), Load);
    assert forall i :: names.load(names.show(i)) == if ext == "" || ext == ".log" then Read(i) else Skipped by {
      forall i ensures names.load(names.show(i)) == if ext == "" || ext == ".log" then Read(i) else Skipped {
        LoadExactly(base, ext, i);
      }
    }
    assert names.load(names.show(Info(0, 0, 0, 0))) == if ext == "" || ext == ".log" then Read(Info(0, 0, 0, 0)) else Skipped;
    names
  }

  // ---------------------------------------------------------------- ranges

  /** The sequence range that a file name carries. */
  datatype Range = Range(min: int, max: int)

  const NO_RANGE := Range(-1, -1)

  // ---------------------------------------------------------------- replay

  function AllRecords<R>(files: seq<Log<R>>): seq<R> {
    if files == [] then [] else AllRecords(files[..|files| - 1]) + files[|files| - 1].records
  }

  /** ReadLogs: the records of each file in turn that the callback's test keeps. */
  function Replay<R>(keep: R -> bool, files: seq<Log<R>>): seq<R> {
    if files == [] then [] else Replay(keep, files[..|files| - 1]) + Filter(keep, files[|files| - 1].records)
  }

  lemma {:induction false} ReplayIsFilter<R(!new)>(keep: R -> bool, files: seq<Log<R>>)
    ensures Replay(keep, files) == Filter(keep, AllRecords(files))
  {
    if files != [] {
      var n := |files| - 1;
      ReplayIsFilter(keep, files[..n]);
      FilterSplit(keep, AllRecords(files[..n]), files[n].records);
    }
  }

  lemma AllRecordsSnoc<R(!new)>(files: seq<Log<R>>, f: Log<R>)
    ensures AllRecords(files + [f]) == AllRecords(files) + f.records
  {
    assert (files + [f])[..|files|] == files;
  }

  lemma ReplaySnoc<R(!new)>(keep: R -> bool, files: seq<Log<R>>, f: Log<R>)
    ensures Replay(keep, files + [f]) == Replay(keep, files) + Filter(keep, f.records)
  {
    assert (files + [f])[..|files|] == files;
  }

  method ReplayFiles<R(!new)>(keep: R -> bool, list: seq<Log<R>>) returns (replayed: seq<R>)
    ensures replayed == Replay(keep, list)
  {
    replayed := [];
    for n := 0 to |list|
      invariant replayed == Replay(keep, list[..n])
    {
      assert list[..n + 1] == list[..n] + [list[n]];
      ReplaySnoc(keep, list[..n], list[n]);
      var kept := PerformCallback(keep, list[n].records);
      replayed := replayed + kept;
    }
    assert list[..|list|] == list;
  }

  /** Hand the records that pass the test to the callback, in file order. */
  method PerformCallback<R>(keep: R -> bool, records: seq<R>) returns (replayed: seq<R>)
    ensures replayed == Filter(keep, records)
  {
    replayed := [];
    for i := 0 to |records|
      invariant replayed == Filter(keep, records[..i])
    {
      assert records[..i + 1] == records[..i] + [records[i]];
      FilterSnoc(keep, records[..i], records[i]);
      if keep(records[i]) { replayed := replayed + [records[i]]; }
    }
    assert records[..|records|] == records;
  }

  // ---------------------------------------------------------------- selection by name

  /** GetRecoveryFiles: a ranged file whose range contains the checkpoint, or the newest
      of the files named without a range. */
  predicate Selected<R>(ckpt: int, newest: int, f: Log<R>) {
    if f.info.min == -1 then f.info.time == newest else InRange(ckpt, f)
  }

  predicate InRange<R>(ckpt: int, f: Log<R>) { f.info.min != -1 && f.info.min <= ckpt <= f.info.max }

  function Picked<R>(ckpt: int, newest: int, files: seq<Log<R>>): seq<Log<R>> {
    if files == [] then [] else
      Picked(ckpt, newest, files[..|files| - 1]) +
      if Selected(ckpt, newest, files[|files| - 1]) then [files[|files| - 1]] else []
  }

  lemma PickedSnoc<R(!new)>(ckpt: int, newest: int, files: seq<Log<R>>, f: Log<R>)
    ensures Picked(ckpt, newest, files + [f]) ==
      if Selected(ckpt, newest, f) then Picked(ckpt, newest, files) + [f] else Picked(ckpt, newest, files)
  {
    assert (files + [f])[..|files|] == files;
    assert Picked(ckpt, newest, files) + [] == Picked(ckpt, newest, files);
  }

  /** The largest checkpoint in any name, from zero up. */
  function Latest<R>(files: seq<Log<R>>): int {
    if files == [] then 0 else
      var c := Latest(files[..|files| - 1]);
      if files[|files| - 1].info.ckpt > c then files[|files| - 1].info.ckpt else c
  }

  /** In files sorted by time, the time of the newest one named without a range, or -1. */
  function Newest<R>(files: seq<Log<R>>): int {
    if files == [] then -1
    else if files[|files| - 1].info.min == -1 then files[|files| - 1].info.time
    else Newest(files[..|files| - 1])
  }

  ghost predicate NonePassedOver<R>(keep: R -> bool, ckpt: int, newest: int, files: seq<Log<R>>) {
    forall i :: 0 <= i < |files| && !Selected(ckpt, newest, files[i]) ==> Filter(keep, files[i].records) == []
  }

  /** Choosing files by name loses none of the records a test keeps if and only if no
      file passed over holds one. */
  lemma {:induction false} PickedLoses<R(!new)>(keep: R -> bool, ckpt: int, newest: int, files: seq<Log<R>>)
    ensures |Replay(keep, Picked(ckpt, newest, files))| <= |Replay(keep, files)|
    ensures Replay(keep, Picked(ckpt, newest, files)) == Replay(keep, files) <==> NonePassedOver(keep, ckpt, newest, files)
  {
    if files != [] {
      var n := |files| - 1;
      var init, f := files[..n], files[n];
      PickedLoses(keep, ckpt, newest, init);
      assert NonePassedOver(keep, ckpt, newest, files) <==>
        NonePassedOver(keep, ckpt, newest, init) && (Selected(ckpt, newest, f) || Filter(keep, f.records) == []) by {
        assert forall i :: 0 <= i < n ==> init[i] == files[i];
      }
      var p := Picked(ckpt, newest, init);
      if Selected(ckpt, newest, f) {
        ReplaySnoc(keep, p, f);
        SameTail(Replay(keep, p), Replay(keep, init), Filter(keep, f.records));
      } else {
        assert p + [] == p;
        NoTail(Replay(keep, p), Replay(keep, init), Filter(keep, f.records));
      }
    }
  }

  lemma NoTail<T>(a: seq<T>, b: seq<T>, c: seq<T>)
    requires |a| <= |b|
    ensures a == b + c <==> a == b && c == []
  {
  }

  lemma SameTail<T>(a: seq<T>, b: seq<T>, c: seq<T>)
    requires |a| <= |b|
    ensures a + c == b + c <==> a == b
  {
    if a + c == b + c { assert a == (a + c)[..|a|] && b == (b + c)[..|b|]; }
  }

  // ---------------------------------------------------------------- sorting by time

  ghost predicate Sorted<R>(list: seq<Log<R>>) {
    forall i, j :: 0 <= i < j < |list| ==> list[i].info.time < list[j].info.time
  }

  lemma {:induction false} PickedSpec<R(!new)>(ckpt: int, newest: int, files: seq<Log<R>>)
    requires Sorted(files)
    ensures Sorted(Picked(ckpt, newest, files))
    ensures forall f :: f in Picked(ckpt, newest, files) <==> f in files && Selected(ckpt, newest, f)
  {
    if files != [] {
      var n := |files| - 1;
      PickedSpec(ckpt, newest, files[..n]);
      assert files == files[..n] + [files[n]];
      var p := Picked(ckpt, newest, files[..n]);
      forall k | 0 <= k < |p| ensures p[k].info.time < files[n].info.time {
        assert p[k] in p;
        assert p[k] in files[..n];
      }
    }
  }

  /** A directory lists files in no particular order; the sorted list is determined by
      its members alone. */
  lemma {:induction false} SortedUnique<R(!new)>(xs: seq<Log<R>>, ys: seq<Log<R>>)
    requires Sorted(xs) && Sorted(ys)
    requires forall f :: f in xs <==> f in ys
    ensures xs == ys
  {
    if xs == [] && ys != [] {
      HasFirst(ys);
      assert false;
    } else if xs != [] && ys == [] {
      HasFirst(xs);
      assert false;
    } else if xs != [] {
      HasFirst(xs);
      HasFirst(ys);
      SameFirst(xs, ys);
      TailMembers(xs, ys);
      SortedUnique(xs[1..], ys[1..]);
    }
  }

  lemma SameFirst<R(!new)>(xs: seq<Log<R>>, ys: seq<Log<R>>)
    requires Sorted(xs) && Sorted(ys) && xs != [] && ys != []
    requires xs[0] in ys && ys[0] in xs
    ensures xs[0] == ys[0]
  {
    var i :| 0 <= i < |ys| && ys[i] == xs[0];
    var j :| 0 <= j < |xs| && xs[j] == ys[0];
  }

  lemma HasFirst<R(!new)>(xs: seq<Log<R>>)
    requires xs != []
    ensures xs[0] in xs
  {
  }

  lemma TailMembers<R(!new)>(xs: seq<Log<R>>, ys: seq<Log<R>>)
    requires Sorted(xs) && Sorted(ys) && xs != [] && ys != [] && xs[0] == ys[0]
    requires forall f :: f in xs <==> f in ys
    ensures forall f :: f in xs[1..] <==> f in ys[1..]
  {
    forall f ensures f in xs[1..] <==> f in ys[1..] {
      InTail(xs, f);
      InTail(ys, f);
    }
  }

  lemma InTail<R(!new)>(xs: seq<Log<R>>, f: Log<R>)
    requires Sorted(xs) && xs != []
    ensures f in xs[1..] <==> f in xs && f != xs[0]
  {
    assert xs == [xs[0]] + xs[1..];
  }

  /** std::sort by time, one element at a time. */
  function Insert<R>(list: seq<Log<R>>, l: Log<R>): seq<Log<R>> {
    if list == [] || l.info.time < list[0].info.time then [l] + list
    else [list[0]] + Insert(list[1..], l)
  }

  lemma {:induction false} InsertSorted<R(!new)>(list: seq<Log<R>>, l: Log<R>)
    requires Sorted(list) && forall f :: f in list ==> f.info.time != l.info.time
    ensures Sorted(Insert(list, l))
    ensures forall f :: f in Insert(list, l) <==> f in list || f == l
  {
    if list != [] && l.info.time >= list[0].info.time {
      var head, rest := list[0], list[1..];
      assert list == [head] + rest;
      InsertSorted(rest, l);
      var more := Insert(rest, l);
      forall k | 0 <= k < |more| ensures head.info.time < more[k].info.time {
        assert more[k] in more;
        assert more[k] in rest || more[k] == l;
      }
      SortedCons(head, more);
    } else {
      SortedCons(l, list);
    }
  }

  lemma SortedCons<R(!new)>(head: Log<R>, list: seq<Log<R>>)
    requires Sorted(list) && forall i :: 0 <= i < |list| ==> head.info.time < list[i].info.time
    ensures Sorted([head] + list)
  {
  }

  // ---------------------------------------------------------------- the directory

  /** A directory listing: every file once, in any order. */
  ghost predicate Lists<R(!new)>(dir: seq<Log<R>>, files: seq<Log<R>>) {
    Distinct(dir) && forall f :: f in dir <==> f in files
  }

  lemma TimesApart<R(!new)>(files: seq<Log<R>>, f: Log<R>, g: Log<R>)
    requires Sorted(files) && f in files && g in files && f != g
    ensures f.info.time != g.info.time
  {
    var a :| 0 <= a < |files| && files[a] == f;
    var b :| 0 <= b < |files| && files[b] == g;
  }

  /** The newest file named without a range, among those listed so far. */
  ghost predicate NewestOpen<R>(dir: seq<Log<R>>, newest: Option<Log<R>>) {
    match newest
    case None => forall f :: f in dir ==> f.info.min != -1
    case Some(o) =>
      && o in dir && o.info.min == -1
      && forall f :: f in dir && f.info.min == -1 ==> f.info.time <= o.info.time
  }

  lemma {:induction false} NewestSpec<R(!new)>(files: seq<Log<R>>)
    requires Sorted(files)
    ensures Newest(files) == -1 <==> forall f :: f in files ==> f.info.min != -1
    ensures forall f :: f in files && f.info.min == -1 ==> f.info.time <= Newest(files)
    ensures Newest(files) != -1 ==> exists f :: f in files && f.info.min == -1 && f.info.time == Newest(files)
  {
    if files != [] {
      var n := |files| - 1;
      assert files == files[..n] + [files[n]];
      NewestSpec(files[..n]);
    }
  }

  lemma NewestFound<R(!new)>(dir: seq<Log<R>>, files: seq<Log<R>>, newest: Option<Log<R>>)
    requires Lists(dir, files) && Sorted(files) && NewestOpen(dir, newest)
    ensures newest.None? <==> Newest(files) == -1
    ensures newest.Some? ==> newest.value in files && newest.value.info.time == Newest(files)
  {
    NewestSpec(files);
  }

  lemma {:induction false} LatestSpec<R(!new)>(files: seq<Log<R>>)
    ensures Latest(files) >= 0 && forall f :: f in files ==> f.info.ckpt <= Latest(files)
    ensures Latest(files) == 0 || exists f :: f in files && f.info.ckpt == Latest(files)
  {
    if files != [] {
      var n := |files| - 1;
      assert files == files[..n] + [files[n]];
      LatestSpec(files[..n]);
    }
  }

  ghost predicate RangedSoFar<R(!new)>(ckpt: int, dir: seq<Log<R>>, list: seq<Log<R>>) {
    Sorted(list) && forall f :: f in list <==> f in dir && InRange(ckpt, f)
  }

  lemma AddRanged<R(!new)>(ckpt: int, dir: seq<Log<R>>, list: seq<Log<R>>, files: seq<Log<R>>, l: Log<R>)
    requires RangedSoFar(ckpt, dir, list) && InRange(ckpt, l)
    requires Sorted(files) && l in files && l !in dir && forall f :: f in dir ==> f in files
    ensures RangedSoFar(ckpt, dir + [l], Insert(list, l))
  {
    forall f | f in list ensures f.info.time != l.info.time {
      TimesApart(files, f, l);
    }
    InsertSorted(list, l);
  }

  lemma AddOpen<R(!new)>(ckpt: int, dir: seq<Log<R>>, list: seq<Log<R>>, files: seq<Log<R>>, newest: Option<Log<R>>)
    requires Sorted(files) && Lists(dir, files) && RangedSoFar(ckpt, dir, list) && NewestOpen(dir, newest)
    ensures (if newest.Some? then Insert(list, newest.value) else list) == Picked(ckpt, Newest(files), files)
  {
    NewestFound(dir, files, newest);
    PickedSpec(ckpt, Newest(files), files);
    if newest.Some? {
      var open := newest.value;
      forall f | f in files && f != open ensures f.info.time != open.info.time { TimesApart(files, f, open); }
      InsertSorted(list, open);
      SortedUnique(Insert(list, open), Picked(ckpt, Newest(files), files));
    } else {
      SortedUnique(list, Picked(ckpt, Newest(files), files));
    }
  }

  /** GetRecoveryFiles, on any directory without two equal times: the largest checkpoint in
      any name, the files whose range holds it, and the newest file without a range,
      sorted by time. The result does not depend on the order of the listing. */
  method GetRecoveryFiles<R(!new)>(dir: seq<Log<R>>, ghost files: seq<Log<R>>) returns (list: seq<Log<R>>, ckpt: int)
    requires Lists(dir, files) && Sorted(files)
    ensures ckpt == Latest(files)
    ensures list == Picked(Latest(files), Newest(files), files)
  {
    ckpt := MaxCkpt(dir, files);
    list := [];
    var newest: Option<Log<R>> := None;
    for n := 0 to |dir|
      invariant RangedSoFar(ckpt, dir[..n], list)
      invariant NewestOpen(dir[..n], newest)
    {
      var l := dir[n];
      assert dir[..n + 1] == dir[..n] + [l];
      if l.info.min == -1 {
        if newest.None? || newest.value.info.time < l.info.time { newest := Some(l); }
      } else if l.info.min <= ckpt && l.info.max >= ckpt {
        AddRanged(ckpt, dir[..n], list, files, l);
        list := Insert(list, l);
      }
    }
    assert dir[..|dir|] == dir;
    AddOpen(ckpt, dir, list, files, newest);
    if newest.Some? { list := Insert(list, newest.value); }
  }

  /** The first pass: the largest checkpoint in any name, from zero up. */
  method MaxCkpt<R(!new)>(dir: seq<Log<R>>, ghost files: seq<Log<R>>) returns (ckpt: int)
    requires Lists(dir, files)
    ensures ckpt == Latest(files)
  {
    LatestSpec(files);
    ckpt := 0;
    for n := 0 to |dir|
      invariant 0 <= ckpt <= Latest(files)
      invariant forall k :: 0 <= k < n ==> dir[k].info.ckpt <= ckpt
    {
      assert dir[n] in files;
      if dir[n].info.ckpt > ckpt { ckpt := dir[n].info.ckpt; }
    }
    assert forall f :: f in files ==> f in dir;
  }

  /** GetLastFile on a start: among the files named without a range the one with the
      greatest time above zero, or none. */
  method GetLastFile<R(!new)>(dir: seq<Log<R>>, ghost files: seq<Log<R>>) returns (last: Option<Log<R>>)
    requires Lists(dir, files) && Sorted(files)
    ensures last.None? <==> Newest(files) <= 0
    ensures last.Some? ==> last.value in files && last.value.info.min == -1 && last.value.info.time == Newest(files)
  {
    last := None;
    var time := 0;
    for n := 0 to |dir|
      invariant last.None? ==> time == 0
      invariant last.Some? ==> last.value in dir && last.value.info.min == -1 && 0 < last.value.info.time == time
      invariant forall k :: 0 <= k < n && dir[k].info.min == -1 ==> dir[k].info.time <= time
    {
      if dir[n].info.min == -1 && time < dir[n].info.time {
        last, time := Some(dir[n]), dir[n].info.time;
      }
    }
    NewestSpec(files);
    assert forall f :: f in files ==> f in dir;
  }

  // ---------------------------------------------------------------- loading names

  /** The files on disk carry the names printed for them. */
  ghost predicate Printed<R>(names: Names, files: seq<File<R>>, logs: seq<Log<R>>) {
    && |files| == |logs|
    && forall i :: 0 <= i < |files| ==> files[i] == File(names.show(logs[i].info), logs[i].records)
  }

  /** A directory that holds these log files and otherwise only files that are passed over. */
  ghost predicate Directory<R>(names: Names, dir: seq<File<R>>, files: seq<File<R>>) {
    && (forall f :: f in files ==> f in dir)
    && (forall f :: f in dir ==> f in files || names.load(f.name).Skipped?)
    && Distinct(dir)
  }

  function LoadAll<R>(names: Names, dir: seq<File<R>>): seq<Log<R>> {
    if dir == [] then [] else
      LoadAll(names, dir[..|dir| - 1]) +
      match names.load(dir[|dir| - 1].name)
      case Read(i) => [Log(i, dir[|dir| - 1].records)]
      case _ => []
  }

  ghost predicate Loads<R>(names: Names, f: File<R>, l: Log<R>) {
    names.load(f.name) == Read(l.info) && f.records == l.records
  }

  lemma {:induction false} LoadMembers<R(!new)>(names: Names, dir: seq<File<R>>)
    ensures forall l :: l in LoadAll(names, dir) <==> exists f :: f in dir && Loads(names, f, l)
  {
    if dir != [] {
      var n := |dir| - 1;
      LoadMembers(names, dir[..n]);
      assert dir == dir[..n] + [dir[n]];
      forall l ensures l in LoadAll(names, dir) <==> exists f :: f in dir && Loads(names, f, l) {
        if l in LoadAll(names, dir[..n]) {
          var f :| f in dir[..n] && Loads(names, f, l);
          assert f in dir;
        } else if Loads(names, dir[n], l) {
          assert dir[n] in dir;
        }
      }
    }
  }

  lemma {:induction false} LoadDistinct<R(!new)>(names: Names, dir: seq<File<R>>)
    requires forall i, j, l :: 0 <= i < j < |dir| && Loads(names, dir[i], l) ==> !Loads(names, dir[j], l)
    ensures Distinct(LoadAll(names, dir))
  {
    if dir != [] {
      var n := |dir| - 1;
      var init := dir[..n];
      forall i, j, l | 0 <= i < j < |init| && Loads(names, init[i], l) ensures !Loads(names, init[j], l) {
        assert Loads(names, dir[i], l);
      }
      LoadDistinct(names, init);
      LoadMembers(names, init);
      var before := LoadAll(names, init);
      forall l | l in before ensures !Loads(names, dir[n], l) {
        var f :| f in init && Loads(names, f, l);
        var i :| 0 <= i < n && init[i] == f;
        assert Loads(names, dir[i], l);
      }
      forall i | 0 <= i < |before| ensures !Loads(names, dir[n], before[i]) { assert before[i] in before; }
      match names.load(dir[n].name)
      case Read(info) =>
        var l := Log(info, dir[n].records);
        assert Loads(names, dir[n], l);
        DistinctSnoc(before, l);
      case _ => assert before + [] == before;
    }
  }

  lemma DistinctSnoc<T>(xs: seq<T>, x: T)
    requires Distinct(xs) && forall i :: 0 <= i < |xs| ==> xs[i] != x
    ensures Distinct(xs + [x])
  {
  }

  lemma LoadedIs<R(!new)>(names: Names, files: seq<File<R>>, logs: seq<Log<R>>, f: File<R>, l: Log<R>)
    requires Visible(names) && Printed(names, files, logs) && f in files && Loads(names, f, l)
    ensures l in logs && forall a :: 0 <= a < |files| && files[a] == f ==> logs[a] == l
  {
    forall a | 0 <= a < |files| && files[a] == f ensures logs[a] == l {
      assert names.load(names.show(logs[a].info)) == Read(logs[a].info);
    }
    var a :| 0 <= a < |files| && files[a] == f;
    assert logs[a] == l;
  }

  /** Loading a directory, in whatever order it is listed, yields a listing of the logs
      when names are visible, and nothing when they are not. */
  lemma VisibleListing<R(!new)>(names: Names, dir: seq<File<R>>, files: seq<File<R>>, logs: seq<Log<R>>)
    requires Visible(names) && Printed(names, files, logs) && Sorted(logs) && Directory(names, dir, files)
    ensures Lists(LoadAll(names, dir), logs)
  {
    LoadMembers(names, dir);
    var all := LoadAll(names, dir);
    forall l | l in all ensures l in logs {
      var f :| f in dir && Loads(names, f, l);
      LoadedIs(names, files, logs, f, l);
    }
    forall l | l in logs ensures l in all {
      var a :| 0 <= a < |logs| && logs[a] == l;
      assert names.load(names.show(l.info)) == Read(l.info);
      assert files[a] in dir && Loads(names, files[a], l);
    }
    forall i, j, l | 0 <= i < j < |dir| && Loads(names, dir[i], l) ensures !Loads(names, dir[j], l) {
      if Loads(names, dir[j], l) { LoadedApart(names, files, logs, dir[i], dir[j], l); }
    }
    LoadDistinct(names, dir);
  }

  lemma LoadedApart<R(!new)>(names: Names, files: seq<File<R>>, logs: seq<Log<R>>, f: File<R>, g: File<R>, l: Log<R>)
    requires Visible(names) && Printed(names, files, logs) && Sorted(logs)
    requires f in files && g in files && Loads(names, f, l) && Loads(names, g, l)
    ensures f == g
  {
    LoadedIs(names, files, logs, f, l);
    LoadedIs(names, files, logs, g, l);
    var a :| 0 <= a < |files| && files[a] == f;
    var b :| 0 <= b < |files| && files[b] == g;
    assert logs[a] == logs[b];
  }

  lemma {:induction false} UnseenListing<R(!new)>(names: Names, dir: seq<File<R>>)
    requires forall f :: f in dir ==> names.load(f.name).Skipped?
    ensures LoadAll(names, dir) == []
  {
    if dir != [] {
      UnseenListing(names, dir[..|dir| - 1]);
      assert dir[|dir| - 1] in dir;
    }
  }

  /** The loop over the directory entries. */
  method LoadNames<R>(names: Names, dir: seq<File<R>>) returns (loaded: seq<Log<R>>)
    ensures loaded == LoadAll(names, dir)
  {
    loaded := [];
    for n := 0 to |dir|
      invariant loaded == LoadAll(names, dir[..n])
    {
      assert dir[..n + 1][..n] == dir[..n];
      var taken := names.load(dir[n].name);
      if taken.Read? { loaded := loaded + [Log(taken.info, dir[n].records)]; }
    }
    assert dir[..|dir|] == dir;
  }

  // ---------------------------------------------------------------- what runs leave behind

  function Last<R>(files: seq<Log<R>>): Log<R>
    requires files != []
  {
    files[|files| - 1]
  }

  /** Files in strictly increasing time order, the last one open under the latest
      checkpoint. */
  ghost predicate Layout<R>(ckpt: nat, files: seq<Log<R>>) {
    && files != []
    && Sorted(files)
    && (forall i :: 0 <= i < |files| - 1 ==> files[i].info.ckpt <= ckpt)
    && Last(files).info.min == -1 && Last(files).info.ckpt == ckpt && Last(files).info.time > 0
  }

  lemma LayoutNames<R(!new)>(ckpt: nat, files: seq<Log<R>>)
    requires Layout(ckpt, files)
    ensures Latest(files) == ckpt && Newest(files) == Last(files).info.time
  {
    LatestSpec(files);
    assert Last(files) in files;
  }

  /** The files that recovery reads, told by their names. */
  ghost predicate Chosen<R>(ckpt: nat, files: seq<Log<R>>, i: int) {
    && 0 <= i < |files|
    && (i == |files| - 1 || (files[i].info.min != -1 && files[i].info.min <= ckpt <= files[i].info.max))
  }

  /** A record is handed over if and only if it passes the test and is in a chosen file. */
  lemma ReplayedExactly<R(!new)>(keep: R -> bool, ckpt: nat, files: seq<Log<R>>)
    requires Layout(ckpt, files)
    ensures forall r :: r in Replay(keep, Picked(ckpt, Last(files).info.time, files)) <==>
      keep(r) && exists i :: Chosen(ckpt, files, i) && r in files[i].records
  {
    var newest := Last(files).info.time;
    var list := Picked(ckpt, newest, files);
    PickedSpec(ckpt, newest, files);
    forall i | 0 <= i < |files| ensures Selected(ckpt, newest, files[i]) <==> Chosen(ckpt, files, i) {
      if i < |files| - 1 { assert files[i].info.time < files[|files| - 1].info.time; }
    }
    forall r ensures r in Replay(keep, list) <==> keep(r) && exists i :: Chosen(ckpt, files, i) && r in files[i].records {
      InReplay(keep, list, r);
      if i :| Chosen(ckpt, files, i) && r in files[i].records { assert files[i] in files; }
      if f :| f in list && r in f.records {
        var i :| 0 <= i < |files| && files[i] == f;
        assert Chosen(ckpt, files, i);
      }
    }
  }

  lemma {:induction false} InReplay<R(!new)>(keep: R -> bool, files: seq<Log<R>>, r: R)
    ensures r in Replay(keep, files) <==> keep(r) && exists f :: f in files && r in f.records
  {
    if files != [] {
      var n := |files| - 1;
      InReplay(keep, files[..n], r);
      FilterMembers(keep, files[n].records, r);
      assert files == files[..n] + [files[n]];
    }
  }

  ghost function Grown<R>(logs: seq<Log<R>>, r: R): seq<Log<R>>
    requires logs != []
  {
    logs[..|logs| - 1] + [Log(Last(logs).info, Last(logs).records + [r])]
  }

  ghost function Rotated<R>(logs: seq<Log<R>>, sealed: Info, next: Info): seq<Log<R>>
    requires logs != []
  {
    logs[..|logs| - 1] + [Log(sealed, Last(logs).records)] + [Log(next, [])]
  }

  /** Appending a record to the open file. */
  lemma GrowLast<R(!new)>(names: Names, closed: seq<File<R>>, open: File<R>, logs: seq<Log<R>>, r: R)
    requires logs != [] && Printed(names, closed + [open], logs)
    ensures AllRecords(Grown(logs, r)) == AllRecords(logs) + [r]
    ensures Printed(names, closed + [open.(records := open.records + [r])], Grown(logs, r))
  {
    var n, grown := |logs| - 1, Grown(logs, r);
    assert logs == logs[..n] + [logs[n]];
    AllRecordsSnoc(logs[..n], logs[n]);
    AllRecordsSnoc(logs[..n], grown[n]);
    assert AllRecords(logs[..n]) + (logs[n].records + [r]) == AllRecords(logs[..n]) + logs[n].records + [r];
    assert (closed + [open])[n] == open;
    assert forall i :: 0 <= i < n ==> (closed + [open])[i] == closed[i];
  }

  lemma GrowLayout<R(!new)>(ckpt: nat, logs: seq<Log<R>>, r: R)
    requires Layout(ckpt, logs)
    ensures Layout(ckpt, Grown(logs, r))
  {
    var n, grown := |logs| - 1, Grown(logs, r);
    assert forall i :: 0 <= i <= n ==> grown[i].info == logs[i].info;
  }

  /** Closing the open file under its range and opening an empty one. */
  lemma RotateLast<R(!new)>(names: Names, closed: seq<File<R>>, open: File<R>, logs: seq<Log<R>>, sealed: Info, next: Info)
    requires logs != [] && Printed(names, closed + [open], logs)
    ensures AllRecords(Rotated(logs, sealed, next)) == AllRecords(logs)
    ensures Printed(names, closed + [File(names.show(sealed), open.records)] + [File(names.show(next), [])],
                    Rotated(logs, sealed, next))
  {
    RotateRecords(logs, sealed, next);
    RotatePrinted(names, closed, open, logs, sealed, next);
  }

  lemma RotateRecords<R(!new)>(logs: seq<Log<R>>, sealed: Info, next: Info)
    requires logs != []
    ensures AllRecords(Rotated(logs, sealed, next)) == AllRecords(logs)
  {
    var n := |logs| - 1;
    var front, mid := logs[..n], Log(sealed, logs[n].records);
    assert logs == front + [logs[n]];
    AllRecordsSnoc(front, logs[n]);
    AllRecordsSnoc(front, mid);
    AllRecordsSnoc(front + [mid], Log(next, []));
    assert AllRecords(logs) + [] == AllRecords(logs);
  }

  lemma RotatePrinted<R(!new)>(names: Names, closed: seq<File<R>>, open: File<R>, logs: seq<Log<R>>, sealed: Info, next: Info)
    requires logs != [] && Printed(names, closed + [open], logs)
    ensures Printed(names, closed + [File(names.show(sealed), open.records)] + [File(names.show(next), [])],
                    Rotated(logs, sealed, next))
  {
    var n := |logs| - 1;
    assert (closed + [open])[n] == open;
    assert forall i :: 0 <= i < n ==> (closed + [open])[i] == closed[i];
  }

  lemma RotateLayout<R(!new)>(ckpt: nat, logs: seq<Log<R>>, sealed: Info, next: Info)
    requires Layout(ckpt, logs)
    requires Last(logs).info.time < sealed.time < next.time
    requires ckpt <= sealed.ckpt == next.ckpt && next.min == -1
    ensures Layout(next.ckpt, Rotated(logs, sealed, next))
  {
    var n := |logs| - 1;
    assert logs == logs[..n] + [logs[n]];
    RotateSorted(logs[..n], logs[n], Log(sealed, logs[n].records), Log(next, []));
  }

  lemma RotateSorted<R(!new)>(front: seq<Log<R>>, was: Log<R>, mid: Log<R>, next: Log<R>)
    requires Sorted(front + [was]) && was.info.time < mid.info.time < next.info.time
    ensures Sorted(front + [mid] + [next])
  {
    var list := front + [was];
    assert forall i :: 0 <= i < |front| ==> list[i] == front[i];
    assert front != [] ==> list[|front| - 1].info.time < list[|front|].info.time;
    SortedSnoc(front, mid);
    SortedSnoc(front + [mid], next);
  }

  lemma SortedSnoc<R(!new)>(list: seq<Log<R>>, l: Log<R>)
    requires Sorted(list) && (list != [] ==> Last(list).info.time < l.info.time)
    ensures Sorted(list + [l])
  {
    forall i, j | 0 <= i < j < |list + [l]| ensures (list + [l])[i].info.time < (list + [l])[j].info.time {
      if j == |list| && i < |list| - 1 { assert list[i].info.time < list[|list| - 1].info.time; }
    }
  }

  /** A further, empty file. */
  lemma AddEmpty<R(!new)>(names: Names, files: seq<File<R>>, logs: seq<Log<R>>, i: Info)
    requires Printed(names, files, logs)
    ensures AllRecords(logs + [Log(i, [])]) == AllRecords(logs)
    ensures Printed(names, files + [File(names.show(i), [])], logs + [Log(i, [])])
  {
    AllRecordsSnoc(logs, Log(i, []));
    assert AllRecords(logs) + [] == AllRecords(logs);
  }

  /** The files on disk, what their names say and what was written. */
  ghost predicate Stored<R>(names: Names, closed: seq<File<R>>, open: File<R>, ckpt: nat, logs: seq<Log<R>>, written: seq<R>) {
    && Printed(names, closed + [open], logs)
    && (Visible(names) ==> Layout(ckpt, logs))
    && AllRecords(logs) == written
  }

  lemma FirstStored<R(!new)>(names: Names, first: Info)
    requires first.time > 0 && first.min == -1 && first.ckpt == 0
    ensures Stored<R>(names, [], File(names.show(first), []), 0, [Log(first, [])], [])
  {
    var logs: seq<Log<R>> := [Log(first, [])];
    assert logs[..0] == [];
    assert AllRecords(logs) == [] + [];
  }

  lemma WriteStored<R(!new)>(names: Names, closed: seq<File<R>>, open: File<R>, ckpt: nat, logs: seq<Log<R>>, written: seq<R>, r: R)
    requires Stored(names, closed, open, ckpt, logs, written)
    ensures Stored(names, closed, open.(records := open.records + [r]), ckpt, Grown(logs, r), written + [r])
  {
    GrowLast(names, closed, open, logs, r);
    if Visible(names) { GrowLayout(ckpt, logs, r); }
  }

  lemma FinishStored<R(!new)>(names: Names, closed: seq<File<R>>, open: File<R>, ckpt: nat, logs: seq<Log<R>>, written: seq<R>,
                              sealed: Info, next: Info)
    requires Stored(names, closed, open, ckpt, logs, written)
    requires Last(logs).info.time < sealed.time < next.time
    requires ckpt <= sealed.ckpt == next.ckpt && next.min == -1
    ensures Stored(names, closed + [File(names.show(sealed), open.records)], File(names.show(next), []), next.ckpt,
                   Rotated(logs, sealed, next), written)
  {
    RotateLast(names, closed, open, logs, sealed, next);
    if Visible(names) { RotateLayout(ckpt, logs, sealed, next); }
  }

  lemma FreshStored<R(!new)>(names: Names, closed: seq<File<R>>, open: File<R>, ckpt: nat, logs: seq<Log<R>>, written: seq<R>, i: Info)
    requires !Visible(names) && Stored(names, closed, open, ckpt, logs, written)
    ensures Stored(names, closed + [open], File(names.show(i), []), 0, logs + [Log(i, [])], written)
  {
    AddEmpty(names, closed + [open], logs, i);
  }

  // ---------------------------------------------------------------- starting and reading

  /** What a listing yields: the logs if their names are visible, nothing if unseen. */
  lemma Found<R(!new)>(names: Names, dir: seq<File<R>>, onDisk: seq<File<R>>, logs: seq<Log<R>>)
    returns (files: seq<Log<R>>)
    requires (Visible(names) && Sorted(logs)) || Unseen(names)
    requires Printed(names, onDisk, logs) && Directory(names, dir, onDisk)
    ensures files == if Visible(names) then logs else []
    ensures Lists(LoadAll(names, dir), files) && Sorted(files)
  {
    if Visible(names) {
      files := logs;
      VisibleListing(names, dir, onDisk, logs);
    } else {
      files := [];
      forall f | f in dir ensures names.load(f.name).Skipped? {
        if f in onDisk {
          var i :| 0 <= i < |onDisk| && onDisk[i] == f;
          assert names.load(names.show(logs[i].info)) == Skipped;
        }
      }
      UnseenListing(names, dir);
    }
  }

  lemma NothingFound<R(!new)>(names: Names, ckpt: nat, logs: seq<Log<R>>, files: seq<Log<R>>)
    requires Visible(names) ==> Layout(ckpt, logs)
    requires files == (if Visible(names) then logs else []) && Newest(files) <= 0
    ensures !Visible(names)
  {
    if Visible(names) { LayoutNames(ckpt, logs); }
  }

  lemma OpenFound<R(!new)>(names: Names, ckpt: nat, logs: seq<Log<R>>, files: seq<Log<R>>, last: Log<R>)
    requires Visible(names) ==> Layout(ckpt, logs)
    requires files == (if Visible(names) then logs else [])
    requires last in files && last.info.time == Newest(files)
    ensures Visible(names) && last == Last(logs) && last.info.ckpt == ckpt
  {
    LayoutNames(ckpt, logs);
    if last != Last(logs) { TimesApart(logs, last, Last(logs)); }
  }

  /** ReadLogs on any listing of the directory: with visible names the chosen files are
      replayed at the latest checkpoint, with unseen ones nothing is. */
  method ReadLogs<R(!new)>(names: Names, keepBy: int -> (R -> bool), dir: seq<File<R>>,
                           ghost onDisk: seq<File<R>>, ghost logs: seq<Log<R>>, ghost latest: nat)
    returns (replayed: seq<R>)
    requires Visible(names) || Unseen(names)
    requires Visible(names) ==> Layout(latest, logs)
    requires Printed(names, onDisk, logs) && Directory(names, dir, onDisk)
    ensures Visible(names) ==> replayed == Replay(keepBy(latest), Picked(latest, Last(logs).info.time, logs))
    ensures Unseen(names) ==> replayed == []
  {
    var loaded := LoadNames(names, dir);
    ghost var files := Found(names, dir, onDisk, logs);
    var list, ckpt := GetRecoveryFiles(loaded, files);
    if Visible(names) { LayoutNames(latest, logs); }
    replayed := ReplayFiles(keepBy(ckpt), list);
  }
}
