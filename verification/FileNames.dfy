/**
  Log file names: GenerateFile prints the closing time, the sequence range and the
  checkpoint behind the base name, and recovery reads them back by searching for
  underscores from the right.
 */
module FileNames {
  import opened Common

  datatype Info = Info(time: nat, min: int, max: int, ckpt: int)

  // ---------------------------------------------------------------- decimal numbers

  function DigitChar(d: nat): char
    requires d < 10
  {
    '0' + d as char
  }

  predicate IsDigit(c: char) { '0' <= c <= '9' }

  function Decimal(n: nat): (s: string)
    ensures s != []
  {
    if n < 10 then [DigitChar(n)] else Decimal(n / 10) + [DigitChar(n % 10)]
  }

  /** std::to_string. */
  function ToString(n: int): string {
    if n < 0 then "-" + Decimal(-n) else Decimal(n)
  }

  function LeadingDigits(s: string): (k: nat)
    ensures k <= |s|
    ensures forall i :: 0 <= i < k ==> IsDigit(s[i])
  {
    if s == [] || !IsDigit(s[0]) then 0 else 1 + LeadingDigits(s[1..])
  }

  function Value(s: string): nat
    requires forall i :: 0 <= i < |s| ==> IsDigit(s[i])
  {
    if s == [] then 0 else
      assert IsDigit(s[|s| - 1]);
      10 * Value(s[..|s| - 1]) + (s[|s| - 1] as int - '0' as int)
  }

  /** std::stoll: a sign and the digits that follow it; None where it throws. */
  function ParseInt(s: string): Option<int> {
    var negative := s != [] && s[0] == '-';
    var body := if negative then s[1..] else s;
    var k := LeadingDigits(body);
    if k == 0 then None else Some(if negative then 0 - Value(body[..k]) else Value(body[..k]))
  }

  lemma {:induction false} DecimalDigits(n: nat)
    ensures forall i :: 0 <= i < |Decimal(n)| ==> IsDigit(Decimal(n)[i])
    ensures Value(Decimal(n)) == n
  {
    if n < 10 {
      assert [DigitChar(n)][..0] == [];
    } else {
      DecimalDigits(n / 10);
      var s := Decimal(n);
      assert s[..|s| - 1] == Decimal(n / 10);
    }
  }

  ghost predicate AllDigits(d: string) {
    forall i :: 0 <= i < |d| ==> IsDigit(d[i])
  }

  ghost predicate EndsNumber(tail: string) { tail == [] || !IsDigit(tail[0]) }

  lemma {:induction false} LeadingDigitsAll(s: string, tail: string)
    requires AllDigits(s) && EndsNumber(tail)
    ensures LeadingDigits(s + tail) == |s|
  {
    if s == [] {
      assert s + tail == tail;
    } else {
      assert (s + tail)[1..] == s[1..] + tail;
      LeadingDigitsAll(s[1..], tail);
    }
  }

  lemma ParseDigits(d: string, tail: string)
    requires d != [] && AllDigits(d) && EndsNumber(tail)
    ensures ParseInt(d + tail) == Some(Value(d))
  {
    LeadingDigitsAll(d, tail);
    assert (d + tail)[..|d|] == d;
    assert IsDigit((d + tail)[0]);
  }

  lemma ParseNegative(d: string, tail: string)
    requires d != [] && AllDigits(d) && EndsNumber(tail)
    ensures ParseInt("-" + (d + tail)) == Some(0 - Value(d))
  {
    var body := d + tail;
    LeadingDigitsAll(d, tail);
    assert body[..|d|] == d;
    assert ("-" + body)[1..] == body;
  }

  /** A printed number is read back, whatever follows its last digit. */
  lemma IntRoundTrip(n: int, tail: string)
    requires EndsNumber(tail)
    ensures ParseInt(ToString(n) + tail) == Some(n)
  {
    var m := if n < 0 then -n else n;
    DecimalDigits(m);
    if n < 0 {
      ParseNegative(Decimal(m), tail);
      assert "-" + Decimal(m) + tail == "-" + (Decimal(m) + tail);
    } else {
      ParseDigits(Decimal(m), tail);
    }
  }

  lemma PlainDigits(n: int)
    ensures '_' !in ToString(n)
  {
    DecimalDigits(if n < 0 then -n else n);
  }

  // ---------------------------------------------------------------- fields

  /** rfind: the last position of a character, or -1. */
  function LastOf(c: char, s: string): (i: int)
    ensures -1 <= i < |s|
    ensures i >= 0 ==> s[i] == c
  {
    if s == [] then -1
    else if s[|s| - 1] == c then |s| - 1
    else LastOf(c, s[..|s| - 1])
  }

  lemma {:induction false} LastOfAt(c: char, a: string, f: string)
    requires c !in f
    ensures LastOf(c, a + [c] + f) == |a|
  {
    var s := a + [c] + f;
    if f == [] {
      assert s == a + [c];
    } else {
      var init := f[..|f| - 1];
      assert s[|s| - 1] == f[|f| - 1];
      assert s[..|s| - 1] == a + [c] + init;
      LastOfAt(c, a, init);
    }
  }

  function Before(s: string): string {
    if LastOf('_', s) < 0 then "" else s[..LastOf('_', s)]
  }

  function After(s: string): string { s[LastOf('_', s) + 1..] }

  lemma SplitLast(a: string, f: string)
    requires '_' !in f
    ensures Before(a + "_" + f) == a && After(a + "_" + f) == f
  {
    LastOfAt('_', a, f);
  }

  /** The stem of the file that GenerateFile names: time, range and checkpoint behind the
      base name, and the dot that an extension of the base path leaves there. */
  function Name(base: string, ext: string, i: Info): string {
    base + "_" + ToString(i.time) + "_" + ToString(i.min) + "_" + ToString(i.max) + "_" + (ToString(i.ckpt) + Dot(ext))
  }

  function Dot(ext: string): string { if ext == "" then "" else "." }

  /** The fields that GetLastFile and GetRecoveryFiles read from a stem. */
  function ParseName(stem: string): Option<Info> {
    var ckpt := ParseInt(After(stem));
    var s1 := Before(stem);
    var max := ParseInt(After(s1));
    var s2 := Before(s1);
    var min := ParseInt(After(s2));
    var time := ParseInt(After(Before(s2)));
    if ckpt.Some? && max.Some? && min.Some? && time.Some? && time.value >= 0
    then Some(Info(time.value, min.value, max.value, ckpt.value)) else None
  }

  lemma FieldRoundTrip(n: int)
    ensures ParseInt(ToString(n)) == Some(n) && '_' !in ToString(n)
  {
    IntRoundTrip(n, "");
    assert ToString(n) + "" == ToString(n);
    PlainDigits(n);
  }

  /** Whatever the base name, underscores included, the printed fields are read back. */
  lemma NameRoundTrip(base: string, ext: string, i: Info)
    ensures ParseName(Name(base, ext, i)) == Some(i)
  {
    FieldRoundTrip(i.time);
    FieldRoundTrip(i.min);
    FieldRoundTrip(i.max);
    IntRoundTrip(i.ckpt, Dot(ext));
    PlainDigits(i.ckpt);
    var s3 := base + "_" + ToString(i.time);
    var s2 := s3 + "_" + ToString(i.min);
    var s1 := s2 + "_" + ToString(i.max);
    SplitLast(base, ToString(i.time));
    SplitLast(s3, ToString(i.min));
    SplitLast(s2, ToString(i.max));
    SplitLast(s1, ToString(i.ckpt) + Dot(ext));
  }

  // ---------------------------------------------------------------- extensions

  /** What path::extension can return: nothing, or one dot and no other. */
  ghost predicate IsExtension(ext: string) { ext == "" || (ext[0] == '.' && '.' !in ext[1..]) }

  /** GenerateFile puts a dot before the base path's extension, which has its own. */
  function FileName(base: string, ext: string, i: Info): string {
    Name(base, "", i) + "." + if ext == "" then "log" else ext
  }

  /** path::extension and path::stem; a leading dot starts no extension. */
  function Extension(name: string): string {
    var i := LastOf('.', name);
    if i <= 0 then "" else name[i..]
  }

  function Stem(name: string): string {
    var i := LastOf('.', name);
    if i <= 0 then name else name[..i]
  }

  /** How a directory entry is taken: passed over, read, or not a number where one is due. */
  datatype Listed = Skipped | Read(info: Info) | Throws

  function Load(name: string): Listed {
    if Extension(name) != ".log" then Skipped else
      match ParseName(Stem(name))
      case None => Throws
      case Some(i) => Read(i)
  }

  lemma NameDots(base: string, ext: string, i: Info)
    ensures Name(base, ext, i) == Name(base, "", i) + Dot(ext) && Name(base, "", i) != ""
  {
    var front := base + "_" + ToString(i.time) + "_" + ToString(i.min) + "_" + ToString(i.max) + "_";
    assert Name(base, ext, i) == front + (ToString(i.ckpt) + Dot(ext));
    assert front + (ToString(i.ckpt) + Dot(ext)) == front + (ToString(i.ckpt) + "") + Dot(ext);
  }

  lemma SplitDot(front: string, e: string)
    requires front != "" && '.' !in e
    ensures Extension(front + "." + e) == "." + e && Stem(front + "." + e) == front
  {
    LastOfAt('.', front, e);
  }

  lemma Parts(base: string, ext: string, i: Info)
    requires IsExtension(ext)
    ensures Extension(FileName(base, ext, i)) == if ext == "" then ".log" else ext
    ensures Stem(FileName(base, ext, i)) == Name(base, ext, i)
  {
    NameDots(base, ext, i);
    var name := Name(base, "", i);
    if ext == "" {
      SplitDot(name, "log");
      assert name + "" == name;
    } else {
      var e := ext[1..];
      assert ext == "." + e && name + "." + ("." + e) == (name + ".") + "." + e;
      SplitDot(name + ".", e);
    }
  }

  /** A generated name is read back exactly if the base path has no extension or ".log";
      with any other extension recovery passes the file over. */
  lemma LoadExactly(base: string, ext: string, i: Info)
    requires IsExtension(ext)
    ensures Load(FileName(base, ext, i)) == if ext == "" || ext == ".log" then Read(i) else Skipped
  {
    Parts(base, ext, i);
    NameRoundTrip(base, ext, i);
  }

  /** The text of a name, for instance: decimal fields, the time first and the checkpoint
      last. */
  lemma NameExample()
    ensures FileName("wal", "", Info(105, -1, 27, 30)) == "wal_105_-1_27_30.log"
  {
    assert Decimal(105) == "105" by { assert Decimal(10) == "10"; }
    assert Decimal(27) == "27" && Decimal(30) == "30";
    assert ToString(-1) == "-1";
  }

  /** A leading dot starts no extension, so such a file is passed over. */
  lemma DotFileSkipped()
    ensures Load(".log") == Skipped && Load("x.log") == Throws
  {
    LastOfAt('.', "", "log");
    LastOfAt('.', "x", "log");
    assert "" + ['.'] + "log" == ".log" && "x" + ['.'] + "log" == "x.log";
    assert ".log"[..0] == "" && "x.log"[1..] == ".log" && "x.log"[..1] == "x";
    assert LastOf('_', "x") == -1 by { assert "x"[..0] == ""; }
  }

  /** For instance a log kept under a base path that ends in ".txt". */
  lemma TextLogSkipped(base: string, ext: string, i: Info)
    requires ext == ".txt"
    ensures Load(FileName(base, ext, i)) == Skipped
  {
    assert ext[1..] == "txt";
    LoadExactly(base, ext, i);
  }
}
