/**
  The byte format of the write-ahead log in `RecoveryBase`: records are appended to
  a buffer with an 8-byte little-endian length each, a flush writes the buffer as
  one frame with its own 8-byte length, and the reader walks the frames back.
 */
module Framing {
  import opened Common

  const HEADER := 8
  const SIZE_LIMIT: nat := 0x1_0000_0000_0000_0000
  const MAX_FRAME: nat := 64 * 1024 * 1024

  // ---------------------------------------------------------------- lengths

  /** The k low bytes of n, least significant first. */
  function Digits(n: nat, k: nat): (bs: Bytes)
    ensures |bs| == k
  {
    if k == 0 then [] else [n % 256] + Digits(n / 256, k - 1)
  }

  function Number(bs: Bytes): nat {
    if bs == [] then 0 else bs[0] + 256 * Number(bs[1..])
  }

  function Pow256(k: nat): nat { if k == 0 then 1 else 256 * Pow256(k - 1) }

  lemma {:induction false} NumberOfDigits(n: nat, k: nat)
    requires n < Pow256(k)
    ensures Number(Digits(n, k)) == n
  {
    if k > 0 {
      NumberOfDigits(n / 256, k - 1);
      assert Digits(n, k)[1..] == Digits(n / 256, k - 1);
    }
  }

  function Len8(n: nat): (bs: Bytes)
    ensures |bs| == HEADER
  {
    Digits(n, HEADER)
  }

  lemma Len8RoundTrip(n: nat)
    requires n < SIZE_LIMIT
    ensures Number(Len8(n)) == n
  {
    assert Pow256(2) == 0x1_0000;
    assert Pow256(4) == 0x1_0000_0000;
    assert Pow256(6) == 0x1_0000_0000_0000;
    assert Pow256(8) == SIZE_LIMIT;
    NumberOfDigits(n, 8);
  }

  /** A byte counts for itself and what follows k bytes counts 256 to the k: least
      significant first. */
  lemma {:induction false} NumberSplit(a: Bytes, b: Bytes)
    ensures Number(a + b) == Number(a) + Pow256(|a|) * Number(b)
    ensures |a| == 1 ==> Number(a) == a[0]
  {
    if a == [] {
      assert a + b == b;
    } else {
      var rest, p := a[1..], Pow256(|a| - 1);
      assert (a + b)[1..] == rest + b;
      NumberSplit(rest, b);
      Regroup(p, Number(b));
    }
  }

  lemma Regroup(p: nat, n: nat)
    ensures 256 * (p * n) == 256 * p * n
  {
  }

  // ---------------------------------------------------------------- writing

  /** The buffer after AppendData of these records. */
  function Encode(items: seq<Bytes>): Bytes {
    if items == [] then [] else Len8(|items[0]|) + items[0] + Encode(items[1..])
  }

  /** What Flush writes for one buffer of records. */
  function Frame(items: seq<Bytes>): Bytes {
    Len8(|Encode(items)|) + Encode(items)
  }

  function FileOf(batches: seq<seq<Bytes>>): Bytes {
    if batches == [] then [] else Frame(batches[0]) + FileOf(batches[1..])
  }

  function Concat<T>(batches: seq<seq<T>>): seq<T> {
    if batches == [] then [] else batches[0] + Concat(batches[1..])
  }

  /** A flushed buffer is never empty and its size is a size_t. */
  predicate Flushable(items: seq<Bytes>) { items != [] && |Encode(items)| < SIZE_LIMIT }

  predicate AllFlushable(batches: seq<seq<Bytes>>) {
    forall i :: 0 <= i < |batches| ==> Flushable(batches[i])
  }

  predicate Small(items: seq<Bytes>) { |Encode(items)| <= MAX_FRAME }

  /** Batches that were flushed and that the reader accepts. */
  predicate Readables(batches: seq<seq<Bytes>>) {
    AllFlushable(batches) && forall i :: 0 <= i < |batches| ==> Small(batches[i])
  }

  // ---------------------------------------------------------------- reading

  function Prepend(items: seq<Bytes>, rest: Option<seq<Bytes>>): Option<seq<Bytes>> {
    match rest
    case None => None
    case Some(more) => Some(items + more)
  }

  lemma PrependNothing(rest: Option<seq<Bytes>>)
    ensures Prepend([], rest) == rest
  {
    match rest
    case None =>
    case Some(more) => assert [] + more == more;
  }

  lemma PrependTwice(xs: seq<Bytes>, ys: seq<Bytes>, rest: Option<seq<Bytes>>)
    ensures Prepend(xs, Prepend(ys, rest)) == Prepend(xs + ys, rest)
  {
    match rest
    case None =>
    case Some(more) => assert xs + (ys + more) == xs + ys + more;
  }

  /** ParseData on one frame; None where it would read past the end of the frame. */
  function Parse(data: Bytes): Option<seq<Bytes>>
    decreases |data|
  {
    if data == [] then Some([])
    else if |data| < HEADER then None
    else
      var len, rest := Number(data[..HEADER]), data[HEADER..];
      if len >= |rest| then Some([rest]) else Prepend([rest[..len]], Parse(rest[len..]))
  }

  /** ReadLogsFromFiles: a short header, a zero or oversized length, a short body or
      an empty frame each end the walk. */
  function Read(file: Bytes): Option<seq<Bytes>>
    decreases |file|
  {
    if |file| < HEADER then Some([])
    else
      var len := Number(file[..HEADER]);
      if len == 0 || len > MAX_FRAME || |file| - HEADER < len then Some([])
      else
        match Parse(file[HEADER..HEADER + len])
        case None => None
        case Some(items) => if items == [] then Some([]) else Prepend(items, Read(file[HEADER + len..]))
  }

  // ---------------------------------------------------------------- round trips

  lemma {:induction false} ParseEncode(items: seq<Bytes>)
    requires |Encode(items)| < SIZE_LIMIT
    ensures Parse(Encode(items)) == Some(items)
  {
    if items != [] {
      var item, data := items[0], Encode(items);
      Len8RoundTrip(|item|);
      assert data[..HEADER] == Len8(|item|);
      var rest := data[HEADER..];
      assert rest == item + Encode(items[1..]);
      ParseEncode(items[1..]);
      if |item| == |rest| {
        EmptyEncoding(items[1..]);
        assert rest == item && items == [item];
      } else {
        assert rest[..|item|] == item && rest[|item|..] == Encode(items[1..]);
        assert items == [item] + items[1..];
      }
    }
  }

  lemma EmptyEncoding(items: seq<Bytes>)
    ensures Encode(items) == [] <==> items == []
  {
  }

  /** A whole readable frame at the front yields its records; the walk goes on. */
  lemma ReadFrame(items: seq<Bytes>, rest: Bytes)
    requires Flushable(items)
    ensures Small(items) ==> Read(Frame(items) + rest) == Prepend(items, Read(rest))
    ensures !Small(items) ==> Read(Frame(items) + rest) == Some([])
  {
    var body := Encode(items);
    var file := Frame(items) + rest;
    Len8RoundTrip(|body|);
    EmptyEncoding(items);
    assert file[..HEADER] == Len8(|body|);
    assert file[HEADER..HEADER + |body|] == body && file[HEADER + |body|..] == rest;
    ParseEncode(items);
  }

  /** A frame that is cut anywhere yields nothing. */
  lemma ReadTornFrame(items: seq<Bytes>, cut: Bytes)
    requires Flushable(items)
    requires cut < Frame(items)
    ensures Read(cut) == Some([])
  {
    var body := Encode(items);
    Len8RoundTrip(|body|);
    if |cut| >= HEADER {
      assert cut == Frame(items)[..|cut|];
      assert cut[..HEADER] == Len8(|body|);
    }
  }

  /** How many leading frames lie wholly within the first n bytes and are small. */
  function Readable(batches: seq<seq<Bytes>>, n: nat): (k: nat)
    ensures k <= |batches|
  {
    if batches == [] || |Frame(batches[0])| > n || !Small(batches[0]) then 0
    else 1 + Readable(batches[1..], n - |Frame(batches[0])|)
  }

  /** For every byte prefix of every file of flushed frames the reader returns, in
      order, exactly the records of the frames wholly inside the prefix, up to the
      first frame over 64 MiB. */
  lemma {:induction false} ReadsWholeFrames(batches: seq<seq<Bytes>>, n: nat)
    requires AllFlushable(batches) && n <= |FileOf(batches)|
    ensures Read(FileOf(batches)[..n]) == Some(Concat(batches[..Readable(batches, n)]))
  {
    if batches != [] {
      var b, rest := batches[0], batches[1..];
      var f := |Frame(b)|;
      TakeSum(Frame(b), FileOf(rest), n);
      if n < f {
        ReadTornFrame(b, Frame(b)[..n]);
      } else {
        ReadFrame(b, FileOf(rest)[..n - f]);
        if Small(b) {
          ReadsWholeFrames(rest, n - f);
          WholeStep(Read, Frame(b), FileOf(rest), n, b, Concat(rest[..Readable(rest, n - f)]));
          ConcatCons(batches, Readable(batches, n));
        }
      }
    }
  }

  lemma WholeStep(read: Bytes -> Option<seq<Bytes>>, frame: Bytes, file: Bytes, n: nat, b: seq<Bytes>, items: seq<Bytes>)
    requires |frame| <= n <= |frame + file| && read(file[..n - |frame|]) == Some(items)
    requires read(frame + file[..n - |frame|]) == Prepend(b, read(file[..n - |frame|]))
    ensures read((frame + file)[..n]) == Some(b + items)
  {
    TakeSum(frame, file, n);
  }

  lemma TakeSum(a: Bytes, b: Bytes, n: nat)
    requires n <= |a + b|
    ensures (a + b)[..n] == if n < |a| then a[..n] else a + b[..n - |a|]
  {
  }

  lemma ConcatCons(batches: seq<seq<Bytes>>, k: nat)
    requires 0 < k <= |batches|
    ensures Concat(batches[..k]) == batches[0] + Concat(batches[1..][..k - 1])
  {
    assert batches[..k][1..] == batches[1..][..k - 1];
  }

  lemma {:induction false} ReadableAll(batches: seq<seq<Bytes>>)
    ensures Readable(batches, |FileOf(batches)|) == |batches| <==>
            forall i :: 0 <= i < |batches| ==> Small(batches[i])
  {
    if batches != [] {
      ReadableAll(batches[1..]);
      assert forall i :: 0 < i < |batches| ==> batches[i] == batches[1..][i - 1];
      assert forall i :: 0 <= i < |batches[1..]| ==> batches[1..][i] == batches[i + 1];
    }
  }

  lemma {:induction false} ConcatSplit<T>(xs: seq<seq<T>>, ys: seq<seq<T>>)
    ensures Concat(xs + ys) == Concat(xs) + Concat(ys)
  {
    if xs == [] {
      assert xs + ys == ys;
    } else {
      assert (xs + ys)[1..] == xs[1..] + ys;
      ConcatSplit(xs[1..], ys);
    }
  }

  lemma ConcatShorter(batches: seq<seq<Bytes>>, k: nat)
    requires AllFlushable(batches) && k < |batches|
    ensures Concat(batches[..k]) != Concat(batches)
  {
    assert batches == batches[..k] + batches[k..];
    ConcatSplit(batches[..k], batches[k..]);
    assert Flushable(batches[k]);
    assert |Concat(batches[k..])| > 0;
  }

  /** The log is read back in full exactly when no frame is over 64 MiB. */
  lemma LosslessExactly(batches: seq<seq<Bytes>>)
    requires AllFlushable(batches)
    ensures Read(FileOf(batches)) == Some(Concat(batches)) <==>
            forall i :: 0 <= i < |batches| ==> Small(batches[i])
  {
    var n := |FileOf(batches)|;
    assert FileOf(batches)[..n] == FileOf(batches);
    ReadsWholeFrames(batches, n);
    ReadableAll(batches);
    var k := Readable(batches, n);
    if k < |batches| {
      ConcatShorter(batches, k);
    } else {
      assert batches[..k] == batches;
    }
  }

  // ---------------------------------------------------------------- torn tails

  lemma {:induction false} ReadPastWhole(batches: seq<seq<Bytes>>, rest: Bytes)
    requires Readables(batches)
    ensures Read(FileOf(batches) + rest) == Prepend(Concat(batches), Read(rest))
  {
    if batches == [] {
      assert FileOf(batches) + rest == rest;
      PrependNothing(Read(rest));
    } else {
      var b, bs := batches[0], batches[1..];
      ReadPastWhole(bs, rest);
      assert FileOf(batches) + rest == Frame(b) + (FileOf(bs) + rest);
      ReadFrame(b, FileOf(bs) + rest);
      PrependTwice(b, Concat(bs), Read(rest));
    }
  }

  /** A restart keeps a torn tail unless the file holds no whole frame at all. */
  function Restart(file: Bytes): Bytes {
    if Read(file) == Some([]) then [] else file
  }

  /** A crash before the first frame is complete costs nothing later: the stub is
      truncated and everything appended after the restart is read back. */
  lemma RestartDropsStub(items: seq<Bytes>, cut: Bytes, later: seq<seq<Bytes>>)
    requires Flushable(items) && cut < Frame(items)
    requires Readables(later)
    ensures Read(Restart(cut) + FileOf(later)) == Some(Concat(later))
  {
    ReadTornFrame(items, cut);
    assert [] + FileOf(later) == FileOf(later);
    LosslessExactly(later);
  }

  /** After at least one whole frame a restart leaves the torn tail where it is. */
  lemma TornTailStays(whole: seq<seq<Bytes>>, items: seq<Bytes>, cut: Bytes)
    requires Readables(whole)
    requires whole != [] && Flushable(items) && cut < Frame(items)
    ensures Restart(FileOf(whole) + cut) == FileOf(whole) + cut
    ensures Read(FileOf(whole) + cut) == Some(Concat(whole))
  {
    ReadTornFrame(items, cut);
    ReadPastUnread(whole, cut);
  }

  /** That tail swallows later appends exactly as long as they do not fill the hole it
      left, or for good if the torn frame was over 64 MiB. */
  lemma TornTailHidesExactly(whole: seq<seq<Bytes>>, items: seq<Bytes>, cut: Bytes, later: Bytes)
    requires Readables(whole) && Flushable(items)
    requires cut < Frame(items) && |cut| >= HEADER
    ensures Read(FileOf(whole) + (cut + later)) == Some(Concat(whole)) <==>
            |cut| + |later| < |Frame(items)| || !Small(items)
  {
    HoleSwallows(items, cut, later);
    ReadPastWhole(whole, cut + later);
    NothingBehind(Read, FileOf(whole), cut + later, Concat(whole));
  }

  lemma NothingBehind(read: Bytes -> Option<seq<Bytes>>, file: Bytes, rest: Bytes, xs: seq<Bytes>)
    requires read(file + rest) == Prepend(xs, read(rest))
    ensures read(file + rest) == Some(xs) <==> read(rest) == Some([])
  {
    PrependSame(xs, read(rest), []);
    assert xs + [] == xs;
  }

  lemma ReadPastUnread(whole: seq<seq<Bytes>>, rest: Bytes)
    requires Readables(whole)
    requires whole != [] && Read(rest) == Some([])
    ensures Read(FileOf(whole) + rest) == Some(Concat(whole))
    ensures Concat(whole) != []
  {
    ReadPastWhole(whole, rest);
    assert Concat(whole) + [] == Concat(whole);
    assert whole[..0] == [];
    ConcatShorter(whole, 0);
  }

  /** A reading is empty exactly where the walk stops at the first header. */
  lemma UnreadExactly(rest: Bytes)
    ensures Read(rest) == Some([]) <==> Stops(rest)
  {
    if !Stops(rest) { ReadsOn(rest, rest[HEADER..][..Number(rest[..HEADER])]); }
  }

  predicate Stops(rest: Bytes) {
    || |rest| < HEADER
    || (var len := Number(rest[..HEADER]); len == 0 || len > MAX_FRAME || |rest| - HEADER < len)
  }

  lemma ReadsOn(rest: Bytes, body: Bytes)
    requires !Stops(rest) && body == rest[HEADER..][..Number(rest[..HEADER])]
    ensures Read(rest) != Some([])
  {
    if |body| >= HEADER && Parse(body).Some? { ParseFirst(body); }
  }

  lemma HoleSwallows(items: seq<Bytes>, cut: Bytes, later: Bytes)
    requires Flushable(items) && cut < Frame(items) && |cut| >= HEADER
    ensures Read(cut + later) == Some([]) <==> |cut| + |later| < |Frame(items)| || !Small(items)
  {
    CutHeader(items, cut);
    assert (cut + later)[..HEADER] == cut[..HEADER];
    UnreadExactly(cut + later);
  }

  /** The first record of a parsed frame is as long as its header says, clipped at the
      end of the frame. */
  lemma ParseFirst(data: Bytes)
    requires |data| >= HEADER && Parse(data).Some?
    ensures Parse(data).value != []
    ensures var len := Number(data[..HEADER]);
      |Parse(data).value[0]| == if len >= |data| - HEADER then |data| - HEADER else len
  {
    ParseItem(data);
  }

  lemma {:induction false} NumberAtLeast(bs: Bytes, i: nat)
    requires i < |bs|
    ensures Number(bs) >= bs[i]
    ensures i > 0 ==> Number(bs) >= 256 * (bs[i] as int)
  {
    if i > 0 { NumberAtLeast(bs[1..], i - 1); }
  }

  /** One append of one record that is not read back behind a torn header: its length
      bytes are taken for the high bytes of the torn one. */
  lemma TornHeaderSwallows(cut: Bytes)
    requires 0 < |cut| < HEADER
    ensures Read(cut + Frame([[]])) == Some([])
  {
    var file := cut + Frame([[]]);
    assert Encode([[]]) == Len8(0) + [] + [];
    assert Len8(8)[0] == 8;
    assert file[..HEADER][|cut|] == 8;
    NumberAtLeast(file[..HEADER], |cut|);
    UnreadExactly(file);
  }

  /** The record whose append is lost behind a torn frame of n bytes: longer than any
      record such a frame can hold, or, in a frame of the largest size, of another length
      than its first record. */
  function Lost(n: nat, cut: Bytes): Bytes
    requires n >= HEADER
  {
    if n < MAX_FRAME then seq(n - 7, _ => 0)
    else if |cut| >= 2 * HEADER && Number(cut[HEADER..2 * HEADER]) == 0 then [0]
    else []
  }

  lemma EncodeOne(x: Bytes)
    ensures |Encode([x])| == HEADER + |x| && |Frame([x])| == 2 * HEADER + |x|
  {
    assert Encode([x]) == Len8(|x|) + x + [];
  }

  /** In a torn frame that the append fills, the first record is not the appended one. */
  lemma FilledHoleDiffers(n: nat, cut: Bytes, body: Bytes)
    requires HEADER <= n <= MAX_FRAME && |body| == n && Parse(body).Some?
    requires n == MAX_FRAME ==> |cut| >= 2 * HEADER && body[..HEADER] == cut[HEADER..2 * HEADER]
    ensures Parse(body).value != [] && Parse(body).value[0] != Lost(n, cut)
  {
    ParseFirst(body);
  }

  lemma TornBodySwallows(items: seq<Bytes>, cut: Bytes)
    requires Flushable(items) && cut < Frame(items) && |cut| >= HEADER
    ensures |Encode(items)| >= HEADER
    ensures var x := Lost(|Encode(items)|, cut); Read(cut + Frame([x])) != Some([x])
  {
    CutHeader(items, cut);
    var x := Lost(|Encode(items)|, cut);
    EncodeOne(x);
    LostBehind(|Encode(items)|, cut, Frame([x]));
  }

  lemma CutHeader(items: seq<Bytes>, cut: Bytes)
    requires Flushable(items) && cut < Frame(items) && |cut| >= HEADER
    ensures Number(cut[..HEADER]) == |Encode(items)| >= HEADER
  {
    assert cut[..HEADER] == Frame(items)[..HEADER] == Len8(|Encode(items)|);
    Len8RoundTrip(|Encode(items)|);
    EmptyEncoding(items);
  }

  lemma LostBehind(n: nat, cut: Bytes, frame: Bytes)
    requires HEADER <= n && HEADER <= |cut| && Number(cut[..HEADER]) == n
    requires |frame| == 2 * HEADER + |Lost(n, cut)|
    ensures Read(cut + frame) != Some([Lost(n, cut)])
  {
    var file := cut + frame;
    assert file[..HEADER] == cut[..HEADER];
    UnreadExactly(file);
    if !Stops(file) { FilledHole(n, cut, file); }
  }

  lemma FilledHole(n: nat, cut: Bytes, file: Bytes)
    requires HEADER <= n && cut <= file && |cut| >= HEADER && (n == MAX_FRAME ==> |cut| >= 2 * HEADER)
    requires !Stops(file) && Number(file[..HEADER]) == n
    ensures Read(file) != Some([Lost(n, cut)])
  {
    var body := file[HEADER..HEADER + n];
    if Read(file).Some? {
      ReadsFirst(file, body);
      if n == MAX_FRAME { assert body[..HEADER] == cut[HEADER..2 * HEADER]; }
      FilledHoleDiffers(n, cut, body);
    }
  }

  /** What is read first is what the first frame parses to. */
  lemma ReadsFirst(file: Bytes, body: Bytes)
    requires !Stops(file) && body == file[HEADER..HEADER + Number(file[..HEADER])] && Read(file).Some?
    ensures Parse(body).Some? && (Parse(body).value != [] ==> Parse(body).value <= Read(file).value)
  {
  }

  /** After a crash that leaves whole frames and a cut one, everything appended after the
      restart is read back if and only if there was no whole frame, so that the file is
      truncated, or nothing of the cut frame was written. */
  lemma RestartExactly(whole: seq<seq<Bytes>>, items: seq<Bytes>, cut: Bytes)
    requires Readables(whole) && Flushable(items) && cut < Frame(items)
    ensures (forall later :: Readables(later) ==> AppendsRead(whole, cut, later)) <==> whole == [] || cut == []
  {
    if whole == [] {
      assert FileOf(whole) + cut == cut;
      forall later | Readables(later) ensures AppendsRead(whole, cut, later) {
        RestartDropsStub(items, cut, later);
        assert Concat(whole) + Concat(later) == Concat(later);
      }
    } else {
      TornTailStays(whole, items, cut);
      if cut == [] {
        forall later | Readables(later) ensures AppendsRead(whole, cut, later) { CleanAppends(whole, later); }
      } else {
        TornAppendLost(whole, items, cut);
      }
    }
  }

  ghost predicate AppendsRead(whole: seq<seq<Bytes>>, cut: Bytes, later: seq<seq<Bytes>>) {
    Read(Restart(FileOf(whole) + cut) + FileOf(later)) == Some(Concat(whole) + Concat(later))
  }

  lemma CleanAppends(whole: seq<seq<Bytes>>, later: seq<seq<Bytes>>)
    requires Readables(whole) && Readables(later) && Restart(FileOf(whole) + []) == FileOf(whole) + []
    ensures AppendsRead(whole, [], later)
  {
    assert FileOf(whole) + [] == FileOf(whole);
    ReadPastWhole(whole, FileOf(later));
    LosslessExactly(later);
  }

  lemma FileOne(b: seq<Bytes>)
    ensures FileOf([b]) == Frame(b) && Concat([b]) == b
  {
    assert [b][1..] == [];
    assert Frame(b) + [] == Frame(b) && b + [] == b;
  }

  lemma OneRecord(x: Bytes)
    ensures FileOf([[x]]) == Frame([x]) && Concat([[x]]) == [x]
    ensures HEADER + |x| <= MAX_FRAME ==> Readables([[x]])
  {
    FileOne([x]);
    EncodeOne(x);
  }

  lemma AppendLost(whole: seq<seq<Bytes>>, cut: Bytes, x: Bytes)
    requires Readables(whole) && Restart(FileOf(whole) + cut) == FileOf(whole) + cut
    requires Read(cut + Frame([x])) != Some([x])
    ensures !AppendsRead(whole, cut, [[x]])
  {
    OneRecord(x);
    ReadPastWhole(whole, cut + Frame([x]));
    NotReadBehind(Read, FileOf(whole), cut, Frame([x]), Concat(whole), [x]);
  }

  lemma NotReadBehind(read: Bytes -> Option<seq<Bytes>>, file: Bytes, cut: Bytes, frame: Bytes,
                      xs: seq<Bytes>, ys: seq<Bytes>)
    requires read(file + (cut + frame)) == Prepend(xs, read(cut + frame)) && read(cut + frame) != Some(ys)
    ensures read(file + cut + frame) != Some(xs + ys)
  {
    assert file + cut + frame == file + (cut + frame);
    PrependSame(xs, read(cut + frame), ys);
  }

  /** The failing family: behind a whole frame any torn bytes lose some later append. */
  lemma TornAppendLost(whole: seq<seq<Bytes>>, items: seq<Bytes>, cut: Bytes)
    requires Readables(whole) && whole != []
    requires Flushable(items) && [] < cut < Frame(items)
    ensures exists later :: Readables(later) && !AppendsRead(whole, cut, later)
  {
    TornTailStays(whole, items, cut);
    if |cut| < HEADER {
      TornHeaderSwallows(cut);
      OneRecord([]);
      AppendLost(whole, cut, []);
    } else {
      TornBodySwallows(items, cut);
      var x := Lost(|Encode(items)|, cut);
      OneRecord(x);
      AppendLost(whole, cut, x);
    }
  }

  lemma PrependSame(xs: seq<Bytes>, rest: Option<seq<Bytes>>, ys: seq<Bytes>)
    ensures Prepend(xs, rest) == Some(xs + ys) <==> rest == Some(ys)
  {
    if rest.Some? { assert (xs + rest.value)[|xs|..] == rest.value && (xs + ys)[|xs|..] == ys; }
  }

  /** A restart erases a file of flushed frames exactly when its first frame is over
      64 MiB, later frames included. */
  lemma RestartErasesExactly(batches: seq<seq<Bytes>>)
    requires AllFlushable(batches) && batches != []
    ensures Restart(FileOf(batches)) == [] <==> !Small(batches[0])
  {
    var b, rest := batches[0], FileOf(batches[1..]);
    ReadFrame(b, rest);
    EmptyEncoding(b);
  }

  // ---------------------------------------------------------------- the code

  class LogFile {
    var buffer: Bytes
    var file: Bytes
    ghost var pending: seq<Bytes>
    ghost var flushed: seq<seq<Bytes>>

    constructor ()
      ensures Valid() && pending == [] && flushed == []
    {
      buffer, file, pending, flushed := [], [], [], [];
    }

    ghost predicate Valid()
      reads this
    {
      buffer == Encode(pending) && file == FileOf(flushed) && forall i :: 0 <= i < |flushed| ==> flushed[i] != []
    }

    method AppendData(data: Bytes)
      requires Valid()
      modifies this`buffer, this`pending
      ensures Valid() && pending == old(pending) + [data]
    {
      EncodeSnoc(pending, data);
      buffer := buffer + Len8(|data|);
      buffer := buffer + data;
      pending := pending + [data];
    }

    method Flush()
      requires Valid()
      modifies this
      ensures Valid() && pending == []
      ensures flushed == old(flushed) + if old(pending) == [] then [] else [old(pending)]
    {
      EmptyEncoding(pending);
      if |buffer| == 0 { return; }
      FileSnoc(flushed, pending);
      file := file + Len8(|buffer|);
      file := file + buffer;
      buffer := [];
      flushed := flushed + [pending];
      pending := [];
    }
  }

  lemma {:induction false} EncodeSnoc(items: seq<Bytes>, item: Bytes)
    ensures Encode(items + [item]) == Encode(items) + Len8(|item|) + item
  {
    if items == [] {
      assert [item][1..] == [];
    } else {
      assert (items + [item])[1..] == items[1..] + [item];
      EncodeSnoc(items[1..], item);
    }
  }

  lemma {:induction false} FileSnoc(batches: seq<seq<Bytes>>, b: seq<Bytes>)
    ensures FileOf(batches + [b]) == FileOf(batches) + Len8(|Encode(b)|) + Encode(b)
  {
    if batches == [] {
      assert [b][1..] == [];
    } else {
      assert (batches + [b])[1..] == batches[1..] + [b];
      FileSnoc(batches[1..], b);
    }
  }

  /** One turn of ParseData's loop. */
  lemma ParseItem(data: Bytes)
    requires |data| >= HEADER
    ensures var len, rest := Number(data[..HEADER]), data[HEADER..];
            var n := if len >= |rest| then |rest| else len;
            Parse(data) == Prepend([rest[..n]], Parse(rest[n..]))
  {
    var rest := data[HEADER..];
    assert rest[..|rest|] == rest && rest[|rest|..] == [];
    assert [rest] + [] == [rest];
  }

  method ParseData(data: Bytes) returns (items: Option<seq<Bytes>>)
    ensures items == Parse(data)
  {
    var pos, list := 0, [];
    assert data[0..] == data;
    PrependNothing(Parse(data));
    while pos < |data|
      invariant 0 <= pos <= |data|
      invariant Parse(data) == Prepend(list, Parse(data[pos..]))
    {
      if |data| - pos < HEADER { return None; }
      var len := Number(data[pos..pos + HEADER]);
      var body := pos + HEADER;
      var next := if len >= |data| - body then |data| else body + len;
      ghost var here := data[pos..];
      ParseItem(here);
      assert here[..HEADER] == data[pos..body];
      assert here[HEADER..][..next - body] == data[body..next];
      assert here[HEADER..][next - body..] == data[next..];
      PrependTwice(list, [data[body..next]], Parse(data[next..]));
      list := list + [data[body..next]];
      pos := next;
    }
    assert list + [] == list;
    items := Some(list);
  }

  /** One turn of ReadLogsFromFiles' loop. */
  lemma ReadTurn(file: Bytes, pos: nat, len: nat)
    requires pos + HEADER <= |file| && len == Number(file[pos..pos + HEADER])
    ensures var body := pos + HEADER;
      Read(file[pos..]) ==
        if len == 0 || len > MAX_FRAME || |file| - body < len then Some([])
        else match Parse(file[body..body + len])
          case None => None
          case Some(items) => if items == [] then Some([]) else Prepend(items, Read(file[body + len..]))
  {
    var here, body := file[pos..], pos + HEADER;
    assert here[..HEADER] == file[pos..body];
    if len <= |file| - body {
      assert here[HEADER..HEADER + len] == file[body..body + len];
      assert here[HEADER + len..] == file[body + len..];
    }
  }

  method ReadLogs(file: Bytes) returns (items: Option<seq<Bytes>>)
    ensures items == Read(file)
  {
    var pos, list := 0, [];
    assert file[0..] == file;
    PrependNothing(Read(file));
    while |file| - pos >= HEADER
      invariant 0 <= pos <= |file|
      invariant Read(file) == Prepend(list, Read(file[pos..]))
      decreases |file| - pos
    {
      var len := Number(file[pos..pos + HEADER]);
      var body := pos + HEADER;
      ReadTurn(file, pos, len);
      if len == 0 || len > MAX_FRAME || |file| - body < len { break; }
      var parsed := ParseData(file[body..body + len]);
      if parsed.None? { return None; }
      if parsed.value == [] { break; }
      PrependTwice(list, parsed.value, Read(file[body + len..]));
      list := list + parsed.value;
      pos := body + len;
    }
    assert list + [] == list;
    items := Some(list);
  }
}
