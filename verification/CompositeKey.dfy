/**
  Composite index keys: the codec that packs an index name, attributes and a primary
  key into one byte string, and the early-stopping scan over sorted keys that answers
  prefix queries.
 */
module CompositeKey {
  import opened Common

  const DELIM: byte := 0
  const NAMESPACE: Bytes := [99, 107]  // "ck"

  datatype Key = Key(index: Bytes, attributes: seq<Bytes>, primary: Bytes)

  predicate Clean(f: Bytes) { DELIM !in f }

  predicate AllClean(fs: seq<Bytes>) { forall i :: 0 <= i < |fs| ==> Clean(fs[i]) }

  predicate CleanKey(k: Key) { Clean(k.index) && AllClean(k.attributes) && Clean(k.primary) }

  // ---------------------------------------------------------------- layout

  /** Each field followed by the delimiter. */
  function Fields(fs: seq<Bytes>): Bytes {
    if fs == [] then [] else fs[0] + [DELIM] + Fields(fs[1..])
  }

  const HEADER: Bytes := NAMESPACE + [DELIM]

  /** Index entries live in their own part of the key space. */
  predicate Composite(k: Blob) { HEADER <= k.bytes }

  /** EncodeCompositeKey's layout; the empty string where a field holds the delimiter. */
  function Encode(k: Key): Bytes {
    if CleanKey(k) then HEADER + (Fields([k.index] + k.attributes) + k.primary) else []
  }

  /** What EncodeCompositeKeyPrefix writes between the index name and its trailing
      delimiter. */
  function Joined(fs: seq<Bytes>): Bytes {
    if fs == [] then [] else if |fs| == 1 then fs[0] else fs[0] + [DELIM] + Joined(fs[1..])
  }

  function EncodePrefix(index: Bytes, attributes: seq<Bytes>): Bytes {
    if Clean(index) && AllClean(attributes)
    then HEADER + (index + [DELIM] + Joined(attributes) + [DELIM]) else []
  }

  /** The parts of a byte string between delimiters, without a trailing empty part. */
  function Split(r: Bytes): seq<Bytes>
    decreases |r|
  {
    if r == [] then []
    else if Clean(r) then [r]
    else var i := Find(r); [r[..i]] + Split(r[i + 1..])
  }

  function Find(r: Bytes): (i: nat)
    requires !Clean(r)
    ensures i < |r| && r[i] == DELIM && Clean(r[..i])
  {
    if r[0] == DELIM then 0 else
      assert r == [r[0]] + r[1..];
      var i := 1 + Find(r[1..]);
      assert r[..i] == [r[0]] + r[1..][..i - 1];
      i
  }

  /** DecodeCompositeKey; the byte after the namespace is skipped, not inspected. */
  function Decode(e: Bytes): Option<Key> {
    if |e| < |NAMESPACE| + 1 || e[..|NAMESPACE|] != NAMESPACE then None
    else
      var parts := Split(e[|NAMESPACE| + 1..]);
      if |parts| < 2 then None
      else Some(Key(parts[0], parts[1..|parts| - 1], parts[|parts| - 1]))
  }

  /** The bytes of a key and of a prefix, for instance: "ck", then every field behind a
      zero byte, and one more behind a prefix. */
  lemma LayoutExample(i: byte, a: byte, b: byte, p: byte)
    requires i != 0 && a != 0 && b != 0 && p != 0
    ensures Encode(Key([i], [[a], [b]], [p])) == [99, 107, 0, i, 0, a, 0, b, 0, p]
    ensures EncodePrefix([i], [[a], [b]]) == [99, 107, 0, i, 0, a, 0, b, 0]
    ensures forall k: Blob :: Composite(k) <==> |k.bytes| >= 3 && k.bytes[..3] == [99, 107, 0]
  {
    var fs: seq<Bytes> := [[i]] + [[a], [b]];
    var f1, f2: seq<Bytes> := [[a], [b]], [[b]];
    assert fs[1..] == f1 && f1[1..] == f2 && f2[1..] == [];
    assert Fields(f2) == [b, 0];
    assert Fields(f1) == [a, 0, b, 0];
    assert Fields(fs) == [i, 0, a, 0, b, 0];
    assert Joined(f1) == [a, 0, b];
    assert HEADER == [99, 107, 0];
  }

  // ---------------------------------------------------------------- splitting undoes joining

  lemma {:induction false} FindIs(r: Bytes, n: nat)
    requires n < |r| && r[n] == DELIM && forall i :: 0 <= i < n ==> r[i] != DELIM
    ensures !Clean(r) && Find(r) == n
  {
    if n > 0 { FindIs(r[1..], n - 1); }
  }

  lemma FindFirst(f: Bytes, rest: Bytes)
    requires Clean(f)
    ensures !Clean(f + [DELIM] + rest) && Find(f + [DELIM] + rest) == |f|
  {
    FindIs(f + [DELIM] + rest, |f|);
  }

  lemma SplitField(f: Bytes, rest: Bytes)
    requires Clean(f)
    ensures Split(f + [DELIM] + rest) == [f] + Split(rest)
  {
    FindFirst(f, rest);
    var r := f + [DELIM] + rest;
    assert r[..|f|] == f && r[|f| + 1..] == rest;
  }

  lemma FieldsCons(f: Bytes, fs: seq<Bytes>, p: Bytes)
    ensures Fields([f] + fs) + p == f + [DELIM] + (Fields(fs) + p)
  {
    assert ([f] + fs)[1..] == fs;
  }

  /** The parts that Split finds in front of and including a last part p. */
  function WithLast(fs: seq<Bytes>, p: Bytes): seq<Bytes> { if p == [] then fs else fs + [p] }

  lemma {:induction false} SplitFields(fs: seq<Bytes>, p: Bytes)
    requires AllClean(fs) && Clean(p)
    ensures Split(Fields(fs) + p) == WithLast(fs, p)
  {
    if fs == [] {
      assert Fields(fs) + p == p;
    } else {
      var f, rest := fs[0], fs[1..];
      assert fs == [f] + rest;
      SplitFields(rest, p);
      FieldsCons(f, rest, p);
      SplitField(f, Fields(rest) + p);
      assert [f] + WithLast(rest, p) == WithLast(fs, p);
    }
  }

  lemma EncodeShape(k: Key)
    requires CleanKey(k)
    ensures |Encode(k)| >= 3 && Encode(k)[..2] == NAMESPACE && Encode(k)[2] == DELIM
    ensures Encode(k)[3..] == Fields([k.index] + k.attributes) + k.primary
  {
  }

  /** Decoding undoes encoding, for delimiter-free fields, exactly when the primary key
      is not empty. */
  lemma RoundTripExactly(k: Key)
    requires CleanKey(k)
    ensures Decode(Encode(k)) == Some(k) <==> k.primary != []
  {
    EncodeShape(k);
    var fs := [k.index] + k.attributes;
    SplitFields(fs, k.primary);
    var parts := Split(Encode(k)[3..]);
    if k.primary != [] {
      assert parts == fs + [k.primary];
      assert parts[1..|parts| - 1] == k.attributes;
    } else {
      assert parts == fs;
      assert |parts| >= 2 ==> |parts[1..|parts| - 1]| == |k.attributes| - 1;
    }
  }

  lemma {:induction false} FieldsInjective(fs: seq<Bytes>, p: Bytes, gs: seq<Bytes>, q: Bytes)
    requires AllClean(fs) && Clean(p) && AllClean(gs) && Clean(q)
    requires Fields(fs) + p == Fields(gs) + q
    ensures fs == gs && p == q
  {
    if fs == [] {
      assert Fields(fs) + p == p;
      if gs != [] {
        FieldsHaveDelim(gs, q);
        assert false;
      }
      assert Fields(gs) + q == q;
    } else if gs == [] {
      assert Fields(gs) + q == q;
      FieldsHaveDelim(fs, p);
      assert false;
    } else {
      var f, g := fs[0], gs[0];
      var x, y := Fields(fs[1..]) + p, Fields(gs[1..]) + q;
      assert Fields(fs) + p == f + [DELIM] + x;
      assert Fields(gs) + q == g + [DELIM] + y;
      FindFirst(f, x);
      FindFirst(g, y);
      assert f == (f + [DELIM] + x)[..|f|] == g;
      assert x == (f + [DELIM] + x)[|f| + 1..] == y;
      FieldsInjective(fs[1..], p, gs[1..], q);
      assert fs == [f] + fs[1..] && gs == [g] + gs[1..];
    }
  }

  lemma FieldsHaveDelim(fs: seq<Bytes>, p: Bytes)
    requires fs != []
    ensures !Clean(Fields(fs) + p)
  {
    assert (Fields(fs) + p)[|fs[0]|] == DELIM;
  }

  /** Encoding is injective on delimiter-free fields, empty primary keys included. */
  lemma EncodeInjective(j: Key, k: Key)
    requires CleanKey(j) && CleanKey(k) && Encode(j) == Encode(k)
    ensures j == k
  {
    EncodeShape(j);
    EncodeShape(k);
    var fs, gs := [j.index] + j.attributes, [k.index] + k.attributes;
    FieldsInjective(fs, j.primary, gs, k.primary);
    assert j.attributes == fs[1..] == gs[1..] == k.attributes;
  }

  lemma {:induction false} SplitClean(r: Bytes)
    ensures AllClean(Split(r))
    decreases |r|
  {
    if r != [] && !Clean(r) { SplitClean(r[Find(r) + 1..]); }
  }

  /** A string that ends with the delimiter is its parts, each with a delimiter. */
  lemma {:induction false} SplitClosed(r: Bytes)
    requires r != [] && r[|r| - 1] == DELIM
    ensures Split(r) != [] && Fields(Split(r)) == r
    decreases |r|
  {
    var i := Find(r);
    var f, rest := r[..i], r[i + 1..];
    assert r == f + [DELIM] + rest;
    assert Split(r)[1..] == Split(rest);
    if rest != [] { SplitClosed(rest); }
  }

  ghost predicate JoinsTo(parts: seq<Bytes>, r: Bytes) {
    parts != [] && r == Fields(parts[..|parts| - 1]) + parts[|parts| - 1]
  }

  lemma JoinsCons(f: Bytes, parts: seq<Bytes>, r: Bytes)
    requires JoinsTo(parts, r)
    ensures JoinsTo([f] + parts, f + [DELIM] + r)
  {
    var m := |parts| - 1;
    assert ([f] + parts)[..m + 1] == [f] + parts[..m];
    FieldsCons(f, parts[..m], parts[m]);
  }

  /** Any other non-empty string is its parts with a delimiter between them. */
  lemma {:induction false} SplitOpen(r: Bytes)
    requires r != [] && r[|r| - 1] != DELIM
    ensures JoinsTo(Split(r), r)
    decreases |r|
  {
    if Clean(r) {
      assert [r][..0] == [];
    } else {
      var i := Find(r);
      var f, rest := r[..i], r[i + 1..];
      assert r == f + [DELIM] + rest;
      SplitOpen(rest);
      SplitField(f, rest);
      JoinsCons(f, Split(rest), rest);
    }
  }

  lemma {:induction false} FieldsSnoc(fs: seq<Bytes>, f: Bytes)
    ensures Fields(fs + [f]) == Fields(fs) + f + [DELIM]
  {
    if fs == [] {
      assert [f][1..] == [] && [] + [f] == [f];
    } else {
      assert (fs + [f])[1..] == fs[1..] + [f];
      FieldsSnoc(fs[1..], f);
    }
  }

  /** The other round trip: a decodable string is the encoding of what it decodes to
      exactly when the skipped byte is the delimiter and the last byte is not. */
  lemma ReencodeExactly(e: Bytes)
    requires Decode(e).Some?
    ensures Encode(Decode(e).value) == e <==> e[2] == DELIM && e[|e| - 1] != DELIM
  {
    DecodedShape(e);
    ShapeExactly(e, Encode(Decode(e).value));
  }

  /** A string and one made of its parts between delimiters. */
  lemma ShapeExactly(e: Bytes, made: Bytes)
    requires |e| > 3 && |made| >= 3 && e[..2] == made[..2] && made[2] == DELIM
    requires var parts := Split(e[3..]); parts != [] && made[3..] == Fields(parts[..|parts| - 1]) + parts[|parts| - 1]
    ensures made == e <==> e[2] == DELIM && e[|e| - 1] != DELIM
  {
    var r := e[3..];
    assert r[|r| - 1] == e[|e| - 1];
    if r[|r| - 1] == DELIM {
      ClosedIsLonger(r);
    } else {
      SplitOpen(r);
      Thirds(e, made);
    }
  }

  lemma ClosedIsLonger(r: Bytes)
    requires r != [] && r[|r| - 1] == DELIM
    ensures Split(r) != []
    ensures |r| == |Fields(Split(r)[..|Split(r)| - 1]) + Split(r)[|Split(r)| - 1]| + 1
  {
    SplitClosed(r);
    var parts := Split(r);
    var n := |parts| - 1;
    FieldsSnoc(parts[..n], parts[n]);
    assert parts[..n] + [parts[n]] == parts;
  }

  lemma Thirds(x: Bytes, y: Bytes)
    requires |x| >= 3 && |y| >= 3
    ensures x == y <==> x[..2] == y[..2] && x[2] == y[2] && x[3..] == y[3..]
  {
    assert x == x[..2] + [x[2]] + x[3..];
    assert y == y[..2] + [y[2]] + y[3..];
  }

  lemma DecodedShape(e: Bytes)
    requires Decode(e).Some?
    ensures var parts, k := Split(e[3..]), Decode(e).value;
      && |e| > 3 && |parts| >= 2
      && |Encode(k)| >= 3 && Encode(k)[..2] == NAMESPACE && Encode(k)[2] == DELIM
      && Encode(k)[3..] == Fields(parts[..|parts| - 1]) + parts[|parts| - 1]
  {
    var parts, k := Split(e[3..]), Decode(e).value;
    SplitClean(e[3..]);
    assert forall i :: 0 <= i < |k.attributes| ==> k.attributes[i] == parts[i + 1];
    EncodeShape(k);
    assert [k.index] + k.attributes == parts[..|parts| - 1];
  }

  // ---------------------------------------------------------------- prefixes

  lemma {:induction false} FieldsPrefix(fs: seq<Bytes>, gs: seq<Bytes>, p: Bytes)
    requires AllClean(fs) && AllClean(gs) && Clean(p)
    ensures Fields(fs) <= Fields(gs) + p <==> fs <= gs
  {
    if fs == [] {
    } else if gs == [] {
      assert Fields(gs) + p == p;
      assert Fields(fs)[|fs[0]|] == DELIM;
    } else {
      var f, g := fs[0], gs[0];
      var x, y := Fields(fs[1..]), Fields(gs[1..]) + p;
      assert gs == [g] + gs[1..] && fs == [f] + fs[1..];
      FieldsCons(g, gs[1..], p);
      FieldsPrefix(fs[1..], gs[1..], p);
      FieldPrefix(f, x, g, y);
      assert fs <= gs <==> f == g && fs[1..] <= gs[1..];
    }
  }

  /** Delimited strings are prefix-ordered field by field. */
  lemma FieldPrefix(f: Bytes, x: Bytes, g: Bytes, y: Bytes)
    requires Clean(f) && Clean(g)
    ensures f + [DELIM] + x <= g + [DELIM] + y <==> f == g && x <= y
  {
    var a, b := f + [DELIM] + x, g + [DELIM] + y;
    if a <= b {
      FindIs(b, |g|);
      assert forall i :: 0 <= i < |a| ==> b[i] == a[i];
      assert forall i :: 0 <= i < |f| ==> b[i] == f[i];
      FindIs(b, |f|);
      assert f == a[..|f|] == b[..|f|] == g;
      assert x == a[|f| + 1..] && y == b[|f| + 1..];
    }
  }

  /** The attribute prefix that a query really asks for: the trailing delimiter turns an
      empty prefix into one empty attribute. */
  function Effective(attributes: seq<Bytes>): seq<Bytes> {
    if attributes == [] then [[]] else attributes
  }

  lemma {:induction false} JoinedFields(fs: seq<Bytes>)
    ensures Joined(fs) + [DELIM] == Fields(Effective(fs))
  {
    if |fs| <= 1 {
      assert |fs| == 1 ==> fs[1..] == [];
    } else {
      JoinedFields(fs[1..]);
    }
  }

  predicate Matches(index: Bytes, attributes: seq<Bytes>, k: Key) {
    k.index == index && attributes <= k.attributes
  }

  /** A key starts with the encoded prefix exactly when its index name is the one asked
      for and its attributes start with the (effective) attribute prefix. */
  lemma PrefixExactly(index: Bytes, attributes: seq<Bytes>, k: Key)
    requires Clean(index) && AllClean(attributes) && CleanKey(k)
    ensures EncodePrefix(index, attributes) <= Encode(k) <==> Matches(index, Effective(attributes), k)
  {
    var eff := Effective(attributes);
    var fs, gs := [index] + eff, [k.index] + k.attributes;
    JoinedFields(attributes);
    FieldsCons(index, eff, []);
    assert Fields(eff) + [] == Fields(eff) && Fields(fs) + [] == Fields(fs);
    assert index + [DELIM] + Joined(attributes) + [DELIM] == index + [DELIM] + (Joined(attributes) + [DELIM]);
    assert EncodePrefix(index, attributes) == HEADER + Fields(fs);
    AfterHeader(Fields(fs), Fields(gs) + k.primary);
    FieldsPrefix(fs, gs, k.primary);
    assert fs <= gs <==> index == k.index && eff <= k.attributes;
  }

  lemma AfterHeader(x: Bytes, y: Bytes)
    ensures HEADER + x <= HEADER + y <==> x <= y
  {
    if HEADER + x <= HEADER + y {
      assert x == (HEADER + x)[3..] && y == (HEADER + y)[3..];
    }
  }

  // ---------------------------------------------------------------- sorted scan

  /** Byte-wise lexicographic order, as std::string and LevelDB compare keys. */
  predicate Less(a: Bytes, b: Bytes) {
    b != [] && (a == [] || a[0] < b[0] || (a[0] == b[0] && Less(a[1..], b[1..])))
  }

  ghost predicate Sorted(keys: seq<Bytes>) {
    forall i, j :: 0 <= i < j < |keys| ==> Less(keys[i], keys[j])
  }

  /** The first difference decides, and a proper prefix comes first. */
  lemma {:induction false} LessExactly(a: Bytes, b: Bytes)
    ensures Less(a, b) <==>
      || (a <= b && |a| < |b|)
      || exists i :: 0 <= i < |a| && i < |b| && a[..i] == b[..i] && a[i] < b[i]
  {
    if a == [] || b == [] {
    } else if a[0] != b[0] {
      assert a[..0] == b[..0];
      forall i | 0 < i < |a| && i < |b| ensures a[..i] != b[..i] { assert a[..i][0] != b[..i][0]; }
    } else {
      LessExactly(a[1..], b[1..]);
      TailPrefix(a, b);
      forall i | 0 < i < |a| && i < |b| ensures a[..i] == b[..i] <==> a[1..][..i - 1] == b[1..][..i - 1] {
        TailTake(a, b, i);
      }
      if i :| 0 <= i < |a| - 1 && i < |b| - 1 && a[1..][..i] == b[1..][..i] && a[1..][i] < b[1..][i] {
        assert a[..i + 1] == b[..i + 1] && a[i + 1] < b[i + 1];
      }
      if i :| 0 <= i < |a| && i < |b| && a[..i] == b[..i] && a[i] < b[i] {
        assert i > 0;
        assert a[1..][..i - 1] == b[1..][..i - 1] && a[1..][i - 1] < b[1..][i - 1];
      }
    }
  }

  lemma TailTake(a: Bytes, b: Bytes, i: nat)
    requires 0 < i < |a| && i < |b| && a[0] == b[0]
    ensures a[..i] == b[..i] <==> a[1..][..i - 1] == b[1..][..i - 1]
  {
    assert a[..i] == [a[0]] + a[1..][..i - 1] && b[..i] == [b[0]] + b[1..][..i - 1];
    assert a[1..][..i - 1] == a[..i][1..] && b[1..][..i - 1] == b[..i][1..];
  }

  lemma {:induction false} PrefixNotLess(p: Bytes, k: Bytes)
    requires p <= k
    ensures !Less(k, p)
  {
    if p != [] { PrefixNotLess(p[1..], k[1..]); }
  }

  /** In sorted order the keys with a given prefix are one block: past a key that is not
      below the prefix and lacks it, no key has it. */
  lemma {:induction false} PrefixBlock(p: Bytes, k1: Bytes, k2: Bytes)
    requires !Less(k1, p) && !(p <= k1) && Less(k1, k2)
    ensures !(p <= k2)
  {
    if p != [] && k1 != [] && k2 != [] && p[0] == k1[0] == k2[0] {
      TailPrefix(p, k1);
      TailPrefix(p, k2);
      PrefixBlock(p[1..], k1[1..], k2[1..]);
    }
  }

  lemma TailPrefix(p: Bytes, k: Bytes)
    requires p != [] && k != [] && p[0] == k[0]
    ensures p <= k <==> p[1..] <= k[1..]
  {
    assert p == [p[0]] + p[1..] && k == [k[0]] + k[1..];
  }

  function WithPrefix(keys: seq<Bytes>, p: Bytes): seq<Bytes> {
    if keys == [] then [] else
      WithPrefix(keys[..|keys| - 1], p) + if p <= keys[|keys| - 1] then [keys[|keys| - 1]] else []
  }

  /** GetByCompositeKeyPrefix: seek to the first key not below the prefix, walk until the
      first that lacks it. The early stop loses nothing: the result is the full filter. */
  method GetByPrefix(keys: seq<Bytes>, prefix: Bytes) returns (out: seq<Bytes>)
    requires Sorted(keys)
    ensures out == WithPrefix(keys, prefix)
  {
    var i := 0;
    while i < |keys| && Less(keys[i], prefix)
      invariant 0 <= i <= |keys|
      invariant WithPrefix(keys[..i], prefix) == []
    {
      assert keys[..i + 1][..i] == keys[..i];
      if prefix <= keys[i] { PrefixNotLess(prefix, keys[i]); }
      i := i + 1;
    }
    out := [];
    while i < |keys| && prefix <= keys[i]
      invariant 0 <= i <= |keys|
      invariant i < |keys| ==> !Less(keys[i], prefix)
      invariant out == WithPrefix(keys[..i], prefix)
    {
      assert keys[..i + 1][..i] == keys[..i];
      out := out + [keys[i]];
      if i + 1 < |keys| { NotBelow(prefix, keys[i], keys[i + 1]); }
      i := i + 1;
    }
    NothingAfter(keys, prefix, i, |keys|);
    assert keys[..|keys|] == keys;
  }

  lemma {:induction false} NotBelow(p: Bytes, k1: Bytes, k2: Bytes)
    requires !Less(k1, p) && Less(k1, k2)
    ensures !Less(k2, p)
  {
    if p != [] && k1 != [] && p[0] == k1[0] == k2[0] { NotBelow(p[1..], k1[1..], k2[1..]); }
  }

  lemma {:induction false} NothingAfter(keys: seq<Bytes>, p: Bytes, i: nat, n: nat)
    requires Sorted(keys) && i <= n <= |keys|
    requires i < |keys| ==> !Less(keys[i], p) && !(p <= keys[i])
    ensures WithPrefix(keys[..n], p) == WithPrefix(keys[..i], p)
  {
    if i < n {
      NothingAfter(keys, p, i, n - 1);
      assert keys[..n][..n - 1] == keys[..n - 1];
      if i < n - 1 { PrefixBlock(p, keys[i], keys[n - 1]); }
    }
  }

  /** What a store's ordered keys may be: index entries and, in ResLevelDB, user keys. */
  datatype Entry = Index(key: Key) | User(bytes: Bytes)

  function KeyOf(e: Entry): Bytes {
    match e
    case Index(k) => Encode(k)
    case User(bytes) => bytes
  }

  /** Delimiter-free fields in index entries, and user keys outside their part of the key
      space. */
  predicate Proper(e: Entry) {
    match e
    case Index(k) => CleanKey(k)
    case User(bytes) => !Composite(Blob(bytes))
  }

  function Mapped(enc: Entry -> Bytes, es: seq<Entry>): seq<Bytes> {
    if es == [] then [] else Mapped(enc, es[..|es| - 1]) + [enc(es[|es| - 1])]
  }

  predicate Asked(index: Bytes, attributes: seq<Bytes>, e: Entry) { e.Index? && Matches(index, attributes, e.key) }

  function Query(es: seq<Entry>, index: Bytes, attributes: seq<Bytes>): seq<Entry> {
    if es == [] then [] else
      Query(es[..|es| - 1], index, attributes) +
      if Asked(index, attributes, es[|es| - 1]) then [es[|es| - 1]] else []
  }

  lemma WithPrefixSnoc(keys: seq<Bytes>, k: Bytes, p: Bytes)
    ensures WithPrefix(keys + [k], p) == if p <= k then WithPrefix(keys, p) + [k] else WithPrefix(keys, p)
  {
    assert (keys + [k])[..|keys|] == keys;
    assert WithPrefix(keys, p) + [] == WithPrefix(keys, p);
  }

  lemma MappedSnoc(enc: Entry -> Bytes, es: seq<Entry>, e: Entry)
    ensures Mapped(enc, es + [e]) == Mapped(enc, es) + [enc(e)]
  {
    assert (es + [e])[..|es|] == es;
  }

  lemma {:induction false} FilterAgrees(enc: Entry -> Bytes, es: seq<Entry>, p: Bytes, index: Bytes, attributes: seq<Bytes>)
    requires forall i :: 0 <= i < |es| ==> (p <= enc(es[i]) <==> Asked(index, attributes, es[i]))
    ensures WithPrefix(Mapped(enc, es), p) == Mapped(enc, Query(es, index, attributes))
  {
    if es != [] {
      var n := |es| - 1;
      FilterAgrees(enc, es[..n], p, index, attributes);
      WithPrefixSnoc(Mapped(enc, es[..n]), enc(es[n]), p);
      var q := Query(es[..n], index, attributes);
      MappedSnoc(enc, q, es[n]);
      assert q + [] == q;
    }
  }

  lemma AskedExactly(index: Bytes, attributes: seq<Bytes>, e: Entry)
    requires Clean(index) && AllClean(attributes) && Proper(e)
    ensures EncodePrefix(index, attributes) <= KeyOf(e) <==> Asked(index, Effective(attributes), e)
  {
    match e
    case Index(k) => PrefixExactly(index, attributes, k);
    case User(bytes) =>
      var p := EncodePrefix(index, attributes);
      assert HEADER <= p;
  }

  /** An index query is the full filter: the scan over a store's sorted keys, user keys
      among them, returns, in byte order, the encodings of exactly the index entries that
      match. */
  lemma ScanIsQuery(es: seq<Entry>, index: Bytes, attributes: seq<Bytes>)
    requires forall i :: 0 <= i < |es| ==> Proper(es[i])
    requires Clean(index) && AllClean(attributes)
    ensures WithPrefix(Mapped(KeyOf, es), EncodePrefix(index, attributes))
         == Mapped(KeyOf, Query(es, index, Effective(attributes)))
  {
    var p := EncodePrefix(index, attributes);
    forall i | 0 <= i < |es|
      ensures p <= KeyOf(es[i]) <==> Asked(index, Effective(attributes), es[i])
    {
      AskedExactly(index, attributes, es[i]);
    }
    FilterAgrees(KeyOf, es, p, index, Effective(attributes));
  }

  /** With an empty attribute prefix the query is not the whole index: it returns exactly
      the keys whose first attribute is empty. */
  lemma EmptyPrefixQuery(index: Bytes, k: Key)
    requires Clean(index) && CleanKey(k)
    ensures EncodePrefix(index, []) <= Encode(k) <==> k.index == index && k.attributes != [] && k.attributes[0] == []
  {
    PrefixExactly(index, [], k);
  }

  // ---------------------------------------------------------------- the codec's loops

  method CheckFields(index: Bytes, attributes: seq<Bytes>, primary: Bytes) returns (ok: bool)
    ensures ok <==> CleanKey(Key(index, attributes, primary))
  {
    if DELIM in index || DELIM in primary { return false; }
    for i := 0 to |attributes|
      invariant forall j :: 0 <= j < i ==> Clean(attributes[j])
    {
      if DELIM in attributes[i] {
        assert !Clean(attributes[i]);
        return false;
      }
    }
    ok := true;
  }

  method EncodeCompositeKey(index: Bytes, attributes: seq<Bytes>, primary: Bytes) returns (result: Bytes)
    ensures result == Encode(Key(index, attributes, primary))
  {
    var ok := CheckFields(index, attributes, primary);
    if !ok { return []; }
    var fields := index + [DELIM];
    FieldsSnoc([], index);
    for i := 0 to |attributes|
      invariant fields == Fields([index] + attributes[..i])
    {
      FieldsSnoc([index] + attributes[..i], attributes[i]);
      assert [index] + attributes[..i] + [attributes[i]] == [index] + attributes[..i + 1];
      fields := fields + attributes[i] + [DELIM];
    }
    assert attributes[..|attributes|] == attributes;
    result := NAMESPACE + [DELIM] + (fields + primary);
  }

  lemma SplitEnd(tail: Bytes)
    requires tail != [] && Clean(tail)
    ensures Split(tail) == [tail]
  {
  }

  lemma SplitStep(parts: seq<Bytes>, tail: Bytes)
    requires !Clean(tail)
    ensures parts + Split(tail) == parts + [tail[..Find(tail)]] + Split(tail[Find(tail) + 1..])
  {
    var i := Find(tail);
    var q := Split(tail[i + 1..]);
    assert Split(tail) == [tail[..i]] + q;
    assert parts + ([tail[..i]] + q) == parts + [tail[..i]] + q;
  }

  lemma {:induction false} JoinedSnoc(fs: seq<Bytes>, f: Bytes)
    ensures Joined(fs + [f]) == if fs == [] then f else Joined(fs) + [DELIM] + f
  {
    if |fs| == 1 {
      assert (fs + [f])[1..] == [f];
    } else if fs != [] {
      JoinedSnoc(fs[1..], f);
      assert (fs + [f])[1..] == fs[1..] + [f];
      assert fs[0] + [DELIM] + (Joined(fs[1..]) + [DELIM] + f) == fs[0] + [DELIM] + Joined(fs[1..]) + [DELIM] + f;
    }
  }

  /** EncodeCompositeKeyPrefix: delimiters between the attributes and one behind them. */
  method EncodeCompositeKeyPrefix(index: Bytes, attributes: seq<Bytes>) returns (result: Bytes)
    ensures result == EncodePrefix(index, attributes)
  {
    var ok := CheckFields(index, attributes, []);
    if !ok { return []; }
    var joined := JoinAttributes(attributes);
    result := HEADER + (index + [DELIM] + joined + [DELIM]);
  }

  method JoinAttributes(attributes: seq<Bytes>) returns (joined: Bytes)
    ensures joined == Joined(attributes)
  {
    joined := [];
    for i := 0 to |attributes|
      invariant joined == Joined(attributes[..i])
    {
      JoinedSnoc(attributes[..i], attributes[i]);
      assert attributes[..i + 1] == attributes[..i] + [attributes[i]];
      if i > 0 { joined := joined + [DELIM]; }
      joined := joined + attributes[i];
    }
    assert attributes[..|attributes|] == attributes;
  }

  method DecodeCompositeKey(encoded: Bytes) returns (key: Option<Key>)
    ensures key == Decode(encoded)
  {
    if |encoded| < |NAMESPACE| + 1 || encoded[..|NAMESPACE|] != NAMESPACE { return None; }
    var parts := SplitParts(encoded[|NAMESPACE| + 1..]);
    if |parts| < 2 { return None; }
    key := Some(Key(parts[0], parts[1..|parts| - 1], parts[|parts| - 1]));
  }

  method SplitParts(rest: Bytes) returns (parts: seq<Bytes>)
    ensures parts == Split(rest)
  {
    parts := [];
    var tail := rest;
    while tail != []
      invariant Split(rest) == parts + Split(tail)
      decreases |tail|
    {
      if Clean(tail) {
        SplitEnd(tail);
        return parts + [tail];
      }
      SplitStep(parts, tail);
      var n := Find(tail);
      parts, tail := parts + [tail[..n]], tail[n + 1..];
    }
  }

  // ---------------------------------------------------------------- the stored index

  lemma {:induction false} LessOrder(a: Bytes, b: Bytes)
    ensures !(Less(a, b) && Less(b, a)) && (Less(a, b) || Less(b, a) || a == b)
    ensures Less(a, b) ==> a != b
  {
    if a != [] && b != [] && a[0] == b[0] {
      LessOrder(a[1..], b[1..]);
      assert a == [a[0]] + a[1..] && b == [b[0]] + b[1..];
    }
  }

  lemma {:induction false} LessTransitive(a: Bytes, b: Bytes, c: Bytes)
    requires Less(a, b) && Less(b, c)
    ensures Less(a, c)
  {
    if a != [] && a[0] == b[0] == c[0] { LessTransitive(a[1..], b[1..], c[1..]); }
  }

  lemma InsertAt(keys: seq<Bytes>, i: nat, k: Bytes)
    requires Sorted(keys) && i <= |keys|
    requires forall j :: 0 <= j < i ==> Less(keys[j], k)
    requires forall j :: i <= j < |keys| ==> Less(k, keys[j])
    ensures Sorted(keys[..i] + [k] + keys[i..])
    ensures forall x :: x in keys[..i] + [k] + keys[i..] <==> x in keys || x == k
  {
    InsertSorted(keys, i, k);
    assert keys == keys[..i] + keys[i..];
  }

  lemma InsertSorted(keys: seq<Bytes>, i: nat, k: Bytes)
    requires Sorted(keys) && i <= |keys|
    requires forall j :: 0 <= j < i ==> Less(keys[j], k)
    requires forall j :: i <= j < |keys| ==> Less(k, keys[j])
    ensures Sorted(keys[..i] + [k] + keys[i..])
  {
    var after := keys[..i] + [k] + keys[i..];
    assert forall j :: 0 <= j < |after| ==> after[j] == if j < i then keys[j] else if j == i then k else keys[j - 1];
  }

  /** The ordered key map behind the composite-key operations of both stores. */
  class CompositeIndex {
    var keys: seq<Bytes>

    ghost predicate Valid()
      reads this
    {
      Sorted(keys)
    }

    constructor ()
      ensures Valid() && keys == []
    {
      keys := [];
    }

    method LowerBound(k: Bytes) returns (i: nat)
      requires Valid()
      ensures i <= |keys|
      ensures forall j :: 0 <= j < i ==> Less(keys[j], k)
      ensures forall j :: i <= j < |keys| ==> keys[j] == k || Less(k, keys[j])
      ensures k in keys ==> i < |keys| && keys[i] == k
    {
      i := 0;
      while i < |keys| && Less(keys[i], k)
        invariant i <= |keys| && forall j :: 0 <= j < i ==> Less(keys[j], k)
      {
        i := i + 1;
      }
      if i < |keys| {
        LessOrder(keys[i], k);
        forall j | i < j < |keys| ensures Less(k, keys[j]) {
          if keys[i] != k { LessTransitive(k, keys[i], keys[j]); }
        }
      }
      forall j | 0 <= j < |keys| && keys[j] == k ensures i == j {
        LessOrder(keys[j], k);
      }
    }

    method CreateCompositeKey(k: Bytes)
      requires Valid()
      modifies this
      ensures Valid()
      ensures forall x :: x in keys <==> x in old(keys) || x == k
    {
      var i := LowerBound(k);
      if i < |keys| && keys[i] == k { return; }
      InsertAt(keys, i, k);
      keys := keys[..i] + [k] + keys[i..];
    }

    method DeleteCompositeKey(k: Bytes)
      requires Valid()
      modifies this
      ensures Valid()
      ensures forall x :: x in keys <==> x in old(keys) && x != k
    {
      var i := LowerBound(k);
      if i < |keys| && keys[i] == k {
        forall j | 0 <= j < |keys| && j != i ensures keys[j] != k { LessOrder(keys[j], k); LessOrder(k, keys[j]); }
        keys := keys[..i] + keys[i + 1..];
        assert old(keys) == old(keys)[..i] + [k] + old(keys)[i + 1..];
        assert forall j :: 0 <= j < |keys| ==> keys[j] == old(keys)[if j < i then j else j + 1];
      }
    }

    /** The old key goes, the new one comes, in one step; equal keys leave it present. */
    method UpdateCompositeKey(from: Bytes, to: Bytes)
      requires Valid()
      modifies this
      ensures Valid()
      ensures forall x :: x in keys <==> (x in old(keys) && x != from) || x == to
    {
      DeleteCompositeKey(from);
      CreateCompositeKey(to);
    }
  }
}
