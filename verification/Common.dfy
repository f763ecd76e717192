/** Types and operations that several components share. */
module Common {

  datatype Option<T> = None | Some(value: T)

  type byte = b: int | 0 <= b < 256
  type Bytes = seq<byte>

  /** A stored key or value; reads answer a missing key with the empty value. */
  datatype Blob = Blob(bytes: Bytes)

  const EMPTY := Blob([])

  function Min(a: int, b: int): int { if b < a then b else a }
  function Max(a: int, b: int): int { if a < b then b else a }

  ghost predicate Distinct<T>(xs: seq<T>) {
    forall i, j :: 0 <= i < j < |xs| ==> xs[i] != xs[j]
  }

  /** The elements that a test keeps, in order. */
  function Filter<T>(keep: T -> bool, xs: seq<T>): seq<T> {
    if xs == [] then [] else
      Filter(keep, xs[..|xs| - 1]) + if keep(xs[|xs| - 1]) then [xs[|xs| - 1]] else []
  }

  lemma FilterSnoc<T>(keep: T -> bool, xs: seq<T>, x: T)
    ensures Filter(keep, xs + [x]) == if keep(x) then Filter(keep, xs) + [x] else Filter(keep, xs)
  {
    assert (xs + [x])[..|xs|] == xs;
    assert Filter(keep, xs) + [] == Filter(keep, xs);
  }

  lemma {:induction false} FilterSplit<T>(keep: T -> bool, xs: seq<T>, ys: seq<T>)
    ensures Filter(keep, xs + ys) == Filter(keep, xs) + Filter(keep, ys)
  {
    if ys == [] {
      assert xs + ys == xs;
    } else {
      var n := |ys| - 1;
      assert xs + ys == (xs + ys[..n]) + [ys[n]];
      FilterSplit(keep, xs, ys[..n]);
      FilterSnoc(keep, xs + ys[..n], ys[n]);
    }
  }

  lemma {:induction false} FilterNone<T>(keep: T -> bool, xs: seq<T>)
    ensures Filter(keep, xs) == [] <==> forall x :: x in xs ==> !keep(x)
  {
    if xs != [] {
      FilterNone(keep, xs[..|xs| - 1]);
      assert xs == xs[..|xs| - 1] + [xs[|xs| - 1]];
    }
  }

  lemma {:induction false} FilterMembers<T>(keep: T -> bool, xs: seq<T>, x: T)
    ensures x in Filter(keep, xs) <==> x in xs && keep(x)
  {
    if xs != [] {
      FilterMembers(keep, xs[..|xs| - 1], x);
      assert xs == xs[..|xs| - 1] + [xs[|xs| - 1]];
    }
  }

  lemma {:induction false} FilterSame<T>(p: T -> bool, q: T -> bool, xs: seq<T>)
    requires forall x :: x in xs ==> (p(x) <==> q(x))
    ensures Filter(p, xs) == Filter(q, xs)
  {
    if xs != [] {
      FilterSame(p, q, xs[..|xs| - 1]);
      assert xs == xs[..|xs| - 1] + [xs[|xs| - 1]];
    }
  }

  /** A filter after a weaker one is the filter. */
  lemma {:induction false} FilterTwice<T>(weak: T -> bool, strong: T -> bool, xs: seq<T>)
    requires forall x :: x in xs && strong(x) ==> weak(x)
    ensures Filter(strong, Filter(weak, xs)) == Filter(strong, xs)
  {
    if xs != [] {
      var init, x := xs[..|xs| - 1], xs[|xs| - 1];
      assert xs == init + [x];
      FilterTwice(weak, strong, init);
      FilterSnoc(weak, init, x);
      FilterSnoc(strong, init, x);
      FilterSnoc(strong, Filter(weak, init), x);
    }
  }

  // ---------------------------------------------------------------- least elements

  ghost predicate StrictOrder<T(!new)>(less: (T, T) -> bool) {
    && (forall x :: !less(x, x))
    && (forall x, y :: less(x, y) || less(y, x) || x == y)
    && (forall x, y, z :: less(x, y) && less(y, z) ==> less(x, z))
  }

  lemma {:induction false} LeastExists<T(!new)>(less: (T, T) -> bool, s: set<T>, k: T)
    requires StrictOrder(less) && k in s
    ensures exists m :: m in s && forall j :: j in s ==> j == m || less(m, j)
    decreases set j | j in s && less(j, k)
  {
    if j :| j in s && less(j, k) {
      var below := set i | i in s && less(i, j);
      assert below < (set i | i in s && less(i, k)) by {
        assert j !in below && j in (set i | i in s && less(i, k));
      }
      LeastExists(less, s, j);
    } else {
      assert forall j :: j in s ==> j == k || less(k, j);
    }
  }

  /** The first key of an ordered map. */
  function Least<T(==, !new)>(less: (T, T) -> bool, s: set<T>): (k: T)
    requires StrictOrder(less) && s != {}
    ensures k in s && forall j :: j in s ==> j == k || less(k, j)
  {
    assert exists m :: m in s && forall j :: j in s ==> j == m || less(m, j) by {
      var x :| x in s;
      LeastExists(less, s, x);
    }
    var k :| k in s && forall j :: j in s ==> j == k || less(k, j);
    k
  }
}
