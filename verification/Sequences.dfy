/** Facts about sorted sequences and finite sets of integers shared by the other modules. */
module Sequences {

  datatype Option<+T> = None | Some(value: T)

  predicate StartsWith(s: string, p: string) { |p| <= |s| && s[..|p|] == p }

  ghost predicate StrictlyIncreasing(s: seq<int>) {
    forall i, j :: 0 <= i < j < |s| ==> s[i] < s[j]
  }

  ghost predicate SameElements(s: seq<int>, xs: set<int>) {
    forall x :: x in s <==> x in xs
  }

  ghost predicate IsMin(m: int, xs: set<int>) {
    m in xs && forall x :: x in xs ==> m <= x
  }

  lemma Pick<T>(xs: set<T>) returns (x: T)
    requires xs != {}
    ensures x in xs
  {
    x :| x in xs;
  }

  /** Every non-empty finite set of integers has a least element. */
  lemma {:induction false} MinExists(xs: set<int>)
    requires xs != {}
    ensures exists m :: IsMin(m, xs)
    decreases |xs|
  {
    var x := Pick(xs);
    var rest := xs - {x};
    if rest == {} {
      forall y | y in xs ensures x <= y {
        assert y in rest || y == x;
      }
      assert IsMin(x, xs);
    } else {
      MinExists(rest);
      var y :| IsMin(y, rest);
      var m := if x < y then x else y;
      forall z | z in xs ensures m <= z {
        assert z in rest || z == x;
      }
      assert IsMin(m, xs);
    }
  }

  /** The least element, found by the loop that Python's `min` runs. */
  method Min(xs: set<int>) returns (m: int)
    requires xs != {}
    ensures IsMin(m, xs)
  {
    ghost var witness0 := Pick(xs);
    m :| m in xs;
    var rest := xs - {m};
    while rest != {}
      invariant m in xs
      invariant rest <= xs
      invariant forall x :: x in xs && x !in rest ==> m <= x
      decreases |rest|
    {
      ghost var witness1 := Pick(rest);
      var x :| x in rest;
      if x < m { m := x; }
      rest := rest - {x};
    }
  }

  /** Ascending order of a set of integers, as Python's `sorted` gives it. */
  method SortSet(xs: set<int>) returns (s: seq<int>)
    ensures StrictlyIncreasing(s)
    ensures SameElements(s, xs)
  {
    s := [];
    var rest := xs;
    while rest != {}
      invariant rest <= xs
      invariant StrictlyIncreasing(s)
      invariant SameElements(s, xs - rest)
      invariant forall x, y :: x in s && y in rest ==> x < y
      decreases |rest|
    {
      var m := Min(rest);
      assert forall i :: 0 <= i < |s| ==> s[i] in s;
      s := s + [m];
      rest := rest - {m};
    }
    assert xs - rest == xs;
  }

  /** The ascending order of a set, as a mathematical function. */
  ghost function Ascending(xs: set<int>): (s: seq<int>)
    ensures StrictlyIncreasing(s)
    ensures SameElements(s, xs)
    decreases |xs|
  {
    if xs == {} then [] else
      MinExists(xs);
      var m :| IsMin(m, xs);
      var rest := Ascending(xs - {m});
      assert forall i :: 0 <= i < |rest| ==> rest[i] in rest;
      [m] + rest
  }

  lemma HeadIn(s: seq<int>)
    ensures s != [] ==> s[0] in s
  {
  }

  /** A strictly increasing sequence is determined by the set of its elements. */
  lemma {:induction false} IncreasingUnique(s: seq<int>, t: seq<int>)
    requires StrictlyIncreasing(s) && StrictlyIncreasing(t)
    requires forall x :: x in s <==> x in t
    ensures s == t
    decreases |s|
  {
    HeadIn(t);
    if s == [] {
    } else {
      assert s[0] in s;
      assert t != [];
      assert t[0] in t;
      assert s[0] in t && t[0] in s;
      assert s[0] == t[0];
      forall x ensures x in s[1..] <==> x in t[1..] {
        if x in s[1..] { assert x in s && x in t && x != s[0]; }
        if x in t[1..] { assert x in t && x in s && x != t[0]; }
      }
      IncreasingUnique(s[1..], t[1..]);
    }
  }

  /** Two finite sets, one inside the other and of the same size, are equal. */
  lemma SubsetSameSize<T>(a: set<T>, b: set<T>)
    requires a <= b
    requires |a| == |b|
    ensures a == b
  {
    assert b == a + (b - a);
    assert |b| == |a| + |b - a|;
  }
}
