/** Filtering and sorting, and what a permutation cannot change about them. */
module Lists {

  function Filter<T(!new)>(s: seq<T>, f: T -> bool): (r: seq<T>)
    ensures forall x :: x in r <==> x in s && f(x)
  {
    if s == [] then []
    else
      var n := |s| - 1;
      assert forall x :: x in s <==> x in s[..n] || x == s[n];
      Filter(s[..n], f) + (if f(s[n]) then [s[n]] else [])
  }

  lemma FilterSnoc<T(!new)>(s: seq<T>, x: T, f: T -> bool)
    ensures Filter(s + [x], f) == Filter(s, f) + (if f(x) then [x] else [])
  {
    assert (s + [x])[..|s|] == s;
  }

  /** The step of a loop that keeps what passes. */
  lemma FilterTake<T(!new)>(s: seq<T>, k: nat, f: T -> bool)
    requires k < |s|
    ensures Filter(s[..k + 1], f) == Filter(s[..k], f) + (if f(s[k]) then [s[k]] else [])
  {
    assert s[..k + 1] == s[..k] + [s[k]];
    FilterSnoc(s[..k], s[k], f);
  }

  lemma {:induction false} FilterCounts<T(!new)>(s: seq<T>, f: T -> bool, x: T)
    ensures multiset(Filter(s, f))[x] == if f(x) then multiset(s)[x] else 0
  {
    if s != [] {
      var n := |s| - 1;
      FilterCounts(s[..n], f, x);
      assert s == s[..n] + [s[n]];
    }
  }

  ghost predicate Permuted<T(!new)>(a: seq<T>, b: seq<T>) {
    multiset(a) == multiset(b)
  }

  lemma PermutedFacts<T(!new)>(a: seq<T>, b: seq<T>)
    requires Permuted(a, b)
    ensures |a| == |b|
    ensures forall x :: x in a <==> x in b
    ensures |a| == 1 ==> a == b
  {
    assert |a| == |multiset(a)| == |multiset(b)| == |b|;
    forall x ensures x in a <==> x in b {
      assert x in a <==> x in multiset(a);
      assert x in b <==> x in multiset(b);
    }
    if |a| == 1 {
      assert a[0] in b;
    }
  }

  lemma FilterPermuted<T(!new)>(a: seq<T>, b: seq<T>, f: T -> bool)
    requires Permuted(a, b)
    ensures Permuted(Filter(a, f), Filter(b, f))
  {
    forall x ensures multiset(Filter(a, f))[x] == multiset(Filter(b, f))[x] {
      FilterCounts(a, f, x);
      FilterCounts(b, f, x);
    }
  }

  lemma {:induction false} NoneKeptAt<T(!new)>(s: seq<T>, f: T -> bool)
    requires forall i :: 0 <= i < |s| ==> !f(s[i])
    ensures Filter(s, f) == []
  {
    if s != [] {
      NoneKeptAt(s[..|s| - 1], f);
    }
  }

  lemma NoneKept<T(!new)>(s: seq<T>, f: T -> bool)
    requires forall x :: x in s ==> !f(x)
    ensures Filter(s, f) == []
  {
    NoneKeptAt(s, f);
  }

  /** A list of one that is kept. */
  lemma OneKept<T(!new)>(x: T, f: T -> bool)
    requires f(x)
    ensures Filter([x], f) == [x]
  {
    assert [x][..0] == [];
  }

  lemma {:induction false} AtMostOneKept<T(!new)>(s: seq<T>, f: T -> bool)
    requires forall i, j :: 0 <= i < j < |s| ==> !(f(s[i]) && f(s[j]))
    ensures |Filter(s, f)| <= 1
  {
    if s != [] {
      var n := |s| - 1;
      if f(s[n]) {
        NoneKept(s[..n], f);
      } else {
        AtMostOneKept(s[..n], f);
      }
    }
  }

  lemma {:induction false} FilterAgreesAt<T(!new)>(s: seq<T>, f: T -> bool, g: T -> bool)
    requires forall i :: 0 <= i < |s| ==> f(s[i]) == g(s[i])
    ensures Filter(s, f) == Filter(s, g)
  {
    if s != [] {
      FilterAgreesAt(s[..|s| - 1], f, g);
    }
  }

  lemma FilterAgrees<T(!new)>(s: seq<T>, f: T -> bool, g: T -> bool)
    requires forall x :: x in s ==> f(x) == g(x)
    ensures Filter(s, f) == Filter(s, g)
  {
    FilterAgreesAt(s, f, g);
  }

  lemma FilterAcross<T(!new)>(a: seq<T>, b: seq<T>, f: T -> bool, g: T -> bool)
    requires Permuted(a, b)
    requires forall x :: x in a ==> f(x) == g(x)
    ensures Permuted(Filter(a, f), Filter(b, g))
  {
    FilterAgrees(a, f, g);
    FilterPermuted(a, b, g);
  }

  // ------------------------------------------------------------------- sorting

  /** Behind its equals: what makes the sort stable. */
  function Place<T(!new)>(s: seq<T>, x: T, key: T -> int): (r: seq<T>)
    ensures multiset(r) == multiset(s) + multiset{x}
  {
    if s == [] then [x]
    else if key(x) < key(s[0]) then [x] + s
    else
      assert s == [s[0]] + s[1..];
      [s[0]] + Place(s[1..], x, key)
  }

  /** sorted(s, key=key). */
  function SortedBy<T(!new)>(s: seq<T>, key: T -> int): (r: seq<T>)
    ensures multiset(r) == multiset(s)
  {
    if s == [] then []
    else
      var n := |s| - 1;
      assert s == s[..n] + [s[n]];
      Place(SortedBy(s[..n], key), s[n], key)
  }

  ghost predicate HeadIsLeast<T(!new)>(s: seq<T>, key: T -> int) {
    s != [] ==> forall x :: x in s ==> key(s[0]) <= key(x)
  }

  lemma {:induction false} PlaceKeepsHead<T(!new)>(s: seq<T>, x: T, key: T -> int)
    requires HeadIsLeast(s, key)
    ensures HeadIsLeast(Place(s, x, key), key)
  {
    PermutedFacts(Place(s, x, key), s + [x]);
  }

  lemma {:induction false} SortedHeadIsLeast<T(!new)>(s: seq<T>, key: T -> int)
    ensures HeadIsLeast(SortedBy(s, key), key)
    ensures |SortedBy(s, key)| == |s| && forall x :: x in SortedBy(s, key) <==> x in s
  {
    PermutedFacts(SortedBy(s, key), s);
    if s != [] {
      SortedHeadIsLeast(s[..|s| - 1], key);
      PlaceKeepsHead(SortedBy(s[..|s| - 1], key), s[|s| - 1], key);
    }
  }

  /** An element that is among the least and arrived first stays first: the sort is stable. */
  lemma {:induction false} FirstOfTheLeastStaysFirst<T(!new)>(s: seq<T>, key: T -> int)
    requires s != [] && HeadIsLeast(s, key)
    ensures SortedBy(s, key)[0] == s[0]
  {
    var n := |s| - 1;
    if n > 0 {
      assert forall x :: x in s[..n] ==> x in s;
      assert s[n] in s;
      FirstOfTheLeastStaysFirst(s[..n], key);
      PermutedFacts(SortedBy(s[..n], key), s[..n]);
    }
  }
}
