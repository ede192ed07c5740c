/** Counting: when a set of garages is every garage, and when a list names each once. */
module Sets {
  import opened Basics

  function Of<T>(s: seq<T>): set<T> {
    set x | x in s
  }

  lemma {:induction false} DistinctCount<T>(s: seq<T>)
    ensures |Of(s)| <= |s|
    ensures (forall i, j :: 0 <= i < j < |s| ==> s[i] != s[j]) <==> |Of(s)| == |s|
  {
    if s != [] {
      var t := s[..|s| - 1];
      DistinctCount(t);
      assert s == t + [s[|s| - 1]];
      assert Of(s) == Of(t) + {s[|s| - 1]};
      if s[|s| - 1] in Of(t) {
        var i :| 0 <= i < |t| && t[i] == s[|s| - 1];
        assert s[i] == s[|s| - 1];
      } else {
        assert forall i :: 0 <= i < |t| ==> s[i] == t[i] && t[i] in Of(t);
      }
      assert forall i :: 0 <= i < |t| ==> s[i] == t[i];
    }
  }

  lemma {:induction false} SubsetCount<T>(a: set<T>, b: set<T>)
    requires a <= b
    ensures |a| <= |b|
    ensures |a| == |b| <==> a == b
  {
    if a != {} {
      var x :| x in a;
      SubsetCount(a - {x}, b - {x});
      assert a == (a - {x}) + {x} && b == (b - {x}) + {x};
    }
  }

  lemma Member<T>(s: set<T>) returns (x: T)
    requires s != {}
    ensures x in s
  {
    x :| x in s;
  }

  /** sorted(s): strictly increasing, the same elements. */
  function Sorted(s: set<int>): (r: seq<int>)
    ensures forall i, j :: 0 <= i < j < |r| ==> r[i] < r[j]
    ensures forall x :: x in r <==> x in s
    decreases |s|
  {
    if s == {} then []
    else
      LeastExists(s);
      var x :| x in s && forall y :: y in s ==> x <= y;
      [x] + Sorted(s - {x})
  }

  lemma {:induction false} LeastExists(s: set<int>)
    requires s != {}
    ensures exists x :: x in s && forall y :: y in s ==> x <= y
    decreases |s|
  {
    var z := Member(s);
    if s == {z} {
      assert forall y :: y in s ==> z <= y;
    } else {
      assert s - {z} != {};
      LeastExists(s - {z});
      var x :| x in s - {z} && forall y :: y in s - {z} ==> x <= y;
      var least := if z < x then z else x;
      assert least in s;
      forall y | y in s ensures least <= y {
        assert y == z || y in s - {z};
      }
    }
  }
}
