/** The days a plate is held, and holding it for the whole of a new stay. */
module Stay {
  import opened Basics
  import opened States
  import opened Sets
  import opened Register
  import opened RegisterProofs

  // ---------------------------------------------------------------- days held

  datatype Span = Span(first: Day, stop: Day, held: bool)

  function CoveringGarages(rows: seq<Row>, d: Day): set<GarageId> {
    set i | 0 <= i < |rows| && Covers(rows[i], d) :: rows[i].garage
  }

  predicate HeldOn(garages: nat, rows: seq<Row>, d: Day) {
    garages > 0 && |CoveringGarages(rows, d)| == garages
  }

  /** The spans cut the days into neighbouring pieces, alternating, and each says of
      every one of its days what `held` says of it. */
  ghost predicate Partition(held: Day -> bool, from: Day, end: Day, spans: seq<Span>) {
    && spans != [] && spans[0].first == from && spans[|spans| - 1].stop == end
    && (forall k :: 0 <= k < |spans| ==> Tells(held, spans[k]))
    && (forall j, k :: 0 <= j && k == j + 1 && k < |spans| ==> Follows(spans[j], spans[k]))
  }

  ghost predicate Tells(held: Day -> bool, s: Span) {
    s.first < s.stop && forall d :: s.first <= d < s.stop ==> held(d) == s.held
  }

  predicate Follows(s: Span, t: Span) {
    s.stop == t.first && s.held != t.held
  }

  ghost function HeldDays(garages: nat, rows: seq<Row>): Day -> bool {
    d => HeldOn(garages, rows, d)
  }

  function Cuts(rows: seq<Row>, from: Day, end: Day): set<Day> {
    {from, end}
    + (set i | 0 <= i < |rows| && from < rows[i].from < end :: rows[i].from)
    + (set i | 0 <= i < |rows| && rows[i].end.Some? && from < rows[i].end.value < end :: rows[i].end.value)
  }

  /** No row starts or ends strictly between two neighbouring cuts. */
  lemma SameBetweenCuts(rows: seq<Row>, from: Day, end: Day, cuts: seq<Day>, k: nat, d: Day)
    requires from < end && cuts == Sorted(Cuts(rows, from, end)) && k + 1 < |cuts|
    requires cuts[k] <= d < cuts[k + 1]
    ensures CoveringGarages(rows, d) == CoveringGarages(rows, cuts[k])
  {
    assert cuts[k] in cuts && cuts[k + 1] in cuts;
    CutsAreInside(rows, from, end, cuts[k]);
    CutsAreInside(rows, from, end, cuts[k + 1]);
    forall i | 0 <= i < |rows| ensures Covers(rows[i], d) <==> Covers(rows[i], cuts[k]) {
      if from < rows[i].from < end {
        NoCutBetween(cuts, k, rows[i].from);
      }
      if rows[i].end.Some? && from < rows[i].end.value < end {
        NoCutBetween(cuts, k, rows[i].end.value);
      }
      CoversAlike(rows[i], cuts[k], cuts[k + 1], d);
    }
  }

  /** A row that neither starts nor ends strictly inside covers all of it or none. */
  lemma CoversAlike(r: Row, first: Day, stop: Day, d: Day)
    requires first <= d < stop
    requires r.from <= first || stop <= r.from
    requires r.end.Some? ==> r.end.value <= first || stop <= r.end.value
    ensures Covers(r, d) <==> Covers(r, first)
  {
  }

  lemma NoCutBetween(cuts: seq<Day>, k: nat, c: Day)
    requires forall i, j :: 0 <= i < j < |cuts| ==> cuts[i] < cuts[j]
    requires k + 1 < |cuts| && c in cuts
    ensures c <= cuts[k] || cuts[k + 1] <= c
  {
    var j :| 0 <= j < |cuts| && cuts[j] == c;
  }

  lemma CutsAreInside(rows: seq<Row>, from: Day, end: Day, c: Day)
    requires from < end && c in Cuts(rows, from, end)
    ensures from <= c <= end
  {
  }

  method DaysHeld(garages: nat, rows: seq<Row>, from: Day, end: Day) returns (spans: seq<Span>)
    requires from < end
    ensures Partition(HeldDays(garages, rows), from, end, spans)
  {
    var cuts := Sorted(Cuts(rows, from, end));
    CutsSpan(rows, from, end, cuts);
    spans := [];
    for k := 0 to |cuts| - 1
      invariant k == 0 <==> spans == []
      invariant k > 0 ==> Partition(HeldDays(garages, rows), from, cuts[k], spans)
    {
      var covering := CoveringGarages(rows, cuts[k]);
      var held := garages > 0 && |covering| == garages;
      var next := Span(cuts[k], cuts[k + 1], held);
      forall d | cuts[k] <= d < cuts[k + 1] ensures HeldOn(garages, rows, d) == held {
        SameBetweenCuts(rows, from, end, cuts, k, d);
      }
      assert Tells(HeldDays(garages, rows), next);
      if spans != [] && spans[|spans| - 1].held == held {
        Joined(HeldDays(garages, rows), from, spans, next);
        spans := spans[|spans| - 1 := Span(spans[|spans| - 1].first, cuts[k + 1], held)];
      } else {
        Appended(HeldDays(garages, rows), from, spans, next);
        spans := spans + [next];
      }
    }
  }

  lemma Appended(held: Day -> bool, from: Day, spans: seq<Span>, s: Span)
    requires Tells(held, s)
    requires if spans == [] then s.first == from
             else Partition(held, from, s.first, spans) && spans[|spans| - 1].held != s.held
    ensures Partition(held, from, s.stop, spans + [s])
  {
  }

  lemma Joined(held: Day -> bool, from: Day, spans: seq<Span>, s: Span)
    requires Tells(held, s) && Partition(held, from, s.first, spans) && spans[|spans| - 1].held == s.held
    ensures Partition(held, from, s.stop, spans[|spans| - 1 := Span(spans[|spans| - 1].first, s.stop, s.held)])
  {
    assert Tells(held, spans[|spans| - 1]);
  }

  lemma EndsOf(cuts: seq<Day>, from: Day, end: Day)
    requires forall i, j :: 0 <= i < j < |cuts| ==> cuts[i] < cuts[j]
    requires from < end && from in cuts && end in cuts && forall d :: d in cuts ==> from <= d <= end
    ensures |cuts| >= 2 && cuts[0] == from && cuts[|cuts| - 1] == end
  {
    var i :| 0 <= i < |cuts| && cuts[i] == from;
    var j :| 0 <= j < |cuts| && cuts[j] == end;
    assert cuts[0] in cuts && cuts[|cuts| - 1] in cuts;
  }

  lemma CutsSpan(rows: seq<Row>, from: Day, end: Day, cuts: seq<Day>)
    requires from < end && cuts == Sorted(Cuts(rows, from, end))
    ensures |cuts| >= 2 && cuts[0] == from && cuts[|cuts| - 1] == end
  {
    forall d | d in cuts ensures from <= d <= end {
      CutsAreInside(rows, from, end, d);
    }
    EndsOf(cuts, from, end);
  }

  /** The spans are determined: two lists that both partition the days, alternate and
      tell the truth about every day are one list. */
  lemma {:induction false} PartitionIsUnique(held: Day -> bool, from: Day, end: Day, a: seq<Span>, b: seq<Span>)
    requires Partition(held, from, end, a) && Partition(held, from, end, b)
    ensures a == b
    decreases |a|
  {
    Rest(held, from, end, a);
    Rest(held, from, end, b);
    assert held(from) == a[0].held == b[0].held;
    assert |a| > 1 ==> held(a[1].first) == a[1].held != a[0].held;
    assert |b| > 1 ==> held(b[1].first) == b[1].held != b[0].held;
    var s, t := a[0], b[0];
    assert s.stop < t.stop ==> held(s.stop) == t.held;
    assert t.stop < s.stop ==> held(t.stop) == s.held;
    if |a| > 1 {
      PartitionIsUnique(held, a[0].stop, end, a[1..], b[1..]);
    }
    assert a == [a[0]] + a[1..] && b == [b[0]] + b[1..];
  }

  /** After its first span a partition is a partition of the days left, if any are left. */
  lemma {:induction false} Rest(held: Day -> bool, from: Day, end: Day, a: seq<Span>)
    requires Partition(held, from, end, a)
    ensures Tells(held, a[0]) && from < a[0].stop <= end
    ensures |a| > 1 <==> a[0].stop < end
    ensures |a| > 1 ==> Partition(held, a[0].stop, end, a[1..]) && Tells(held, a[1]) && Follows(a[0], a[1])
    decreases |a|
  {
    assert Tells(held, a[0]);
    if |a| > 1 {
      assert Tells(held, a[1]) && Follows(a[0], a[1]);
      forall j, k | 0 <= j && k == j + 1 && k < |a[1..]| ensures Follows(a[1..][j], a[1..][k]) {
        assert Follows(a[j + 1], a[k + 1]);
      }
      Rest(held, a[0].stop, end, a[1..]);
    }
  }
}
