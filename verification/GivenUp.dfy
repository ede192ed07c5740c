/** Which operations take a day from the pass that holds it: all of them, and no other. */
module GivenUp {
  import opened Basics
  import opened States
  import opened Register
  import opened RegisterProofs
  import opened Stay
  import opened HoldStay
  import opened Runs

  // ------------------------------------------------- what an issue does to other passes

  /** Ended by another pass's new stay: turned over on its last day, or released. */
  predicate MovedByAnother(r: Row, s: Row) {
    && s == r.(end := s.end, why := s.why) && s != r
    && s.end.Some? && s.why in {Some(ByNextStay), Some(ByExpiry)}
  }

  ghost predicate OthersOnlyMoved(rows: seq<Row>, out: seq<Row>, p: PassId) {
    |rows| <= |out|
    && (forall i :: 0 <= i < |rows| && rows[i].pass != p ==> out[i] == rows[i] || MovedByAnother(rows[i], out[i]))
    && (forall i :: |rows| <= i < |out| ==> out[i].pass == p)
    && (forall i :: 0 <= i < |rows| ==> out[i].pass == rows[i].pass)
  }

  lemma OthersMovedTwice(a: seq<Row>, b: seq<Row>, c: seq<Row>, p: PassId)
    requires OthersOnlyMoved(a, b, p) && OthersOnlyMoved(b, c, p)
    ensures OthersOnlyMoved(a, c, p)
  {
    forall i | 0 <= i < |a| && a[i].pass != p ensures c[i] == a[i] || MovedByAnother(a[i], c[i]) {
      assert b[i] == a[i] || MovedByAnother(a[i], b[i]);
      assert c[i] == b[i] || MovedByAnother(b[i], c[i]);
    }
  }

  lemma RegisteringMoves(passes: map<PassId, PassRow>, rows: seq<Row>, p: PassId, plate: string, from: Day,
                         end: Option<Day>, why: Reason)
    requires p in passes && PassesKnown(passes, rows)
    ensures OthersOnlyMoved(rows, Registered(passes, rows, p, plate, from, end, why), p)
  {
    var out := Registered(passes, rows, p, plate, from, end, why);
    forall i | 0 <= i < |rows|
      ensures out[i].pass == rows[i].pass
      ensures out[i] == rows[i] || MovedByAnother(rows[i], out[i])
    {
      assert out[i] == Settled(passes, p, plate, from, end, rows[i]);
    }
  }

  lemma FillMoves(passes: map<PassId, PassRow>, unreadable: set<GarageId>, rows: seq<Row>, held: seq<Held>, garages: nat,
                  at: GarageId, p: PassId, plate: string, gap: Span, end: Day)
    requires p in passes && PassesKnown(passes, rows) && HeldStill(passes, rows, p, plate, garages, held)
    ensures var one := Fill(passes, unreadable, rows, held, garages, at, p, plate, gap, end);
            one.Filled? ==> OthersOnlyMoved(rows, one.rows, p)
  {
    var ending := EndingOn(held, gap.first);
    RegisteringMoves(passes, rows, p, plate, gap.first, Some(gap.stop), AfterLastDay);
    forall i | i in Ids(ending) ensures i < |rows| && rows[i].pass == p {
      var k :| 0 <= k < |ending| && ending[k].id == i;
      assert ending[k] in held;
    }
  }

  /** An issue moves another pass's row only by a turnover or a release. */
  lemma {:induction false} FillAllMoves(passes: map<PassId, PassRow>, unreadable: set<GarageId>, rows: seq<Row>, held: seq<Held>,
                                        garages: nat, at: GarageId, p: PassId, plate: string, spans: seq<Span>, from: Day, end: Day)
    requires Good(passes, rows) && p in passes && PassesKnown(passes, rows)
    requires HeldStill(passes, rows, p, plate, garages, held)
    requires Partition(HeldDays(garages, RowsOf(held)), from, end, spans)
    ensures var all := FillAll(passes, unreadable, rows, held, garages, at, p, plate, spans, end);
            all.Filled? ==> OthersOnlyMoved(rows, all.rows, p)
    decreases |spans|
  {
    Rest(HeldDays(garages, RowsOf(held)), from, end, spans);
    assert |spans| == 1 ==> spans[1..] == [];
    if spans[0].held {
      if |spans| > 1 {
        FillAllMoves(passes, unreadable, rows, held, garages, at, p, plate, spans[1..], spans[0].stop, end);
      }
    } else {
      FillMoves(passes, unreadable, rows, held, garages, at, p, plate, spans[0], end);
      FillHolds(passes, unreadable, rows, held, garages, at, p, plate, spans[0], end);
      FillKeepsPasses(passes, unreadable, rows, held, garages, at, p, plate, spans[0], end);
      var one := Fill(passes, unreadable, rows, held, garages, at, p, plate, spans[0], end);
      if one.Filled? && |spans| > 1 {
        FillAllMoves(passes, unreadable, one.rows, held, garages, at, p, plate, spans[1..], spans[0].stop, end);
        var all := FillAll(passes, unreadable, one.rows, held, garages, at, p, plate, spans[1..], end);
        if all.Filled? {
          OthersMovedTwice(rows, one.rows, all.rows, p);
        }
      }
    }
  }

  lemma IssuingMoves(db: Db, out: Db, at: GarageId, p: PassId, plate: string, from: Day, days: Option<int>, answer: IssueAnswer)
    requires GoodDb(db) && PassesKnown(db.passes, db.rows) && IssueStep(db, out, at, p, plate, from, days, answer)
    ensures OthersOnlyMoved(db.rows, out.rows, p)
  {
    if IssueRefusalBefore(db.passes, db.unreadable, at, p, plate, from, days).None? {
      StayIsNotEmpty(db.passes, db.unreadable, at, p, plate, from, days);
      var end := StayEnd(db.passes[p], from, days.value);
      var filled :| StayWritten(db.passes, db.unreadable, db.rows, at, p, plate, from, end, filled)
        && out == db.(rows := if filled.Filled? then filled.rows else db.rows)
        && answer == if filled.Filled? then Made(end) else NotMade(Hold(filled.refusal));
      var garages, held, spans :|
        && HeldRead(db.passes, db.rows, p, plate, from, end, garages, held)
        && Partition(HeldDays(garages, RowsOf(held)), from, end, spans)
        && filled == FillAll(db.passes, db.unreadable, db.rows, held, garages, at, p, plate, spans, end);
      FillAllMoves(db.passes, db.unreadable, db.rows, held, garages, at, p, plate, spans, from, end);
    }
  }

  // -------------------------------------------------- what it leaves of one such row

  /** Another pass's row, after each gap of the stay in turn. */
  ghost function SettledBy(passes: map<PassId, PassRow>, p: PassId, plate: string, spans: seq<Span>, r: Row): (s: Row)
    requires p in passes && r.pass in passes
    ensures s.pass == r.pass
    decreases |spans|
  {
    if spans == [] then r
    else if spans[0].held then SettledBy(passes, p, plate, spans[1..], r)
    else SettledBy(passes, p, plate, spans[1..], Settled(passes, p, plate, spans[0].first, Some(spans[0].stop), r))
  }

  /** A gap of the stay turns the row over, or releases it, by the day. */
  ghost predicate GapTakes(passes: map<PassId, PassRow>, p: PassId, plate: string, gap: Span, r: Row, d: Day)
    requires p in passes && r.pass in passes
  {
    !gap.held &&
    match Judge(passes, p, plate, gap.first, Some(gap.stop), r)
    case TurnOver => gap.first <= d
    case Release => passes[r.pass].validTo.value < d
    case _ => false
  }

  /** Past the end of the row nothing more happens to it. */
  lemma {:induction false} NothingMore(passes: map<PassId, PassRow>, p: PassId, plate: string, spans: seq<Span>, r: Row,
                                       held: Day -> bool, from: Day, end: Day)
    requires p in passes && r.pass in passes && Partition(held, from, end, spans) && r.end.Some? && r.end.value <= from
    ensures SettledBy(passes, p, plate, spans, r) == r
    decreases |spans|
  {
    Rest(held, from, end, spans);
    if |spans| > 1 {
      NothingMore(passes, p, plate, spans[1..], r, held, spans[0].stop, end);
    } else {
      assert spans[1..] == [];
    }
  }

  /** Every gap begins where the stay does, or later. */
  lemma {:induction false} GapsBeginLater(held: Day -> bool, from: Day, end: Day, spans: seq<Span>, k: nat)
    requires Partition(held, from, end, spans) && k < |spans|
    ensures from <= spans[k].first < spans[k].stop <= end
    decreases k
  {
    Rest(held, from, end, spans);
    if k > 0 {
      GapsBeginLater(held, spans[0].stop, end, spans[1..], k - 1);
    }
  }

  /** What the first gap that takes the row leaves of it, no later one can leave less of. */
  lemma FirstGapDecides(passes: map<PassId, PassRow>, p: PassId, plate: string, first: Span, later: Span, r: Row, d: Day)
    requires p in passes && r.pass in passes && !first.held && first.stop <= later.first && first.first < first.stop
    requires Judge(passes, p, plate, first.first, Some(first.stop), r) in {TurnOver, Release}
    requires GapTakes(passes, p, plate, later, r, d)
    ensures GapTakes(passes, p, plate, first, r, d)
  {
  }

  lemma {:induction false} GapsTake(passes: map<PassId, PassRow>, p: PassId, plate: string, spans: seq<Span>, r: Row, d: Day,
                                    held: Day -> bool, from: Day, end: Day)
    requires p in passes && r.pass in passes && Partition(held, from, end, spans) && Covers(r, d)
    ensures Covers(SettledBy(passes, p, plate, spans, r), d) <==>
              !exists k :: 0 <= k < |spans| && GapTakes(passes, p, plate, spans[k], r, d)
    decreases |spans|
  {
    Rest(held, from, end, spans);
    var gap, rest := spans[0], spans[1..];
    assert forall k :: 0 < k < |spans| ==> spans[k] == rest[k - 1];
    if !gap.held && Judge(passes, p, plate, gap.first, Some(gap.stop), r) in {TurnOver, Release} {
      GapIsTheLast(passes, p, plate, spans, r, d, held, from, end);
    } else if |spans| > 1 {
      GapsTake(passes, p, plate, rest, r, d, held, gap.stop, end);
      if k :| 0 <= k < |rest| && GapTakes(passes, p, plate, rest[k], r, d) {
        assert GapTakes(passes, p, plate, spans[k + 1], r, d);
      }
    } else {
      assert rest == [];
    }
  }

  lemma GapIsTheLast(passes: map<PassId, PassRow>, p: PassId, plate: string, spans: seq<Span>, r: Row, d: Day,
                     held: Day -> bool, from: Day, end: Day)
    requires p in passes && r.pass in passes && Partition(held, from, end, spans) && Covers(r, d)
    requires !spans[0].held && Judge(passes, p, plate, spans[0].first, Some(spans[0].stop), r) in {TurnOver, Release}
    ensures Covers(SettledBy(passes, p, plate, spans, r), d) <==>
              !exists k :: 0 <= k < |spans| && GapTakes(passes, p, plate, spans[k], r, d)
  {
    var gap := spans[0];
    Rest(held, from, end, spans);
    var settled := Settled(passes, p, plate, gap.first, Some(gap.stop), r);
    if |spans| > 1 {
      NothingMore(passes, p, plate, spans[1..], settled, held, gap.stop, end);
    } else {
      assert spans[1..] == [];
    }
    assert Covers(settled, d) <==> !GapTakes(passes, p, plate, gap, r, d);
    forall k | 0 < k < |spans| && GapTakes(passes, p, plate, spans[k], r, d) ensures GapTakes(passes, p, plate, gap, r, d) {
      GapsBeginLater(held, gap.stop, end, spans[1..], k - 1);
      FirstGapDecides(passes, p, plate, gap, spans[k], r, d);
    }
  }

  /** Filling a gap settles another pass's row, whichever way it is filled. */
  lemma FillSettles(passes: map<PassId, PassRow>, unreadable: set<GarageId>, rows: seq<Row>, held: seq<Held>, garages: nat,
                    at: GarageId, p: PassId, plate: string, gap: Span, end: Day, i: nat)
    requires p in passes && PassesKnown(passes, rows) && HeldStill(passes, rows, p, plate, garages, held)
    requires i < |rows| && rows[i].pass != p
    ensures var one := Fill(passes, unreadable, rows, held, garages, at, p, plate, gap, end);
            one.Filled? ==>
              i < |one.rows| && one.rows[i] == Settled(passes, p, plate, gap.first, Some(gap.stop), rows[i])
  {
    var ending := EndingOn(held, gap.first);
    forall j | j in Ids(ending) ensures j < |rows| && rows[j].pass == p {
      var k :| 0 <= k < |ending| && ending[k].id == j;
      assert ending[k] in held;
    }
  }

  lemma {:induction false} FillAllSettles(passes: map<PassId, PassRow>, unreadable: set<GarageId>, rows: seq<Row>, held: seq<Held>,
                                          garages: nat, at: GarageId, p: PassId, plate: string, spans: seq<Span>, from: Day,
                                          end: Day, i: nat)
    requires Good(passes, rows) && p in passes && PassesKnown(passes, rows)
    requires HeldStill(passes, rows, p, plate, garages, held)
    requires Partition(HeldDays(garages, RowsOf(held)), from, end, spans)
    requires i < |rows| && rows[i].pass != p
    ensures var all := FillAll(passes, unreadable, rows, held, garages, at, p, plate, spans, end);
            all.Filled? ==> i < |all.rows| && all.rows[i] == SettledBy(passes, p, plate, spans, rows[i])
    decreases |spans|
  {
    Rest(HeldDays(garages, RowsOf(held)), from, end, spans);
    assert |spans| == 1 ==> spans[1..] == [];
    if spans[0].held {
      if |spans| > 1 {
        FillAllSettles(passes, unreadable, rows, held, garages, at, p, plate, spans[1..], spans[0].stop, end, i);
      }
    } else {
      FillSettles(passes, unreadable, rows, held, garages, at, p, plate, spans[0], end, i);
      FillHolds(passes, unreadable, rows, held, garages, at, p, plate, spans[0], end);
      FillKeepsPasses(passes, unreadable, rows, held, garages, at, p, plate, spans[0], end);
      var one := Fill(passes, unreadable, rows, held, garages, at, p, plate, spans[0], end);
      if one.Filled? && |spans| > 1 {
        FillAllSettles(passes, unreadable, one.rows, held, garages, at, p, plate, spans[1..], spans[0].stop, end, i);
      }
    }
  }

  /** The issue is made, and a gap of its stay takes the row's day. */
  ghost predicate IssueTakesRow(db: Db, out: Db, at: GarageId, p: PassId, plate: string, from: Day, days: Option<int>, i: nat, d: Day)
    requires PassesKnown(db.passes, db.rows) && i < |db.rows|
  {
    IssueRefusalBefore(db.passes, db.unreadable, at, p, plate, from, days).None? &&
    var end := StayEnd(db.passes[p], from, days.value);
    exists garages, held, spans ::
      && HeldRead(db.passes, db.rows, p, plate, from, end, garages, held)
      && Partition(HeldDays(garages, RowsOf(held)), from, end, spans)
      && FillAll(db.passes, db.unreadable, db.rows, held, garages, at, p, plate, spans, end) == Filled(out.rows)
      && exists k :: 0 <= k < |spans| && GapTakes(db.passes, p, plate, spans[k], db.rows[i], d)
  }

  /** However the stay's rows were read, its gaps say whether the row still covers the day. */
  lemma ReadingDecides(db: Db, at: GarageId, p: PassId, plate: string, from: Day, end: Day, garages: nat, held: seq<Held>,
                       spans: seq<Span>, rows: seq<Row>, i: nat, d: Day)
    requires GoodDb(db) && PassesKnown(db.passes, db.rows) && p in db.passes
    requires HeldRead(db.passes, db.rows, p, plate, from, end, garages, held)
    requires Partition(HeldDays(garages, RowsOf(held)), from, end, spans)
    requires FillAll(db.passes, db.unreadable, db.rows, held, garages, at, p, plate, spans, end) == Filled(rows)
    requires i < |db.rows| && db.rows[i].pass != p && Covers(db.rows[i], d)
    ensures i < |rows|
    ensures Covers(rows[i], d) <==> !exists k :: 0 <= k < |spans| && GapTakes(db.passes, p, plate, spans[k], db.rows[i], d)
  {
    FillAllSettles(db.passes, db.unreadable, db.rows, held, garages, at, p, plate, spans, from, end, i);
    GapsTake(db.passes, p, plate, spans, db.rows[i], d, HeldDays(garages, RowsOf(held)), from, end);
  }

  lemma IssueSettles(db: Db, out: Db, at: GarageId, p: PassId, plate: string, from: Day, days: Option<int>, answer: IssueAnswer,
                     i: nat, d: Day)
    requires GoodDb(db) && PassesKnown(db.passes, db.rows) && IssueStep(db, out, at, p, plate, from, days, answer)
    requires i < |db.rows| && db.rows[i].pass != p && Covers(db.rows[i], d)
    ensures i < |out.rows| && (Covers(out.rows[i], d) <==> !IssueTakesRow(db, out, at, p, plate, from, days, i, d))
  {
    if IssueRefusalBefore(db.passes, db.unreadable, at, p, plate, from, days).None? {
      StayIsNotEmpty(db.passes, db.unreadable, at, p, plate, from, days);
      var end := StayEnd(db.passes[p], from, days.value);
      var filled :| StayWritten(db.passes, db.unreadable, db.rows, at, p, plate, from, end, filled)
        && out == db.(rows := if filled.Filled? then filled.rows else db.rows)
        && answer == if filled.Filled? then Made(end) else NotMade(Hold(filled.refusal));
      forall garages, held, spans |
        && HeldRead(db.passes, db.rows, p, plate, from, end, garages, held)
        && Partition(HeldDays(garages, RowsOf(held)), from, end, spans)
        && FillAll(db.passes, db.unreadable, db.rows, held, garages, at, p, plate, spans, end) == Filled(out.rows)
        ensures i < |out.rows|
        ensures Covers(out.rows[i], d) <==> !exists k :: 0 <= k < |spans| && GapTakes(db.passes, p, plate, spans[k], db.rows[i], d)
      {
        ReadingDecides(db, at, p, plate, from, end, garages, held, spans, out.rows, i, d);
      }
      if filled.Filled? {
        var garages, held, spans :|
          && HeldRead(db.passes, db.rows, p, plate, from, end, garages, held)
          && Partition(HeldDays(garages, RowsOf(held)), from, end, spans)
          && filled == FillAll(db.passes, db.unreadable, db.rows, held, garages, at, p, plate, spans, end);
        ReadingDecides(db, at, p, plate, from, end, garages, held, spans, out.rows, i, d);
      }
    }
  }

  // --------------------------------------------------------------- one step, one row

  /** The step takes day `d` from the row `i` that covers it: an end of that registration, a
      stay's end or a revocation on that day or before, or another pass's registration or
      issue whose turnover or release ends the row on that day or before. Every condition
      but that the step was made is on the state before it. */
  ghost predicate Takes(db: Db, op: Op, out: Db, i: nat, d: Day)
    requires PassesKnown(db.passes, db.rows) && i < |db.rows|
  {
    var r := db.rows[i];
    match op
    case Create(_, _) => false
    case EndOp(at, p, plate, day) =>
      day <= d
      && exists first: nat :: Ends(db, at, p, plate, day, first) && SameRegistration(r, db.rows[first])
           && out == db.(rows := Ended(db.rows, db.rows[first], day))
    case EndStayOp(at, p, day) =>
      r.pass == p && day <= d && RefusedAtGarage(db.passes, db.unreadable, at, p).None?
    case ChangeOp(at, p, to, who, why, days) =>
      && r.pass == p && to == Revoked && days(r.garage) <= d
      && ChangeOutcome(db.passes, db.unreadable, at, p, to, who, why).Done?
    case RegisterOp(at, p, plate, from, end, why) =>
      && RegisterRefusal(db.passes, db.unreadable, db.rows, at, p, plate, from, end).None?
      && (match Judge(db.passes, p, plate, from, end, r)
          case TurnOver => from <= d
          case Release => db.passes[r.pass].validTo.value < d
          case _ => false)
    case IssueOp(at, p, plate, from, days) =>
      r.pass != p && IssueTakesRow(db, out, at, p, plate, from, days, i, d)
  }

  /** What a step leaves of a row that covers the day: the row itself, no longer covering it
      exactly when the step takes it; and what it adds is another pass's, or covers days the
      pass held already. */
  lemma EndTakes(db: Db, op: Op, out: Db, i: nat, d: Day)
    requires GoodDb(db) && PassesKnown(db.passes, db.rows) && Step(db, op, out) && i < |db.rows| && Covers(db.rows[i], d)
    requires op.EndOp? || op.EndStayOp? || op.ChangeOp?
    ensures |out.rows| == |db.rows| && (Covers(out.rows[i], d) <==> !Takes(db, op, out, i, d))
    ensures forall j :: 0 <= j < |db.rows| && Covers(out.rows[j], d) ==> Covers(db.rows[j], d)
    ensures forall j :: 0 <= j < |db.rows| ==> out.rows[j] == db.rows[j].(end := out.rows[j].end, why := out.rows[j].why)
  {
    assert RowOk(db.passes, db.rows[i]);
    match op
    case EndOp(at, p, plate, day) =>
      if out != db {
        var first := WhichEnd(db, out, at, p, plate, day);
        EndedAsOne(db, day, first, i, d);
        forall other: nat | Ends(db, at, p, plate, day, other) && out == db.(rows := Ended(db.rows, db.rows[other], day))
          ensures SameRegistration(db.rows[i], db.rows[first]) == SameRegistration(db.rows[i], db.rows[other])
        {
          EndedAsOne(db, day, other, i, d);
        }
      } else {
        NothingEnded(db, at, p, plate, day);
      }
    case EndStayOp(at, p, day) =>
    case ChangeOp(at, p, to, who, why, days) =>
  }

  /** Whether the end is of this row's registration shows in what it leaves. */
  lemma EndedAsOne(db: Db, day: Day, first: nat, i: nat, d: Day)
    requires first < |db.rows| && i < |db.rows| && EndRefusal(db.rows[first], day).None?
    ensures var out := Ended(db.rows, db.rows[first], day);
            && (SameRegistration(db.rows[i], db.rows[first]) <==> out[i] != db.rows[i])
            && (SameRegistration(db.rows[i], db.rows[first]) && Covers(db.rows[i], d) ==> (Covers(out[i], d) <==> d < day))
            && forall j :: 0 <= j < |db.rows| && Covers(out[j], d) ==> Covers(db.rows[j], d)
  {
  }

  lemma NothingEnded(db: Db, at: GarageId, p: PassId, plate: string, day: Day)
    ensures forall first: nat :: Ends(db, at, p, plate, day, first) ==>
              db != db.(rows := Ended(db.rows, db.rows[first], day))
  {
    forall first: nat | Ends(db, at, p, plate, day, first)
      ensures db != db.(rows := Ended(db.rows, db.rows[first], day))
    {
      assert Ended(db.rows, db.rows[first], day)[first] != db.rows[first];
    }
  }

  lemma RegisterTakes(db: Db, op: Op, out: Db, i: nat, d: Day)
    requires GoodDb(db) && PassesKnown(db.passes, db.rows) && Step(db, op, out) && i < |db.rows| && Covers(db.rows[i], d)
    requires op.RegisterOp?
    ensures |db.rows| <= |out.rows| && (Covers(out.rows[i], d) <==> !Takes(db, op, out, i, d))
    ensures forall j :: 0 <= j < |db.rows| && Covers(out.rows[j], d) ==> Covers(db.rows[j], d)
    ensures forall j :: 0 <= j < |db.rows| ==> out.rows[j] == db.rows[j].(end := out.rows[j].end, why := out.rows[j].why)
    ensures forall j :: |db.rows| <= j < |out.rows| ==> out.rows[j].pass == op.p
    ensures op.p == db.rows[i].pass ==> Covers(out.rows[i], d)
  {
    var RegisterOp(at, p, plate, from, end, why) := op;
    if RegisterRefusal(db.passes, db.unreadable, db.rows, at, p, plate, from, end).None? {
      RegisteredShape(db.passes, db.unreadable, db.rows, at, p, plate, from, end, why);
      forall j | 0 <= j < |db.rows|
        ensures out.rows[j] == db.rows[j].(end := out.rows[j].end, why := out.rows[j].why)
        ensures Covers(out.rows[j], d) ==> Covers(db.rows[j], d)
      {
        assert Shortened(db.rows[j], out.rows[..|db.rows|][j]);
      }
      assert RowOk(db.passes, db.rows[i]);
      assert out.rows[i] == Settled(db.passes, p, plate, from, end, db.rows[i]);
    }
  }

  lemma IssueTakes(db: Db, op: Op, out: Db, i: nat, d: Day)
    requires GoodDb(db) && PassesKnown(db.passes, db.rows) && Step(db, op, out) && i < |db.rows| && Covers(db.rows[i], d)
    requires op.IssueOp?
    ensures |db.rows| <= |out.rows|
    ensures op.p != db.rows[i].pass ==>
              && (Covers(out.rows[i], d) <==> !Takes(db, op, out, i, d))
              && (forall j :: |db.rows| <= j < |out.rows| ==> out.rows[j].pass == op.p)
              && forall j :: 0 <= j < |db.rows| && db.rows[j].pass != op.p ==>
                   out.rows[j] == db.rows[j].(end := out.rows[j].end, why := out.rows[j].why)
                   && (Covers(out.rows[j], d) ==> Covers(db.rows[j], d))
    ensures forall j :: 0 <= j < |db.rows| ==> out.rows[j].pass == db.rows[j].pass
    ensures op.p == db.rows[i].pass ==> HeldBy(out.rows, db.rows[i].garage, db.rows[i].plate, d, op.p)
  {
    var IssueOp(at, p, plate, from, days) := op;
    var answer :| IssueStep(db, out, at, p, plate, from, days, answer);
    IssuingKeepsGood(db, out, at, p, plate, from, days, answer);
    IssuingMoves(db, out, at, p, plate, from, days, answer);
    if p == db.rows[i].pass {
      assert Holds(db.rows, i, db.rows[i].garage, db.rows[i].plate, d);
      GrowsHeldBy(db.rows, out.rows, db.rows[i].garage, db.rows[i].plate, d, p);
    } else {
      IssueSettles(db, out, at, p, plate, from, days, answer, i, d);
    }
  }

  // ------------------------------------------------------------- one step, one holder

  /** The step takes the day from the pass that holds it. */
  ghost predicate GivesUp(db: Db, op: Op, out: Db, g: GarageId, plate: string, d: Day, p: PassId)
    requires PassesKnown(db.passes, db.rows)
  {
    exists i: nat :: Holds(db.rows, i, g, plate, d) && db.rows[i].pass == p && Takes(db, op, out, i, d)
  }

  lemma HeldByRow(rows: seq<Row>, i: nat, g: GarageId, plate: string, d: Day, p: PassId)
    requires Holds(rows, i, g, plate, d) && rows[i].pass == p
    ensures HeldBy(rows, g, plate, d, p)
  {
  }

  /** A PASS LOSES A DAY IT HOLDS IN ONE STEP EXACTLY WHEN the step is one of those. */
  lemma ADayIsLostIff(db: Db, op: Op, out: Db, g: GarageId, plate: string, d: Day, p: PassId)
    requires GoodDb(db) && PassesKnown(db.passes, db.rows) && Step(db, op, out) && HeldBy(db.rows, g, plate, d, p)
    ensures !HeldBy(out.rows, g, plate, d, p) <==> GivesUp(db, op, out, g, plate, d, p)
  {
    var i: nat :| Holds(db.rows, i, g, plate, d) && db.rows[i].pass == p;
    forall j: nat | Holds(db.rows, j, g, plate, d) ensures j == i {
      OneHolderADay(db.passes, db.rows, i, j, g, plate, d);
    }
    if op.EndOp? || op.EndStayOp? || op.ChangeOp? {
      EndTakes(db, op, out, i, d);
      NoneLeft(db.rows, out.rows, i, g, plate, d, p);
    } else if op.RegisterOp? {
      RegisterTakes(db, op, out, i, d);
      NoneLeft(db.rows, out.rows, i, g, plate, d, p);
    } else if op.IssueOp? {
      IssueTakes(db, op, out, i, d);
      if op.p != p {
        NoneLeft(db.rows, out.rows, i, g, plate, d, p);
      }
    }
  }

  /** The row was the only one, and no other has come to hold the day for the pass. */
  lemma NoneLeft(rows: seq<Row>, out: seq<Row>, i: nat, g: GarageId, plate: string, d: Day, p: PassId)
    requires |rows| <= |out| && Holds(rows, i, g, plate, d) && rows[i].pass == p
    requires forall j: nat :: Holds(rows, j, g, plate, d) ==> j == i
    requires forall j :: 0 <= j < |rows| ==> out[j].pass == rows[j].pass
    requires forall j :: 0 <= j < |rows| && rows[j].pass == p ==>
               out[j] == rows[j].(end := out[j].end, why := out[j].why) && (Covers(out[j], d) ==> Covers(rows[j], d))
    requires (forall j :: |rows| <= j < |out| ==> out[j].pass != p) || Covers(out[i], d)
    ensures HeldBy(out, g, plate, d, p) <==> Covers(out[i], d)
  {
    if Covers(out[i], d) {
      HeldByRow(out, i, g, plate, d, p);
    } else if HeldBy(out, g, plate, d, p) {
      var j: nat :| Holds(out, j, g, plate, d) && out[j].pass == p;
      assert j < |rows| ==> Holds(rows, j, g, plate, d);
    }
  }

  // ------------------------------------------------------------------- over a run

  /** The first step after which the day is not held. */
  lemma {:induction false} FirstWithout(dbs: seq<Db>, a: nat, b: nat, g: GarageId, plate: string, d: Day, p: PassId)
    returns (k: nat)
    requires a <= b < |dbs| && HeldBy(dbs[a].rows, g, plate, d, p) && !HeldBy(dbs[b].rows, g, plate, d, p)
    ensures a <= k < b && HeldBy(dbs[k].rows, g, plate, d, p) && !HeldBy(dbs[k + 1].rows, g, plate, d, p)
    decreases b - a
  {
    if HeldBy(dbs[a + 1].rows, g, plate, d, p) {
      k := FirstWithout(dbs, a + 1, b, g, plate, d, p);
    } else {
      k := a;
    }
  }

  lemma ThatStepGivesUp(dbs: seq<Db>, ops: seq<Op>, k: nat, g: GarageId, plate: string, d: Day, p: PassId)
    requires Run(dbs, ops) && k < |ops|
    requires HeldBy(dbs[k].rows, g, plate, d, p) && !HeldBy(dbs[k + 1].rows, g, plate, d, p)
    ensures PassesKnown(dbs[k].passes, dbs[k].rows) && GivesUp(dbs[k], ops[k], dbs[k + 1], g, plate, d, p)
  {
    StepOf(dbs, ops, k);
    ADayIsLostIff(dbs[k], ops[k], dbs[k + 1], g, plate, d, p);
  }

  lemma BetweenIs(dbs: seq<Db>, ops: seq<Op>, a: nat, k: nat, b: nat, g: GarageId, plate: string, d: Day, p: PassId)
    requires a <= k < b < |dbs| && |dbs| == |ops| + 1 && PassesKnown(dbs[k].passes, dbs[k].rows)
    requires GivesUp(dbs[k], ops[k], dbs[k + 1], g, plate, d, p)
    ensures GivenUpBetween(dbs, ops, a, b, g, plate, d, p)
  {
  }

  lemma SomeStepGivesUp(dbs: seq<Db>, ops: seq<Op>, a: nat, b: nat, g: GarageId, plate: string, d: Day, p: PassId)
    requires Run(dbs, ops) && a <= b < |dbs|
    requires HeldBy(dbs[a].rows, g, plate, d, p) && !HeldBy(dbs[b].rows, g, plate, d, p)
    ensures GivenUpBetween(dbs, ops, a, b, g, plate, d, p)
  {
    var k := FirstWithout(dbs, a, b, g, plate, d, p);
    ThatStepGivesUp(dbs, ops, k, g, plate, d, p);
    BetweenIs(dbs, ops, a, k, b, g, plate, d, p);
  }

  /** OVER A RUN a pass that held a day has been without it since exactly when some step in
      between took it. */
  lemma LostInARunIff(dbs: seq<Db>, ops: seq<Op>, a: nat, b: nat, g: GarageId, plate: string, d: Day, p: PassId)
    requires Run(dbs, ops) && a <= b < |dbs| && HeldBy(dbs[a].rows, g, plate, d, p)
    ensures (exists c :: a <= c <= b && !HeldBy(dbs[c].rows, g, plate, d, p)) <==> GivenUpBetween(dbs, ops, a, b, g, plate, d, p)
  {
    if c :| a <= c <= b && !HeldBy(dbs[c].rows, g, plate, d, p) {
      SomeStepGivesUp(dbs, ops, a, c, g, plate, d, p);
    }
    if k: nat :| a <= k < b && PassesKnown(dbs[k].passes, dbs[k].rows) && GivesUp(dbs[k], ops[k], dbs[k + 1], g, plate, d, p) {
      EveryRunKeepsTheRegister(dbs, ops, k);
      var i: nat :| Holds(dbs[k].rows, i, g, plate, d) && dbs[k].rows[i].pass == p && Takes(dbs[k], ops[k], dbs[k + 1], i, d);
      HeldByRow(dbs[k].rows, i, g, plate, d, p);
      ADayIsLostIff(dbs[k], ops[k], dbs[k + 1], g, plate, d, p);
    }
  }

  /** Some step between the two states took the day from the pass. */
  ghost predicate GivenUpBetween(dbs: seq<Db>, ops: seq<Op>, a: nat, b: nat, g: GarageId, plate: string, d: Day, p: PassId)
    requires a <= b < |dbs| && |dbs| == |ops| + 1
  {
    exists k: nat :: a <= k < b && PassesKnown(dbs[k].passes, dbs[k].rows)
      && GivesUp(dbs[k], ops[k], dbs[k + 1], g, plate, d, p)
  }
}
