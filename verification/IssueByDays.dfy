/** What issuing a QR makes of the register, told in days: what its pass holds afterwards,
    exactly, and what is left of every other row. */
module IssueByDays {
  import opened Basics
  import opened States
  import opened Sets
  import opened Register
  import opened RegisterProofs
  import opened Stay
  import opened HoldStay
  import opened Runs
  import opened GivenUp
  import opened RegisterByDays

  // ------------------------------------------------------------- what the pass gains

  /** The pass's own rows stand, or run on to the end of the stay from inside it; what is new
      is its own, of the plate, at its garages and inside the stay; and other plates and
      garages are not touched. */
  ghost predicate AddsInside(rows: seq<Row>, out: seq<Row>, p: PassId, plate: string, garages: seq<GarageId>, from: Day,
                             end: Day)
  {
    && |rows| <= |out|
    && (forall i :: 0 <= i < |rows| && rows[i].pass == p ==> out[i] == rows[i] || RunOnInside(rows[i], out[i], plate, garages, from, end))
    && (forall i :: |rows| <= i < |out| ==> NewInside(out[i], p, plate, garages, from, end))
    && forall i :: 0 <= i < |rows| && (rows[i].plate != plate || rows[i].garage !in garages) ==> out[i] == rows[i]
  }

  ghost predicate RunOnInside(r: Row, s: Row, plate: string, garages: seq<GarageId>, from: Day, end: Day) {
    && r.plate == plate && r.garage in garages && s == r.(end := Some(end))
    && r.end.Some? && from <= r.end.value <= end
  }

  ghost predicate NewInside(r: Row, p: PassId, plate: string, garages: seq<GarageId>, from: Day, end: Day) {
    r.pass == p && r.plate == plate && r.garage in garages && from <= r.from && r.end.Some? && r.end.value <= end
  }

  lemma AddsTwice(a: seq<Row>, b: seq<Row>, c: seq<Row>, p: PassId, plate: string, garages: seq<GarageId>, from: Day, later: Day,
                  end: Day)
    requires AddsInside(a, b, p, plate, garages, from, end) && AddsInside(b, c, p, plate, garages, later, end) && from <= later
    ensures AddsInside(a, c, p, plate, garages, from, end)
  {
    forall i | 0 <= i < |a| && a[i].pass == p
      ensures c[i] == a[i] || RunOnInside(a[i], c[i], plate, garages, from, end)
    {
      assert b[i] == a[i] || RunOnInside(a[i], b[i], plate, garages, from, end);
      assert c[i] == b[i] || RunOnInside(b[i], c[i], plate, garages, later, end);
    }
    forall i | |a| <= i < |c| ensures NewInside(c[i], p, plate, garages, from, end) {
      if i < |b| {
        assert NewInside(b[i], p, plate, garages, from, end);
        assert c[i] == b[i] || RunOnInside(b[i], c[i], plate, garages, later, end);
      }
    }
  }

  lemma RegisteringAdds(passes: map<PassId, PassRow>, unreadable: set<GarageId>, rows: seq<Row>, at: GarageId, p: PassId,
                        plate: string, first: Day, stop: Day, end: Day)
    requires Good(passes, rows) && PassesKnown(passes, rows) && stop <= end
    requires RegisterRefusal(passes, unreadable, rows, at, p, plate, first, Some(stop)).None?
    ensures AddsInside(rows, Registered(passes, rows, p, plate, first, Some(stop), AfterLastDay), p, plate, passes[p].garages,
                       first, end)
  {
    RefusedByDays(passes, unreadable, rows, at, p, plate, first, Some(stop));
    WrittenByDays(passes, rows, p, plate, first, Some(stop), AfterLastDay);
    var out := Registered(passes, rows, p, plate, first, Some(stop), AfterLastDay);
    forall i | |rows| <= i < |out| ensures NewInside(out[i], p, plate, passes[p].garages, first, end) {
      assert out[|rows| + (i - |rows|)] == Row(passes[p].garages[i - |rows|], p, plate, first, Some(stop), Some(AfterLastDay));
    }
  }

  lemma FillAdds(passes: map<PassId, PassRow>, unreadable: set<GarageId>, rows: seq<Row>, held: seq<Held>, garages: nat,
                 at: GarageId, p: PassId, plate: string, gap: Span, end: Day)
    requires Good(passes, rows) && p in passes && PassesKnown(passes, rows) && HeldStill(passes, rows, p, plate, garages, held)
    requires gap.first < gap.stop <= end
    ensures var one := Fill(passes, unreadable, rows, held, garages, at, p, plate, gap, end);
            one.Filled? ==> AddsInside(rows, one.rows, p, plate, passes[p].garages, gap.first, end)
  {
    var ending := EndingOn(held, gap.first);
    if RunsOn(garages, ending, gap.stop, end)
       && forall i :: 0 <= i < |rows| ==> !Stands(passes, p, plate, gap.first, end, rows[i]) {
      forall i | i in Ids(ending)
        ensures i < |rows| && rows[i].pass == p && rows[i].plate == plate && rows[i].garage in passes[p].garages
      {
        var k :| 0 <= k < |ending| && ending[k].id == i;
        assert ending[k] in held;
      }
    } else if RegisterRefusal(passes, unreadable, rows, at, p, plate, gap.first, Some(gap.stop)).None? {
      RegisteringAdds(passes, unreadable, rows, at, p, plate, gap.first, gap.stop, end);
    }
  }

  lemma {:induction false} FillAllAdds(passes: map<PassId, PassRow>, unreadable: set<GarageId>, rows: seq<Row>, held: seq<Held>,
                                       garages: nat, at: GarageId, p: PassId, plate: string, spans: seq<Span>, from: Day, end: Day)
    requires Good(passes, rows) && p in passes && PassesKnown(passes, rows)
    requires HeldStill(passes, rows, p, plate, garages, held)
    requires Partition(HeldDays(garages, RowsOf(held)), from, end, spans)
    ensures var all := FillAll(passes, unreadable, rows, held, garages, at, p, plate, spans, end);
            all.Filled? ==> AddsInside(rows, all.rows, p, plate, passes[p].garages, from, end)
    decreases |spans|
  {
    Rest(HeldDays(garages, RowsOf(held)), from, end, spans);
    assert |spans| == 1 ==> spans[1..] == [];
    if spans[0].held {
      if |spans| > 1 {
        FillAllAdds(passes, unreadable, rows, held, garages, at, p, plate, spans[1..], spans[0].stop, end);
      }
    } else {
      FillAdds(passes, unreadable, rows, held, garages, at, p, plate, spans[0], end);
      FillHolds(passes, unreadable, rows, held, garages, at, p, plate, spans[0], end);
      FillKeepsPasses(passes, unreadable, rows, held, garages, at, p, plate, spans[0], end);
      var one := Fill(passes, unreadable, rows, held, garages, at, p, plate, spans[0], end);
      if one.Filled? && |spans| > 1 {
        FillAllAdds(passes, unreadable, one.rows, held, garages, at, p, plate, spans[1..], spans[0].stop, end);
        var all := FillAll(passes, unreadable, one.rows, held, garages, at, p, plate, spans[1..], end);
        if all.Filled? {
          AddsTwice(rows, one.rows, all.rows, p, plate, passes[p].garages, from, spans[0].stop, end);
        }
      }
    }
  }

  // ----------------------------------------------------------------- in one reading

  /** How an issue that was made read the stay, and filled it. */
  lemma HowItWasFilled(db: Db, out: Db, at: GarageId, p: PassId, plate: string, from: Day, days: int, answer: IssueAnswer)
    returns (end: Day, garages: nat, held: seq<Held>, spans: seq<Span>)
    requires GoodDb(db) && PassesKnown(db.passes, db.rows)
    requires IssueStep(db, out, at, p, plate, from, Some(days), answer) && answer.Made?
    ensures p in db.passes && from < end && answer == Made(end) && out == db.(rows := out.rows)
    ensures HeldRead(db.passes, db.rows, p, plate, from, end, garages, held)
    ensures Partition(HeldDays(garages, RowsOf(held)), from, end, spans)
    ensures FillAll(db.passes, db.unreadable, db.rows, held, garages, at, p, plate, spans, end) == Filled(out.rows)
    ensures end == if db.passes[p].validTo.Some? && db.passes[p].validTo.value + 1 < from + days
                   then db.passes[p].validTo.value + 1 else from + days
  {
    StayIsNotEmpty(db.passes, db.unreadable, at, p, plate, from, Some(days));
    end := StayEnd(db.passes[p], from, days);
    var filled :| StayWritten(db.passes, db.unreadable, db.rows, at, p, plate, from, end, filled)
      && out == db.(rows := if filled.Filled? then filled.rows else db.rows)
      && answer == if filled.Filled? then Made(end) else NotMade(Hold(filled.refusal));
    garages, held, spans :|
      && HeldRead(db.passes, db.rows, p, plate, from, end, garages, held)
      && Partition(HeldDays(garages, RowsOf(held)), from, end, spans)
      && filled == FillAll(db.passes, db.unreadable, db.rows, held, garages, at, p, plate, spans, end);
  }

  /** The days of a QR: as many as stated, from its first, and none past its pass's last. */
  ghost predicate OfTheQr(pass: PassRow, from: Day, days: int, d: Day) {
    from <= d < from + days && (pass.validTo.Some? ==> d <= pass.validTo.value)
  }

  /** WHAT A QR'S PASS HOLDS OF THE PLATE after the issue, at each garage it names: the days of
      the QR, and what it held before; not a day less and not a day more. It ends the day after
      its last; and an issue that is not made leaves everything as it was. */
  lemma IssuedByDays(db: Db, out: Db, at: GarageId, p: PassId, plate: string, from: Day, days: int, answer: IssueAnswer,
                     g: GarageId, d: Day)
    requires GoodDb(db) && PassesKnown(db.passes, db.rows) && IssueStep(db, out, at, p, plate, from, Some(days), answer)
    ensures answer.NotMade? ==> out == db
    ensures answer.Made? ==>
              && p in db.passes && OfTheQr(db.passes[p], from, days, answer.end - 1)
              && !OfTheQr(db.passes[p], from, days, answer.end)
              && (g in db.passes[p].garages ==>
                    (Has(out.rows, g, plate, d, p) <==> Has(db.rows, g, plate, d, p) || OfTheQr(db.passes[p], from, days, d)))
  {
    if answer.Made? {
      var end := AddedByDays(db, out, at, p, plate, from, days, answer);
      if g in db.passes[p].garages {
        HasIsHeldBy(out.rows, g, plate, d, p);
        HasIsHeldBy(db.rows, g, plate, d, p);
        if Has(db.rows, g, plate, d, p) {
          GrowsHeldBy(db.rows, out.rows, g, plate, d, p);
        }
        if Has(out.rows, g, plate, d, p) && (d < from || end <= d) {
          NothingOutside(db.rows, out.rows, p, plate, db.passes[p].garages, from, end, g, d);
        }
      }
    }
  }

  lemma AddedByDays(db: Db, out: Db, at: GarageId, p: PassId, plate: string, from: Day, days: int, answer: IssueAnswer)
    returns (end: Day)
    requires GoodDb(db) && PassesKnown(db.passes, db.rows)
    requires IssueStep(db, out, at, p, plate, from, Some(days), answer) && answer.Made?
    ensures p in db.passes && answer == Made(end) && from < end
    ensures end == if db.passes[p].validTo.Some? && db.passes[p].validTo.value + 1 < from + days
                   then db.passes[p].validTo.value + 1 else from + days
    ensures AddsInside(db.rows, out.rows, p, plate, db.passes[p].garages, from, end) && Grows(db.rows, out.rows, p)
    ensures HeldThrough(db.passes, out.rows, p, plate, from, end)
    ensures forall i :: 0 <= i < |db.rows| ==> out.rows[i].pass == db.rows[i].pass
  {
    var garages, held, spans;
    end, garages, held, spans := HowItWasFilled(db, out, at, p, plate, from, days, answer);
    FillAllAdds(db.passes, db.unreadable, db.rows, held, garages, at, p, plate, spans, from, end);
    FillAllHolds(db.passes, db.unreadable, db.rows, held, garages, at, p, plate, spans, from, end);
    IssuingMoves(db, out, at, p, plate, from, Some(days), answer);
  }

  lemma NothingOutside(rows: seq<Row>, out: seq<Row>, p: PassId, plate: string, garages: seq<GarageId>, from: Day, end: Day,
                       g: GarageId, d: Day)
    requires AddsInside(rows, out, p, plate, garages, from, end) && (d < from || end <= d) && Has(out, g, plate, d, p)
    requires forall i :: 0 <= i < |rows| ==> out[i].pass == rows[i].pass
    ensures Has(rows, g, plate, d, p)
  {
    var i :| 0 <= i < |out| && out[i].garage == g && out[i].plate == plate && out[i].pass == p && On(out[i], d);
    if i < |rows| {
      assert out[i] == rows[i] || RunOnInside(rows[i], out[i], plate, garages, from, end);
      assert On(rows[i], d);
    }
  }

  /** So on a plate its pass did not hold there, the QR reads live exactly on its own days. */
  lemma LiveOnItsOwnDays(db: Db, out: Db, at: GarageId, p: PassId, plate: string, from: Day, days: int, answer: IssueAnswer,
                         g: GarageId, d: Day)
    requires GoodDb(db) && PassesKnown(db.passes, db.rows)
    requires IssueStep(db, out, at, p, plate, from, Some(days), answer) && answer.Made?
    requires p in db.passes && g in db.passes[p].garages && !Has(db.rows, g, plate, d, p)
    ensures StayOf(out.rows, g, p, plate, d) == Live <==>
              from <= d < from + days && (db.passes[p].validTo.Some? ==> d <= db.passes[p].validTo.value)
  {
    IssuedByDays(db, out, at, p, plate, from, days, answer, g, d);
    HasIsHeldBy(out.rows, g, plate, d, p);
    LiveIffHeld(out.rows, g, p, plate, d);
  }

  // -------------------------------------------------------- what is left of the others

  /** What one gap of the stay makes of a row of another pass. */
  ghost predicate MadeRoom(passes: map<PassId, PassRow>, p: PassId, day: Day, r: Row, s: Row)
    requires r.pass in passes
  {
    || (OnItsLastDay(passes, p, day, r) && s == r.(end := Some(day), why := Some(ByNextStay)))
    || (RunOut(passes, day, r)
        && s == r.(end := Some(if r.from <= passes[r.pass].validTo.value then passes[r.pass].validTo.value + 1 else r.from),
                   why := Some(ByExpiry)))
  }

  lemma {:induction false} SettledByDays(passes: map<PassId, PassRow>, p: PassId, plate: string, spans: seq<Span>, r: Row,
                                         held: Day -> bool, from: Day, end: Day)
    requires p in passes && r.pass in passes && r.pass != p && Partition(held, from, end, spans)
    requires r.end.Some? ==> r.from <= r.end.value
    ensures SettledBy(passes, p, plate, spans, r) != r ==>
              InTheWay(passes[p].garages, plate, from, Some(end), r)
              && exists day :: from <= day < end && MadeRoom(passes, p, day, r, SettledBy(passes, p, plate, spans, r))
    decreases |spans|
  {
    Rest(held, from, end, spans);
    var gap := spans[0];
    var settled := if gap.held then r else Settled(passes, p, plate, gap.first, Some(gap.stop), r);
    assert |spans| == 1 ==> spans[1..] == [] && SettledBy(passes, p, plate, spans[1..], settled) == settled;
    assert SettledBy(passes, p, plate, spans, r) == SettledBy(passes, p, plate, spans[1..], settled);
    if settled != r {
      OneGapSettles(passes, p, plate, gap, r, end);
      if |spans| > 1 {
        NothingMore(passes, p, plate, spans[1..], settled, held, gap.stop, end);
      }
    } else if |spans| > 1 {
      SettledByDays(passes, p, plate, spans[1..], r, held, gap.stop, end);
      var rest := SettledBy(passes, p, plate, spans[1..], r);
      if rest != r {
        var d: Day :| On(r, d) && gap.stop <= d && d < end;
      }
    }
  }

  lemma OneGapSettles(passes: map<PassId, PassRow>, p: PassId, plate: string, gap: Span, r: Row, end: Day)
    requires p in passes && r.pass in passes && r.pass != p && gap.first < gap.stop <= end
    requires r.end.Some? ==> r.from <= r.end.value
    requires Settled(passes, p, plate, gap.first, Some(gap.stop), r) != r
    ensures var s := Settled(passes, p, plate, gap.first, Some(gap.stop), r);
            && InTheWay(passes[p].garages, plate, gap.first, Some(end), r) && MadeRoom(passes, p, gap.first, r, s)
            && s.end.Some? && s.end.value <= gap.stop && s.pass == r.pass
  {
    JudgedByDays(passes, p, plate, gap.first, Some(gap.stop), r);
    var d: Day :| On(r, d) && gap.first <= d && d < gap.stop;
    assert On(r, d) && d < end;
  }

  /** WHAT AN ISSUE LEAVES OF ANOTHER PASS'S ROW: everything, unless it is of the plate, at a
      garage of the pass, and shares a day with the QR's; then it had come to its last day, or
      its pass had run out, by some day of the QR, and it ends there. */
  lemma OthersByDays(db: Db, out: Db, at: GarageId, p: PassId, plate: string, from: Day, days: int, answer: IssueAnswer, i: nat)
    requires GoodDb(db) && PassesKnown(db.passes, db.rows)
    requires IssueStep(db, out, at, p, plate, from, Some(days), answer) && answer.Made?
    requires i < |db.rows| && db.rows[i].pass != p
    ensures p in db.passes && i < |out.rows|
    ensures if InTheWay(db.passes[p].garages, plate, from, Some(answer.end), db.rows[i]) then
              exists day :: from <= day < answer.end && MadeRoom(db.passes, p, day, db.rows[i], out.rows[i])
            else out.rows[i] == db.rows[i]
  {
    var end, garages, held, spans := HowItWasFilled(db, out, at, p, plate, from, days, answer);
    var r := db.rows[i];
    assert RowOk(db.passes, r);
    FillAllSettles(db.passes, db.unreadable, db.rows, held, garages, at, p, plate, spans, from, end, i);
    SettledByDays(db.passes, p, plate, spans, r, HeldDays(garages, RowsOf(held)), from, end);
    if InTheWay(db.passes[p].garages, plate, from, Some(end), r) && out.rows[i] == r {
      var d: Day :| On(r, d) && from <= d && d < end;
      IssuedByDays(db, out, at, p, plate, from, days, answer, r.garage, d);
      IssuingKeepsGood(db, out, at, p, plate, from, Some(days), answer);
      HasIsHeldBy(out.rows, r.garage, plate, d, p);
      assert Holds(out.rows, i, r.garage, plate, d);
      OnePassADay(out.passes, out.rows, r.garage, plate, d, p, r.pass);
    }
  }

  /** And of the pass's own: a row stands, or runs on to the QR's end from inside its days. */
  lemma OwnByDays(db: Db, out: Db, at: GarageId, p: PassId, plate: string, from: Day, days: int, answer: IssueAnswer, i: nat)
    requires GoodDb(db) && PassesKnown(db.passes, db.rows)
    requires IssueStep(db, out, at, p, plate, from, Some(days), answer) && answer.Made? && i < |out.rows|
    ensures p in db.passes
    ensures i < |db.rows| && db.rows[i].pass == p ==>
              out.rows[i] == db.rows[i] || RunOnInside(db.rows[i], out.rows[i], plate, db.passes[p].garages, from, answer.end)
    ensures i >= |db.rows| ==> NewInside(out.rows[i], p, plate, db.passes[p].garages, from, answer.end)
  {
    var end, garages, held, spans := HowItWasFilled(db, out, at, p, plate, from, days, answer);
    FillAllAdds(db.passes, db.unreadable, db.rows, held, garages, at, p, plate, spans, from, end);
  }

  // ------------------------------------------------------------------ when it is made

  /** WHAT REFUSES AN ISSUE before its days are looked at, in order. */
  lemma RefusedBeforeByDays(passes: map<PassId, PassRow>, unreadable: set<GarageId>, at: GarageId, p: PassId, plate: string,
                            startsOn: Day, days: Option<int>)
    ensures IssueRefusalBefore(passes, unreadable, at, p, plate, startsOn, days)
            == if plate == "" then Some(IssueRefusal.PlateNotStated)
               else if days.None? then Some(DaysNotStated)
               else if days.value < 1 then Some(DaysNotPositive)
               else if at in unreadable then Some(OnPass(GarageUnreadable))
               else if p !in passes || at !in passes[p].garages then Some(OnPass(PassNotFound))
               else if passes[p].state in {Suspended, Revoked} then Some(OnPass(PassNotRegistrable))
               else if !passes[p].readable then Some(OnPass(PassUnreadable))
               else if passes[p].validTo.Some? && passes[p].validTo.value < startsOn then Some(OnPass(PassNotRegistrable))
               else None
  {
  }

  /** Every row in the way of the days is on its stay's last day as they begin, or its pass
      has run out by then. */
  ghost predicate Free(passes: map<PassId, PassRow>, rows: seq<Row>, p: PassId, plate: string, first: Day, stop: Day)
    requires p in passes && PassesKnown(passes, rows)
  {
    forall i :: 0 <= i < |rows| && InTheWay(passes[p].garages, plate, first, Some(stop), rows[i]) ==>
      OnItsLastDay(passes, p, first, rows[i]) || RunOut(passes, first, rows[i])
  }

  ghost predicate GapsFree(passes: map<PassId, PassRow>, rows: seq<Row>, p: PassId, plate: string, spans: seq<Span>)
    requires p in passes && PassesKnown(passes, rows)
  {
    forall k :: 0 <= k < |spans| && !spans[k].held ==> Free(passes, rows, p, plate, spans[k].first, spans[k].stop)
  }

  /** A pass that takes registrations, at this garage, on all of these days. */
  ghost predicate Takes(passes: map<PassId, PassRow>, unreadable: set<GarageId>, at: GarageId, p: PassId, plate: string, end: Day) {
    && plate != "" && at !in unreadable && p in passes && at in passes[p].garages
    && Registrable(passes[p].state) && passes[p].readable && (passes[p].validTo.Some? ==> end <= passes[p].validTo.value + 1)
  }

  lemma FilledIfFree(passes: map<PassId, PassRow>, unreadable: set<GarageId>, rows: seq<Row>, held: seq<Held>, garages: nat,
                     at: GarageId, p: PassId, plate: string, gap: Span, end: Day)
    requires Good(passes, rows) && PassesKnown(passes, rows) && Takes(passes, unreadable, at, p, plate, end)
    requires HeldStill(passes, rows, p, plate, garages, held) && gap.first < gap.stop <= end
    ensures Fill(passes, unreadable, rows, held, garages, at, p, plate, gap, end).Filled? <==>
              Free(passes, rows, p, plate, gap.first, gap.stop)
  {
    RefusedByDays(passes, unreadable, rows, at, p, plate, gap.first, Some(gap.stop));
    FillHolds(passes, unreadable, rows, held, garages, at, p, plate, gap, end);
    if gap.stop == end && forall i :: 0 <= i < |rows| ==> !Stands(passes, p, plate, gap.first, end, rows[i]) {
      forall i | 0 <= i < |rows| ensures !InTheWay(passes[p].garages, plate, gap.first, Some(end), rows[i]) {
        JudgedByDays(passes, p, plate, gap.first, Some(end), rows[i]);
      }
    }
  }

  /** What an earlier gap did is never in the way of a later one, nor makes room for it. */
  lemma LaterAlike(passes: map<PassId, PassRow>, rows: seq<Row>, p: PassId, plate: string, gap: Span, later: Span)
    requires Good(passes, rows) && p in passes && PassesKnown(passes, rows)
    requires gap.first < gap.stop <= later.first < later.stop && Free(passes, rows, p, plate, gap.first, gap.stop)
    ensures var out := Registered(passes, rows, p, plate, gap.first, Some(gap.stop), AfterLastDay);
            PassesKnown(passes, out)
            && (Free(passes, out, p, plate, later.first, later.stop) <==> Free(passes, rows, p, plate, later.first, later.stop))
  {
    var out := Registered(passes, rows, p, plate, gap.first, Some(gap.stop), AfterLastDay);
    WrittenByDays(passes, rows, p, plate, gap.first, Some(gap.stop), AfterLastDay);
    forall i | |rows| <= i < |out|
      ensures out[i].pass == p && !InTheWay(passes[p].garages, plate, later.first, Some(later.stop), out[i])
    {
      assert out[|rows| + (i - |rows|)] == Row(passes[p].garages[i - |rows|], p, plate, gap.first, Some(gap.stop), Some(AfterLastDay));
    }
    forall i | 0 <= i < |rows|
      ensures out[i].pass == rows[i].pass
      ensures InTheWayStill(passes, p, plate, later, out[i]) <==> InTheWayStill(passes, p, plate, later, rows[i])
    {
      RowAlike(passes, p, plate, gap, later, rows[i], out[i]);
    }
    assert forall i :: 0 <= i < |out| ==> !InTheWayStill(passes, p, plate, later, out[i]) || i < |rows|;
    FreeIs(passes, out, p, plate, later);
    FreeIs(passes, rows, p, plate, later);
  }

  ghost predicate InTheWayStill(passes: map<PassId, PassRow>, p: PassId, plate: string, gap: Span, r: Row)
    requires p in passes && r.pass in passes
  {
    && InTheWay(passes[p].garages, plate, gap.first, Some(gap.stop), r)
    && !OnItsLastDay(passes, p, gap.first, r) && !RunOut(passes, gap.first, r)
  }

  lemma FreeIs(passes: map<PassId, PassRow>, rows: seq<Row>, p: PassId, plate: string, gap: Span)
    requires p in passes && PassesKnown(passes, rows)
    ensures Free(passes, rows, p, plate, gap.first, gap.stop) <==>
              forall i :: 0 <= i < |rows| ==> !InTheWayStill(passes, p, plate, gap, rows[i])
  {
  }

  lemma RowAlike(passes: map<PassId, PassRow>, p: PassId, plate: string, gap: Span, later: Span, r: Row, s: Row)
    requires p in passes && RowOk(passes, r) && gap.first < gap.stop <= later.first < later.stop
    requires !InTheWayStill(passes, p, plate, gap, r)
    requires s == r || (InTheWay(passes[p].garages, plate, gap.first, Some(gap.stop), r) && MadeRoom(passes, p, gap.first, r, s))
    ensures s.pass == r.pass
    ensures InTheWayStill(passes, p, plate, later, s) <==> InTheWayStill(passes, p, plate, later, r)
  {
  }

  lemma {:induction false} FillAllIfFree(passes: map<PassId, PassRow>, unreadable: set<GarageId>, rows: seq<Row>, held: seq<Held>,
                                         garages: nat, at: GarageId, p: PassId, plate: string, spans: seq<Span>, from: Day,
                                         end: Day)
    requires Good(passes, rows) && PassesKnown(passes, rows) && Takes(passes, unreadable, at, p, plate, end)
    requires HeldStill(passes, rows, p, plate, garages, held)
    requires Partition(HeldDays(garages, RowsOf(held)), from, end, spans)
    ensures FillAll(passes, unreadable, rows, held, garages, at, p, plate, spans, end).Filled? <==>
              GapsFree(passes, rows, p, plate, spans)
    decreases |spans|
  {
    Rest(HeldDays(garages, RowsOf(held)), from, end, spans);
    assert |spans| == 1 ==> spans[1..] == [];
    FirstGapThenRest(passes, rows, p, plate, spans);
    if spans[0].held {
      if |spans| > 1 {
        FillAllIfFree(passes, unreadable, rows, held, garages, at, p, plate, spans[1..], spans[0].stop, end);
      }
    } else {
      FilledIfFree(passes, unreadable, rows, held, garages, at, p, plate, spans[0], end);
      var one := Fill(passes, unreadable, rows, held, garages, at, p, plate, spans[0], end);
      if one.Filled? && |spans| > 1 {
        FillHolds(passes, unreadable, rows, held, garages, at, p, plate, spans[0], end);
        FillKeepsPasses(passes, unreadable, rows, held, garages, at, p, plate, spans[0], end);
        FillAllIfFree(passes, unreadable, one.rows, held, garages, at, p, plate, spans[1..], spans[0].stop, end);
        LaterGapsAlike(passes, rows, p, plate, spans, HeldDays(garages, RowsOf(held)), from, end);
      }
    }
  }

  lemma FirstGapThenRest(passes: map<PassId, PassRow>, rows: seq<Row>, p: PassId, plate: string, spans: seq<Span>)
    requires p in passes && PassesKnown(passes, rows) && spans != []
    ensures GapsFree(passes, rows, p, plate, spans) <==>
              (spans[0].held || Free(passes, rows, p, plate, spans[0].first, spans[0].stop))
              && GapsFree(passes, rows, p, plate, spans[1..])
  {
    assert forall k :: 0 <= k < |spans| - 1 ==> spans[1..][k] == spans[k + 1];
  }

  lemma LaterGapsAlike(passes: map<PassId, PassRow>, rows: seq<Row>, p: PassId, plate: string, spans: seq<Span>, held: Day -> bool,
                       from: Day, end: Day)
    requires Good(passes, rows) && p in passes && PassesKnown(passes, rows) && Partition(held, from, end, spans) && |spans| > 1
    requires Free(passes, rows, p, plate, spans[0].first, spans[0].stop)
    ensures var out := Registered(passes, rows, p, plate, spans[0].first, Some(spans[0].stop), AfterLastDay);
            PassesKnown(passes, out)
            && (GapsFree(passes, out, p, plate, spans[1..]) <==> GapsFree(passes, rows, p, plate, spans[1..]))
  {
    Rest(held, from, end, spans);
    var out := Registered(passes, rows, p, plate, spans[0].first, Some(spans[0].stop), AfterLastDay);
    LaterAlike(passes, rows, p, plate, spans[0], Span(spans[0].stop, spans[0].stop + 1, false));
    forall k | 0 <= k < |spans[1..]|
      ensures Free(passes, out, p, plate, spans[1..][k].first, spans[1..][k].stop)
              <==> Free(passes, rows, p, plate, spans[1..][k].first, spans[1..][k].stop)
    {
      GapsBeginLater(held, spans[0].stop, end, spans[1..], k);
      LaterAlike(passes, rows, p, plate, spans[0], spans[1..][k]);
    }
  }

  /** The pass holds the plate on the day at every garage it names. */
  ghost predicate HasEverywhere(passes: map<PassId, PassRow>, rows: seq<Row>, p: PassId, plate: string, d: Day)
    requires p in passes
  {
    forall g :: g in passes[p].garages ==> Has(rows, g, plate, d, p)
  }

  /** The counting of garages finds exactly the days held everywhere. */
  lemma CountedIsHeld(passes: map<PassId, PassRow>, rows: seq<Row>, p: PassId, plate: string, from: Day, end: Day, garages: nat,
                      held: seq<Held>, d: Day)
    requires PassesOk(passes) && p in passes && HeldRead(passes, rows, p, plate, from, end, garages, held) && from <= d < end
    ensures HeldOn(garages, RowsOf(held), d) <==> HasEverywhere(passes, rows, p, plate, d)
  {
    if HeldOn(garages, RowsOf(held), d) {
      HeldDayIsHeld(passes, rows, held, garages, p, plate, d);
      forall g | g in passes[p].garages ensures Has(rows, g, plate, d, p) {
        HasIsHeldBy(rows, g, plate, d, p);
      }
    }
    if HasEverywhere(passes, rows, p, plate, d) {
      EverywhereIsCounted(passes, rows, p, plate, from, end, garages, held, d);
    }
  }

  lemma EverywhereIsCounted(passes: map<PassId, PassRow>, rows: seq<Row>, p: PassId, plate: string, from: Day, end: Day,
                            garages: nat, held: seq<Held>, d: Day)
    requires PassesOk(passes) && p in passes && HeldRead(passes, rows, p, plate, from, end, garages, held) && from <= d < end
    requires HasEverywhere(passes, rows, p, plate, d)
    ensures HeldOn(garages, RowsOf(held), d)
  {
    var covering := CoveringGarages(RowsOf(held), d);
    forall g | g in passes[p].garages ensures g in covering {
      CoveredThere(passes, rows, p, plate, from, end, garages, held, d, g);
    }
    assert passes[p].garages[0] in covering && held != [];
    forall g | g in covering ensures g in passes[p].garages {
      var k :| 0 <= k < |RowsOf(held)| && Covers(RowsOf(held)[k], d) && RowsOf(held)[k].garage == g;
      assert HeldNow(passes, rows, p, plate, held[k]);
    }
    assert covering == Of(passes[p].garages);
    DistinctCount(passes[p].garages);
  }

  lemma CoveredThere(passes: map<PassId, PassRow>, rows: seq<Row>, p: PassId, plate: string, from: Day, end: Day, garages: nat,
                     held: seq<Held>, d: Day, g: GarageId)
    requires p in passes && HeldRead(passes, rows, p, plate, from, end, garages, held) && from <= d < end
    requires g in passes[p].garages && Has(rows, g, plate, d, p)
    ensures g in CoveringGarages(RowsOf(held), d)
  {
    var i :| 0 <= i < |rows| && rows[i].garage == g && rows[i].plate == plate && rows[i].pass == p && On(rows[i], d);
    OnIsCovers(rows[i], d);
    OverlapsIffADayIsShared(rows[i], from, Some(end));
    assert OwnHold(passes, p, plate, from, end, rows[i]);
    var k :| 0 <= k < |held| && held[k] == Held(i, rows[i]);
    assert RowsOf(held)[k] == rows[i];
  }

  /** WHEN AN ISSUE IS MADE: exactly when nothing refuses it before, and each gap is free
      among the days of the stay that the pass already holds at every garage. */
  lemma MadeIffFree(db: Db, out: Db, at: GarageId, p: PassId, plate: string, from: Day, days: Option<int>, answer: IssueAnswer)
    returns (garages: nat, held: seq<Held>, spans: seq<Span>)
    requires GoodDb(db) && PassesKnown(db.passes, db.rows) && IssueStep(db, out, at, p, plate, from, days, answer)
    ensures var no := IssueRefusalBefore(db.passes, db.unreadable, at, p, plate, from, days);
            if no.Some? then answer == NotMade(no.value)
            else
              && HeldRead(db.passes, db.rows, p, plate, from, StayEnd(db.passes[p], from, days.value), garages, held)
              && Partition(HeldDays(garages, RowsOf(held)), from, StayEnd(db.passes[p], from, days.value), spans)
              && (answer.Made? <==> GapsFree(db.passes, db.rows, p, plate, spans))
              && forall k, d :: 0 <= k < |spans| && spans[k].first <= d < spans[k].stop ==>
                   (spans[k].held <==> HasEverywhere(db.passes, db.rows, p, plate, d))
  {
    garages, held, spans := 0, [], [];
    if IssueRefusalBefore(db.passes, db.unreadable, at, p, plate, from, days).None? {
      StayIsNotEmpty(db.passes, db.unreadable, at, p, plate, from, days);
      var end := StayEnd(db.passes[p], from, days.value);
      var filled :| StayWritten(db.passes, db.unreadable, db.rows, at, p, plate, from, end, filled)
        && out == db.(rows := if filled.Filled? then filled.rows else db.rows)
        && answer == if filled.Filled? then Made(end) else NotMade(Hold(filled.refusal));
      garages, held, spans :|
        && HeldRead(db.passes, db.rows, p, plate, from, end, garages, held)
        && Partition(HeldDays(garages, RowsOf(held)), from, end, spans)
        && filled == FillAll(db.passes, db.unreadable, db.rows, held, garages, at, p, plate, spans, end);
      FillAllIfFree(db.passes, db.unreadable, db.rows, held, garages, at, p, plate, spans, from, end);
      SpansTell(db, p, plate, from, end, garages, held, spans);
    }
  }

  lemma SpansTell(db: Db, p: PassId, plate: string, from: Day, end: Day, garages: nat, held: seq<Held>, spans: seq<Span>)
    requires GoodDb(db) && p in db.passes && HeldRead(db.passes, db.rows, p, plate, from, end, garages, held)
    requires Partition(HeldDays(garages, RowsOf(held)), from, end, spans)
    ensures forall k, d :: 0 <= k < |spans| && spans[k].first <= d < spans[k].stop ==>
              (spans[k].held <==> HasEverywhere(db.passes, db.rows, p, plate, d))
  {
    forall k, d | 0 <= k < |spans| && spans[k].first <= d < spans[k].stop
      ensures spans[k].held <==> HasEverywhere(db.passes, db.rows, p, plate, d)
    {
      GapsBeginLater(HeldDays(garages, RowsOf(held)), from, end, spans, k);
      assert Tells(HeldDays(garages, RowsOf(held)), spans[k]) && HeldDays(garages, RowsOf(held))(d) == spans[k].held;
      CountedIsHeld(db.passes, db.rows, p, plate, from, end, garages, held, d);
    }
  }
}
