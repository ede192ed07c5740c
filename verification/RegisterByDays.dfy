/** What the register's operations do, told in days and in the fields of the rows alone. */
module RegisterByDays {
  import opened Basics
  import opened States
  import Text
  import opened Register
  import opened RegisterProofs
  import opened Runs

  /** The row is in force on the day: from its first to the one before its end. */
  ghost predicate On(r: Row, d: Day) {
    r.from <= d && (r.end.None? || d < r.end.value)
  }

  /** The pass holds the plate at the garage on the day. */
  ghost predicate Has(rows: seq<Row>, g: GarageId, plate: string, d: Day, p: PassId) {
    exists i :: 0 <= i < |rows| && rows[i].garage == g && rows[i].plate == plate && rows[i].pass == p && On(rows[i], d)
  }

  lemma OnIsCovers(r: Row, d: Day)
    ensures On(r, d) <==> Covers(r, d)
  {
  }

  lemma HasIsHeldBy(rows: seq<Row>, g: GarageId, plate: string, d: Day, p: PassId)
    ensures Has(rows, g, plate, d, p) <==> HeldBy(rows, g, plate, d, p)
  {
    if Has(rows, g, plate, d, p) {
      var i :| 0 <= i < |rows| && rows[i].garage == g && rows[i].plate == plate && rows[i].pass == p && On(rows[i], d);
      assert Holds(rows, i, g, plate, d);
    }
  }

  // --------------------------------------------------------------- registering

  /** A row of the plate, at a garage of the pass, that shares a day with the range. */
  ghost predicate InTheWay(garages: seq<GarageId>, plate: string, from: Day, end: Option<Day>, r: Row) {
    && r.garage in garages && r.plate == plate
    && exists d: Day :: On(r, d) && from <= d && (end.None? || d < end.value)
  }

  /** Another pass's stay, begun, whose last day `from` is: a QR's stay that ends the day
      after it, or one open to its pass's own last day. */
  ghost predicate OnItsLastDay(passes: map<PassId, PassRow>, p: PassId, from: Day, r: Row)
    requires r.pass in passes
  {
    && r.pass != p && r.from <= from
    && ((r.end == Some(from + 1) && r.why == Some(AfterLastDay)) || (r.end.None? && passes[r.pass].validTo == Some(from)))
  }

  /** Left open on a pass that has run out. */
  ghost predicate RunOut(passes: map<PassId, PassRow>, from: Day, r: Row)
    requires r.pass in passes
  {
    r.end.None? && passes[r.pass].validTo.Some? && passes[r.pass].validTo.value < from
  }

  lemma JudgedByDays(passes: map<PassId, PassRow>, p: PassId, plate: string, from: Day, end: Option<Day>, r: Row)
    requires p in passes && r.pass in passes
    ensures Judge(passes, p, plate, from, end, r) == Verdict.TurnOver <==>
              InTheWay(passes[p].garages, plate, from, end, r) && OnItsLastDay(passes, p, from, r)
    ensures Judge(passes, p, plate, from, end, r) == Verdict.Release <==>
              InTheWay(passes[p].garages, plate, from, end, r) && RunOut(passes, from, r)
    ensures Judge(passes, p, plate, from, end, r) == Blocked <==>
              InTheWay(passes[p].garages, plate, from, end, r) && !OnItsLastDay(passes, p, from, r) && !RunOut(passes, from, r)
  {
    OverlapsIffADayIsShared(r, from, end);
    if d: Day :| On(r, d) && from <= d && (end.None? || d < end.value) {
      assert Covers(r, d);
    }
    if Overlaps(r, from, end) {
      assert On(r, Max(r.from, from));
    }
  }

  /** WHAT REFUSES A REGISTRATION, in order: the last of it a row in the way that is neither on
      its stay's last day nor left open on a pass that has run out. */
  lemma RefusedByDays(passes: map<PassId, PassRow>, unreadable: set<GarageId>, rows: seq<Row>, at: GarageId, p: PassId,
                      plate: string, from: Day, end: Option<Day>)
    requires Good(passes, rows) && forall i :: 0 <= i < |rows| ==> rows[i].pass in passes
    ensures RegisterRefusal(passes, unreadable, rows, at, p, plate, from, end)
            == if plate == "" then Some(BlankIdentity)
               else if at in unreadable then Some(GarageUnreadable)
               else if p !in passes || at !in passes[p].garages then Some(PassNotFound)
               else if passes[p].state in {Suspended, Revoked} then Some(PassNotRegistrable)
               else if !passes[p].readable then Some(PassUnreadable)
               else if passes[p].validTo.Some? && passes[p].validTo.value < from then Some(PassNotRegistrable)
               else if end.Some? && end.value <= from then Some(EndsBeforeItStarts)
               else if end.Some? && passes[p].validTo.Some? && passes[p].validTo.value + 1 < end.value then Some(OutlivesThePass)
               else if exists i :: 0 <= i < |rows| && InTheWay(passes[p].garages, plate, from, end, rows[i])
                         && !OnItsLastDay(passes, p, from, rows[i]) && !RunOut(passes, from, rows[i])
               then Some(VehicleOnAnotherPass)
               else None
  {
    if p in passes {
      forall i | 0 <= i < |rows|
        ensures Judge(passes, p, plate, from, end, rows[i]) == Blocked <==>
                  InTheWay(passes[p].garages, plate, from, end, rows[i])
                  && !OnItsLastDay(passes, p, from, rows[i]) && !RunOut(passes, from, rows[i])
      {
        JudgedByDays(passes, p, plate, from, end, rows[i]);
      }
    }
  }

  /** WHAT A REGISTRATION WRITES: a stay on its last day ends as the new one begins, what was
      left open ends after its own pass's last day, every other row stands, and one row a
      garage comes after them. */
  lemma WrittenByDays(passes: map<PassId, PassRow>, rows: seq<Row>, p: PassId, plate: string, from: Day, end: Option<Day>,
                      why: Reason)
    requires p in passes && forall i :: 0 <= i < |rows| ==> rows[i].pass in passes
    ensures var out := Registered(passes, rows, p, plate, from, end, why);
            && |out| == |rows| + |passes[p].garages|
            && (forall i :: 0 <= i < |rows| ==>
                  var r := rows[i];
                  out[i] == if !InTheWay(passes[p].garages, plate, from, end, r) then r
                            else if OnItsLastDay(passes, p, from, r) then r.(end := Some(from), why := Some(ByNextStay))
                            else if RunOut(passes, from, r)
                            then r.(end := Some(if r.from <= passes[r.pass].validTo.value then passes[r.pass].validTo.value + 1
                                                else r.from), why := Some(ByExpiry))
                            else r)
            && forall k :: 0 <= k < |passes[p].garages| ==>
                 out[|rows| + k] == Row(passes[p].garages[k], p, plate, from, end, if end.Some? then Some(why) else None)
  {
    forall i | 0 <= i < |rows|
      ensures var r := rows[i];
              Settled(passes, p, plate, from, end, r)
              == if !InTheWay(passes[p].garages, plate, from, end, r) then r
                 else if OnItsLastDay(passes, p, from, r) then r.(end := Some(from), why := Some(ByNextStay))
                 else if RunOut(passes, from, r)
                 then r.(end := Some(if r.from <= passes[r.pass].validTo.value then passes[r.pass].validTo.value + 1
                                     else r.from), why := Some(ByExpiry))
                 else r
    {
      JudgedByDays(passes, p, plate, from, end, rows[i]);
    }
  }

  // -------------------------------------------------------------------- ending

  /** The latest row of the plate on the pass; of several, the one at the least garage. */
  ghost predicate IsLatest(rows: seq<Row>, p: PassId, plate: string, first: nat) {
    && first < |rows| && rows[first].pass == p && rows[first].plate == plate
    && forall i :: 0 <= i < |rows| && rows[i].pass == p && rows[i].plate == plate ==>
         rows[i].from < rows[first].from || (rows[i].from == rows[first].from && rows[first].garage <= rows[i].garage)
  }

  /** It can still be ended on the day: open, or by plan later than it, and begun before it. */
  ghost predicate CanEnd(r: Row, day: Day) {
    (r.end.None? || (r.why == Some(AfterLastDay) && day < r.end.value)) && r.from < day
  }

  /** The rows as an end leaves them: at every garage, those that begin and end as this one. */
  ghost predicate EndsLike(rows: seq<Row>, out: seq<Row>, r: Row, day: Day) {
    |out| == |rows| && forall i :: 0 <= i < |rows| ==>
      var s := rows[i];
      out[i] == if s.pass == r.pass && s.plate == r.plate && s.from == r.from && s.end == r.end
                then s.(end := Some(day), why := Some(EndedByOwner)) else s
  }

  /** AN END, at every garage the registration still runs at: its rows, all that begin and end
      as the latest does, end on the day, ended by the owner; no other row moves. */
  lemma EndedByDays(db: Db, out: Db, at: GarageId, p: PassId, plate: string, day: Day)
    requires GoodDb(db) && EndStep(db, out, at, p, plate, day)
    ensures out != db ==>
              exists first: nat :: IsLatest(db.rows, p, plate, first) && CanEnd(db.rows[first], day)
                && out == db.(rows := out.rows) && EndsLike(db.rows, out.rows, db.rows[first], day)
  {
    if out != db {
      var first := WhichEnd(db, out, at, p, plate, day);
      LatestEnds(db.rows, p, plate, first, day);
    }
  }

  lemma LatestEnds(rows: seq<Row>, p: PassId, plate: string, first: nat, day: Day)
    requires ComesFirst(rows, p, plate, first) && EndRefusal(rows[first], day).None?
    ensures IsLatest(rows, p, plate, first) && CanEnd(rows[first], day)
    ensures EndsLike(rows, Ended(rows, rows[first], day), rows[first], day)
  {
  }

  /** It is refused when there is none, when it has ended otherwise than by a stay's plan or
      no later than planned, and before it began; and only then. */
  lemma EndRefusedByDays(db: Db, out: Db, at: GarageId, p: PassId, plate: string, day: Day)
    requires GoodDb(db) && EndStep(db, out, at, p, plate, day)
    ensures out != db ==>
              && plate != "" && at !in db.unreadable && p in db.passes && at in db.passes[p].garages
              && exists first: nat :: IsLatest(db.rows, p, plate, first) && CanEnd(db.rows[first], day)
    ensures plate != "" && at !in db.unreadable && p in db.passes && at in db.passes[p].garages
            && (exists i :: 0 <= i < |db.rows| && db.rows[i].pass == p && db.rows[i].plate == plate)
            && (forall first: nat :: IsLatest(db.rows, p, plate, first) ==> CanEnd(db.rows[first], day))
            ==> out != db
  {
    if out != db {
      var first := WhichEnd(db, out, at, p, plate, day);
      LatestEnds(db.rows, p, plate, first, day);
    } else if plate != "" && RefusedAtGarage(db.passes, db.unreadable, at, p).None?
              && exists i :: 0 <= i < |db.rows| && OfPass(db.rows[i], p, plate) {
      var first: nat :| ComesFirst(db.rows, p, plate, first)
        && out == if EndRefusal(db.rows[first], day).Some? then db else db.(rows := Ended(db.rows, db.rows[first], day));
      assert IsLatest(db.rows, p, plate, first);
      if EndRefusal(db.rows[first], day).None? {
        assert out.rows[first] == db.rows[first].(end := Some(day), why := Some(EndedByOwner));
      }
    }
  }

  /** From the day on the registration holds nothing, and before it what it held. */
  lemma EndsHoldBefore(rows: seq<Row>, out: seq<Row>, r: Row, day: Day, i: nat)
    requires EndsLike(rows, out, r, day) && CanEnd(r, day) && i < |rows|
    requires rows[i].pass == r.pass && rows[i].plate == r.plate && rows[i].from == r.from && rows[i].end == r.end
    ensures forall d :: On(out[i], d) <==> On(rows[i], d) && d < day
  {
  }

  /** A CHECKOUT: no car of the pass is held from the day on, at any garage, every day before
      it stands, and no other pass's row moves; an end it gives is a checkout's. */
  lemma StayEndedByDays(rows: seq<Row>, p: PassId, day: Day, i: nat)
    requires i < |rows|
    ensures InForceAfter(rows[i], p, day) <==> rows[i].pass == p && exists d: Day :: day <= d && On(rows[i], d)
    ensures var r, s := rows[i], StayEnded(rows, p, day)[i];
            && s == r.(end := s.end, why := s.why) && |StayEnded(rows, p, day)| == |rows|
            && (r.pass != p ==> s == r)
            && (r.pass == p ==> forall d: Day :: On(s, d) <==> On(r, d) && d < day)
            && (s != r ==> s.why == Some(ByCheckout) && s.end.Some? && r.from <= s.end.value
                           && exists d: Day :: day <= d && On(r, d))
  {
    var r := rows[i];
    if InForceAfter(r, p, day) {
      assert On(r, Max(day, r.from));
    }
  }

  // ------------------------------------------------------------------ revoking

  /** A REVOCATION: no car of the pass is held at a garage from that garage's own day on, every
      day before it stands, and no other pass's row moves. */
  lemma RevokedByDays(passes: map<PassId, PassRow>, rows: seq<Row>, p: PassId, days: GarageId -> Day, i: nat)
    requires Good(passes, rows) && p in passes && i < |rows|
    ensures var r, s := rows[i], RevokedRows(rows, p, DaysAt(passes[p].garages, days))[i];
            && s == r.(end := s.end, why := s.why)
            && (r.pass != p ==> s == r)
            && (r.pass == p ==> forall d: Day :: On(s, d) <==> On(r, d) && d < days(r.garage))
            && (s != r ==> s.why == Some(ByRevocation))
  {
    assert RowOk(passes, rows[i]);
  }

  /** WHICH CHANGES ARE MADE: revoked by anyone who may say so, from any state but itself;
      active from any other; suspended from active only; awaiting enrolment from draft only;
      draft never. And a revocation needs every garage's clock. */
  lemma ChangedByRule(passes: map<PassId, PassRow>, unreadable: set<GarageId>, at: GarageId, p: PassId, to: State, who: string,
                      why: string)
    ensures ChangeOutcome(passes, unreadable, at, p, to, who, why) == Done <==>
              && at !in unreadable && p in passes && at in passes[p].garages && !Text.Blank(who) && !Text.Blank(why)
              && passes[p].state != Revoked
              && (match to
                  case Draft => false
                  case AwaitingEnrolment => passes[p].state == Draft
                  case Active => passes[p].state != Active
                  case Suspended => passes[p].state == Active
                  case Revoked => forall k :: 0 <= k < |passes[p].garages| ==> passes[p].garages[k] !in unreadable)
  {
  }
}
