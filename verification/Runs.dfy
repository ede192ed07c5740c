/** Issuing a QR's stay, what a QR's own stay is on a day, and every run of the register. */
module Runs {
  import opened Basics
  import opened States
  import opened Register
  import opened RegisterProofs
  import opened Stay
  import opened HoldStay

  // ------------------------------------------------------------------ issuing

  /** The day after the QR's last day, never past the pass's own last day. */
  function StayEnd(pass: PassRow, startsOn: Day, days: int): Day {
    var end := startsOn + days;
    if pass.validTo.Some? && end > pass.validTo.value + 1 then pass.validTo.value + 1 else end
  }

  datatype IssueRefusal = PlateNotStated | DaysNotStated | DaysNotPositive | OnPass(refusal: Refusal) | Hold(why: FillRefusal)
  datatype IssueAnswer = Made(end: Day) | NotMade(refusal: IssueRefusal)

  function IssueRefusalBefore(passes: map<PassId, PassRow>, unreadable: set<GarageId>, at: GarageId, p: PassId,
                              plate: string, startsOn: Day, days: Option<int>): Option<IssueRefusal>
  {
    if plate == "" then Some(PlateNotStated)
    else if days.None? then Some(DaysNotStated)
    else if days.value <= 0 then Some(DaysNotPositive)
    else if RefusedAtGarage(passes, unreadable, at, p).Some? then
      Some(OnPass(RefusedAtGarage(passes, unreadable, at, p).value))
    else if RefusedOnPass(passes[p], startsOn, None).Some? then
      Some(OnPass(RefusedOnPass(passes[p], startsOn, None).value))
    else None
  }

  lemma StayIsNotEmpty(passes: map<PassId, PassRow>, unreadable: set<GarageId>, at: GarageId, p: PassId,
                       plate: string, startsOn: Day, days: Option<int>)
    requires IssueRefusalBefore(passes, unreadable, at, p, plate, startsOn, days).None?
    ensures p in passes && days.Some? && startsOn < StayEnd(passes[p], startsOn, days.value)
    ensures passes[p].validTo.Some? ==> StayEnd(passes[p], startsOn, days.value) <= passes[p].validTo.value + 1
  {
  }

  method IssueStay(store: Store, at: GarageId, p: PassId, plate: string, startsOn: Day, days: Option<int>)
    returns (out: IssueAnswer)
    requires store.Valid()
    modifies store`rows
    ensures store.Valid()
    ensures IssueStep(Snapshot(store.passes, store.unreadable, old(store.rows)),
                      Snapshot(store.passes, store.unreadable, store.rows), at, p, plate, startsOn, days, out)
    ensures out.Made? ==> p in store.passes && HeldThrough(store.passes, store.rows, p, plate, startsOn, out.end)
  {
    KnownPasses(store.passes, store.rows);
    var no := IssueRefusalBefore(store.passes, store.unreadable, at, p, plate, startsOn, days);
    if no.Some? { return NotMade(no.value); }
    StayIsNotEmpty(store.passes, store.unreadable, at, p, plate, startsOn, days);
    var end := StayEnd(store.passes[p], startsOn, days.value);
    var held := HoldTheWholeStay(store, at, p, plate, startsOn, end);
    out := if held.Filled? then Made(end) else NotMade(Hold(held.refusal));
  }

  lemma KnownPasses(passes: map<PassId, PassRow>, rows: seq<Row>)
    requires Good(passes, rows)
    ensures PassesKnown(passes, rows)
  {
    forall i | 0 <= i < |rows| ensures rows[i].pass in passes {
      assert RowOk(passes, rows[i]);
    }
  }

  // ------------------------------------------------------------- a QR's own stay

  datatype StayState = Live | LastDay | NotStarted | Over

  /** A stay that ended that very day: the guest checked out, or the next stay began. */
  predicate EndsAStay(why: Option<Reason>) {
    why == Some(ByNextStay) || why == Some(ByCheckout)
  }

  predicate OfStay(r: Row, g: GarageId, p: PassId, plate: string) {
    r.garage == g && r.pass == p && r.plate == plate
  }

  /** The QR's car on the QR's pass at this garage, read on `today`: never its next stay. */
  function StayOf(rows: seq<Row>, g: GarageId, p: PassId, plate: string, today: Day): StayState {
    if exists i :: 0 <= i < |rows| && OfStay(rows[i], g, p, plate) && Covers(rows[i], today) then Live
    else if exists i :: 0 <= i < |rows| && OfStay(rows[i], g, p, plate)
                        && rows[i].end == Some(today) && EndsAStay(rows[i].why) then LastDay
    else if (exists i :: 0 <= i < |rows| && OfStay(rows[i], g, p, plate))
            && forall i :: 0 <= i < |rows| && OfStay(rows[i], g, p, plate) ==> rows[i].from > today then NotStarted
    else Over
  }

  lemma LiveIffHeld(rows: seq<Row>, g: GarageId, p: PassId, plate: string, d: Day)
    ensures StayOf(rows, g, p, plate, d) == Live <==> HeldBy(rows, g, plate, d, p)
  {
    if StayOf(rows, g, p, plate, d) == Live {
      var i :| 0 <= i < |rows| && OfStay(rows[i], g, p, plate) && Covers(rows[i], d);
      assert Holds(rows, i, g, plate, d);
    }
    if HeldBy(rows, g, plate, d, p) {
      var i: nat :| Holds(rows, i, g, plate, d) && rows[i].pass == p;
      assert OfStay(rows[i], g, p, plate);
    }
  }

  // --------------------------------------------------------------------- runs

  datatype Db = Db(passes: map<PassId, PassRow>, unreadable: set<GarageId>, rows: seq<Row>)

  ghost function Snapshot(passes: map<PassId, PassRow>, unreadable: set<GarageId>, rows: seq<Row>): Db {
    Db(passes, unreadable, rows)
  }

  ghost predicate GoodDb(db: Db) {
    Good(db.passes, db.rows)
  }

  datatype Op =
    | Create(p: PassId, pass: PassRow)
    | RegisterOp(at: GarageId, p: PassId, plate: string, from: Day, end: Option<Day>, why: Reason)
    | IssueOp(at: GarageId, p: PassId, plate: string, from: Day, days: Option<int>)
    | EndOp(at: GarageId, p: PassId, plate: string, day: Day)
    | EndStayOp(at: GarageId, p: PassId, day: Day)
    | ChangeOp(at: GarageId, p: PassId, to: State, who: string, whyChanged: string, daysAt: GarageId -> Day)

  ghost predicate IssueStep(db: Db, out: Db, at: GarageId, p: PassId, plate: string, startsOn: Day, days: Option<int>,
                            answer: IssueAnswer)
    requires PassesKnown(db.passes, db.rows)
  {
    var no := IssueRefusalBefore(db.passes, db.unreadable, at, p, plate, startsOn, days);
    if no.Some? then out == db && answer == NotMade(no.value)
    else
      var end := StayEnd(db.passes[p], startsOn, days.value);
      exists filled :: StayWritten(db.passes, db.unreadable, db.rows, at, p, plate, startsOn, end, filled)
        && out == db.(rows := if filled.Filled? then filled.rows else db.rows)
        && answer == if filled.Filled? then Made(end) else NotMade(Hold(filled.refusal))
  }

  /** The end is of the registration that `first` is of, and nothing refuses it. */
  predicate Ends(db: Db, at: GarageId, p: PassId, plate: string, day: Day, first: nat) {
    && plate != "" && RefusedAtGarage(db.passes, db.unreadable, at, p).None?
    && ComesFirst(db.rows, p, plate, first) && EndRefusal(db.rows[first], day).None?
  }

  /** Two rows may tie for the first; either may be the one that is judged. */
  ghost predicate EndStep(db: Db, out: Db, at: GarageId, p: PassId, plate: string, day: Day) {
    if plate == "" || RefusedAtGarage(db.passes, db.unreadable, at, p).Some?
       || forall i :: 0 <= i < |db.rows| ==> !OfPass(db.rows[i], p, plate)
    then out == db
    else
      exists first: nat :: ComesFirst(db.rows, p, plate, first)
        && out == if EndRefusal(db.rows[first], day).Some? then db else db.(rows := Ended(db.rows, db.rows[first], day))
  }

  lemma WhichEnd(db: Db, out: Db, at: GarageId, p: PassId, plate: string, day: Day) returns (first: nat)
    requires EndStep(db, out, at, p, plate, day) && out != db
    ensures first < |db.rows| && Ends(db, at, p, plate, day, first) && out == db.(rows := Ended(db.rows, db.rows[first], day))
  {
    var f: nat :| ComesFirst(db.rows, p, plate, f)
      && out == if EndRefusal(db.rows[f], day).Some? then db else db.(rows := Ended(db.rows, db.rows[f], day));
    first := f;
  }

  /** One operation on the register, as the methods of `Store` and `IssueStay` are proved to act. */
  ghost predicate Step(db: Db, op: Op, out: Db)
    requires PassesKnown(db.passes, db.rows)
  {
    match op
    case Create(p, pass) =>
      out == (if p in db.passes || pass.garages == [] || !Distinct(pass.garages) then db
              else db.(passes := db.passes[p := pass]))
    case RegisterOp(at, p, plate, from, end, why) =>
      out == (if RegisterRefusal(db.passes, db.unreadable, db.rows, at, p, plate, from, end).Some? then db
              else db.(rows := Registered(db.passes, db.rows, p, plate, from, end, why)))
    case IssueOp(at, p, plate, from, days) =>
      exists answer :: IssueStep(db, out, at, p, plate, from, days, answer)
    case EndOp(at, p, plate, day) => EndStep(db, out, at, p, plate, day)
    case EndStayOp(at, p, day) =>
      out == (if RefusedAtGarage(db.passes, db.unreadable, at, p).Some? then db
              else db.(rows := StayEnded(db.rows, p, day)))
    case ChangeOp(at, p, to, who, why, days) =>
      out == (if ChangeOutcome(db.passes, db.unreadable, at, p, to, who, why).Refused? then db
              else db.(passes := db.passes[p := db.passes[p].(state := to)],
                       rows := if to == Revoked then RevokedRows(db.rows, p, DaysAt(db.passes[p].garages, days))
                               else db.rows))
  }

  ghost predicate Run(dbs: seq<Db>, ops: seq<Op>) {
    && |dbs| == |ops| + 1 && GoodDb(dbs[0])
    && forall i :: 0 <= i < |ops| ==> PassesKnown(dbs[i].passes, dbs[i].rows) && Step(dbs[i], ops[i], dbs[i + 1])
  }

  lemma EndKeepsGood(db: Db, first: nat, p: PassId, plate: string, day: Day)
    requires GoodDb(db) && ComesFirst(db.rows, p, plate, first) && EndRefusal(db.rows[first], day).None?
    ensures Good(db.passes, Ended(db.rows, db.rows[first], day))
    ensures AllShortened(db.rows, Ended(db.rows, db.rows[first], day))
  {
    ShorteningKeepsGood(db.passes, db.rows, Ended(db.rows, db.rows[first], day));
  }

  lemma StayEndedKeepsGood(passes: map<PassId, PassRow>, rows: seq<Row>, p: PassId, day: Day)
    requires Good(passes, rows)
    ensures Good(passes, StayEnded(rows, p, day)) && AllShortened(rows, StayEnded(rows, p, day))
  {
    ShorteningKeepsGood(passes, rows, StayEnded(rows, p, day));
  }

  lemma RevokingKeepsGood(passes: map<PassId, PassRow>, rows: seq<Row>, p: PassId, days: map<GarageId, Day>)
    requires Good(passes, rows)
    ensures Good(passes, RevokedRows(rows, p, days)) && AllShortened(rows, RevokedRows(rows, p, days))
  {
    ShorteningKeepsGood(passes, rows, RevokedRows(rows, p, days));
  }

  lemma MorePassesGood(passes: map<PassId, PassRow>, more: map<PassId, PassRow>, rows: seq<Row>)
    requires Good(passes, rows) && PassesOk(more)
    requires forall p :: p in passes ==> p in more && more[p].garages == passes[p].garages
    ensures Good(more, rows)
  {
    forall i | 0 <= i < |rows| ensures RowOk(more, rows[i]) {
      assert RowOk(passes, rows[i]);
    }
  }

  lemma IssuingKeepsGood(db: Db, out: Db, at: GarageId, p: PassId, plate: string, from: Day, days: Option<int>, answer: IssueAnswer)
    requires GoodDb(db) && PassesKnown(db.passes, db.rows) && IssueStep(db, out, at, p, plate, from, days, answer)
    ensures GoodDb(out) && out.passes == db.passes && out.unreadable == db.unreadable
    ensures Grows(db.rows, out.rows, p) && OthersShortened(db.rows, out.rows, p)
    ensures answer.Made? ==> p in db.passes && from < answer.end && HeldThrough(db.passes, out.rows, p, plate, from, answer.end)
    ensures out != db ==> p in db.passes && Registrable(db.passes[p].state)
  {
    if IssueRefusalBefore(db.passes, db.unreadable, at, p, plate, from, days).None? {
      StayIsNotEmpty(db.passes, db.unreadable, at, p, plate, from, days);
      var end := StayEnd(db.passes[p], from, days.value);
      var filled :| StayWritten(db.passes, db.unreadable, db.rows, at, p, plate, from, end, filled)
        && out == db.(rows := if filled.Filled? then filled.rows else db.rows)
        && answer == if filled.Filled? then Made(end) else NotMade(Hold(filled.refusal));
      var garages, held, spans :|
        && HeldRead(db.passes, db.rows, p, plate, from, end, garages, held)
        && Partition(HeldDays(garages, RowsOf(held)), from, end, spans)
        && filled == FillAll(db.passes, db.unreadable, db.rows, held, garages, at, p, plate, spans, end);
      FillAllHolds(db.passes, db.unreadable, db.rows, held, garages, at, p, plate, spans, from, end);
    }
  }

  lemma StepKeepsGood(db: Db, op: Op, out: Db)
    requires GoodDb(db) && PassesKnown(db.passes, db.rows) && Step(db, op, out)
    ensures GoodDb(out)
  {
    match op
    case Create(p, pass) =>
      MorePassesGood(db.passes, out.passes, db.rows);
    case RegisterOp(at, p, plate, from, end, why) =>
      if RegisterRefusal(db.passes, db.unreadable, db.rows, at, p, plate, from, end).None? {
        RegisteringKeepsGood(db.passes, db.unreadable, db.rows, at, p, plate, from, end, why);
      }
    case IssueOp(at, p, plate, from, days) =>
      var answer :| IssueStep(db, out, at, p, plate, from, days, answer);
      IssuingKeepsGood(db, out, at, p, plate, from, days, answer);
    case EndOp(at, p, plate, day) =>
      if out != db {
        var first := WhichEnd(db, out, at, p, plate, day);
        EndKeepsGood(db, first, p, plate, day);
      }
    case EndStayOp(at, p, day) =>
      StayEndedKeepsGood(db.passes, db.rows, p, day);
    case ChangeOp(at, p, to, who, why, days) =>
      if out != db {
        RevokingKeepsGood(db.passes, db.rows, p, DaysAt(db.passes[p].garages, days));
        MorePassesGood(db.passes, out.passes, out.rows);
      }
  }

  /** IN EVERY RUN the rows of one plate at one garage share no day, and no row ends
      before it starts: from the module's own checks, in whatever order it is called. */
  lemma {:induction false} EveryRunKeepsTheRegister(dbs: seq<Db>, ops: seq<Op>, i: nat)
    requires Run(dbs, ops) && i < |dbs|
    ensures GoodDb(dbs[i])
  {
    if i > 0 {
      EveryRunKeepsTheRegister(dbs, ops, i - 1);
      StepKeepsGood(dbs[i - 1], ops[i - 1], dbs[i]);
    }
  }

  // --------------------------------------------------------------- revocation

  /** The pass is revoked, and no registration of it covers its garage's revocation day or later. */
  ghost predicate RevokedOn(db: Db, p: PassId, days: GarageId -> Day) {
    && p in db.passes && db.passes[p].state == Revoked
    && forall i :: 0 <= i < |db.rows| && db.rows[i].pass == p ==> EndedBy(db.rows[i], days(db.rows[i].garage))
  }

  lemma RevokingRevokes(db: Db, op: Op, out: Db)
    requires GoodDb(db) && PassesKnown(db.passes, db.rows) && Step(db, op, out)
    requires op.ChangeOp? && op.to == Revoked && out != db
    ensures RevokedOn(out, op.p, op.daysAt)
  {
    var at := DaysAt(db.passes[op.p].garages, op.daysAt);
    forall i | 0 <= i < |out.rows| && out.rows[i].pass == op.p
      ensures EndedBy(out.rows[i], op.daysAt(out.rows[i].garage))
    {
      assert RowOk(db.passes, db.rows[i]);
      assert out.rows[i] == RevokedRows(db.rows, op.p, at)[i];
    }
  }

  lemma StepKeepsRevoked(db: Db, op: Op, out: Db, p: PassId, days: GarageId -> Day)
    requires GoodDb(db) && PassesKnown(db.passes, db.rows) && Step(db, op, out)
    requires RevokedOn(db, p, days)
    ensures RevokedOn(out, p, days)
  {
    match op
    case Create(q, pass) =>
    case RegisterOp(at, q, plate, from, end, why) =>
      if RegisterRefusal(db.passes, db.unreadable, db.rows, at, q, plate, from, end).None? {
        RegisteredShape(db.passes, db.unreadable, db.rows, at, q, plate, from, end, why);
        assert q != p;
        ShorteningKeepsOver(db.rows, out.rows, p, days);
      }
    case IssueOp(at, q, plate, from, days') =>
      var answer :| IssueStep(db, out, at, q, plate, from, days', answer);
      IssuingKeepsRevoked(db, out, at, q, plate, from, days', answer, p, days);
    case EndOp(at, q, plate, day) =>
      if out != db {
        var first := WhichEnd(db, out, at, q, plate, day);
        EndKeepsGood(db, first, q, plate, day);
        ShorteningKeepsOver(db.rows, out.rows, p, days);
      }
    case EndStayOp(at, q, day) =>
      StayEndedKeepsGood(db.passes, db.rows, q, day);
      ShorteningKeepsOver(db.rows, StayEnded(db.rows, q, day), p, days);
    case ChangeOp(at, q, to, who, why, days') =>
      if out != db {
        RevokingKeepsGood(db.passes, db.rows, q, DaysAt(db.passes[q].garages, days'));
        ShorteningKeepsOver(db.rows, out.rows, p, days);
      }
  }

  /** Whatever is written beside them, rows that are over stay over. */
  lemma ShorteningKeepsOver(rows: seq<Row>, out: seq<Row>, p: PassId, days: GarageId -> Day)
    requires |rows| <= |out| && AllShortened(rows, out[..|rows|])
    requires forall i :: |rows| <= i < |out| ==> out[i].pass != p
    requires forall i :: 0 <= i < |rows| && rows[i].pass == p ==> EndedBy(rows[i], days(rows[i].garage))
    ensures forall i :: 0 <= i < |out| && out[i].pass == p ==> EndedBy(out[i], days(out[i].garage))
  {
    forall i | 0 <= i < |out| && out[i].pass == p ensures EndedBy(out[i], days(out[i].garage)) {
      assert i < |rows|;
      assert Shortened(rows[i], out[..|rows|][i]);
    }
  }

  lemma IssuingKeepsRevoked(db: Db, out: Db, at: GarageId, q: PassId, plate: string, from: Day, issueDays: Option<int>,
                            answer: IssueAnswer, p: PassId, days: GarageId -> Day)
    requires GoodDb(db) && PassesKnown(db.passes, db.rows)
    requires IssueStep(db, out, at, q, plate, from, issueDays, answer) && RevokedOn(db, p, days)
    ensures RevokedOn(out, p, days)
  {
    IssuingKeepsGood(db, out, at, q, plate, from, issueDays, answer);
    if out != db {
      assert q != p;
      forall i | 0 <= i < |db.rows| && db.rows[i].pass == q ensures out.rows[i].pass == q {
        assert RanOnRow(db.rows[i], out.rows[i]);
      }
      forall i | 0 <= i < |out.rows| && out.rows[i].pass == p ensures EndedBy(out.rows[i], days(out.rows[i].garage)) {
        assert Shortened(db.rows[i], out.rows[i]);
      }
    }
  }

  /** ONCE REVOKED, FOR EVER: after the step that revoked it, in every later state of the
      run, the pass is revoked and nothing of it covers the day it was revoked or later. */
  lemma {:induction false} RevokedForEver(dbs: seq<Db>, ops: seq<Op>, i: nat, j: nat)
    requires Run(dbs, ops) && i < j < |dbs|
    requires ops[i].ChangeOp? && ops[i].to == Revoked && dbs[i + 1] != dbs[i]
    ensures RevokedOn(dbs[j], ops[i].p, ops[i].daysAt)
  {
    if j == i + 1 {
      StepOf(dbs, ops, i);
      RevokingRevokes(dbs[i], ops[i], dbs[j]);
    } else {
      RevokedForEver(dbs, ops, i, j - 1);
      StaysRevoked(dbs, ops, j - 1, ops[i].p, ops[i].daysAt);
    }
  }

  lemma StaysRevoked(dbs: seq<Db>, ops: seq<Op>, j: nat, p: PassId, days: GarageId -> Day)
    requires Run(dbs, ops) && j < |ops| && RevokedOn(dbs[j], p, days)
    ensures RevokedOn(dbs[j + 1], p, days)
  {
    StepOf(dbs, ops, j);
    StepKeepsRevoked(dbs[j], ops[j], dbs[j + 1], p, days);
  }

  lemma StepOf(dbs: seq<Db>, ops: seq<Op>, k: nat)
    requires Run(dbs, ops) && k < |ops|
    ensures GoodDb(dbs[k]) && PassesKnown(dbs[k].passes, dbs[k].rows) && Step(dbs[k], ops[k], dbs[k + 1])
  {
    EveryRunKeepsTheRegister(dbs, ops, k);
  }

  /** AN ISSUED QR READS LIVE ON EVERY DAY OF ITS STAY, at every garage of its pass, to its
      own last day or the pass's, on exactly one row, and on no day is the plate another pass's. */
  lemma IssuedStayIsLive(db: Db, out: Db, at: GarageId, p: PassId, plate: string, from: Day, days: int, answer: IssueAnswer,
                         g: GarageId, d: Day)
    requires GoodDb(db) && PassesKnown(db.passes, db.rows)
    requires IssueStep(db, out, at, p, plate, from, Some(days), answer) && answer.Made?
    requires p in db.passes && g in db.passes[p].garages
    requires from <= d < from + days && (db.passes[p].validTo.Some? ==> d <= db.passes[p].validTo.value)
    ensures StayOf(out.rows, g, p, plate, d) == Live
    ensures exists i: nat :: Holds(out.rows, i, g, plate, d)
              && forall j: nat :: Holds(out.rows, j, g, plate, d) <==> j == i
    ensures forall q :: HeldBy(out.rows, g, plate, d, q) ==> q == p
  {
    IssuingKeepsGood(db, out, at, p, plate, from, Some(days), answer);
    assert HeldBy(out.rows, g, plate, d, p);
    LiveIffHeld(out.rows, g, p, plate, d);
    var i: nat :| Holds(out.rows, i, g, plate, d) && out.rows[i].pass == p;
    forall j: nat | Holds(out.rows, j, g, plate, d) ensures j == i {
      OneHolderADay(out.passes, out.rows, i, j, g, plate, d);
    }
    forall q | HeldBy(out.rows, g, plate, d, q) ensures q == p {
      OnePassADay(out.passes, out.rows, g, plate, d, p, q);
    }
  }

  /** Nothing but a new QR's run-on ever lengthens a row: every other operation leaves each
      row where it was, as it was or shorter; and an issue lengthens rows of its own pass only. */
  lemma OnlyARunOnLengthens(db: Db, op: Op, out: Db)
    requires GoodDb(db) && PassesKnown(db.passes, db.rows) && Step(db, op, out)
    ensures |db.rows| <= |out.rows|
    ensures !op.IssueOp? ==> AllShortened(db.rows, out.rows[..|db.rows|])
    ensures op.IssueOp? ==> OthersShortened(db.rows, out.rows, op.p) && Grows(db.rows, out.rows, op.p)
  {
    match op
    case Create(p, pass) =>
    case RegisterOp(at, p, plate, from, end, why) =>
      if RegisterRefusal(db.passes, db.unreadable, db.rows, at, p, plate, from, end).None? {
        RegisteredShape(db.passes, db.unreadable, db.rows, at, p, plate, from, end, why);
      }
    case IssueOp(at, p, plate, from, days) =>
      var answer :| IssueStep(db, out, at, p, plate, from, days, answer);
      IssuingKeepsGood(db, out, at, p, plate, from, days, answer);
    case EndOp(at, p, plate, day) =>
      if out != db {
        var first := WhichEnd(db, out, at, p, plate, day);
        EndKeepsGood(db, first, p, plate, day);
      }
    case EndStayOp(at, p, day) =>
      StayEndedKeepsGood(db.passes, db.rows, p, day);
    case ChangeOp(at, p, to, who, why, days) =>
      if out != db {
        RevokingKeepsGood(db.passes, db.rows, p, DaysAt(db.passes[p].garages, days));
      }
  }
}
