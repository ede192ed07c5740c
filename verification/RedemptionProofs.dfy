/** A recognised QR answers for its own car on its own pass; a replaced car does not enter. */
module RedemptionProofs {
  import opened Basics
  import opened Text
  import opened States
  import opened Plates
  import opened Terms
  import opened Lists
  import opened Codes
  import opened Access
  import opened AccessProofs
  import opened Redemption
  import opened AccessOrder
  import Register
  import opened RegisterProofs
  import Runs
  import Sets

  // ------------------------------------------------------ what the engine was handed

  lemma OnlyCopy(ps: seq<Pass>, p: Pass)
    requires forall i, j :: 0 <= i < j < |ps| ==> ps[i].id != ps[j].id
    requires p in ps
    ensures CopiesOf(ps, p.id) == [p]
  {
    AtMostOneKept(ps, (x: Pass) => x.id == p.id);
    assert p in CopiesOf(ps, p.id);
  }

  lemma HandedPasses(b: Books, regs: seq<Registration>, g: GarageId)
    requires BooksOk(b)
    requires forall r :: r in regs ==> r.pass in b.passes && g in b.passes[r.pass].garages
    ensures RecordsOk(RecordsFor(b, regs, g))
    ensures forall r :: r in regs ==> CopiesOf(RecordsFor(b, regs, g).passes, r.pass) == [b.passes[r.pass]]
    ensures forall r :: r in regs ==>
              && ById(RecordsFor(b, regs, g).passes, g, r.pass) == Some(b.passes[r.pass])
              && !IsDuplicated(RecordsFor(b, regs, g).passes, g, r.pass)
  {
    var ps := PassesFor(b, regs);
    assert RecordsFor(b, regs, g).passes == ps;
    EachPassOnce(b, regs);
    forall r | r in regs ensures CopiesOf(ps, r.pass) == [b.passes[r.pass]] {
      OnlyCopy(ps, b.passes[r.pass]);
    }
  }

  /** Nothing dangles, nothing is handed in twice, and what is in force is what covers today. */
  lemma HandedIsConsistent(w: World, b: Books, regs: seq<Registration>, m: Movement)
    requires BooksOk(b)
    requires forall r :: r in regs ==> r.pass in b.passes && m.garage.id in b.passes[r.pass].garages
    requires forall r :: r in regs ==> PlateKey(r.identity) == PlateKey(Strip(m.identity))
    ensures var rs := RecordsFor(b, regs, m.garage.id);
            && RecordsOk(rs) && Dangling(w, m, rs) == []
            && !AnyDuplicated(m, rs.passes, InForce(w, m, rs))
            && forall r :: r in InForce(w, m, rs) <==> r in regs && CoversDay(r, Now(w, m).day)
  {
    HandedPasses(b, regs, m.garage.id);
    var rs := RecordsFor(b, regs, m.garage.id);
    assert rs.registrations == regs;
    NoneKept(rs.registrations, (r: Registration) => IsDangling(w, m, rs.passes, r));
  }

  lemma MovementOfCar(garage: Garage, identity: string, lane: string, direction: Direction, at: Instant,
                      enteredAt: Option<Instant>)
    ensures PlateKey(Strip(Strip(identity))) == PlateKey(identity) == PlateKey(Strip(identity))
    ensures PlateKey(PlateKey(identity)) == PlateKey(identity)
    ensures PlateKey(Strip(PlateKey(identity))) == PlateKey(identity)
  {
    StripKeepsKey(identity);
    StripKeepsKey(Strip(identity));
    StripKeepsKey(PlateKey(identity));
    PlateKeyIsIdempotent(identity);
  }

  /** The records behind an answer by identity. */
  lemma ByIdentity(w: World, b: Books, garage: Garage, identity: string, lane: string, direction: Direction, at: Instant,
                   enteredAt: Option<Instant>)
    requires BooksOk(b)
    ensures var m := Movement(garage, Strip(identity), lane, direction, at, enteredAt);
            var regs := Handed(w, b, garage, Strip(identity), direction, at);
            && (forall r :: r in regs ==> r.pass in b.passes)
            && var rs := RecordsFor(b, regs, garage.id);
            && RecordsOk(rs) && Dangling(w, m, rs) == []
            && !AnyDuplicated(m, rs.passes, InForce(w, m, rs))
            && (forall r :: r in InForce(w, m, rs) <==> r in regs && CoversDay(r, Now(w, m).day))
            && AnswerInTransaction(w, b, garage, identity, lane, direction, at, enteredAt) == AccessAnswer(w, m, rs)
  {
    var m := Movement(garage, Strip(identity), lane, direction, at, enteredAt);
    HandedKnown(w, b, garage, Strip(identity), direction, at);
    MovementOfCar(garage, identity, lane, direction, at, enteredAt);
    HandedIsConsistent(w, b, Handed(w, b, garage, Strip(identity), direction, at), m);
  }

  // ------------------------------------------------------------- a live stay answers

  lemma OneHolder(b: Books, g: GarageId, key: string, d: Day, p: PassId, q: PassId)
    requires BooksOk(b) && HeldBy(b.rows, g, key, d, p) && HeldBy(b.rows, g, key, d, q)
    ensures p == q
  {
    var i: nat :| Holds(b.rows, i, g, key, d) && b.rows[i].pass == p;
    var j: nat :| Holds(b.rows, j, g, key, d) && b.rows[j].pass == q;
    var r, s := b.rows[i], b.rows[j];
    Register.OverlapsIffADayIsShared(r, s.from, s.end);
    Register.OverlapsIffADayIsShared(s, r.from, r.end);
  }

  lemma LiveIsHeld(b: Books, garage: Garage, c: Code, today: Day)
    requires BoundTo(c).Some?
    ensures StayOfCode(b, garage, c, today) == Runs.Live <==>
              HeldBy(b.rows, garage.id, PlateKey(BoundTo(c).value), today, c.pass)
  {
    Runs.LiveIffHeld(b.rows, garage.id, c.pass, PlateKey(BoundTo(c).value), today);
  }

  lemma FoundIsRow(b: Books, g: GarageId, identity: string, today: Option<Day>, r: Registration)
    requires r in RegistrationsOf(b, g, identity, today)
    ensures exists row :: row in b.rows && OfCarAt(row, g, PlateKey(identity))
              && r == RegistrationOf(b.codes, PlateKey(identity), today, row)
  {
    var found := RegistrationsOf(b, g, identity, today);
    var rows := RowsOf(b, g, PlateKey(identity));
    var i :| 0 <= i < |found| && found[i] == r;
    assert rows[i] in rows;
  }

  lemma HeldIsFound(b: Books, g: GarageId, identity: string, today: Option<Day>, d: Day, p: PassId)
    requires PlateKey(identity) != "" && HeldBy(b.rows, g, PlateKey(identity), d, p)
    ensures exists r :: r in RegistrationsOf(b, g, identity, today) && CoversDay(r, d) && r.pass == p
  {
    var rows := RowsOf(b, g, PlateKey(identity));
    var at: nat :| Holds(b.rows, at, g, PlateKey(identity), d) && b.rows[at].pass == p;
    var row := b.rows[at];
    assert row in b.rows;
    var i :| 0 <= i < |rows| && rows[i] == row;
    assert RegistrationsOf(b, g, identity, today)[i] == RegistrationOf(b.codes, PlateKey(identity), today, row);
  }

  /** What is in force of a car that a pass holds today is on that pass. */
  lemma InForceIsTheHolders(w: World, b: Books, garage: Garage, identity: string, direction: Direction, at: Instant, p: PassId)
    requires BooksOk(b) && !garage.unreadable && PlateKey(identity) != ""
    requires HeldBy(b.rows, garage.id, PlateKey(identity), DayAt(w, garage, at), p)
    ensures var regs := Handed(w, b, garage, identity, direction, at);
            && (exists r :: r in regs && CoversDay(r, DayAt(w, garage, at)))
            && regs == RegistrationsOf(b, garage.id, identity, Today(w, garage, at))
            && forall r :: r in regs && CoversDay(r, DayAt(w, garage, at)) ==> r.pass == p
  {
    var today := Today(w, garage, at);
    var found := RegistrationsOf(b, garage.id, identity, today);
    HeldIsFound(b, garage.id, identity, today, today.value, p);
    assert Handed(w, b, garage, identity, direction, at) == found;
    forall r | r in found && CoversDay(r, today.value) ensures r.pass == p {
      FoundIsRow(b, garage.id, identity, today, r);
      var row :| row in b.rows && OfCarAt(row, garage.id, PlateKey(identity))
                 && r == RegistrationOf(b.codes, PlateKey(identity), today, row);
      var i: nat :| i < |b.rows| && b.rows[i] == row;
      assert Holds(b.rows, i, garage.id, PlateKey(identity), today.value);
      OneHolder(b, garage.id, PlateKey(identity), today.value, p, r.pass);
    }
  }

  /** On a live stay the answer is about the QR's own pass, or names none. */
  lemma LiveStayAnswers(w: World, b: Books, garage: Garage, c: Code, lane: string, direction: Direction, at: Instant)
    requires BooksOk(b) && !garage.unreadable && BoundTo(c).Some? && PlateKey(BoundTo(c).value) != ""
    requires StayOfCode(b, garage, c, DayAt(w, garage, at)) == Runs.Live
    ensures AnswerInTransaction(w, b, garage, BoundTo(c).value, lane, direction, at, None).pass in {None, Some(c.pass)}
  {
    var identity := BoundTo(c).value;
    var m := Movement(garage, Strip(identity), lane, direction, at, None);
    LiveIsHeld(b, garage, c, DayAt(w, garage, at));
    MovementOfCar(garage, identity, lane, direction, at, None);
    ByIdentity(w, b, garage, identity, lane, direction, at, None);
    InForceIsTheHolders(w, b, garage, Strip(identity), direction, at, c.pass);
    var rs := RecordsFor(b, Handed(w, b, garage, Strip(identity), direction, at), garage.id);
    var r :| r in Handed(w, b, garage, Strip(identity), direction, at) && CoversDay(r, DayAt(w, garage, at));
    assert r in InForce(w, m, rs);
    OnePassAnswer(w, m, rs, c.pass);
  }

  lemma LastDayInForce(w: World, b: Books, m: Movement, stay: Registration)
    requires BooksOk(b) && stay.pass in b.passes && m.garage.id in b.passes[stay.pass].garages
    requires PlateKey(stay.identity) == PlateKey(Strip(m.identity)) && CoversDay(stay, Now(w, m).day)
    ensures var rs := RecordsFor(b, [stay], m.garage.id);
            && RecordsOk(rs) && Dangling(w, m, rs) == [] && !AnyDuplicated(m, rs.passes, InForce(w, m, rs))
            && InForce(w, m, rs) != [] && (forall r :: r in InForce(w, m, rs) ==> r == stay)
  {
    HandedIsConsistent(w, b, [stay], m);
    assert stay in [stay];
    assert stay in InForce(w, m, RecordsFor(b, [stay], m.garage.id));
  }

  lemma OneStayAnswers(w: World, b: Books, m: Movement, stay: Registration)
    requires BooksOk(b) && stay.pass in b.passes && m.garage.id in b.passes[stay.pass].garages
    requires PlateKey(stay.identity) == PlateKey(Strip(m.identity)) && CoversDay(stay, Now(w, m).day)
    ensures RecordsOk(RecordsFor(b, [stay], m.garage.id))
    ensures AccessAnswer(w, m, RecordsFor(b, [stay], m.garage.id)).pass in {None, Some(stay.pass)}
  {
    LastDayInForce(w, b, m, stay);
    OnePassAnswer(w, m, RecordsFor(b, [stay], m.garage.id), stay.pass);
  }

  /** On the day the stay ended early only that stay is handed in. */
  lemma LastDayAnswers(w: World, b: Books, garage: Garage, c: Code, from: Day, lane: string, direction: Direction, at: Instant)
    requires BooksOk(b) && BoundTo(c).Some? && c.pass in b.passes && garage.id in b.passes[c.pass].garages
    requires from <= DayAt(w, garage, at)
    ensures AnswerOnTheStaysLastDay(w, b, garage, PlateKey(BoundTo(c).value), c.pass, from, lane, direction, at).pass
            in {None, Some(c.pass)}
  {
    MovementOfCar(garage, BoundTo(c).value, lane, direction, at, None);
    var m := Movement(garage, PlateKey(BoundTo(c).value), lane, direction, at, None);
    OneStayAnswers(w, b, m, TheStay(w, garage, m.identity, c.pass, from, at));
  }

  /** Rows never begin after they end. */
  ghost predicate RowsRun(b: Books) {
    forall i :: 0 <= i < |b.rows| ==> b.rows[i].end.Some? ==> b.rows[i].from <= b.rows[i].end.value
  }

  /** The earliest of the rows that ended early today, or today where there is none. */
  lemma {:induction false} LastDayFromIsEarlier(rows: seq<Register.Row>, g: GarageId, p: PassId, key: string, today: Day)
    requires forall i :: 0 <= i < |rows| ==> rows[i].end.Some? ==> rows[i].from <= rows[i].end.value
    ensures LastDayFrom(rows, g, p, key, today) <= today
    ensures forall i :: 0 <= i < |rows| && EndedEarly(rows[i], g, p, key, today) ==> LastDayFrom(rows, g, p, key, today) <= rows[i].from
    ensures LastDayFrom(rows, g, p, key, today) == today || BeganOn(rows, g, p, key, today, LastDayFrom(rows, g, p, key, today))
  {
    if rows != [] {
      var rest := rows[1..];
      LastDayFromIsEarlier(rest, g, p, key, today);
      forall i | 0 <= i < |rows| && EndedEarly(rows[i], g, p, key, today)
        ensures LastDayFrom(rows, g, p, key, today) <= rows[i].from
      {
        assert i > 0 ==> rest[i - 1] == rows[i];
      }
      var from := LastDayFrom(rest, g, p, key, today);
      if BeganOn(rest, g, p, key, today, from) {
        var j :| 0 <= j < |rest| && EndedEarly(rest[j], g, p, key, today) && rest[j].from == from;
        assert rows[j + 1] == rest[j];
      }
    }
  }

  ghost predicate BeganOn(rows: seq<Register.Row>, g: GarageId, p: PassId, key: string, today: Day, from: Day) {
    exists i :: 0 <= i < |rows| && EndedEarly(rows[i], g, p, key, today) && rows[i].from == from
  }

  /** EVERY RECOGNISED ANSWER is about the QR's own pass, or names no pass: on a live stay
      and on its last day, at an entry and at an exit, by the read or by a picture match. */
  lemma RecognisedNamesItsOwnPass(w: World, b: Books, garage: Garage, c: Code, read: string, matched: bool, lane: string,
                                  direction: Direction, at: Instant)
    requires BooksOk(b) && RowsRun(b) && !garage.unreadable
    requires BoundTo(c).Some? && PlateKey(BoundTo(c).value) != "" && c.pass in b.passes && garage.id in b.passes[c.pass].garages
    ensures var use := UseOf(w, b, garage, c, read, direction, at);
            use.Recognised? ==> RecognisedAnswer(w, b, garage, c, use.stay, lane, direction, at).pass in {None, Some(c.pass)}
    ensures var use := MatchedUse(w, b, garage, c, matched, read, direction, at);
            use.Recognised? ==> RecognisedAnswer(w, b, garage, c, use.stay, lane, direction, at).pass in {None, Some(c.pass)}
  {
    RecognisedWhileItStands(w, b, garage, c, read, matched, direction, at);
    if StayOfCode(b, garage, c, DayAt(w, garage, at)) in {Runs.Live, Runs.LastDay} {
      ItsStayAnswers(w, b, garage, c, lane, direction, at);
    }
  }

  /** A QR is recognised only on its live stay, or on the day that ended. */
  lemma RecognisedWhileItStands(w: World, b: Books, garage: Garage, c: Code, read: string, matched: bool, direction: Direction,
                                at: Instant)
    requires BoundTo(c).Some?
    ensures var use, stay := UseOf(w, b, garage, c, read, direction, at), StayOfCode(b, garage, c, DayAt(w, garage, at));
            use.Recognised? ==> use.stay == stay && stay in {Runs.Live, Runs.LastDay}
    ensures var use, stay := MatchedUse(w, b, garage, c, matched, read, direction, at), StayOfCode(b, garage, c, DayAt(w, garage, at));
            use.Recognised? ==> use.stay == stay && stay in {Runs.Live, Runs.LastDay}
  {
  }

  lemma ItsStayAnswers(w: World, b: Books, garage: Garage, c: Code, lane: string, direction: Direction, at: Instant)
    requires BooksOk(b) && RowsRun(b) && !garage.unreadable
    requires BoundTo(c).Some? && PlateKey(BoundTo(c).value) != "" && c.pass in b.passes && garage.id in b.passes[c.pass].garages
    requires StayOfCode(b, garage, c, DayAt(w, garage, at)) in {Runs.Live, Runs.LastDay}
    ensures RecognisedAnswer(w, b, garage, c, StayOfCode(b, garage, c, DayAt(w, garage, at)), lane, direction, at).pass
            in {None, Some(c.pass)}
  {
    var today := DayAt(w, garage, at);
    if StayOfCode(b, garage, c, today) == Runs.Live {
      LiveStayAnswers(w, b, garage, c, lane, direction, at);
    } else {
      var key := PlateKey(BoundTo(c).value);
      LastDayFromIsEarlier(b.rows, garage.id, c.pass, key, today);
      LastDayAnswers(w, b, garage, c, LastDayFrom(b.rows, garage.id, c.pass, key, today), lane, direction, at);
    }
  }

  // ------------------------------------------------------------- two QRs of one plate

  ghost predicate RecognisedAtEntry(w: World, b: Books, garage: Garage, c: Code, at: Instant) {
    BoundTo(c).Some?
    && exists read :: || UseOf(w, b, garage, c, read, Entry, at).Recognised?
                      || MatchedUse(w, b, garage, c, true, read, Entry, at).Recognised?
  }

  /** A QR that opens at an entry while its stay lasts: bound, not cancelled, not replaced. */
  predicate Usable(c: Code) {
    BoundTo(c).Some? && c.state != Cancelled && c.exitOnlyAt.None?
  }

  /** A QR is recognised at an entry, by some read or picture match, exactly when it is
      usable and its pass holds its plate there that day. */
  lemma RecognisedIff(w: World, b: Books, garage: Garage, c: Code, at: Instant)
    ensures RecognisedAtEntry(w, b, garage, c, at) <==>
              Usable(c) && HeldBy(b.rows, garage.id, PlateKey(BoundTo(c).value), DayAt(w, garage, at), c.pass)
  {
    if BoundTo(c).Some? {
      LiveIsHeld(b, garage, c, DayAt(w, garage, at));
      if Usable(c) && HeldBy(b.rows, garage.id, PlateKey(BoundTo(c).value), DayAt(w, garage, at), c.pass) {
        assert MatchedUse(w, b, garage, c, true, "", Entry, at).Recognised?;
      }
    }
  }

  /** TWO QRS OF DIFFERENT PASSES for one plate are never both recognised at an entry at one
      garage on one local day, by one state of the register, whatever the lanes read. */
  lemma NeverTwoPasses(w: World, b: Books, garage: Garage, c: Code, d: Code, at: Instant, later: Instant)
    requires BooksOk(b) && RecognisedAtEntry(w, b, garage, c, at) && RecognisedAtEntry(w, b, garage, d, later)
    requires DayAt(w, garage, at) == DayAt(w, garage, later)
    requires PlateKey(BoundTo(c).value) == PlateKey(BoundTo(d).value)
    ensures c.pass == d.pass
  {
    RecognisedIff(w, b, garage, c, at);
    RecognisedIff(w, b, garage, d, later);
    OneHolder(b, garage.id, PlateKey(BoundTo(c).value), DayAt(w, garage, at), c.pass, d.pass);
  }

  // ------------------------------------------------------------------ a replaced car

  /** What an answer by identity says of a car replaced on the pass it is covered on. */
  lemma CoveredByIdentity(w: World, b: Books, garage: Garage, identity: string, lane: string, direction: Direction, at: Instant,
                          enteredAt: Option<Instant>, p: PassId)
    requires BooksOk(b)
    requires var a := AnswerInTransaction(w, b, garage, identity, lane, direction, at, enteredAt);
             a.outcome == Covered && a.pass == Some(p)
    requires Gone(b.codes, p, PlateKey(identity), Today(w, garage, at))
    ensures LeavesReplaced(direction, enteredAt, LatestReplacement(b.codes, p, PlateKey(identity)),
                           AnswerInTransaction(w, b, garage, identity, lane, direction, at, enteredAt))
  {
    var m := Movement(garage, Strip(identity), lane, direction, at, enteredAt);
    ByIdentity(w, b, garage, identity, lane, direction, at, enteredAt);
    var rs := RecordsFor(b, Handed(w, b, garage, Strip(identity), direction, at), garage.id);
    InForceIsGone(w, b, garage, identity, direction, at, InForce(w, m, rs), p);
    CoveredOnAReplacedCar(w, m, rs, p, LatestReplacement(b.codes, p, PlateKey(identity)));
  }

  lemma CoveredOnAReplacedCar(w: World, m: Movement, rs: Records, p: PassId, latest: Option<Instant>)
    requires RecordsOk(rs) && latest.Some?
    requires AccessAnswer(w, m, rs).outcome == Covered && AccessAnswer(w, m, rs).pass == Some(p)
    requires forall r :: r in InForce(w, m, rs) && r.pass == p ==> r.exitOnly && r.exitOnlyAt == latest
    ensures m.direction == Exit
    ensures m.enteredAt.Some? ==> m.enteredAt.value < latest.value
    ensures m.enteredAt.None? ==> AccessAnswer(w, m, rs).replacementUnmeasured
  {
    var effective := InForce(w, m, rs);
    CoveredIsEvaluated(w, m, rs);
    var q :| q in rs.passes && (exists r :: r in effective && r.pass == q.id)
             && AccessAnswer(w, m, rs) == Evaluate(w, m, rs, effective, q);
    EvaluateCovers(w, m, rs, effective, q);
    GoneIsNotReplacedBefore(m, effective, p, latest);
    EvaluatedReplacement(w, m, rs, effective, q);
  }

  lemma EvaluatedReplacement(w: World, m: Movement, rs: Records, effective: seq<Registration>, p: Pass)
    requires PassOk(p) && Evaluate(w, m, rs, effective, p).outcome == Covered
    ensures Evaluate(w, m, rs, effective, p).replacementUnmeasured == ReplacementUnmeasured(m, effective, p.id)
  {
  }

  lemma InForceIsGone(w: World, b: Books, garage: Garage, identity: string, direction: Direction, at: Instant,
                      effective: seq<Registration>, p: PassId)
    requires BooksOk(b)
    requires forall r :: r in effective ==> r in Handed(w, b, garage, Strip(identity), direction, at)
    requires Gone(b.codes, p, PlateKey(identity), Today(w, garage, at))
    ensures forall r :: r in effective && r.pass == p ==>
              r.exitOnly && r.exitOnlyAt == LatestReplacement(b.codes, p, PlateKey(identity))
  {
    HandedKnown(w, b, garage, Strip(identity), direction, at);
    StripKeepsKey(identity);
    forall r | r in effective && r.pass == p
      ensures r.exitOnly && r.exitOnlyAt == LatestReplacement(b.codes, p, PlateKey(identity))
    {
      var row :| ReadFrom(w, b, garage, PlateKey(Strip(identity)), direction, at, r, row);
    }
  }

  lemma GoneIsNotReplacedBefore(m: Movement, effective: seq<Registration>, p: PassId, latest: Option<Instant>)
    requires latest.Some?
    requires forall r :: r in effective && r.pass == p ==> r.exitOnly && r.exitOnlyAt == latest
    ensures (exists r :: r in effective && r.pass == p) ==> IsExitOnly(effective, p) && ReplacedAt(effective, p) == latest
  {
    ReplacedAtIsLatest(effective, p);
    if r :| r in effective && r.pass == p {
      assert ReplacedOn(r, p);
    }
  }

  /** FROM THE REPLACEMENT ON, in every run of the QRs: the replaced car's plate is covered
      at an entry on that pass only under another QR of it, live that day and not replaced;
      without one, an exit that entered at or after the latest replacement is not covered
      on it, and one with no stated entry is covered only with that named unmeasured. */
  lemma ReplacedCarDoesNotEnter(w: World, states: seq<seq<Code>>, b: Books, garage: Garage, identity: string, lane: string,
                                direction: Direction, at: Instant, enteredAt: Option<Instant>, p: PassId)
    requires RunOfMoves(states) && WasReplaced(states[0], p, PlateKey(identity))
    requires BooksOk(b) && b.codes == states[|states| - 1]
    requires var a := AnswerInTransaction(w, b, garage, identity, lane, direction, at, enteredAt);
             a.outcome == Covered && a.pass == Some(p)
    ensures StillLive(b.codes, p, PlateKey(identity), Today(w, garage, at))
            || LeavesReplaced(direction, enteredAt, LatestReplacement(b.codes, p, PlateKey(identity)),
                              AnswerInTransaction(w, b, garage, identity, lane, direction, at, enteredAt))
  {
    ReplacedStaysReplaced(states, p, PlateKey(identity));
    if Gone(b.codes, p, PlateKey(identity), Today(w, garage, at)) {
      CoveredByIdentity(w, b, garage, identity, lane, direction, at, enteredAt, p);
    }
  }

  /** An exit, by a stay that entered before the replacement, or says it could not be told. */
  predicate LeavesReplaced(direction: Direction, enteredAt: Option<Instant>, latest: Option<Instant>, a: Answer) {
    && direction == Exit
    && (enteredAt.Some? ==> latest.Some? && enteredAt.value < latest.value)
    && (enteredAt.None? ==> a.replacementUnmeasured)
  }

  /** The one path that does not ask: on the day the stay ended early, a QR's exit is
      answered as though its car had not been replaced. */
  lemma LastDayAsksNothingOfReplacement(w: World, b: Books, garage: Garage, c: Code, from: Day, lane: string,
                                        direction: Direction, at: Instant, codes: seq<Code>)
    requires BooksOk(b) && BoundTo(c).Some? && c.pass in b.passes && garage.id in b.passes[c.pass].garages
    requires from <= DayAt(w, garage, at)
    ensures var key := PlateKey(BoundTo(c).value);
            var a := AnswerOnTheStaysLastDay(w, b, garage, key, c.pass, from, lane, direction, at);
            && !a.replacementUnmeasured
            && a == AnswerOnTheStaysLastDay(w, b.(codes := codes), garage, key, c.pass, from, lane, direction, at)
  {
    MovementOfCar(garage, BoundTo(c).value, lane, direction, at, None);
    var m := Movement(garage, PlateKey(BoundTo(c).value), lane, direction, at, None);
    var stay := TheStay(w, garage, m.identity, c.pass, from, at);
    OneStayAnswers(w, b, m, stay);
    NothingAskedOfReplacement(w, b, m, stay);
    SamePasses(b, codes, [stay]);
  }

  lemma NothingAskedOfReplacement(w: World, b: Books, m: Movement, stay: Registration)
    requires BooksOk(b) && stay.pass in b.passes && m.garage.id in b.passes[stay.pass].garages && !stay.exitOnly
    requires PlateKey(stay.identity) == PlateKey(Strip(m.identity)) && CoversDay(stay, Now(w, m).day)
    requires RecordsOk(RecordsFor(b, [stay], m.garage.id))
    ensures !AccessAnswer(w, m, RecordsFor(b, [stay], m.garage.id)).replacementUnmeasured
  {
    var rs := RecordsFor(b, [stay], m.garage.id);
    LastDayInForce(w, b, m, stay);
    EveryExitIsAnswered(w, m, rs);
    if AccessAnswer(w, m, rs).outcome == Covered {
      CoveredIsEvaluated(w, m, rs);
      var q :| q in rs.passes && (exists r :: r in InForce(w, m, rs) && r.pass == q.id)
               && AccessAnswer(w, m, rs) == Evaluate(w, m, rs, InForce(w, m, rs), q);
      EvaluatedReplacement(w, m, rs, InForce(w, m, rs), q);
    }
  }

  lemma {:induction false} SamePasses(b: Books, codes: seq<Code>, regs: seq<Registration>)
    requires forall r :: r in regs ==> r.pass in b.passes
    ensures PassesFor(b.(codes := codes), regs) == PassesFor(b, regs)
  {
    if regs != [] {
      var n := |regs| - 1;
      assert regs[n] in regs && forall r :: r in regs <==> r in regs[..n] || r == regs[n];
      SamePasses(b, codes, regs[..n]);
    }
  }
}
