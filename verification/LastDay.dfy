/** A replaced car at an exit: named unmeasured when no entry is stated, but for one path. */
module LastDay {
  import opened Basics
  import opened Text
  import opened States
  import opened Plates
  import opened Terms
  import opened Lists
  import opened Codes
  import opened Access
  import opened AccessProofs
  import opened Redemption
  import opened RedemptionProofs
  import Register
  import Runs
  import Sets

  /** A RECOGNISED EXIT OF A REPLACED CAR, covered with no stated entry, by the read or by a
      picture match, says that its replacement could not be measured exactly when its stay
      did not end that very day. */
  lemma ReplacedExitSaysSoIff(w: World, b: Books, garage: Garage, c: Code, use: Use, read: string, matched: bool, lane: string,
                              at: Instant)
    requires BooksOk(b) && RowsRun(b) && !garage.unreadable
    requires BoundTo(c).Some? && PlateKey(BoundTo(c).value) != "" && c.pass in b.passes && garage.id in b.passes[c.pass].garages
    requires use == UseOf(w, b, garage, c, read, Exit, at) || use == MatchedUse(w, b, garage, c, matched, read, Exit, at)
    requires use.Recognised? && Gone(b.codes, c.pass, PlateKey(BoundTo(c).value), Today(w, garage, at))
    requires RecognisedAnswer(w, b, garage, c, use.stay, lane, Exit, at).outcome == Covered
    ensures use.stay == StayOfCode(b, garage, c, DayAt(w, garage, at))
    ensures RecognisedAnswer(w, b, garage, c, use.stay, lane, Exit, at).replacementUnmeasured
            <==> StayOfCode(b, garage, c, DayAt(w, garage, at)) != Runs.LastDay
  {
    var today := DayAt(w, garage, at);
    if use.stay == Runs.LastDay {
      var key := PlateKey(BoundTo(c).value);
      LastDayFromIsEarlier(b.rows, garage.id, c.pass, key, today);
      LastDayAsksNothingOfReplacement(w, b, garage, c, LastDayFrom(b.rows, garage.id, c.pass, key, today), lane, Exit, at, b.codes);
    } else {
      LiveExitSaysSo(w, b, garage, c, lane, at);
    }
  }

  lemma LiveExitSaysSo(w: World, b: Books, garage: Garage, c: Code, lane: string, at: Instant)
    requires BooksOk(b) && !garage.unreadable && BoundTo(c).Some? && PlateKey(BoundTo(c).value) != ""
    requires StayOfCode(b, garage, c, DayAt(w, garage, at)) == Runs.Live
    requires Gone(b.codes, c.pass, PlateKey(BoundTo(c).value), Today(w, garage, at))
    requires AnswerInTransaction(w, b, garage, BoundTo(c).value, lane, Exit, at, None).outcome == Covered
    ensures AnswerInTransaction(w, b, garage, BoundTo(c).value, lane, Exit, at, None).replacementUnmeasured
  {
    LiveStayAnswers(w, b, garage, c, lane, Exit, at);
    CoveredNamesAPass(w, b, garage, BoundTo(c).value, lane, at);
    CoveredByIdentity(w, b, garage, BoundTo(c).value, lane, Exit, at, None, c.pass);
  }

  lemma CoveredNamesAPass(w: World, b: Books, garage: Garage, identity: string, lane: string, at: Instant)
    requires BooksOk(b) && AnswerInTransaction(w, b, garage, identity, lane, Exit, at, None).outcome == Covered
    ensures AnswerInTransaction(w, b, garage, identity, lane, Exit, at, None).pass.Some?
  {
    ByIdentity(w, b, garage, identity, lane, Exit, at, None);
    EveryExitIsAnswered(w, Movement(garage, Strip(identity), lane, Exit, at, None),
                        RecordsFor(b, Handed(w, b, garage, Strip(identity), Exit, at), garage.id));
  }

  // ------------------------------------------------------------------ it does happen

  const NOON := World((timezone: string, at: Instant) => Wall(5, 720), (t: Terms) => "", (k: CopyKey) => 0)
  const GATE := Garage(1, "UTC", Some(true), false)
  const OPEN := Terms(None, None, [], None, None, {Entry, Exit}, None)
  const HELD := Pass(1, {1}, "guest", Some(OPEN), Active, false)

  /** Made for plate X on pass 1, its car replaced at instant 0. */
  const REPLACED := Code(1, Some("X"), None, Issued, 0, 10, Some(0))

  /** The stay ended on day 5: the guest checked out, or the car's next stay began, which is
      on pass 2 and holds the plate from that day. */
  function EndedToday(why: Register.Reason): Books {
    var ended := Register.Row(1, 1, "X", 0, Some(5), Some(why));
    var next := Register.Row(1, 2, "X", 5, Some(8), Some(Register.AfterLastDay));
    Books(if why == Register.ByNextStay then [ended, next] else [ended], [REPLACED], map[1 := HELD, 2 := HELD.(id := 2)],
          map[1 := GATE], [])
  }

  lemma EndedTodayIsOk(why: Register.Reason)
    ensures BooksOk(EndedToday(why)) && RowsRun(EndedToday(why))
  {
    XIsItsKey();
  }

  lemma XIsItsKey()
    ensures PlateKey("X") == "X" && Strip("X") == "X" && Strip("A") == "A"
  {
    StripTrims("X");
    StripTrims("A");
    assert "X"[1..] == "";
  }

  /** A replaced car's QR, on the day its stay ended, lets it out with nothing said of the
      replacement, although the car is gone from the pass. */
  lemma LetOutWithNothingSaid(why: Register.Reason)
    requires why in {Register.ByCheckout, Register.ByNextStay}
    ensures why == Register.ByNextStay ==> Runs.StayOf(EndedToday(why).rows, 1, 2, "X", 5) == Runs.Live
    ensures var b := EndedToday(why);
            && UseOf(NOON, b, GATE, REPLACED, "X", Exit, 0) == Recognised(SamePlate, Runs.LastDay)
            && Gone(b.codes, 1, "X", Today(NOON, GATE, 0)) && BooksOk(b)
            && RecognisedAnswer(NOON, b, GATE, REPLACED, Runs.LastDay, "A", Exit, 0).outcome == Covered
            && !RecognisedAnswer(NOON, b, GATE, REPLACED, Runs.LastDay, "A", Exit, 0).replacementUnmeasured
  {
    var b := EndedToday(why);
    EndedTodayIsOk(why);
    assert why == Register.ByNextStay ==> Runs.OfStay(b.rows[1], 1, 2, "X") && Register.Covers(b.rows[1], 5);
    ShownOnTheLastDay(b, why);
    ItBeganOnDayZero(why);
    LetOut(b, why);
    LastDayAsksNothingOfReplacement(NOON, b, GATE, REPLACED, 0, "A", Exit, 0, b.codes);
  }

  lemma ShownOnTheLastDay(b: Books, why: Register.Reason)
    requires why in {Register.ByCheckout, Register.ByNextStay} && b == EndedToday(why)
    ensures UseOf(NOON, b, GATE, REPLACED, "X", Exit, 0) == Recognised(SamePlate, Runs.LastDay)
    ensures Gone(b.codes, 1, "X", Today(NOON, GATE, 0)) && PlateKey(BoundTo(REPLACED).value) == "X"
  {
    XIsItsKey();
    assert OfCar(b.codes[0], 1, "X");
    assert Runs.OfStay(b.rows[0], 1, 1, "X") && b.rows[0].end == Some(5);
  }

  lemma LetOut(b: Books, why: Register.Reason)
    requires why in {Register.ByCheckout, Register.ByNextStay} && b == EndedToday(why) && BooksOk(b)
    ensures AnswerOnTheStaysLastDay(NOON, b, GATE, "X", 1, 0, "A", Exit, 0).outcome == Covered
  {
    XIsItsKey();
    var m := Movement(GATE, "X", "A", Exit, 0, None);
    var stay := TheStay(NOON, GATE, "X", 1, 0, 0);
    var rs := RecordsFor(b, [stay], 1);
    OnlyStay(b, stay);
    OneCarAnswer(NOON, m, rs, HELD);
    LeavesFreely(m, rs, stay);
  }

  lemma ItBeganOnDayZero(why: Register.Reason)
    requires why in {Register.ByCheckout, Register.ByNextStay}
    ensures LastDayFrom(EndedToday(why).rows, 1, 1, "X", 5) == 0
  {
    var rows := EndedToday(why).rows;
    assert EndedEarly(rows[0], 1, 1, "X", 5);
    if why == Register.ByNextStay {
      assert !EndedEarly(rows[1], 1, 1, "X", 5) && rows[1..] == [rows[1]] && rows[1..][1..] == [];
      assert LastDayFrom(rows[1..], 1, 1, "X", 5) == 5;
    }
  }

  lemma OnlyStay(b: Books, stay: Registration)
    requires stay.pass == 1 && 1 in b.passes && b.passes[1] == HELD
    ensures PassesFor(b, [stay]) == [HELD]
  {
    assert [stay][..0] == [];
  }

  lemma LeavesFreely(m: Movement, rs: Records, stay: Registration)
    requires m == Movement(GATE, "X", "A", Exit, 0, None) && rs.registrations == [stay] && !stay.exitOnly
    ensures Satisfies(NOON, m, rs, rs.registrations, HELD)
  {
  }
}
