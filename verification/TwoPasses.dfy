/** Two passes' QRs for one plate on one local day: when the second can open. */
module TwoPasses {
  import opened Basics
  import opened Text
  import opened States
  import opened Plates
  import opened Terms
  import opened Codes
  import opened Access
  import opened Redemption
  import opened RedemptionProofs
  import opened RegisterProofs
  import opened GivenUp
  import Register
  import HoldStay
  import Runs

  /** THE SECOND PASS'S QR OPENS EXACTLY WHEN, since the first one's opened that day, some
      step took the day from the first pass -- an end, a stay's end, a revocation, another
      pass's turnover or release -- and the second pass holds it and its QR is usable. */
  lemma TwoPassesOneDayIff(w: World, dbs: seq<Runs.Db>, ops: seq<Runs.Op>, a: nat, z: nat, before: Books, after: Books,
                           garage: Garage, c: Code, d: Code, at: Instant, later: Instant)
    requires Runs.Run(dbs, ops) && a <= z < |dbs| && before.rows == dbs[a].rows && after.rows == dbs[z].rows
    requires RecognisedAtEntry(w, before, garage, c, at) && c.pass != d.pass
    requires DayAt(w, garage, at) == DayAt(w, garage, later)
    requires BoundTo(d).Some? ==> PlateKey(BoundTo(c).value) == PlateKey(BoundTo(d).value)
    ensures var key, today := PlateKey(BoundTo(c).value), DayAt(w, garage, at);
            RecognisedAtEntry(w, after, garage, d, later) <==>
              && GivenUpBetween(dbs, ops, a, z, garage.id, key, today, c.pass)
              && HeldBy(dbs[z].rows, garage.id, key, today, d.pass) && Usable(d)
  {
    var key, today := PlateKey(BoundTo(c).value), DayAt(w, garage, at);
    RecognisedIff(w, before, garage, c, at);
    RecognisedIff(w, after, garage, d, later);
    if RecognisedAtEntry(w, after, garage, d, later) {
      Runs.EveryRunKeepsTheRegister(dbs, ops, z);
      if HeldBy(dbs[z].rows, garage.id, key, today, c.pass) {
        OnePassADay(dbs[z].passes, dbs[z].rows, garage.id, key, today, c.pass, d.pass);
      }
      SomeStepGivesUp(dbs, ops, a, z, garage.id, key, today, c.pass);
    }
  }

  /** So without such a step the day stays the first pass's. */
  lemma OneDayOnePassUnlessGivenUp(w: World, dbs: seq<Runs.Db>, ops: seq<Runs.Op>, a: nat, z: nat, before: Books, after: Books,
                                   garage: Garage, c: Code, d: Code, at: Instant, later: Instant)
    requires Runs.Run(dbs, ops) && a <= z < |dbs| && before.rows == dbs[a].rows && after.rows == dbs[z].rows
    requires RecognisedAtEntry(w, before, garage, c, at) && RecognisedAtEntry(w, after, garage, d, later)
    requires DayAt(w, garage, at) == DayAt(w, garage, later) && PlateKey(BoundTo(c).value) == PlateKey(BoundTo(d).value)
    requires !GivenUpBetween(dbs, ops, a, z, garage.id, PlateKey(BoundTo(c).value), DayAt(w, garage, at), c.pass)
    ensures c.pass == d.pass
  {
    if c.pass != d.pass {
      TwoPassesOneDayIff(w, dbs, ops, a, z, before, after, garage, c, d, at, later);
    }
  }

  // ------------------------------------------------------------------ it does happen

  const PASSES := map[1 := Register.PassRow([1], Active, true, None), 2 := Register.PassRow([1], Active, true, None)]

  function Stay(pass: PassId, from: Day, end: Day, why: Register.Reason): Register.Row {
    Register.Row(1, pass, "X", from, Some(end), Some(why))
  }

  function WithRows(rows: seq<Register.Row>): Runs.Db {
    Runs.Db(PASSES, {}, rows)
  }

  function BooksWith(rows: seq<Register.Row>): Books {
    Books(rows, [FIRST_QR, SECOND_QR], map[], map[], [])
  }

  const FIRST_QR := Code(1, Some("X"), None, Issued, 0, 10, None)
  const SECOND_QR := Code(2, Some("X"), None, Issued, 5, 3, None)
  const HOTEL := Garage(1, "UTC", Some(true), false)

  function Registering(pass: PassId, from: Day, end: Day): Runs.Op {
    Runs.RegisterOp(1, pass, "X", from, Some(end), Register.AfterLastDay)
  }

  /** The guest checks out on day 5, and the car's next stay begins that day. */
  const CHECKOUT := [Registering(1, 0, 10), Runs.EndStayOp(1, 1, 5), Registering(2, 5, 8)]
  const CHECKED_OUT := [WithRows([]), WithRows([Stay(1, 0, 10, Register.AfterLastDay)]),
                        WithRows([Stay(1, 0, 5, Register.ByCheckout)]),
                        WithRows([Stay(1, 0, 5, Register.ByCheckout), Stay(2, 5, 8, Register.AfterLastDay)])]

  /** Nobody ends anything: day 5 is the first stay's last, and the next stay turns it over. */
  const TURNOVER := [Registering(1, 0, 6), Registering(2, 5, 8)]
  const TURNED_OVER := [WithRows([]), WithRows([Stay(1, 0, 6, Register.AfterLastDay)]),
                        WithRows([Stay(1, 0, 5, Register.ByNextStay), Stay(2, 5, 8, Register.AfterLastDay)])]

  lemma RegistersFirst(end: Day)
    requires end > 0
    ensures Runs.Step(WithRows([]), Registering(1, 0, end), WithRows([Stay(1, 0, end, Register.AfterLastDay)]))
  {
    var out := Register.Registered(PASSES, [], 1, "X", 0, Some(end), Register.AfterLastDay);
    assert out == [Stay(1, 0, end, Register.AfterLastDay)];
  }

  lemma RegistersSecond(first: Register.Row, settled: Register.Row)
    requires first.garage == 1 && first.plate == "X" && first.pass == 1
    requires Register.Judge(PASSES, 2, "X", 5, Some(8), first) != Register.Blocked
    requires settled == Register.Settled(PASSES, 2, "X", 5, Some(8), first)
    ensures Runs.Step(WithRows([first]), Registering(2, 5, 8), WithRows([settled, Stay(2, 5, 8, Register.AfterLastDay)]))
  {
    var out := Register.Registered(PASSES, [first], 2, "X", 5, Some(8), Register.AfterLastDay);
    assert out == [settled, Stay(2, 5, 8, Register.AfterLastDay)];
    assert !Register.SomeRowBlocks(PASSES, [first], 2, "X", 5, Some(8));
  }

  lemma CheckoutRuns()
    ensures Runs.Run(CHECKED_OUT, CHECKOUT)
  {
    RegistersFirst(10);
    var first := Stay(1, 0, 10, Register.AfterLastDay);
    assert Register.StayEnded([first], 1, 5) == [Stay(1, 0, 5, Register.ByCheckout)];
    RegistersSecond(Stay(1, 0, 5, Register.ByCheckout), Stay(1, 0, 5, Register.ByCheckout));
  }

  lemma TurnoverRuns()
    ensures Runs.Run(TURNED_OVER, TURNOVER)
  {
    RegistersFirst(6);
    RegistersSecond(Stay(1, 0, 6, Register.AfterLastDay), Stay(1, 0, 5, Register.ByNextStay));
  }

  /** A QR shown by its own plate while its pass holds the day. */
  lemma Opens(w: World, rows: seq<Register.Row>, i: nat, c: Code, at: Instant)
    requires c in {FIRST_QR, SECOND_QR} && DayAt(w, HOTEL, at) == 5
    requires Holds(rows, i, 1, "X", 5) && rows[i].pass == c.pass
    ensures UseOf(w, BooksWith(rows), HOTEL, c, "X", Entry, at) == Recognised(SamePlate, Runs.Live)
  {
    PlateX();
    HeldByRow(rows, i, 1, "X", 5, c.pass);
    LiveIsHeld(BooksWith(rows), HOTEL, c, 5);
  }

  lemma PlateX()
    ensures PlateKey("X") == "X" && Strip("X") == "X"
  {
    StripTrims("X");
    assert "X"[1..] == "";
  }

  /** Both QRs open on day 5, before and after a checkout. */
  lemma BothOpenAroundACheckout(w: World, at: Instant, later: Instant)
    requires DayAt(w, HOTEL, at) == 5 && DayAt(w, HOTEL, later) == 5
    ensures Runs.Run(CHECKED_OUT, CHECKOUT)
    ensures UseOf(w, BooksWith(CHECKED_OUT[1].rows), HOTEL, FIRST_QR, "X", Entry, at).Recognised?
    ensures UseOf(w, BooksWith(CHECKED_OUT[3].rows), HOTEL, SECOND_QR, "X", Entry, later).Recognised?
  {
    CheckoutRuns();
    Opens(w, CHECKED_OUT[1].rows, 0, FIRST_QR, at);
    Opens(w, CHECKED_OUT[3].rows, 1, SECOND_QR, later);
  }

  /** And around the checkout-day turnover that the next stay's registration makes itself. */
  lemma BothOpenAroundATurnover(w: World, at: Instant, later: Instant)
    requires DayAt(w, HOTEL, at) == 5 && DayAt(w, HOTEL, later) == 5
    ensures Runs.Run(TURNED_OVER, TURNOVER)
    ensures UseOf(w, BooksWith(TURNED_OVER[1].rows), HOTEL, FIRST_QR, "X", Entry, at).Recognised?
    ensures UseOf(w, BooksWith(TURNED_OVER[2].rows), HOTEL, SECOND_QR, "X", Entry, later).Recognised?
  {
    TurnoverRuns();
    Opens(w, TURNED_OVER[1].rows, 0, FIRST_QR, at);
    Opens(w, TURNED_OVER[2].rows, 1, SECOND_QR, later);
  }
}
