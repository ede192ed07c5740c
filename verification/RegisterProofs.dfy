/** What every write to the register keeps, and what a registration holds. */
module RegisterProofs {
  import opened Basics
  import opened States
  import opened Register

  // -------------------------------------------------------- shortening a row

  /** The same row, ending no later. */
  ghost predicate Shortened(r: Row, s: Row) {
    && s.garage == r.garage && s.pass == r.pass && s.plate == r.plate && s.from == r.from
    && (s == r || (s.end.Some? && s.why.Some? && s.from <= s.end.value
                   && (r.end.None? || s.end.value <= r.end.value)))
  }

  ghost predicate AllShortened(rows: seq<Row>, out: seq<Row>) {
    |out| == |rows| && forall i :: 0 <= i < |rows| ==> Shortened(rows[i], out[i])
  }

  lemma ShortenedApart(a: Row, b: Row, a': Row, b': Row)
    requires Shortened(a, a') && Shortened(b, b') && Apart(a, b)
    ensures Apart(a', b')
  {
  }

  /** Shortening rows, whichever and however far, never lets two of them meet. */
  lemma ShorteningKeepsGood(passes: map<PassId, PassRow>, rows: seq<Row>, out: seq<Row>)
    requires Good(passes, rows) && AllShortened(rows, out)
    ensures Good(passes, out)
  {
    forall i | 0 <= i < |out| ensures RowOk(passes, out[i]) {
      assert RowOk(passes, rows[i]) && Shortened(rows[i], out[i]);
    }
    forall i, j | 0 <= i < j < |out| ensures Apart(out[i], out[j]) {
      assert Shortened(rows[i], out[i]) && Shortened(rows[j], out[j]);
      ShortenedApart(rows[i], rows[j], out[i], out[j]);
    }
  }

  // -------------------------------------------------------------- registering

  /** The row a registration turns over, or releases, ends before the new one begins. */
  lemma SettledMakesRoom(passes: map<PassId, PassRow>, p: PassId, plate: string, from: Day, end: Option<Day>, r: Row)
    requires p in passes && RowOk(passes, r)
    requires Judge(passes, p, plate, from, end, r) != Blocked
    ensures Shortened(r, Settled(passes, p, plate, from, end, r))
    ensures RowOk(passes, Settled(passes, p, plate, from, end, r))
    ensures r.garage in passes[p].garages && r.plate == plate ==>
              !Overlaps(Settled(passes, p, plate, from, end, r), from, end)
    ensures r.pass == p ==> Settled(passes, p, plate, from, end, r) == r
                            || (r.end.None? && passes[p].validTo.Some? && passes[p].validTo.value < from)
  {
  }

  ghost predicate Registers(passes: map<PassId, PassRow>, unreadable: set<GarageId>, rows: seq<Row>,
                            at: GarageId, p: PassId, plate: string, from: Day, end: Option<Day>)
  {
    Good(passes, rows) && RegisterRefusal(passes, unreadable, rows, at, p, plate, from, end).None?
  }

  lemma RegisteredShape(passes: map<PassId, PassRow>, unreadable: set<GarageId>, rows: seq<Row>,
                        at: GarageId, p: PassId, plate: string, from: Day, end: Option<Day>, why: Reason)
    requires Registers(passes, unreadable, rows, at, p, plate, from, end)
    ensures p in passes && at in passes[p].garages && plate != ""
    ensures var out := Registered(passes, rows, p, plate, from, end, why);
            |out| == |rows| + |passes[p].garages| && AllShortened(rows, out[..|rows|])
    ensures forall i :: 0 <= i < |rows| ==> Judge(passes, p, plate, from, end, rows[i]) != Blocked
    ensures Nonempty(from, end)
  {
    var out := Registered(passes, rows, p, plate, from, end, why);
    forall i | 0 <= i < |rows|
      ensures Judge(passes, p, plate, from, end, rows[i]) != Blocked
      ensures Shortened(rows[i], out[..|rows|][i])
    {
      assert RowOk(passes, rows[i]);
      SettledMakesRoom(passes, p, plate, from, end, rows[i]);
    }
  }

  /** Registering keeps the register: no two rows of a plate meet at a garage, by the
      module's own checks and with no database constraint behind them. */
  lemma RegisteringKeepsGood(passes: map<PassId, PassRow>, unreadable: set<GarageId>, rows: seq<Row>,
                             at: GarageId, p: PassId, plate: string, from: Day, end: Option<Day>, why: Reason)
    requires Registers(passes, unreadable, rows, at, p, plate, from, end)
    ensures p in passes && Good(passes, Registered(passes, rows, p, plate, from, end, why))
  {
    RegisteredShape(passes, unreadable, rows, at, p, plate, from, end, why);
    var out := Registered(passes, rows, p, plate, from, end, why);
    var settled := out[..|rows|];
    ShorteningKeepsGood(passes, rows, settled);
    forall i | 0 <= i < |out| ensures RowOk(passes, out[i]) {
      if i < |rows| {
        assert out[i] == settled[i];
      } else {
        assert out[i] == NewRow(p, plate, from, end, why, passes[p].garages[i - |rows|]);
      }
    }
    forall i, j | 0 <= i < j < |out| ensures Apart(out[i], out[j]) {
      if j < |rows| {
        assert out[i] == settled[i] && out[j] == settled[j];
      } else {
        assert out[j] == NewRow(p, plate, from, end, why, passes[p].garages[j - |rows|]);
        if i < |rows| {
          assert RowOk(passes, rows[i]);
          SettledMakesRoom(passes, p, plate, from, end, rows[i]);
        } else {
          assert out[i] == NewRow(p, plate, from, end, why, passes[p].garages[i - |rows|]);
          assert passes[p].garages[i - |rows|] != passes[p].garages[j - |rows|];
        }
      }
    }
  }

  // ------------------------------------------------------------- the calendar

  /** Row `i` is the plate's row at the garage that day. */
  ghost predicate Holds(rows: seq<Row>, i: nat, g: GarageId, plate: string, d: Day) {
    i < |rows| && rows[i].garage == g && rows[i].plate == plate && Covers(rows[i], d)
  }

  /** The pass holds the plate at the garage that day: some row of it covers the day. */
  ghost predicate HeldBy(rows: seq<Row>, g: GarageId, plate: string, d: Day, p: PassId) {
    exists i: nat :: Holds(rows, i, g, plate, d) && rows[i].pass == p
  }

  /** Read as a calendar, the register names at most one row a day. */
  lemma OneHolderADay(passes: map<PassId, PassRow>, rows: seq<Row>, i: nat, j: nat, g: GarageId, plate: string, d: Day)
    requires Good(passes, rows)
    requires Holds(rows, i, g, plate, d) && Holds(rows, j, g, plate, d)
    ensures i == j
  {
    if i != j {
      var a, b := Min(i, j), Max(i, j);
      assert Apart(rows[a], rows[b]);
      OverlapsIffADayIsShared(rows[a], rows[b].from, rows[b].end);
    }
  }

  lemma OnePassADay(passes: map<PassId, PassRow>, rows: seq<Row>, g: GarageId, plate: string, d: Day, p: PassId, q: PassId)
    requires Good(passes, rows)
    requires HeldBy(rows, g, plate, d, p) && HeldBy(rows, g, plate, d, q)
    ensures p == q
  {
    var i: nat :| Holds(rows, i, g, plate, d) && rows[i].pass == p;
    var j: nat :| Holds(rows, j, g, plate, d) && rows[j].pass == q;
    OneHolderADay(passes, rows, i, j, g, plate, d);
  }

  /** A registration makes its pass the holder of every day of the range, at every
      garage it names, on exactly one row there: the one it wrote. */
  lemma RegisteringHolds(passes: map<PassId, PassRow>, unreadable: set<GarageId>, rows: seq<Row>,
                         at: GarageId, p: PassId, plate: string, from: Day, end: Option<Day>, why: Reason,
                         k: nat, d: Day)
    requires Registers(passes, unreadable, rows, at, p, plate, from, end)
    requires p in passes && k < |passes[p].garages| && from <= d && (end.Some? ==> d < end.value)
    ensures var out := Registered(passes, rows, p, plate, from, end, why);
            forall i: nat :: Holds(out, i, passes[p].garages[k], plate, d) <==> i == |rows| + k
    ensures Registered(passes, rows, p, plate, from, end, why)[|rows| + k]
            == Row(passes[p].garages[k], p, plate, from, end, if end.Some? then Some(why) else None)
  {
    RegisteringKeepsGood(passes, unreadable, rows, at, p, plate, from, end, why);
    var out := Registered(passes, rows, p, plate, from, end, why);
    assert Holds(out, |rows| + k, passes[p].garages[k], plate, d);
    forall i: nat | Holds(out, i, passes[p].garages[k], plate, d) ensures i == |rows| + k {
      OneHolderADay(passes, out, i, |rows| + k, passes[p].garages[k], plate, d);
    }
  }

  /** What a registration leaves of everybody else's days. A row of another plate, at
      another garage or of the same pass is left as it was; another pass's row loses
      no day before the new one starts but days its own pass no longer runs to. */
  lemma RegisteringTouchesOnly(passes: map<PassId, PassRow>, unreadable: set<GarageId>, rows: seq<Row>,
                               at: GarageId, p: PassId, plate: string, from: Day, end: Option<Day>, why: Reason, i: nat)
    requires Registers(passes, unreadable, rows, at, p, plate, from, end) && i < |rows|
    requires p in passes && rows[i].pass in passes
    ensures var after := Registered(passes, rows, p, plate, from, end, why)[i];
            && ((rows[i].plate != plate || rows[i].garage !in passes[p].garages || rows[i].pass == p
                 || !Overlaps(rows[i], from, end)) ==> after == rows[i])
            && (forall d :: Covers(after, d) ==> Covers(rows[i], d))
            && (forall d :: Covers(rows[i], d) && !Covers(after, d) ==>
                  from <= d || (passes[rows[i].pass].validTo.Some? && passes[rows[i].pass].validTo.value < d))
            && (after != rows[i] ==>
                  (after.why == Some(ByNextStay) && after.end == Some(from))
                  || (after.why == Some(ByExpiry) && rows[i].end.None?))
  {
    RegisteredShape(passes, unreadable, rows, at, p, plate, from, end, why);
    assert RowOk(passes, rows[i]);
    SettledMakesRoom(passes, p, plate, from, end, rows[i]);
  }

  /** When a registration is refused for another hold, and only then: some day of the
      range is held, and not by a stay on its last day or a pass that has run out. */
  lemma BlockedMeansHeld(passes: map<PassId, PassRow>, p: PassId, plate: string, from: Day, end: Option<Day>, r: Row)
    requires p in passes && RowOk(passes, r)
    ensures Judge(passes, p, plate, from, end, r) == Blocked <==>
              && r.garage in passes[p].garages && r.plate == plate
              && (exists d :: Covers(r, d) && from <= d && (end.None? || d < end.value))
              && !Lapsed(passes, r, from)
              && (r.pass == p || !StaysLastDayIs(r, passes[r.pass].validTo, from))
  {
    OverlapsIffADayIsShared(r, from, end);
  }

  /** The row has begun, and `day` is the last day of its stay. */
  ghost predicate StaysLastDayIs(r: Row, validTo: Option<Day>, day: Day) {
    r.from <= day && ALastDay(r, validTo) && LastDay(r, validTo) == day
  }
}
