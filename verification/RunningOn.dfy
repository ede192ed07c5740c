/** Which of its own rows an issue runs on, and when it does: told in days and fields. */
module RunningOn {
  import opened Basics
  import opened States
  import opened Register
  import opened RegisterProofs
  import opened RegisterByDays
  import opened Stay
  import opened HoldStay
  import opened GivenUp
  import opened Runs
  import opened IssueByDays
  import Sets

  /** A row of the stay, ending on the day by its plan. */
  predicate PlannedTo(r: Row, g: GarageId, p: PassId, plate: string, first: Day) {
    r.garage == g && r.pass == p && r.plate == plate && r.from < first && r.end == Some(first) && r.why == Some(AfterLastDay)
  }

  ghost predicate PlannedThere(rows: seq<Row>, g: GarageId, p: PassId, plate: string, first: Day) {
    exists j :: 0 <= j < |rows| && PlannedTo(rows[j], g, p, plate, first)
  }

  /** One at every garage of the pass. */
  ghost predicate PlannedEverywhere(passes: map<PassId, PassRow>, rows: seq<Row>, p: PassId, plate: string, first: Day)
    requires p in passes
  {
    forall g :: g in passes[p].garages ==> PlannedThere(rows, g, p, plate, first)
  }

  /** No row of the plate, at a garage of the pass, on any day from one to the end. */
  ghost predicate NothingFrom(passes: map<PassId, PassRow>, rows: seq<Row>, p: PassId, plate: string, first: Day, end: Day)
    requires p in passes
  {
    forall j :: 0 <= j < |rows| ==> !InTheWay(passes[p].garages, plate, first, Some(end), rows[j])
  }

  // --------------------------------------------------------- what was read to end then

  lemma {:induction false} EndingIsDistinct(held: seq<Held>, first: Day)
    requires forall j, k :: 0 <= j < k < |held| ==> held[j].id != held[k].id
    ensures forall j, k :: 0 <= j < k < |EndingOn(held, first)| ==> EndingOn(held, first)[j].id != EndingOn(held, first)[k].id
  {
    if held != [] {
      EndingIsDistinct(held[1..], first);
      var rest := EndingOn(held[1..], first);
      forall k | 0 <= k < |rest| ensures rest[k].id != held[0].id {
        assert rest[k] in held[1..];
      }
    }
  }

  /** Two rows of the plate at one garage that both hold a day are one. */
  lemma OneRowADay(rows: seq<Row>, i: nat, j: nat, d: Day)
    requires Disjoint(rows) && i < |rows| && j < |rows| && On(rows[i], d) && On(rows[j], d)
    requires rows[i].garage == rows[j].garage && rows[i].plate == rows[j].plate
    ensures i == j
  {
    if i < j {
      assert Apart(rows[i], rows[j]);
      OverlapsIffADayIsShared(rows[i], rows[j].from, rows[j].end);
      assert Covers(rows[i], d);
    } else if j < i {
      assert Apart(rows[j], rows[i]);
      OverlapsIffADayIsShared(rows[j], rows[i].from, rows[i].end);
      assert Covers(rows[j], d);
    }
  }

  /** The rows read to end on the day, where one is planned at every garage: one at each. */
  lemma EndingIsOneEach(db: Db, p: PassId, plate: string, from: Day, end: Day, garages: nat, held: seq<Held>, first: Day)
    requires GoodDb(db) && p in db.passes && HeldRead(db.passes, db.rows, p, plate, from, end, garages, held) && from < first < end
    requires PlannedEverywhere(db.passes, db.rows, p, plate, first)
    ensures RunsOn(garages, EndingOn(held, first), end, end)
  {
    var ending := EndingOn(held, first);
    forall k | 0 <= k < |ending| ensures ending[k].row.why == Some(AfterLastDay) && ending[k].row.garage in db.passes[p].garages {
      assert ending[k] in ending;
      ItIsPlanned(db, p, plate, garages, held, first, ending[k]);
    }
    EndingApart(db, p, plate, garages, held, first);
    forall g | g in db.passes[p].garages ensures g in GaragesOf(ending) {
      PlannedIsRead(db, p, plate, from, end, garages, held, first, g);
    }
    PlannedIsRead(db, p, plate, from, end, garages, held, first, db.passes[p].garages[0]);
    Sets.DistinctCount(db.passes[p].garages);
    assert GaragesOf(ending) == Sets.Of(db.passes[p].garages);
  }

  lemma EndingApart(db: Db, p: PassId, plate: string, garages: nat, held: seq<Held>, first: Day)
    requires GoodDb(db) && p in db.passes && HeldStill(db.passes, db.rows, p, plate, garages, held)
    requires forall j, k :: 0 <= j < k < |held| ==> held[j].id != held[k].id
    ensures |EndingOn(held, first)| == |GaragesOf(EndingOn(held, first))|
  {
    var ending := EndingOn(held, first);
    var gs := seq(|ending|, k requires 0 <= k < |ending| => ending[k].row.garage);
    EndingIsDistinct(held, first);
    forall j, k | 0 <= j < k < |gs| ensures gs[j] != gs[k] {
      assert ending[j] in ending && ending[k] in ending;
      if gs[j] == gs[k] {
        OneRowADay(db.rows, ending[j].id, ending[k].id, first - 1);
      }
    }
    Sets.DistinctCount(gs);
    assert forall k :: 0 <= k < |ending| ==> gs[k] == ending[k].row.garage && gs[k] in gs;
    assert Sets.Of(gs) == GaragesOf(ending);
  }

  lemma ItIsPlanned(db: Db, p: PassId, plate: string, garages: nat, held: seq<Held>, first: Day, h: Held)
    requires GoodDb(db) && p in db.passes && HeldStill(db.passes, db.rows, p, plate, garages, held)
    requires PlannedEverywhere(db.passes, db.rows, p, plate, first) && h in EndingOn(held, first)
    ensures HeldNow(db.passes, db.rows, p, plate, h) && h.row.why == Some(AfterLastDay)
  {
    assert PlannedThere(db.rows, h.row.garage, p, plate, first);
    var j :| 0 <= j < |db.rows| && PlannedTo(db.rows[j], h.row.garage, p, plate, first);
    OneRowADay(db.rows, h.id, j, first - 1);
  }

  lemma PlannedIsRead(db: Db, p: PassId, plate: string, from: Day, end: Day, garages: nat, held: seq<Held>, first: Day, g: GarageId)
    requires p in db.passes && HeldRead(db.passes, db.rows, p, plate, from, end, garages, held) && from < first < end
    requires g in db.passes[p].garages && PlannedThere(db.rows, g, p, plate, first)
    ensures held != [] && exists k :: 0 <= k < |EndingOn(held, first)| && EndingOn(held, first)[k].row.garage == g
  {
    var j :| 0 <= j < |db.rows| && PlannedTo(db.rows[j], g, p, plate, first);
    assert Covers(db.rows[j], first - 1);
    OverlapsIffADayIsShared(db.rows[j], from, Some(end));
    assert Held(j, db.rows[j]) in held;
    assert Held(j, db.rows[j]) in EndingOn(held, first);
  }

  // ------------------------------------------------------------------- the last gap

  /** A registration of an earlier gap leaves the pass's own rows, and nothing new later. */
  lemma EarlierGap(passes: map<PassId, PassRow>, unreadable: set<GarageId>, rows: seq<Row>, at: GarageId, p: PassId,
                   plate: string, gap: Span, first: Day, end: Day)
    requires Good(passes, rows) && PassesKnown(passes, rows) && gap.first < gap.stop <= first < end
    requires RegisterRefusal(passes, unreadable, rows, at, p, plate, gap.first, Some(gap.stop)).None?
    ensures var out := Registered(passes, rows, p, plate, gap.first, Some(gap.stop), AfterLastDay);
            && (forall i :: 0 <= i < |rows| && rows[i].pass == p ==> out[i] == rows[i])
            && (NothingFrom(passes, rows, p, plate, first, end) ==> NothingFrom(passes, out, p, plate, first, end))
            && (forall j :: 0 <= j < |rows| && InTheWay(passes[p].garages, plate, first, Some(end), rows[j]) ==>
                  out[j] == rows[j] || RunOut(passes, first, rows[j]))
  {
    RefusedByDays(passes, unreadable, rows, at, p, plate, gap.first, Some(gap.stop));
    WrittenByDays(passes, rows, p, plate, gap.first, Some(gap.stop), AfterLastDay);
    var out := Registered(passes, rows, p, plate, gap.first, Some(gap.stop), AfterLastDay);
    forall j | |rows| <= j < |out| ensures !InTheWay(passes[p].garages, plate, first, Some(end), out[j]) {
      assert out[|rows| + (j - |rows|)] == Row(passes[p].garages[j - |rows|], p, plate, gap.first, Some(gap.stop), Some(AfterLastDay));
    }
    forall j | 0 <= j < |rows| && !InTheWay(passes[p].garages, plate, first, Some(end), rows[j])
      ensures !InTheWay(passes[p].garages, plate, first, Some(end), out[j])
    {
      assert RowOk(passes, rows[j]);
      assert forall d :: On(out[j], d) ==> On(rows[j], d);
    }
  }

  ghost predicate RunTo(rows: seq<Row>, out: seq<Row>, ids: set<nat>, end: Day) {
    |rows| <= |out| && forall i :: i in ids ==> i < |rows| && out[i] == rows[i].(end := Some(end))
  }

  lemma NothingStands(passes: map<PassId, PassRow>, rows: seq<Row>, p: PassId, plate: string, first: Day, end: Day)
    requires p in passes
    ensures NothingFrom(passes, rows, p, plate, first, end) <==>
              forall j :: 0 <= j < |rows| ==> !Stands(passes, p, plate, first, end, rows[j])
  {
    forall j | 0 <= j < |rows|
      ensures InTheWay(passes[p].garages, plate, first, Some(end), rows[j]) <==> Stands(passes, p, plate, first, end, rows[j])
    {
      OverlapsIffADayIsShared(rows[j], first, Some(end));
      if d: Day :| On(rows[j], d) && first <= d && d < end {
        assert Covers(rows[j], d);
      }
      if Stands(passes, p, plate, first, end, rows[j]) {
        assert On(rows[j], Max(rows[j].from, first));
      }
    }
  }

  /** Where one is planned to its first day at every garage and nothing stands in it, the last
      gap is filled by running those on. */
  lemma {:induction false} RunsOnAtLast(passes: map<PassId, PassRow>, unreadable: set<GarageId>, rows: seq<Row>, held: seq<Held>,
                                        garages: nat, at: GarageId, p: PassId, plate: string, spans: seq<Span>, from: Day, end: Day)
    requires Good(passes, rows) && p in passes && PassesKnown(passes, rows) && HeldStill(passes, rows, p, plate, garages, held)
    requires Partition(HeldDays(garages, RowsOf(held)), from, end, spans) && !spans[|spans| - 1].held
    requires RunsOn(garages, EndingOn(held, spans[|spans| - 1].first), end, end)
    requires NothingFrom(passes, rows, p, plate, spans[|spans| - 1].first, end)
    ensures var all := FillAll(passes, unreadable, rows, held, garages, at, p, plate, spans, end);
            all.Filled? ==> RunTo(rows, all.rows, Ids(EndingOn(held, spans[|spans| - 1].first)), end)
    decreases |spans|
  {
    var first := spans[|spans| - 1].first;
    Rest(HeldDays(garages, RowsOf(held)), from, end, spans);
    EndingIsRead(passes, rows, held, garages, p, plate, first);
    if |spans| == 1 {
      assert spans[1..] == [];
      NothingStands(passes, rows, p, plate, first, end);
    } else if spans[0].held {
      RunsOnAtLast(passes, unreadable, rows, held, garages, at, p, plate, spans[1..], spans[0].stop, end);
    } else {
      LastBeginsLater(HeldDays(garages, RowsOf(held)), from, end, spans);
      FillHolds(passes, unreadable, rows, held, garages, at, p, plate, spans[0], end);
      FillKeepsPasses(passes, unreadable, rows, held, garages, at, p, plate, spans[0], end);
      var one := Fill(passes, unreadable, rows, held, garages, at, p, plate, spans[0], end);
      if one.Filled? {
        EarlierGap(passes, unreadable, rows, at, p, plate, spans[0], first, end);
        RunsOnAtLast(passes, unreadable, one.rows, held, garages, at, p, plate, spans[1..], spans[0].stop, end);
        IdsAreOwn(passes, rows, p, plate, garages, held, first);
      }
    }
  }

  lemma LastBeginsLater(held: Day -> bool, from: Day, end: Day, spans: seq<Span>)
    requires Partition(held, from, end, spans) && |spans| > 1
    ensures spans[0].stop <= spans[|spans| - 1].first < end
  {
    Rest(held, from, end, spans);
    GapsBeginLater(held, spans[0].stop, end, spans[1..], |spans| - 2);
  }

  lemma IdsAreOwn(passes: map<PassId, PassRow>, rows: seq<Row>, p: PassId, plate: string, garages: nat, held: seq<Held>, first: Day)
    requires p in passes && HeldStill(passes, rows, p, plate, garages, held)
    ensures forall i :: i in Ids(EndingOn(held, first)) ==>
              && i < |rows| && rows[i].pass == p && rows[i].plate == plate && rows[i].garage in passes[p].garages
              && rows[i].from < first && rows[i].end == Some(first) && Held(i, rows[i]) in held
  {
    forall i | i in Ids(EndingOn(held, first))
      ensures && i < |rows| && rows[i].pass == p && rows[i].plate == plate && rows[i].garage in passes[p].garages
              && rows[i].from < first && rows[i].end == Some(first) && Held(i, rows[i]) in held
    {
      var k :| 0 <= k < |EndingOn(held, first)| && EndingOn(held, first)[k].id == i;
      assert EndingOn(held, first)[k] in EndingOn(held, first);
    }
  }

  /** What fills the last gap from rows read to end at its first day. */
  ghost predicate RanOnThere(passes: map<PassId, PassRow>, rows: seq<Row>, p: PassId, plate: string, held: seq<Held>, garages: nat,
                             first: Day, end: Day, i: int)
    requires p in passes && PassesKnown(passes, rows)
  {
    && RunsOn(garages, EndingOn(held, first), end, end) && i in Ids(EndingOn(held, first))
    && forall j :: 0 <= j < |rows| && InTheWay(passes[p].garages, plate, first, Some(end), rows[j]) ==> RunOut(passes, first, rows[j])
  }

  lemma {:induction false} RunsOnOnlyThen(passes: map<PassId, PassRow>, unreadable: set<GarageId>, rows: seq<Row>,
                                          held: seq<Held>, garages: nat, at: GarageId, p: PassId, plate: string, spans: seq<Span>,
                                          from: Day, end: Day, i: nat)
    requires Good(passes, rows) && p in passes && PassesKnown(passes, rows) && HeldStill(passes, rows, p, plate, garages, held)
    requires Partition(HeldDays(garages, RowsOf(held)), from, end, spans) && i < |rows| && rows[i].pass == p
    ensures var all := FillAll(passes, unreadable, rows, held, garages, at, p, plate, spans, end);
            all.Filled? && i < |all.rows| && all.rows[i] != rows[i] ==>
              RanOnThere(passes, rows, p, plate, held, garages, spans[|spans| - 1].first, end, i)
    decreases |spans|
  {
    var first := spans[|spans| - 1].first;
    Rest(HeldDays(garages, RowsOf(held)), from, end, spans);
    if |spans| == 1 {
      assert spans[1..] == [];
      OnlyAGap(passes, unreadable, rows, held, garages, at, p, plate, spans[0], end, i);
    } else if spans[0].held {
      RunsOnOnlyThen(passes, unreadable, rows, held, garages, at, p, plate, spans[1..], spans[0].stop, end, i);
    } else {
      LastBeginsLater(HeldDays(garages, RowsOf(held)), from, end, spans);
      FillHolds(passes, unreadable, rows, held, garages, at, p, plate, spans[0], end);
      FillKeepsPasses(passes, unreadable, rows, held, garages, at, p, plate, spans[0], end);
      var one := Fill(passes, unreadable, rows, held, garages, at, p, plate, spans[0], end);
      if one.Filled? {
        EarlierGap(passes, unreadable, rows, at, p, plate, spans[0], first, end);
        RunsOnOnlyThen(passes, unreadable, one.rows, held, garages, at, p, plate, spans[1..], spans[0].stop, end, i);
      }
    }
  }

  /** One gap that is filled moves one of the pass's own rows only by running it on. */
  lemma OnlyAGap(passes: map<PassId, PassRow>, unreadable: set<GarageId>, rows: seq<Row>, held: seq<Held>, garages: nat,
                 at: GarageId, p: PassId, plate: string, gap: Span, end: Day, i: nat)
    requires Good(passes, rows) && p in passes && PassesKnown(passes, rows) && HeldStill(passes, rows, p, plate, garages, held)
    requires gap.first < gap.stop == end && i < |rows| && rows[i].pass == p
    ensures var one := Fill(passes, unreadable, rows, held, garages, at, p, plate, gap, end);
            one.Filled? && i < |one.rows| && one.rows[i] != rows[i] ==>
              RanOnThere(passes, rows, p, plate, held, garages, gap.first, end, i)
  {
    NothingStands(passes, rows, p, plate, gap.first, end);
    RefusedByDays(passes, unreadable, rows, at, p, plate, gap.first, Some(end));
    WrittenByDays(passes, rows, p, plate, gap.first, Some(end), AfterLastDay);
    EndingIsRead(passes, rows, held, garages, p, plate, gap.first);
  }

  // ------------------------------------------------------------------ the two theorems

  /** THE STAY'S REGISTRATION RUNS ON: where a row of it at every garage of the pass ends, by
      its plan, on a day inside the QR's, and nothing of the plate stands from that day to the
      QR's end, each of those rows ends with the QR instead, and is written no second time. */
  lemma PlannedRunsOn(db: Db, out: Db, at: GarageId, p: PassId, plate: string, from: Day, days: int, answer: IssueAnswer,
                      first: Day, i: nat)
    requires GoodDb(db) && PassesKnown(db.passes, db.rows)
    requires IssueStep(db, out, at, p, plate, from, Some(days), answer) && answer.Made?
    requires p in db.passes && from < first < answer.end && PlannedEverywhere(db.passes, db.rows, p, plate, first)
    requires NothingFrom(db.passes, db.rows, p, plate, first, answer.end)
    requires i < |db.rows| && db.rows[i].garage in db.passes[p].garages && PlannedTo(db.rows[i], db.rows[i].garage, p, plate, first)
    ensures i < |out.rows| && out.rows[i] == db.rows[i].(end := Some(answer.end))
  {
    var end, garages, held, spans := HowItWasFilled(db, out, at, p, plate, from, days, answer);
    EndingIsOneEach(db, p, plate, from, end, garages, held, first);
    LastBegins(db, p, plate, from, end, garages, held, spans, first);
    RunsOnAtLast(db.passes, db.unreadable, db.rows, held, garages, at, p, plate, spans, from, end);
    assert Covers(db.rows[i], first - 1);
    OverlapsIffADayIsShared(db.rows[i], from, Some(end));
    assert Held(i, db.rows[i]) in held && Held(i, db.rows[i]) in EndingOn(held, first);
  }

  /** The last gap begins where what is held everywhere ends and nothing stands after it. */
  lemma LastBegins(db: Db, p: PassId, plate: string, from: Day, end: Day, garages: nat, held: seq<Held>, spans: seq<Span>, first: Day)
    requires GoodDb(db) && p in db.passes && HeldRead(db.passes, db.rows, p, plate, from, end, garages, held) && from < first < end
    requires Partition(HeldDays(garages, RowsOf(held)), from, end, spans)
    requires PlannedEverywhere(db.passes, db.rows, p, plate, first) && NothingFrom(db.passes, db.rows, p, plate, first, end)
    ensures !spans[|spans| - 1].held && spans[|spans| - 1].first == first
  {
    SpansTell(db, p, plate, from, end, garages, held, spans);
    forall d | first <= d < end ensures !HasEverywhere(db.passes, db.rows, p, plate, d) {
      if HasEverywhere(db.passes, db.rows, p, plate, d) {
        SomethingFrom(db, p, plate, first, end, d);
      }
    }
    HeldBefore(db, p, plate, first);
    var n := |spans| - 1;
    assert Tells(HeldDays(garages, RowsOf(held)), spans[n]);
    assert spans[n].first <= end - 1 < spans[n].stop && !HasEverywhere(db.passes, db.rows, p, plate, end - 1);
    assert !spans[n].held;
    assert first <= spans[n].first;
    if n > 0 {
      assert Follows(spans[n - 1], spans[n]) && Tells(HeldDays(garages, RowsOf(held)), spans[n - 1]);
      assert HasEverywhere(db.passes, db.rows, p, plate, spans[n].first - 1);
    }
  }

  lemma SomethingFrom(db: Db, p: PassId, plate: string, first: Day, end: Day, d: Day)
    requires GoodDb(db) && p in db.passes && first <= d < end && HasEverywhere(db.passes, db.rows, p, plate, d)
    ensures !NothingFrom(db.passes, db.rows, p, plate, first, end)
  {
    var g := db.passes[p].garages[0];
    assert g in db.passes[p].garages && Has(db.rows, g, plate, d, p);
    var j :| 0 <= j < |db.rows| && db.rows[j].garage == g && db.rows[j].plate == plate && db.rows[j].pass == p && On(db.rows[j], d);
    assert InTheWay(db.passes[p].garages, plate, first, Some(end), db.rows[j]);
  }

  lemma HeldBefore(db: Db, p: PassId, plate: string, first: Day)
    requires p in db.passes && PlannedEverywhere(db.passes, db.rows, p, plate, first)
    ensures HasEverywhere(db.passes, db.rows, p, plate, first - 1)
  {
    forall g | g in db.passes[p].garages ensures Has(db.rows, g, plate, first - 1, p) {
      assert PlannedThere(db.rows, g, p, plate, first);
      var j :| 0 <= j < |db.rows| && PlannedTo(db.rows[j], g, p, plate, first);
      assert On(db.rows[j], first - 1);
    }
  }

  /** AND ONLY THAT RUNS ON: a row of its own that an issue moves was planned to end on a day
      inside the QR's, and so was one at every garage of the pass; and from that day to the QR's
      end stood nothing but what was left open on a pass that had run out. */
  lemma OnlyPlannedRunsOn(db: Db, out: Db, at: GarageId, p: PassId, plate: string, from: Day, days: int, answer: IssueAnswer, i: nat)
    requires GoodDb(db) && PassesKnown(db.passes, db.rows)
    requires IssueStep(db, out, at, p, plate, from, Some(days), answer) && answer.Made?
    requires i < |db.rows| && i < |out.rows| && db.rows[i].pass == p && out.rows[i] != db.rows[i]
    ensures var r := db.rows[i];
            && p in db.passes && r.end.Some? && from < r.end.value < answer.end && out.rows[i] == r.(end := Some(answer.end))
            && r.garage in db.passes[p].garages && PlannedTo(r, r.garage, p, plate, r.end.value)
            && PlannedEverywhere(db.passes, db.rows, p, plate, r.end.value)
            && forall j :: 0 <= j < |db.rows| && InTheWay(db.passes[p].garages, plate, r.end.value, Some(answer.end), db.rows[j]) ==>
                 RunOut(db.passes, r.end.value, db.rows[j])
  {
    var end, garages, held, spans := HowItWasFilled(db, out, at, p, plate, from, days, answer);
    var first := spans[|spans| - 1].first;
    RunsOnOnlyThen(db.passes, db.unreadable, db.rows, held, garages, at, p, plate, spans, from, end, i);
    IdsAreOwn(db.passes, db.rows, p, plate, garages, held, first);
    OwnByDays(db, out, at, p, plate, from, days, answer, i);
    AllPlanned(db, p, plate, garages, held, first, end);
    OverlapsIffADayIsShared(db.rows[i], from, Some(end));
    assert Tells(HeldDays(garages, RowsOf(held)), spans[|spans| - 1]);
  }

  lemma AllPlanned(db: Db, p: PassId, plate: string, garages: nat, held: seq<Held>, first: Day, end: Day)
    requires GoodDb(db) && p in db.passes && HeldStill(db.passes, db.rows, p, plate, garages, held)
    requires RunsOn(garages, EndingOn(held, first), end, end)
    ensures PlannedEverywhere(db.passes, db.rows, p, plate, first)
    ensures forall i :: i in Ids(EndingOn(held, first)) ==> 0 <= i < |db.rows| && db.rows[i].why == Some(AfterLastDay)
  {
    var ending := EndingOn(held, first);
    forall k | 0 <= k < |ending|
      ensures HeldNow(db.passes, db.rows, p, plate, ending[k])
      ensures PlannedTo(db.rows[ending[k].id], ending[k].row.garage, p, plate, first)
    {
      assert ending[k] in ending && ending[k] in held;
    }
    OnePerGarage(db.passes, p, ending);
    forall g | g in db.passes[p].garages ensures PlannedThere(db.rows, g, p, plate, first) {
      var k :| 0 <= k < |ending| && ending[k].row.garage == g;
    }
  }
}
