/** A new QR's stay: the plate is held on the pass for every day of it. */
module HoldStay {
  import opened Basics
  import opened States
  import opened Sets
  import opened Register
  import opened RegisterProofs
  import opened Stay

  /** This pass's rows of the plate, at the garages it names, over the days of the stay. */
  predicate OwnHold(passes: map<PassId, PassRow>, p: PassId, plate: string, from: Day, end: Day, r: Row)
    requires p in passes
  {
    r.pass == p && r.plate == plate && r.garage in passes[p].garages && Overlaps(r, from, Some(end))
  }

  /** A held row, with its id, as it was read. */
  datatype Held = Held(id: nat, row: Row)

  predicate Ending(h: Held, first: Day) {
    h.row.from < first && h.row.end == Some(first)
  }

  function EndingOn(held: seq<Held>, first: Day): (out: seq<Held>)
    ensures forall h :: h in out <==> h in held && Ending(h, first)
  {
    if held == [] then []
    else
      var rest := EndingOn(held[1..], first);
      assert forall h :: h in held <==> h == held[0] || h in held[1..];
      if Ending(held[0], first) then [held[0]] + rest else rest
  }

  function GaragesOf(hs: seq<Held>): set<GarageId> {
    set i | 0 <= i < |hs| :: hs[i].row.garage
  }

  /** The stay's registration up to `first` runs on: one row per garage, each ending
      there as a stay's last day, and the days to hold run to the end of the stay. */
  predicate RunsOn(garages: nat, ending: seq<Held>, stop: Day, end: Day) {
    && stop == end && ending != []
    && |ending| == garages == |GaragesOf(ending)|
    && forall i :: 0 <= i < |ending| ==> ending[i].row.why == Some(AfterLastDay)
  }

  /** Something of the plate already stands on those days, at a garage of the pass. */
  predicate Stands(passes: map<PassId, PassRow>, p: PassId, plate: string, day: Day, end: Day, r: Row)
    requires p in passes
  {
    r.garage in passes[p].garages && r.plate == plate && Overlaps(r, day, Some(end))
  }

  datatype Filled = Filled(rows: seq<Row>) | NotFilled(refusal: FillRefusal)
  datatype FillRefusal = Not(refusal: Refusal) | ChangedMeanwhile

  function Ids(hs: seq<Held>): set<nat> {
    set i | 0 <= i < |hs| :: hs[i].id
  }

  /** UPDATE ... SET end_day = end WHERE id = ANY(ids) AND end_day = day. */
  function RanOn(rows: seq<Row>, ids: set<nat>, day: Day, end: Day): (out: seq<Row>)
    ensures |out| == |rows|
    ensures forall i :: 0 <= i < |rows| ==>
              out[i] == if i in ids && rows[i].end == Some(day) then rows[i].(end := Some(end)) else rows[i]
  {
    seq(|rows|, i requires 0 <= i < |rows| =>
      if i in ids && rows[i].end == Some(day) then rows[i].(end := Some(end)) else rows[i])
  }

  ghost predicate AsRead(rows: seq<Row>, ids: set<nat>, day: Day) {
    forall i :: i in ids ==> i < |rows| && rows[i].end == Some(day)
  }

  ghost function RegisterFill(passes: map<PassId, PassRow>, unreadable: set<GarageId>, rows: seq<Row>, at: GarageId,
                              p: PassId, plate: string, first: Day, stop: Day): Filled
    requires p in passes && forall i :: 0 <= i < |rows| ==> rows[i].pass in passes
  {
    var no := RegisterRefusal(passes, unreadable, rows, at, p, plate, first, Some(stop));
    if no.Some? then NotFilled(Not(no.value))
    else Filled(Registered(passes, rows, p, plate, first, Some(stop), AfterLastDay))
  }

  /** One gap of the stay, filled: the registration run on, or the days registered. */
  ghost function Fill(passes: map<PassId, PassRow>, unreadable: set<GarageId>, rows: seq<Row>, held: seq<Held>,
                      garages: nat, at: GarageId, p: PassId, plate: string, gap: Span, end: Day): Filled
    requires p in passes && forall i :: 0 <= i < |rows| ==> rows[i].pass in passes
  {
    var ending := EndingOn(held, gap.first);
    if RunsOn(garages, ending, gap.stop, end)
       && !exists i :: 0 <= i < |rows| && Stands(passes, p, plate, gap.first, end, rows[i])
    then
      if AsRead(rows, Ids(ending), gap.first) then Filled(RanOn(rows, Ids(ending), gap.first, end))
      else NotFilled(ChangedMeanwhile)
    else RegisterFill(passes, unreadable, rows, at, p, plate, gap.first, gap.stop)
  }

  ghost predicate PassesKnown(passes: map<PassId, PassRow>, rows: seq<Row>) {
    forall i :: 0 <= i < |rows| ==> rows[i].pass in passes
  }

  /** Every gap of the stay, in order; the first refusal refuses the whole. */
  ghost function FillAll(passes: map<PassId, PassRow>, unreadable: set<GarageId>, rows: seq<Row>, held: seq<Held>,
                         garages: nat, at: GarageId, p: PassId, plate: string, spans: seq<Span>, end: Day): Filled
    requires p in passes && PassesKnown(passes, rows)
    decreases |spans|
  {
    if spans == [] then Filled(rows)
    else if spans[0].held then FillAll(passes, unreadable, rows, held, garages, at, p, plate, spans[1..], end)
    else
      var one := Fill(passes, unreadable, rows, held, garages, at, p, plate, spans[0], end);
      if one.NotFilled? then one
      else
        FillKeepsPasses(passes, unreadable, rows, held, garages, at, p, plate, spans[0], end);
        FillAll(passes, unreadable, one.rows, held, garages, at, p, plate, spans[1..], end)
  }

  lemma FillKeepsPasses(passes: map<PassId, PassRow>, unreadable: set<GarageId>, rows: seq<Row>, held: seq<Held>,
                        garages: nat, at: GarageId, p: PassId, plate: string, gap: Span, end: Day)
    requires p in passes && PassesKnown(passes, rows)
    ensures var one := Fill(passes, unreadable, rows, held, garages, at, p, plate, gap, end);
            one.Filled? ==> PassesKnown(passes, one.rows)
  {
  }

  // ------------------------------------------------------- what a fill leaves

  ghost predicate HeldRead(passes: map<PassId, PassRow>, rows: seq<Row>, p: PassId, plate: string, from: Day, end: Day,
                           garages: nat, held: seq<Held>)
    requires p in passes
  {
    && HeldStill(passes, rows, p, plate, garages, held)
    && (forall k :: 0 <= k < |held| ==> OwnHold(passes, p, plate, from, end, held[k].row))
    && (forall j, k :: 0 <= j < k < |held| ==> held[j].id != held[k].id)
    && (forall i :: 0 <= i < |rows| && OwnHold(passes, p, plate, from, end, rows[i]) ==> Held(i, rows[i]) in held)
  }

  /** What was read still stands, row by row. */
  ghost predicate HeldStill(passes: map<PassId, PassRow>, rows: seq<Row>, p: PassId, plate: string,
                            garages: nat, held: seq<Held>)
    requires p in passes
  {
    && garages == (if held != [] then |passes[p].garages| else 0)
    && forall k :: 0 <= k < |held| ==> HeldNow(passes, rows, p, plate, held[k])
  }

  ghost predicate HeldNow(passes: map<PassId, PassRow>, rows: seq<Row>, p: PassId, plate: string, h: Held)
    requires p in passes
  {
    && h.id < |rows| && rows[h.id] == h.row
    && h.row.pass == p && h.row.plate == plate && h.row.garage in passes[p].garages
  }

  /** Row for row, the pass holds no less: a row of it is as it was, or runs on. */
  ghost predicate Grows(rows: seq<Row>, out: seq<Row>, p: PassId) {
    |rows| <= |out| && forall i :: 0 <= i < |rows| && rows[i].pass == p ==> RanOnRow(rows[i], out[i])
  }

  ghost predicate RanOnRow(r: Row, s: Row) {
    s == r || (r.end.Some? && s.end.Some? && r.end.value <= s.end.value && s == r.(end := s.end))
  }

  lemma GrowsHeldBy(rows: seq<Row>, out: seq<Row>, g: GarageId, plate: string, d: Day, p: PassId)
    requires Grows(rows, out, p) && HeldBy(rows, g, plate, d, p)
    ensures HeldBy(out, g, plate, d, p)
  {
    var i: nat :| Holds(rows, i, g, plate, d) && rows[i].pass == p;
    assert RanOnRow(rows[i], out[i]);
    assert Holds(out, i, g, plate, d);
  }

  /** Another pass's row keeps its place and is at most shortened; every row that is new is this pass's. */
  ghost predicate OthersShortened(rows: seq<Row>, out: seq<Row>, p: PassId) {
    && |rows| <= |out|
    && (forall i :: 0 <= i < |rows| && rows[i].pass != p ==> Shortened(rows[i], out[i]))
    && (forall i :: |rows| <= i < |out| ==> out[i].pass == p)
  }

  lemma OthersShortenedTwice(a: seq<Row>, b: seq<Row>, c: seq<Row>, p: PassId)
    requires OthersShortened(a, b, p) && OthersShortened(b, c, p) && Grows(a, b, p) && Grows(b, c, p)
    ensures OthersShortened(a, c, p)
  {
    forall i | 0 <= i < |a| && a[i].pass != p ensures Shortened(a[i], c[i]) {
      assert Shortened(a[i], b[i]) && Shortened(b[i], c[i]);
    }
    forall i | |a| <= i < |c| ensures c[i].pass == p {
      if i < |b| {
        assert RanOnRow(b[i], c[i]);
      }
    }
  }

  /** At every garage of the pass, on every one of the days. */
  ghost predicate HeldThrough(passes: map<PassId, PassRow>, rows: seq<Row>, p: PassId, plate: string, from: Day, end: Day)
    requires p in passes
  {
    forall g, d :: g in passes[p].garages && from <= d < end ==> HeldBy(rows, g, plate, d, p)
  }

  lemma RegisterFillHolds(passes: map<PassId, PassRow>, unreadable: set<GarageId>, rows: seq<Row>, at: GarageId,
                          p: PassId, plate: string, first: Day, stop: Day)
    requires Good(passes, rows) && p in passes && PassesKnown(passes, rows)
    ensures var one := RegisterFill(passes, unreadable, rows, at, p, plate, first, stop);
            one.Filled? ==>
              && Good(passes, one.rows)
              && HeldThrough(passes, one.rows, p, plate, first, stop)
              && OthersShortened(rows, one.rows, p)
              && |rows| <= |one.rows| && (forall i :: 0 <= i < |rows| && rows[i].pass == p ==> one.rows[i] == rows[i])
  {
    var one := RegisterFill(passes, unreadable, rows, at, p, plate, first, stop);
    if one.Filled? {
      RegisteringKeepsGood(passes, unreadable, rows, at, p, plate, first, Some(stop), AfterLastDay);
      RegisteredShape(passes, unreadable, rows, at, p, plate, first, Some(stop), AfterLastDay);
      forall i | 0 <= i < |rows| ensures Shortened(rows[i], one.rows[i]) {
        assert Shortened(rows[i], one.rows[..|rows|][i]);
      }
      forall i | 0 <= i < |rows| && rows[i].pass == p ensures one.rows[i] == rows[i] {
        RegisteringTouchesOnly(passes, unreadable, rows, at, p, plate, first, Some(stop), AfterLastDay, i);
      }
      forall g, d | g in passes[p].garages && first <= d < stop ensures HeldBy(one.rows, g, plate, d, p) {
        var k :| 0 <= k < |passes[p].garages| && passes[p].garages[k] == g;
        RegisteringHolds(passes, unreadable, rows, at, p, plate, first, Some(stop), AfterLastDay, k, d);
        assert Holds(one.rows, |rows| + k, g, plate, d);
      }
    }
  }

  /** One row per garage, and no garage twice: counted, so it is every garage of the pass. */
  lemma OnePerGarage(passes: map<PassId, PassRow>, p: PassId, ending: seq<Held>)
    requires PassesOk(passes) && p in passes
    requires forall i :: 0 <= i < |ending| ==> ending[i].row.garage in passes[p].garages
    requires |ending| == |passes[p].garages| == |GaragesOf(ending)|
    ensures forall i, j :: 0 <= i < j < |ending| ==> ending[i].row.garage != ending[j].row.garage
    ensures forall g :: g in passes[p].garages ==> g in GaragesOf(ending)
  {
    var gs := seq(|ending|, i requires 0 <= i < |ending| => ending[i].row.garage);
    assert forall i :: 0 <= i < |ending| ==> gs[i] == ending[i].row.garage;
    assert Of(gs) == GaragesOf(ending);
    DistinctCount(gs);
    DistinctCount(passes[p].garages);
    SubsetCount(GaragesOf(ending), Of(passes[p].garages));
  }

  /** The rows a run-on is about, as the guards leave them: read, still so, one per garage. */
  ghost predicate RunOnReady(passes: map<PassId, PassRow>, rows: seq<Row>, p: PassId, plate: string,
                             first: Day, end: Day, ending: seq<Held>)
    requires p in passes
  {
    && Good(passes, rows) && first < end
    && (forall k :: 0 <= k < |ending| ==>
          HeldNow(passes, rows, p, plate, ending[k]) && Ending(ending[k], first))
    && (forall i, j :: 0 <= i < j < |ending| ==> ending[i].row.garage != ending[j].row.garage)
    && (forall i :: 0 <= i < |rows| ==> !Stands(passes, p, plate, first, end, rows[i]))
  }

  lemma RunOnApart(passes: map<PassId, PassRow>, rows: seq<Row>, p: PassId, plate: string,
                   first: Day, end: Day, ending: seq<Held>, i: nat, j: nat)
    requires p in passes && RunOnReady(passes, rows, p, plate, first, end, ending) && i < j < |rows|
    ensures var out := RanOn(rows, Ids(ending), first, end); Apart(out[i], out[j])
  {
    assert Apart(rows[i], rows[j]);
    var ids := Ids(ending);
    if i in ids && j in ids {
      var a :| 0 <= a < |ending| && ending[a].id == i;
      var b :| 0 <= b < |ending| && ending[b].id == j;
      assert HeldNow(passes, rows, p, plate, ending[a]) && HeldNow(passes, rows, p, plate, ending[b]);
    } else if i in ids {
      ApartFromRunOn(passes, rows, p, plate, first, end, ending, i, j);
    } else if j in ids {
      ApartFromRunOn(passes, rows, p, plate, first, end, ending, j, i);
    }
  }

  lemma RunOnKeepsGood(passes: map<PassId, PassRow>, rows: seq<Row>, p: PassId, plate: string,
                       first: Day, end: Day, ending: seq<Held>)
    requires p in passes && RunOnReady(passes, rows, p, plate, first, end, ending)
    ensures Good(passes, RanOn(rows, Ids(ending), first, end))
  {
    var out := RanOn(rows, Ids(ending), first, end);
    forall i | 0 <= i < |out| ensures RowOk(passes, out[i]) {
      assert RowOk(passes, rows[i]);
    }
    forall i, j | 0 <= i < j < |out| ensures Apart(out[i], out[j]) {
      RunOnApart(passes, rows, p, plate, first, end, ending, i, j);
    }
  }

  lemma RunOnTouchesItsOwn(passes: map<PassId, PassRow>, rows: seq<Row>, p: PassId, plate: string,
                           first: Day, end: Day, ending: seq<Held>)
    requires p in passes && RunOnReady(passes, rows, p, plate, first, end, ending)
    ensures var out := RanOn(rows, Ids(ending), first, end);
            Grows(rows, out, p) && OthersShortened(rows, out, p)
  {
    var out := RanOn(rows, Ids(ending), first, end);
    forall i | i in Ids(ending) ensures i < |rows| && rows[i].pass == p {
      var a :| 0 <= a < |ending| && ending[a].id == i;
      assert HeldNow(passes, rows, p, plate, ending[a]);
    }
  }

  lemma RunOnHolds(passes: map<PassId, PassRow>, rows: seq<Row>, held: seq<Held>, garages: nat,
                   p: PassId, plate: string, first: Day, end: Day)
    requires Good(passes, rows) && p in passes && first < end
    requires HeldStill(passes, rows, p, plate, garages, held)
    requires RunsOn(garages, EndingOn(held, first), end, end)
    requires forall i :: 0 <= i < |rows| ==> !Stands(passes, p, plate, first, end, rows[i])
    ensures var out := RanOn(rows, Ids(EndingOn(held, first)), first, end);
            && Good(passes, out) && HeldThrough(passes, out, p, plate, first, end)
            && Grows(rows, out, p) && OthersShortened(rows, out, p)
  {
    var ending := EndingOn(held, first);
    forall i | 0 <= i < |ending|
      ensures HeldNow(passes, rows, p, plate, ending[i]) && Ending(ending[i], first)
    {
      assert ending[i] in held;
    }
    OnePerGarage(passes, p, ending);
    RunOnKeepsGood(passes, rows, p, plate, first, end, ending);
    RunOnTouchesItsOwn(passes, rows, p, plate, first, end, ending);
    forall g, d | g in passes[p].garages && first <= d < end
      ensures HeldBy(RanOn(rows, Ids(ending), first, end), g, plate, d, p)
    {
      assert g in GaragesOf(ending);
      RanOnHoldsDay(passes, rows, p, plate, first, end, ending, g, d);
    }
  }

  lemma RanOnHoldsDay(passes: map<PassId, PassRow>, rows: seq<Row>, p: PassId, plate: string, first: Day, end: Day,
                      ending: seq<Held>, g: GarageId, d: Day)
    requires p in passes && first <= d < end && g in GaragesOf(ending)
    requires forall k :: 0 <= k < |ending| ==>
               HeldNow(passes, rows, p, plate, ending[k]) && Ending(ending[k], first)
    ensures HeldBy(RanOn(rows, Ids(ending), first, end), g, plate, d, p)
  {
    var a :| 0 <= a < |ending| && ending[a].row.garage == g;
    assert HeldNow(passes, rows, p, plate, ending[a]) && Ending(ending[a], first);
    assert ending[a].id in Ids(ending);
    assert Holds(RanOn(rows, Ids(ending), first, end), ending[a].id, g, plate, d);
  }

  lemma ApartFromRunOn(passes: map<PassId, PassRow>, rows: seq<Row>, p: PassId, plate: string, first: Day, end: Day,
                       ending: seq<Held>, i: nat, j: nat)
    requires p in passes && i < |rows| && j < |rows| && i != j && i in Ids(ending) && first < end
    requires forall k :: 0 <= k < |ending| ==>
               HeldNow(passes, rows, p, plate, ending[k]) && Ending(ending[k], first)
    requires Apart(rows[i], rows[j]) && Apart(rows[j], rows[i]) && !Stands(passes, p, plate, first, end, rows[j])
    ensures Apart(rows[i].(end := Some(end)), rows[j]) && Apart(rows[j], rows[i].(end := Some(end)))
  {
    var a :| 0 <= a < |ending| && ending[a].id == i;
  }

  /** One gap filled: the register is kept, the pass holds every day of the gap at every
      garage, and nothing of what it held before is lost. */
  lemma FillHolds(passes: map<PassId, PassRow>, unreadable: set<GarageId>, rows: seq<Row>, held: seq<Held>,
                  garages: nat, at: GarageId, p: PassId, plate: string, gap: Span, end: Day)
    requires Good(passes, rows) && p in passes && PassesKnown(passes, rows) && gap.first < gap.stop
    requires HeldStill(passes, rows, p, plate, garages, held)
    ensures var one := Fill(passes, unreadable, rows, held, garages, at, p, plate, gap, end);
            && (one.Filled? ==>
              && Good(passes, one.rows)
              && HeldThrough(passes, one.rows, p, plate, gap.first, gap.stop)
              && Grows(rows, one.rows, p) && OthersShortened(rows, one.rows, p)
              && (gap.stop != end ==> HeldStill(passes, one.rows, p, plate, garages, held)))
            && one != NotFilled(ChangedMeanwhile)
  {
    var ending := EndingOn(held, gap.first);
    if RunsOn(garages, ending, gap.stop, end)
       && forall i :: 0 <= i < |rows| ==> !Stands(passes, p, plate, gap.first, end, rows[i]) {
      EndingIsRead(passes, rows, held, garages, p, plate, gap.first);
      RunOnHolds(passes, rows, held, garages, p, plate, gap.first, end);
    } else {
      RegisteredGapHolds(passes, unreadable, rows, held, garages, at, p, plate, gap);
    }
  }

  lemma EndingIsRead(passes: map<PassId, PassRow>, rows: seq<Row>, held: seq<Held>, garages: nat, p: PassId, plate: string,
                     first: Day)
    requires p in passes && HeldStill(passes, rows, p, plate, garages, held)
    ensures forall i :: i in Ids(EndingOn(held, first)) ==> i < |rows| && rows[i].end == Some(first)
  {
    var ending := EndingOn(held, first);
    forall i | i in Ids(ending) ensures i < |rows| && rows[i].end == Some(first) {
      var k :| 0 <= k < |ending| && ending[k].id == i;
      assert ending[k] in held;
    }
  }

  lemma RegisteredGapHolds(passes: map<PassId, PassRow>, unreadable: set<GarageId>, rows: seq<Row>, held: seq<Held>,
                           garages: nat, at: GarageId, p: PassId, plate: string, gap: Span)
    requires Good(passes, rows) && p in passes && PassesKnown(passes, rows)
    requires HeldStill(passes, rows, p, plate, garages, held)
    ensures var one := RegisterFill(passes, unreadable, rows, at, p, plate, gap.first, gap.stop);
            one.Filled? ==>
              && Good(passes, one.rows) && HeldThrough(passes, one.rows, p, plate, gap.first, gap.stop)
              && Grows(rows, one.rows, p) && OthersShortened(rows, one.rows, p)
              && HeldStill(passes, one.rows, p, plate, garages, held)
  {
    RegisterFillHolds(passes, unreadable, rows, at, p, plate, gap.first, gap.stop);
    var one := RegisterFill(passes, unreadable, rows, at, p, plate, gap.first, gap.stop);
    if one.Filled? {
      forall k | 0 <= k < |held| ensures HeldNow(passes, one.rows, p, plate, held[k]) {
        assert HeldNow(passes, rows, p, plate, held[k]);
      }
    }
  }

  /** A day the counting calls held is held on this pass at every garage it names. */
  lemma HeldDayIsHeld(passes: map<PassId, PassRow>, rows: seq<Row>, held: seq<Held>, garages: nat,
                      p: PassId, plate: string, d: Day)
    requires PassesOk(passes) && p in passes && HeldStill(passes, rows, p, plate, garages, held)
    requires HeldOn(garages, RowsOf(held), d)
    ensures HeldThrough(passes, rows, p, plate, d, d + 1)
  {
    var covering := CoveringGarages(RowsOf(held), d);
    DistinctCount(passes[p].garages);
    forall g | g in covering ensures g in passes[p].garages {
      var k :| 0 <= k < |RowsOf(held)| && Covers(RowsOf(held)[k], d) && RowsOf(held)[k].garage == g;
      assert HeldNow(passes, rows, p, plate, held[k]);
    }
    SubsetCount(covering, Of(passes[p].garages));
    forall g | g in passes[p].garages ensures HeldBy(rows, g, plate, d, p) {
      assert g in covering;
      var k :| 0 <= k < |RowsOf(held)| && Covers(RowsOf(held)[k], d) && RowsOf(held)[k].garage == g;
      assert HeldNow(passes, rows, p, plate, held[k]);
      assert Holds(rows, held[k].id, g, plate, d);
    }
  }

  /** THE WHOLE STAY IS HELD. Whatever mix of reused, registered and run-on rows was
      written: every garage of the pass, every day of the stay; and the register is kept. */
  lemma {:induction false} FillAllHolds(passes: map<PassId, PassRow>, unreadable: set<GarageId>, rows: seq<Row>,
                                        held: seq<Held>, garages: nat, at: GarageId, p: PassId, plate: string,
                                        spans: seq<Span>, from: Day, end: Day)
    requires Good(passes, rows) && p in passes && PassesKnown(passes, rows)
    requires HeldStill(passes, rows, p, plate, garages, held)
    requires Partition(HeldDays(garages, RowsOf(held)), from, end, spans)
    ensures var all := FillAll(passes, unreadable, rows, held, garages, at, p, plate, spans, end);
            && (all.Filled? ==>
                  && Good(passes, all.rows) && HeldThrough(passes, all.rows, p, plate, from, end)
                  && Grows(rows, all.rows, p) && OthersShortened(rows, all.rows, p))
            && all != NotFilled(ChangedMeanwhile)
    decreases |spans|
  {
    var gap := spans[0];
    Rest(HeldDays(garages, RowsOf(held)), from, end, spans);
    var next := rows;
    if gap.held {
      forall g, d | g in passes[p].garages && from <= d < gap.stop ensures HeldBy(rows, g, plate, d, p) {
        assert HeldDays(garages, RowsOf(held))(d);
        HeldDayIsHeld(passes, rows, held, garages, p, plate, d);
      }
    } else {
      FillHolds(passes, unreadable, rows, held, garages, at, p, plate, gap, end);
      var one := Fill(passes, unreadable, rows, held, garages, at, p, plate, gap, end);
      if one.NotFilled? { return; }
      FillKeepsPasses(passes, unreadable, rows, held, garages, at, p, plate, gap, end);
      next := one.rows;
    }
    assert OthersShortened(rows, next, p) && Grows(rows, next, p);
    assert HeldThrough(passes, next, p, plate, from, gap.stop) && Good(passes, next);
    if |spans| > 1 {
      FillAllHolds(passes, unreadable, next, held, garages, at, p, plate, spans[1..], gap.stop, end);
      var all := FillAll(passes, unreadable, next, held, garages, at, p, plate, spans[1..], end);
      if all.Filled? {
        GrowsTwice(rows, next, all.rows, p);
        OthersShortenedTwice(rows, next, all.rows, p);
        forall g, d | g in passes[p].garages && from <= d < end ensures HeldBy(all.rows, g, plate, d, p) {
          if d < gap.stop {
            GrowsHeldBy(next, all.rows, g, plate, d, p);
          }
        }
      }
    } else {
      assert spans[1..] == [];
    }
  }

  lemma GrowsTwice(a: seq<Row>, b: seq<Row>, c: seq<Row>, p: PassId)
    requires Grows(a, b, p) && Grows(b, c, p)
    ensures Grows(a, c, p)
  {
    forall i | 0 <= i < |a| && a[i].pass == p ensures RanOnRow(a[i], c[i]) {
      assert RanOnRow(a[i], b[i]) && RanOnRow(b[i], c[i]);
    }
  }

  // ----------------------------------------------------------------- methods

  method ReadHeld(store: Store, p: PassId, plate: string, from: Day, end: Day)
    returns (garages: nat, held: seq<Held>)
    requires p in store.passes
    ensures HeldRead(store.passes, store.rows, p, plate, from, end, garages, held)
  {
    var passes := store.passes;
    var ids := Where(store.rows, (r: Row) => p in passes && OwnHold(passes, p, plate, from, end, r));
    held := seq(|ids|, k requires 0 <= k < |ids| && ids[k] < |store.rows| reads store => Held(ids[k], store.rows[ids[k]]));
    garages := if ids != [] then |passes[p].garages| else 0;
    assert forall k :: 0 <= k < |ids| ==> held[k] == Held(ids[k], store.rows[ids[k]]);
    forall i | 0 <= i < |store.rows| && OwnHold(passes, p, plate, from, end, store.rows[i])
      ensures Held(i, store.rows[i]) in held
    {
      assert i in ids;
      var k :| 0 <= k < |ids| && ids[k] == i;
      assert held[k] == Held(i, store.rows[i]);
    }
  }

  function RowsOf(held: seq<Held>): (out: seq<Row>)
    ensures |out| == |held| && forall k :: 0 <= k < |held| ==> out[k] == held[k].row
  {
    seq(|held|, k requires 0 <= k < |held| => held[k].row)
  }

  ghost predicate StayWritten(passes: map<PassId, PassRow>, unreadable: set<GarageId>, rows: seq<Row>, at: GarageId,
                              p: PassId, plate: string, from: Day, end: Day, out: Filled)
    requires p in passes && PassesKnown(passes, rows)
  {
    exists garages, held, spans ::
      && HeldRead(passes, rows, p, plate, from, end, garages, held)
      && Partition(HeldDays(garages, RowsOf(held)), from, end, spans)
      && out == FillAll(passes, unreadable, rows, held, garages, at, p, plate, spans, end)
  }

  /** The stay held, or the first refusal; a refusal leaves the register as it was
      (the write sits under the issue's savepoint, see `Savepoints`). */
  method HoldTheWholeStay(store: Store, at: GarageId, p: PassId, plate: string, from: Day, end: Day)
    returns (out: Filled)
    requires store.Valid() && p in store.passes && from < end
    modifies store`rows
    ensures PassesKnown(store.passes, old(store.rows))
    ensures StayWritten(store.passes, store.unreadable, old(store.rows), at, p, plate, from, end, out)
    ensures store.rows == if out.Filled? then out.rows else old(store.rows)
    ensures store.Valid()
    ensures out.Filled? ==> HeldThrough(store.passes, store.rows, p, plate, from, end)
  {
    assert forall i :: 0 <= i < |store.rows| ==> RowOk(store.passes, store.rows[i]);
    var saved := store.rows;
    var garages, held := ReadHeld(store, p, plate, from, end);
    var spans := DaysHeld(garages, RowsOf(held), from, end);
    FillAllHolds(store.passes, store.unreadable, saved, held, garages, at, p, plate, spans, from, end);
    var no := FillSpans(store, held, garages, at, p, plate, spans, from, end);
    if no.Some? {
      store.rows := saved;
      out := NotFilled(no.value);
    } else {
      out := Filled(store.rows);
    }
  }

  method FillSpans(store: Store, held: seq<Held>, garages: nat, at: GarageId, p: PassId, plate: string,
                   spans: seq<Span>, ghost from: Day, end: Day)
    returns (no: Option<FillRefusal>)
    requires store.Valid() && p in store.passes && PassesKnown(store.passes, store.rows)
    requires HeldStill(store.passes, store.rows, p, plate, garages, held)
    requires Partition(HeldDays(garages, RowsOf(held)), from, end, spans)
    modifies store`rows
    ensures var all := FillAll(store.passes, store.unreadable, old(store.rows), held, garages, at, p, plate, spans, end);
            no == (if all.Filled? then None else Some(all.refusal)) && (all.Filled? ==> store.rows == all.rows)
  {
    ghost var start := store.rows;
    ghost var day := from;
    assert spans[0..] == spans;
    for k := 0 to |spans|
      invariant store.Valid() && PassesKnown(store.passes, store.rows)
      invariant k < |spans| ==> HeldStill(store.passes, store.rows, p, plate, garages, held)
      invariant k < |spans| ==> Partition(HeldDays(garages, RowsOf(held)), day, end, spans[k..])
      invariant FillAll(store.passes, store.unreadable, start, held, garages, at, p, plate, spans, end)
                == FillAll(store.passes, store.unreadable, store.rows, held, garages, at, p, plate, spans[k..], end)
    {
      Rest(HeldDays(garages, RowsOf(held)), day, end, spans[k..]);
      assert spans[k..][0] == spans[k] && spans[k..][1..] == spans[k + 1..];
      if !spans[k].held {
        FillHolds(store.passes, store.unreadable, store.rows, held, garages, at, p, plate, spans[k], end);
        no := FillOne(store, held, garages, at, p, plate, spans[k], end);
        if no.Some? { return; }
      }
      day := spans[k].stop;
    }
    no := None;
  }

  method FillOne(store: Store, held: seq<Held>, garages: nat, at: GarageId, p: PassId, plate: string, gap: Span, end: Day)
    returns (no: Option<FillRefusal>)
    requires store.Valid() && p in store.passes && PassesKnown(store.passes, store.rows)
    modifies store`rows
    ensures var one := Fill(store.passes, store.unreadable, old(store.rows), held, garages, at, p, plate, gap, end);
            no == (if one.Filled? then None else Some(one.refusal))
            && (one.Filled? ==> store.rows == one.rows && PassesKnown(store.passes, store.rows))
  {
    FillKeepsPasses(store.passes, store.unreadable, store.rows, held, garages, at, p, plate, gap, end);
    var ending := EndingOn(held, gap.first);
    var passes := store.passes;
    if RunsOn(garages, ending, gap.stop, end) {
      var standing := Where(store.rows, (r: Row) => p in passes && Stands(passes, p, plate, gap.first, end, r));
      if standing == [] {
        var moved := exists h :: h in ending && (h.id >= |store.rows| || store.rows[h.id].end != Some(gap.first));
        assert moved <==> !AsRead(store.rows, Ids(ending), gap.first) by {
          if moved {
            var h :| h in ending && (h.id >= |store.rows| || store.rows[h.id].end != Some(gap.first));
            assert h.id in Ids(ending);
          }
        }
        if moved { return Some(ChangedMeanwhile); }
        store.rows := RanOn(store.rows, Ids(ending), gap.first, end);
        return None;
      }
      assert Stands(passes, p, plate, gap.first, end, store.rows[standing[0]]);
    }
    var out := store.RegisterVehicle(at, p, plate, gap.first, Some(gap.stop), AfterLastDay);
    no := if out.Refused? then Some(Not(out.refusal)) else None;
  }
}
