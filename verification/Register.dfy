/** The register of stays: one row per garage of the pass, a half-open range of days.

    The class is one transaction at a time (the store's own checks, no database
    constraint); what two transactions may do to each other is in `Protocol`. */
module Register {
  import opened Basics
  import opened States

  datatype Reason = EndedByOwner | AfterLastDay | ByNextStay | ByCheckout | ByExpiry | ByRevocation

  datatype Row = Row(garage: GarageId, pass: PassId, plate: string,
                     from: Day, end: Option<Day>, why: Option<Reason>)

  /** `garages` is in external-id order, the one order every fan-out walks.
      `validTo` is the stored column; `readable` says whether the terms load. */
  datatype PassRow = PassRow(garages: seq<GarageId>, state: State, readable: bool, validTo: Option<Day>)

  datatype Refusal =
    | PassNotFound | GarageUnreadable | PassNotRegistrable | PassUnreadable | BlankIdentity
    | EndsBeforeItStarts | OutlivesThePass | VehicleOnAnotherPass
    | RegistrationNotFound | AlreadyEnded | Transition(error: TransitionError)

  datatype Outcome = Done | Refused(refusal: Refusal)

  predicate Covers(r: Row, d: Day) {
    r.from <= d && (r.end.None? || d < r.end.value)
  }

  /** Ends by the day, or covers nothing. */
  predicate EndedBy(r: Row, day: Day) {
    r.end.Some? && r.end.value <= Max(day, r.from)
  }

  lemma EndedByCoversNothing(r: Row, day: Day)
    ensures EndedBy(r, day) <==> forall d :: day <= d ==> !Covers(r, d)
  {
    if !EndedBy(r, day) {
      assert Covers(r, Max(day, r.from));
    }
  }

  predicate Nonempty(from: Day, end: Option<Day>) {
    end.None? || from < end.value
  }

  /** The database's `daterange && daterange`: an empty range overlaps nothing. */
  predicate Overlaps(r: Row, from: Day, end: Option<Day>) {
    && Nonempty(r.from, r.end)
    && Nonempty(from, end)
    && (end.None? || r.from < end.value)
    && (r.end.None? || from < r.end.value)
  }

  lemma OverlapsIffADayIsShared(r: Row, from: Day, end: Option<Day>)
    ensures Overlaps(r, from, end) <==>
            exists d :: Covers(r, d) && from <= d && (end.None? || d < end.value)
  {
    if Overlaps(r, from, end) {
      assert Covers(r, Max(r.from, from));
    }
  }

  // ---------------------------------------------------------------- queries

  /** SELECT id WHERE q, in row order. */
  function Where(rows: seq<Row>, q: Row -> bool): (ids: seq<nat>)
    ensures forall k :: 0 <= k < |ids| ==> ids[k] < |rows| && q(rows[ids[k]])
    ensures forall j, k :: 0 <= j < k < |ids| ==> ids[j] < ids[k]
    ensures forall i :: 0 <= i < |rows| && q(rows[i]) ==> i in ids
  {
    if rows == [] then []
    else
      var n := |rows| - 1;
      var before := Where(rows[..n], q);
      if q(rows[n]) then before + [n] else before
  }

  /** UPDATE ... WHERE q. */
  function Update(rows: seq<Row>, q: Row -> bool, f: Row -> Row): (out: seq<Row>)
    ensures |out| == |rows|
    ensures forall i :: 0 <= i < |rows| ==> out[i] == if q(rows[i]) then f(rows[i]) else rows[i]
  {
    seq(|rows|, i requires 0 <= i < |rows| => if q(rows[i]) then f(rows[i]) else rows[i])
  }

  // ------------------------------------------------------- the row invariant

  ghost predicate RowOk(passes: map<PassId, PassRow>, r: Row) {
    && r.pass in passes
    && r.garage in passes[r.pass].garages
    && (r.end.Some? ==> r.from <= r.end.value)
    && (r.why.Some? <==> r.end.Some?)
  }

  ghost predicate PassesOk(passes: map<PassId, PassRow>) {
    forall p :: p in passes ==> passes[p].garages != [] && Distinct(passes[p].garages)
  }

  /** One car, one pass: the rows of one plate at one garage share no day. */
  ghost predicate Apart(a: Row, b: Row) {
    a.garage == b.garage && a.plate == b.plate ==> !Overlaps(a, b.from, b.end)
  }

  ghost predicate Disjoint(rows: seq<Row>) {
    forall i, j :: 0 <= i < j < |rows| ==> Apart(rows[i], rows[j])
  }

  ghost predicate Good(passes: map<PassId, PassRow>, rows: seq<Row>) {
    && PassesOk(passes)
    && (forall i :: 0 <= i < |rows| ==> RowOk(passes, rows[i]))
    && Disjoint(rows)
  }

  // ------------------------------------------------------------- registering

  datatype Verdict = Clear | Release | TurnOver | Blocked

  /** What a row in the way of a new registration is to it. */
  function Judge(passes: map<PassId, PassRow>, p: PassId, plate: string, from: Day, end: Option<Day>,
                 r: Row): Verdict
    requires p in passes && r.pass in passes
  {
    var validTo := passes[r.pass].validTo;
    if !(r.garage in passes[p].garages && r.plate == plate && Overlaps(r, from, end)) then Clear
    else if Lapsed(passes, r, from) then Release
    else if r.pass != p && ALastDay(r, validTo) && r.from <= from && LastDay(r, validTo) <= from then TurnOver
    else Blocked
  }

  /** A stay's last day: a QR's registration, or one open to its pass's last day. */
  predicate ALastDay(r: Row, validTo: Option<Day>) {
    (r.why == Some(AfterLastDay) && r.end.Some?) || (r.end.None? && validTo.Some?)
  }

  function LastDay(r: Row, validTo: Option<Day>): Day
    requires ALastDay(r, validTo)
  {
    if r.end.Some? then r.end.value - 1 else validTo.value
  }

  /** Open on a pass whose last day has passed: it holds nothing any more. */
  predicate Lapsed(passes: map<PassId, PassRow>, r: Row, from: Day)
    requires r.pass in passes
  {
    var validTo := passes[r.pass].validTo;
    r.end.None? && validTo.Some? && validTo.value < from
  }

  function TurnedOver(r: Row, from: Day): Row {
    r.(end := Some(Max(from, r.from)), why := Some(ByNextStay))
  }

  function Released(r: Row, validTo: Day): Row {
    r.(end := Some(Max(validTo + 1, r.from)), why := Some(ByExpiry))
  }

  /** The row as the registration leaves it. */
  function Settled(passes: map<PassId, PassRow>, p: PassId, plate: string, from: Day, end: Option<Day>,
                   r: Row): Row
    requires p in passes && r.pass in passes
  {
    match Judge(passes, p, plate, from, end, r)
    case Release => Released(r, passes[r.pass].validTo.value)
    case TurnOver => TurnedOver(r, from)
    case _ => r
  }

  function NewRow(p: PassId, plate: string, from: Day, end: Option<Day>, why: Reason, g: GarageId): Row {
    Row(g, p, plate, from, end, if end.Some? then Some(why) else None)
  }

  /** The table after a registration that was not refused. */
  ghost function Registered(passes: map<PassId, PassRow>, rows: seq<Row>, p: PassId, plate: string,
                            from: Day, end: Option<Day>, why: Reason): seq<Row>
    requires p in passes && forall i :: 0 <= i < |rows| ==> rows[i].pass in passes
  {
    seq(|rows|, i requires 0 <= i < |rows| => Settled(passes, p, plate, from, end, rows[i]))
    + seq(|passes[p].garages|, k requires 0 <= k < |passes[p].garages| =>
        NewRow(p, plate, from, end, why, passes[p].garages[k]))
  }

  /** The first thing that refuses a registration on the pass itself. */
  function RefusedOnPass(pass: PassRow, from: Day, end: Option<Day>): Option<Refusal> {
    if !Registrable(pass.state) then Some(PassNotRegistrable)
    else if !pass.readable then Some(PassUnreadable)
    else if EffectiveState(pass.state, pass.validTo, from) == Expired then Some(PassNotRegistrable)
    else if end.Some? && end.value <= from then Some(EndsBeforeItStarts)
    else if end.Some? && pass.validTo.Some? && end.value > pass.validTo.value + 1 then Some(OutlivesThePass)
    else None
  }

  function RefusedAtGarage(passes: map<PassId, PassRow>, unreadable: set<GarageId>, at: GarageId, p: PassId)
    : Option<Refusal>
  {
    if at in unreadable then Some(GarageUnreadable)
    else if p !in passes || at !in passes[p].garages then Some(PassNotFound)
    else None
  }

  ghost predicate SomeRowBlocks(passes: map<PassId, PassRow>, rows: seq<Row>, p: PassId, plate: string,
                                from: Day, end: Option<Day>)
    requires p in passes && forall i :: 0 <= i < |rows| ==> rows[i].pass in passes
  {
    exists i :: 0 <= i < |rows| && Judge(passes, p, plate, from, end, rows[i]) == Blocked
  }

  ghost function RegisterRefusal(passes: map<PassId, PassRow>, unreadable: set<GarageId>, rows: seq<Row>,
                                 at: GarageId, p: PassId, plate: string, from: Day, end: Option<Day>)
    : Option<Refusal>
    requires forall i :: 0 <= i < |rows| ==> rows[i].pass in passes
  {
    if plate == "" then Some(BlankIdentity)
    else if RefusedAtGarage(passes, unreadable, at, p).Some? then RefusedAtGarage(passes, unreadable, at, p)
    else if RefusedOnPass(passes[p], from, end).Some? then RefusedOnPass(passes[p], from, end)
    else if SomeRowBlocks(passes, rows, p, plate, from, end) then Some(VehicleOnAnotherPass)
    else None
  }

  // ------------------------------------------------------------------ ending

  predicate OfPass(r: Row, p: PassId, plate: string) {
    r.pass == p && r.plate == plate
  }

  /** First in ORDER BY effective_day DESC, garage: the latest, at the least garage.
      Two rows may tie (an empty one beside another); either may come first. */
  predicate ComesFirst(rows: seq<Row>, p: PassId, plate: string, i: nat) {
    && i < |rows| && OfPass(rows[i], p, plate)
    && forall j :: 0 <= j < |rows| && OfPass(rows[j], p, plate) ==>
         rows[j].from < rows[i].from || (rows[j].from == rows[i].from && rows[i].garage <= rows[j].garage)
  }

  predicate Planned(first: Row, day: Day) {
    first.why == Some(AfterLastDay) && first.end.Some? && day < first.end.value
  }

  function EndRefusal(first: Row, day: Day): Option<Refusal> {
    if first.end.Some? && !Planned(first, day) then Some(AlreadyEnded)
    else if day <= first.from then Some(EndsBeforeItStarts)
    else None
  }

  /** The rows an end writes: the first one's registration, ending as it does. */
  predicate SameRegistration(r: Row, first: Row) {
    OfPass(r, first.pass, first.plate) && r.from == first.from && r.end == first.end
  }

  function Ended(rows: seq<Row>, first: Row, day: Day): seq<Row> {
    Update(rows, (r: Row) => SameRegistration(r, first), (r: Row) => r.(end := Some(day), why := Some(EndedByOwner)))
  }

  predicate InForceAfter(r: Row, p: PassId, day: Day) {
    r.pass == p && (r.end.None? || r.end.value > day) && (r.end.None? || r.end.value > r.from)
  }

  function StayEnded(rows: seq<Row>, p: PassId, day: Day): seq<Row> {
    Update(rows, (r: Row) => InForceAfter(r, p, day),
           (r: Row) => r.(end := Some(Max(day, r.from)), why := Some(ByCheckout)))
  }

  // --------------------------------------------------------------- revoking

  predicate RunsPast(r: Row, p: PassId, days: map<GarageId, Day>) {
    r.pass == p && r.garage in days
    && (r.end.None? || r.end.value > Max(days[r.garage], r.from))
  }

  /** Every row of the pass ends on its own garage's day of the revocation. */
  function RevokedRows(rows: seq<Row>, p: PassId, days: map<GarageId, Day>): seq<Row> {
    Update(rows, (r: Row) => RunsPast(r, p, days),
           (r: Row) => if r.garage in days
                then r.(end := Some(Max(days[r.garage], r.from)), why := Some(ByRevocation)) else r)
  }

  // --------------------------------------------------------------- the class

  class Store {
    var passes: map<PassId, PassRow>
    var unreadable: set<GarageId>
    var rows: seq<Row>

    ghost predicate Valid()
      reads this
    {
      Good(passes, rows)
    }

    constructor (passes: map<PassId, PassRow>, unreadable: set<GarageId>)
      requires PassesOk(passes)
      ensures Valid() && this.passes == passes && this.unreadable == unreadable && rows == []
    {
      this.passes, this.unreadable, this.rows := passes, unreadable, [];
    }

    /** The registrations of the plate that stand in the way, at every garage of the pass. */
    method Holders(garages: seq<GarageId>, plate: string, from: Day, end: Option<Day>) returns (ids: seq<nat>)
      ensures forall k :: 0 <= k < |ids| ==> ids[k] < |rows|
      ensures forall i :: 0 <= i < |rows| ==>
                (i in ids <==> rows[i].garage in garages && rows[i].plate == plate && Overlaps(rows[i], from, end))
    {
      ids := [];
      for k := 0 to |garages|
        invariant forall j :: 0 <= j < |ids| ==> ids[j] < |rows|
        invariant forall i :: 0 <= i < |rows| ==>
                    (i in ids <==> rows[i].garage in garages[..k] && rows[i].plate == plate
                                   && Overlaps(rows[i], from, end))
      {
        var g := garages[k];
        var here := Where(rows, (r: Row) => r.garage == g && r.plate == plate && Overlaps(r, from, end));
        ids := ids + here;
      }
      assert garages[..|garages|] == garages;
    }

    method RegisterVehicle(at: GarageId, p: PassId, plate: string, from: Day, end: Option<Day>, why: Reason)
      returns (out: Outcome)
      requires Valid()
      modifies this`rows
      ensures var refusal := RegisterRefusal(passes, unreadable, old(rows), at, p, plate, from, end);
              out == if refusal.Some? then Refused(refusal.value) else Done
      ensures out.Refused? ==> rows == old(rows)
      ensures out.Done? ==> p in passes && rows == Registered(passes, old(rows), p, plate, from, end, why)
    {
      if plate == "" { return Refused(BlankIdentity); }
      var away := RefusedAtGarage(passes, unreadable, at, p);
      if away.Some? { return Refused(away.value); }
      var pass := passes[p];
      var no := RefusedOnPass(pass, from, end);
      if no.Some? { return Refused(no.value); }
      var holders := Holders(pass.garages, plate, from, end);
      var blocked, turnover := JudgeHolders(holders, p, plate, from, end);
      if blocked { return Refused(VehicleOnAnotherPass); }
      ghost var read := rows;
      TurnOverRows(turnover, from);
      ReleaseRows(holders, from);
      assert forall i :: 0 <= i < |read| ==> rows[i] == Settled(passes, p, plate, from, end, read[i]);
      Insert(p, plate, from, end, why, pass.garages);
      return Done;
    }

    /** Every holder is judged before the first row is written. */
    method JudgeHolders(holders: seq<nat>, p: PassId, plate: string, from: Day, end: Option<Day>)
      returns (blocked: bool, turnover: seq<nat>)
      requires p in passes && forall k :: 0 <= k < |holders| ==> holders[k] < |rows|
      requires forall i :: 0 <= i < |rows| ==> RowOk(passes, rows[i])
      requires forall i :: 0 <= i < |rows| ==>
                 (i in holders <==> rows[i].garage in passes[p].garages && rows[i].plate == plate
                                    && Overlaps(rows[i], from, end))
      ensures forall i :: 0 <= i < |rows| ==> rows[i].pass in passes
      ensures blocked <==> SomeRowBlocks(passes, rows, p, plate, from, end)
      ensures !blocked ==> forall i: nat :: i in turnover <==>
                i < |rows| && Judge(passes, p, plate, from, end, rows[i]) == TurnOver
    {
      assert forall i :: 0 <= i < |rows| ==> RowOk(passes, rows[i]);
      turnover := [];
      for k := 0 to |holders|
        invariant forall j :: 0 <= j < k ==>
                    Judge(passes, p, plate, from, end, rows[holders[j]]) in {Release, TurnOver}
        invariant forall i: nat :: i in turnover ==>
                    i < |rows| && Judge(passes, p, plate, from, end, rows[i]) == TurnOver
        invariant forall j :: 0 <= j < k && Judge(passes, p, plate, from, end, rows[holders[j]]) == TurnOver ==>
                    holders[j] in turnover
      {
        var row := rows[holders[k]];
        assert holders[k] in holders && RowOk(passes, row);
        if Lapsed(passes, row, from) {
          continue;
        }
        var validTo := passes[row.pass].validTo;
        if row.pass != p && ALastDay(row, validTo) && row.from <= from && LastDay(row, validTo) <= from {
          turnover := turnover + [holders[k]];
          continue;
        }
        return true, [];
      }
      blocked := false;
    }

    method TurnOverRows(turnover: seq<nat>, from: Day)
      requires forall i :: i in turnover ==> i < |rows|
      modifies this`rows
      ensures |rows| == |old(rows)|
      ensures forall i :: 0 <= i < |rows| ==>
                rows[i] == if i in turnover then TurnedOver(old(rows)[i], from) else old(rows)[i]
    {
      ghost var read := rows;
      for k := 0 to |turnover|
        invariant |rows| == |read|
        invariant forall i :: 0 <= i < |rows| ==>
                    rows[i] == if i in turnover[..k] then TurnedOver(read[i], from) else read[i]
      {
        assert turnover[k] in turnover;
        rows := rows[turnover[k] := TurnedOver(rows[turnover[k]], from)];
        assert turnover[..k + 1] == turnover[..k] + [turnover[k]];
      }
      assert turnover[..|turnover|] == turnover;
    }

    /** What expiry has already freed, still open as it was read. */
    method ReleaseRows(holders: seq<nat>, from: Day)
      requires forall k :: 0 <= k < |holders| ==> holders[k] < |rows|
      requires forall i :: 0 <= i < |rows| ==> rows[i].pass in passes
      modifies this`rows
      ensures |rows| == |old(rows)|
      ensures forall i :: 0 <= i < |rows| ==>
                rows[i] == if i in holders && Lapsed(passes, old(rows)[i], from)
                           then Released(old(rows)[i], passes[old(rows)[i].pass].validTo.value) else old(rows)[i]
    {
      ghost var read := rows;
      for k := 0 to |holders|
        invariant |rows| == |read|
        invariant forall i :: 0 <= i < |rows| ==>
                    rows[i] == if i in holders[..k] && Lapsed(passes, read[i], from)
                               then Released(read[i], passes[read[i].pass].validTo.value) else read[i]
      {
        var i := holders[k];
        if Lapsed(passes, rows[i], from) {
          rows := rows[i := Released(rows[i], passes[rows[i].pass].validTo.value)];
        }
        assert holders[..k + 1] == holders[..k] + [i];
      }
      assert holders[..|holders|] == holders;
    }

    method Insert(p: PassId, plate: string, from: Day, end: Option<Day>, why: Reason, garages: seq<GarageId>)
      modifies this`rows
      ensures rows == old(rows) + seq(|garages|, k requires 0 <= k < |garages| =>
                                        NewRow(p, plate, from, end, why, garages[k]))
    {
      ghost var before := rows;
      for k := 0 to |garages|
        invariant rows == before + seq(k, j requires 0 <= j < k => NewRow(p, plate, from, end, why, garages[j]))
      {
        rows := rows + [NewRow(p, plate, from, end, why, garages[k])];
      }
    }

    method EndRegistration(at: GarageId, p: PassId, plate: string, day: Day) returns (out: Outcome, ghost first: nat)
      requires Valid()
      modifies this`rows
      ensures plate == "" ==> out == Refused(BlankIdentity)
      ensures plate != "" && RefusedAtGarage(passes, unreadable, at, p).Some? ==>
                out == Refused(RefusedAtGarage(passes, unreadable, at, p).value)
      ensures plate != "" && RefusedAtGarage(passes, unreadable, at, p).None? ==>
                (out == Refused(RegistrationNotFound) <==>
                 forall i :: 0 <= i < |old(rows)| ==> !OfPass(old(rows)[i], p, plate))
      ensures plate != "" && RefusedAtGarage(passes, unreadable, at, p).None?
              && out != Refused(RegistrationNotFound) ==>
                && ComesFirst(old(rows), p, plate, first)
                && out == (if EndRefusal(old(rows)[first], day).Some?
                           then Refused(EndRefusal(old(rows)[first], day).value) else Done)
      ensures out.Done? ==> ComesFirst(old(rows), p, plate, first) && rows == Ended(old(rows), old(rows)[first], day)
      ensures out.Refused? ==> rows == old(rows)
    {
      first := 0;
      if plate == "" { return Refused(BlankIdentity), 0; }
      var away := RefusedAtGarage(passes, unreadable, at, p);
      if away.Some? { return Refused(away.value), 0; }
      var ids := Where(rows, (r: Row) => OfPass(r, p, plate));
      if ids == [] { return Refused(RegistrationNotFound), 0; }
      var pick := FirstOf(ids, p, plate);
      first := pick;
      var row := rows[pick];
      if row.end.Some? && !Planned(row, day) { return Refused(AlreadyEnded), first; }
      if day <= row.from { return Refused(EndsBeforeItStarts), first; }
      rows := Ended(rows, row, day);
      return Done, first;
    }

    /** ORDER BY effective_day DESC, garage: the first row of the answer. */
    method FirstOf(ids: seq<nat>, p: PassId, plate: string) returns (pick: nat)
      requires ids != [] && forall k :: 0 <= k < |ids| ==> ids[k] < |rows| && OfPass(rows[ids[k]], p, plate)
      requires forall i :: 0 <= i < |rows| && OfPass(rows[i], p, plate) ==> i in ids
      ensures ComesFirst(rows, p, plate, pick)
    {
      pick := ids[0];
      for k := 1 to |ids|
        invariant pick in ids[..k]
        invariant forall j :: 0 <= j < k ==>
                    rows[ids[j]].from < rows[pick].from
                    || (rows[ids[j]].from == rows[pick].from && rows[pick].garage <= rows[ids[j]].garage)
      {
        var r := rows[ids[k]];
        if rows[pick].from < r.from || (rows[pick].from == r.from && r.garage < rows[pick].garage) {
          pick := ids[k];
        }
      }
    }

    method EndStay(at: GarageId, p: PassId, day: Day) returns (out: Outcome)
      requires Valid()
      modifies this`rows
      ensures out == if RefusedAtGarage(passes, unreadable, at, p).Some?
                     then Refused(RefusedAtGarage(passes, unreadable, at, p).value)
                     else if exists i :: 0 <= i < |old(rows)| && InForceAfter(old(rows)[i], p, day) then Done
                     else Refused(RegistrationNotFound)
      ensures rows == if out.Done? then StayEnded(old(rows), p, day) else old(rows)
    {
      var away := RefusedAtGarage(passes, unreadable, at, p);
      if away.Some? { return Refused(away.value); }
      var ids := Where(rows, (r: Row) => InForceAfter(r, p, day));
      if ids == [] { return Refused(RegistrationNotFound); }
      assert InForceAfter(rows[ids[0]], p, day);
      rows := StayEnded(rows, p, day);
      return Done;
    }

    /** `days` is each garage's local day of the instant of the change. */
    method ChangeState(at: GarageId, p: PassId, to: State, who: string, why: string, days: GarageId -> Day)
      returns (out: Outcome)
      requires Valid()
      modifies this`rows, this`passes
      ensures out == ChangeOutcome(old(passes), unreadable, at, p, to, who, why)
      ensures out.Refused? ==> rows == old(rows) && passes == old(passes)
      ensures out.Done? ==> p in old(passes) && passes == old(passes)[p := old(passes)[p].(state := to)]
      ensures out.Done? ==> rows == if to == Revoked then RevokedRows(old(rows), p, DaysAt(old(passes)[p].garages, days))
                                    else old(rows)
    {
      var away := RefusedAtGarage(passes, unreadable, at, p);
      if away.Some? { return Refused(away.value); }
      var moved := States.Transition(passes[p].state, to, who, why);
      if moved.NotMoved? { return Refused(Transition(moved.error)); }
      var garages := passes[p].garages;
      var daysAt: map<GarageId, Day> := map[];
      if to == Revoked {
        var known;
        known, daysAt := DaysOfGarages(garages, days);
        if !known { return Refused(GarageUnreadable); }
      }
      passes := passes[p := passes[p].(state := moved.state)];
      if to == Revoked {
        EndAtEveryGarage(p, garages, days, daysAt);
      }
      return Done;
    }

    /** Every garage's day, before the first write. */
    method DaysOfGarages(garages: seq<GarageId>, days: GarageId -> Day)
      returns (known: bool, daysAt: map<GarageId, Day>)
      ensures known <==> !exists k :: 0 <= k < |garages| && garages[k] in unreadable
      ensures known ==> daysAt == DaysAt(garages, days)
    {
      daysAt := map[];
      for k := 0 to |garages|
        invariant daysAt == DaysAt(garages[..k], days)
        invariant forall j :: 0 <= j < k ==> garages[j] !in unreadable
      {
        if garages[k] in unreadable { return false, map[]; }
        daysAt := daysAt[garages[k] := days(garages[k])];
        assert garages[..k + 1] == garages[..k] + [garages[k]];
      }
      assert garages[..|garages|] == garages;
      known := true;
    }

    /** One UPDATE per garage of the pass, each on that garage's day. */
    method EndAtEveryGarage(p: PassId, garages: seq<GarageId>, ghost days: GarageId -> Day, daysAt: map<GarageId, Day>)
      requires daysAt == DaysAt(garages, days)
      modifies this`rows
      ensures rows == RevokedRows(old(rows), p, DaysAt(garages, days))
    {
      ghost var read := rows;
      for k := 0 to |garages|
        invariant rows == RevokedRows(read, p, DaysAt(garages[..k], days))
      {
        RevokedOneGarage(read, p, garages[..k], garages[k], days);
        rows := RevokedRows(rows, p, map[garages[k] := daysAt[garages[k]]]);
        assert garages[..k + 1] == garages[..k] + [garages[k]];
      }
      assert garages[..|garages|] == garages;
    }
  }

  function DaysAt(garages: seq<GarageId>, days: GarageId -> Day): (m: map<GarageId, Day>)
    ensures m.Keys == set g | g in garages
    ensures forall g :: g in m ==> m[g] == days(g)
  {
    map g | g in garages :: days(g)
  }

  ghost function ChangeOutcome(passes: map<PassId, PassRow>, unreadable: set<GarageId>, at: GarageId, p: PassId,
                               to: State, who: string, why: string): Outcome
  {
    var away := RefusedAtGarage(passes, unreadable, at, p);
    if away.Some? then Refused(away.value)
    else
      var moved := States.Transition(passes[p].state, to, who, why);
      if moved.NotMoved? then Refused(Transition(moved.error))
      else if to == Revoked && exists k :: 0 <= k < |passes[p].garages| && passes[p].garages[k] in unreadable then Refused(GarageUnreadable)
      else Done
  }

  lemma RevokedOneGarage(read: seq<Row>, p: PassId, before: seq<GarageId>, g: GarageId, days: GarageId -> Day)
    ensures RevokedRows(RevokedRows(read, p, DaysAt(before, days)), p, map[g := days(g)])
            == RevokedRows(read, p, DaysAt(before + [g], days))
  {
  }
}
