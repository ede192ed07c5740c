/** A bound QR shown at a lane: judged by its own stay, answered for its own car; and what
    is read from the register for the access answer. */
module Redemption {
  import opened Basics
  import opened Text
  import opened States
  import opened Plates
  import opened Terms
  import opened Lists
  import opened Codes
  import opened Access
  import opened AccessProofs
  import Register
  import RegisterProofs
  import Runs
  import Sets
  import AccessOrder

  /** What the store holds, as one transaction reads it. */
  datatype Books = Books(rows: seq<Register.Row>, codes: seq<Code>, passes: map<PassId, Pass>,
                         garages: map<GarageId, Garage>, visits: seq<Visit>)

  ghost predicate BooksOk(b: Books) {
    && Register.Disjoint(b.rows)
    && (forall i :: 0 <= i < |b.rows| ==>
          && b.rows[i].pass in b.passes && b.rows[i].garage in b.passes[b.rows[i].pass].garages
          && PlateKey(b.rows[i].plate) == b.rows[i].plate)
    && (forall p :: p in b.passes ==> b.passes[p].id == p && PassOk(b.passes[p]))
    && (forall g :: g in b.garages ==> b.garages[g].id == g)
  }

  // ---------------------------------------------------- the registrations of a car

  function RegistrationOf(codes: seq<Code>, key: string, today: Option<Day>, row: Register.Row): Registration {
    var gone := Gone(codes, row.pass, key, today);
    Registration(row.pass, key, row.from, row.end, gone, if gone then LatestReplacement(codes, row.pass, key) else None)
  }

  predicate OfCarAt(row: Register.Row, g: GarageId, key: string) {
    row.garage == g && row.plate == key
  }

  /** The car's rows at the garage, in the order of their days. */
  function RowsOf(b: Books, g: GarageId, key: string): (rows: seq<Register.Row>)
    ensures forall r :: r in rows <==> r in b.rows && OfCarAt(r, g, key)
  {
    var at := Filter(b.rows, (r: Register.Row) => OfCarAt(r, g, key));
    var rows := SortedBy(at, (r: Register.Row) => r.from);
    SortedHeadIsLeast(at, (r: Register.Row) => r.from);
    rows
  }

  function RegistrationsOf(b: Books, g: GarageId, identity: string, today: Option<Day>): (out: seq<Registration>)
    ensures PlateKey(identity) == "" ==> out == []
    ensures PlateKey(identity) != "" ==>
              var rows := RowsOf(b, g, PlateKey(identity));
              |out| == |rows|
              && forall i :: 0 <= i < |rows| ==> out[i] == RegistrationOf(b.codes, PlateKey(identity), today, rows[i])
  {
    var key := PlateKey(identity);
    if key == "" then []
    else
      var rows := RowsOf(b, g, key);
      seq(|rows|, i requires 0 <= i < |rows| => RegistrationOf(b.codes, key, today, rows[i]))
  }

  function FlagsOf(replaced: map<PassId, (bool, bool)>, p: PassId): (bool, bool) {
    if p in replaced then replaced[p] else (false, false)
  }

  function InstantOf(replacedAt: map<PassId, Instant>, p: PassId): Option<Instant> {
    if p in replacedAt then Some(replacedAt[p]) else None
  }

  ghost predicate FlagsRead(replaced: map<PassId, (bool, bool)>, codes: seq<Code>, passes: set<PassId>, key: string,
                            today: Option<Day>) {
    forall p :: p in passes ==> FlagsOf(replaced, p) == (WasReplaced(codes, p, key), StillLive(codes, p, key, today))
  }

  ghost predicate InstantsRead(replacedAt: map<PassId, Instant>, codes: seq<Code>, passes: set<PassId>, key: string) {
    forall p :: p in passes ==> InstantOf(replacedAt, p) == LatestReplacement(codes, p, key)
  }

  lemma FlagsStep(replaced: map<PassId, (bool, bool)>, codes: seq<Code>, k: nat, passes: set<PassId>, key: string,
                  today: Option<Day>)
    requires k < |codes| && FlagsRead(replaced, codes[..k], passes, key, today)
    ensures var c := codes[k]; var seen := FlagsOf(replaced, c.pass);
            if OfCar(c, c.pass, key) then
              FlagsRead(replaced[c.pass := (seen.0 || c.exitOnlyAt.Some?, seen.1 || (LiveOn(c, today) && c.exitOnlyAt.None?))],
                        codes[..k + 1], passes, key, today)
            else FlagsRead(replaced, codes[..k + 1], passes, key, today)
  {
    OneMoreCode(codes, k, key, today);
  }

  lemma InstantsStep(replacedAt: map<PassId, Instant>, codes: seq<Code>, k: nat, passes: set<PassId>, key: string)
    requires k < |codes| && InstantsRead(replacedAt, codes[..k], passes, key)
    ensures var c := codes[k];
            if OfCar(c, c.pass, key) && c.exitOnlyAt.Some? then
              var latest := InstantOf(replacedAt, c.pass);
              InstantsRead(replacedAt[c.pass := if latest.None? then c.exitOnlyAt.value
                                                else Max(c.exitOnlyAt.value, latest.value)], codes[..k + 1], passes, key)
              || c.pass !in passes
            else InstantsRead(replacedAt, codes[..k + 1], passes, key)
    ensures codes[k].pass !in passes ==> InstantsRead(replacedAt, codes[..k + 1], passes, key)
  {
    assert codes[..k + 1][..k] == codes[..k] && codes[..k + 1][k] == codes[k];
  }

  /** The loop over the QRs of the car's passes: which car was replaced, which still enters. */
  method ReadReplacements(codes: seq<Code>, passes: set<PassId>, key: string, today: Option<Day>)
    returns (replaced: map<PassId, (bool, bool)>, replacedAt: map<PassId, Instant>)
    ensures forall p :: p in passes ==> (Gone(codes, p, key, today) <==> FlagsOf(replaced, p) == (true, false))
    ensures forall p :: p in passes ==> LatestReplacement(codes, p, key) == InstantOf(replacedAt, p)
  {
    replaced, replacedAt := map[], map[];
    for k := 0 to |codes|
      invariant FlagsRead(replaced, codes[..k], passes, key, today)
      invariant InstantsRead(replacedAt, codes[..k], passes, key)
    {
      var c := codes[k];
      FlagsStep(replaced, codes, k, passes, key, today);
      InstantsStep(replacedAt, codes, k, passes, key);
      if BoundTo(c).Some? && PlateKey(BoundTo(c).value) == key {
        var seen := FlagsOf(replaced, c.pass);
        replaced := replaced[c.pass := (seen.0 || c.exitOnlyAt.Some?, seen.1 || (LiveOn(c, today) && c.exitOnlyAt.None?))];
        if c.pass in passes && c.exitOnlyAt.Some? {
          var latest := InstantOf(replacedAt, c.pass);
          replacedAt := replacedAt[c.pass := if latest.None? then c.exitOnlyAt.value
                                             else Max(c.exitOnlyAt.value, latest.value)];
        }
      }
    }
    assert codes[..|codes|] == codes;
  }

  lemma OneMoreCode(codes: seq<Code>, k: nat, key: string, today: Option<Day>)
    requires k < |codes|
    ensures forall p :: WasReplaced(codes[..k + 1], p, key) <==>
              WasReplaced(codes[..k], p, key) || (OfCar(codes[k], p, key) && codes[k].exitOnlyAt.Some?)
    ensures forall p :: StillLive(codes[..k + 1], p, key, today) <==>
              StillLive(codes[..k], p, key, today)
              || (OfCar(codes[k], p, key) && codes[k].exitOnlyAt.None? && LiveOn(codes[k], today))
    ensures codes[..k + 1][..k] == codes[..k] && codes[..k + 1][k] == codes[k]
  {
    var more, less := codes[..k + 1], codes[..k];
    assert forall i :: 0 <= i < k ==> more[i] == less[i];
    assert more[k] == codes[k];
  }

  method ReadRegistrations(b: Books, g: GarageId, identity: string, today: Option<Day>) returns (out: seq<Registration>)
    ensures out == RegistrationsOf(b, g, identity, today)
  {
    var key := PlateKey(identity);
    if key == "" { return []; }
    var rows := RowsOf(b, g, key);
    var passes := set r | r in rows :: r.pass;
    var replaced, replacedAt := ReadReplacements(b.codes, passes, key, today);
    out := DeriveAll(replaced, replacedAt, key, rows);
    forall i | 0 <= i < |rows| ensures out[i] == RegistrationOf(b.codes, key, today, rows[i]) {
      assert rows[i] in rows && rows[i].pass in passes;
    }
  }

  method DeriveAll(replaced: map<PassId, (bool, bool)>, replacedAt: map<PassId, Instant>, key: string, rows: seq<Register.Row>)
    returns (out: seq<Registration>)
    ensures |out| == |rows| && forall i :: 0 <= i < |rows| ==> out[i] == Derived(replaced, replacedAt, key, rows[i])
  {
    out := [];
    for k := 0 to |rows|
      invariant |out| == k && forall i :: 0 <= i < k ==> out[i] == Derived(replaced, replacedAt, key, rows[i])
    {
      out := out + [Derived(replaced, replacedAt, key, rows[k])];
    }
  }

  /** The registration, from what was read of the replacements. */
  function Derived(replaced: map<PassId, (bool, bool)>, replacedAt: map<PassId, Instant>, key: string, row: Register.Row)
    : Registration
  {
    var gone := FlagsOf(replaced, row.pass) == (true, false);
    Registration(row.pass, key, row.from, row.end, gone, if gone then InstantOf(replacedAt, row.pass) else None)
  }

  // ------------------------------------------------------ what the engine is handed

  /** The car's stay on the pass, in force before `day`, was checked out on it. */
  predicate CheckedOut(b: Books, g: GarageId, key: string, day: Day, p: PassId) {
    exists i :: 0 <= i < |b.rows| && OfCarAt(b.rows[i], g, key) && b.rows[i].pass == p
      && b.rows[i].why == Some(Register.ByCheckout) && b.rows[i].from < day && b.rows[i].end == Some(day)
  }

  function Today(w: World, garage: Garage, at: Instant): Option<Day> {
    if garage.unreadable then None else Some(w.clock(garage.timezone, at).day)
  }

  /** The stay checked out on `day`, as if it ran to the end of it. */
  function ADayLonger(b: Books, g: GarageId, key: string, day: Day, r: Registration): Registration {
    if CheckedOut(b, g, key, day, r.pass) && r.end == Some(day) then r.(end := Some(day + 1)) else r
  }

  /** On the day a stay was checked out, at an exit, where nothing holds the car: the stay
      as if it ran to the end of today. */
  function Handed(w: World, b: Books, garage: Garage, identity: string, direction: Direction, at: Instant)
    : (out: seq<Registration>)
    ensures var found := RegistrationsOf(b, garage.id, identity, Today(w, garage, at));
            && |out| == |found|
            && forall i :: 0 <= i < |out| ==>
                 || out[i] == found[i]
                 || (direction == Exit
                     && out[i] == ADayLonger(b, garage.id, PlateKey(identity), DayAt(w, garage, at), found[i]))
  {
    var today := Today(w, garage, at);
    var found := RegistrationsOf(b, garage.id, identity, today);
    if direction == Exit && today.Some? && !(exists r :: r in found && CoversDay(r, today.value)) then
      seq(|found|, i requires 0 <= i < |found| => ADayLonger(b, garage.id, PlateKey(identity), today.value, found[i]))
    else found
  }

  /** Each pass once, in the order its first registration was found. */
  function PassesFor(b: Books, regs: seq<Registration>): (ps: seq<Pass>)
    requires forall r :: r in regs ==> r.pass in b.passes
    ensures forall p :: p in ps ==> exists r :: r in regs && p == b.passes[r.pass]
    ensures forall r :: r in regs ==> b.passes[r.pass] in ps
  {
    if regs == [] then []
    else
      var n := |regs| - 1;
      assert regs[n] in regs && forall r :: r in regs <==> r in regs[..n] || r == regs[n];
      var before := PassesFor(b, regs[..n]);
      if b.passes[regs[n].pass] in before then before else before + [b.passes[regs[n].pass]]
  }

  lemma {:induction false} EachPassOnce(b: Books, regs: seq<Registration>)
    requires forall r :: r in regs ==> r.pass in b.passes
    requires forall p :: p in b.passes ==> b.passes[p].id == p
    ensures forall i, j :: 0 <= i < j < |PassesFor(b, regs)| ==> PassesFor(b, regs)[i].id != PassesFor(b, regs)[j].id
  {
    if regs != [] {
      var n := |regs| - 1;
      assert regs[n] in regs && forall r :: r in regs <==> r in regs[..n] || r == regs[n];
      EachPassOnce(b, regs[..n]);
      var before := PassesFor(b, regs[..n]);
      forall p | p in before ensures p.id in b.passes && p == b.passes[p.id] {
        var r :| r in regs[..n] && p == b.passes[r.pass];
      }
      assert forall i :: 0 <= i < |before| ==> before[i] in before;
    }
  }

  /** The other garages those passes name, of the ones there are. */
  function GaragesBeside(b: Books, ps: seq<Pass>, g: GarageId): set<GarageId> {
    set p, h | p in ps && h in p.garages && h != g && h in b.garages :: h
  }

  function RecordsFor(b: Books, regs: seq<Registration>, g: GarageId): Records
    requires forall r :: r in regs ==> r.pass in b.passes
  {
    var ps := PassesFor(b, regs);
    var ids := set p | p in ps :: p.id;
    var others := Sets.Sorted(GaragesBeside(b, ps, g));
    Records(ps, regs, Filter(b.visits, (v: Visit) => v.pass in ids),
            seq(|others|, i requires 0 <= i < |others| => assert others[i] in others; b.garages[others[i]]))
  }

  function AnswerFor(w: World, b: Books, garage: Garage, identity: string, regs: seq<Registration>, lane: string,
                     direction: Direction, at: Instant, enteredAt: Option<Instant>): Answer
    requires BooksOk(b) && forall r :: r in regs ==> r.pass in b.passes
  {
    AccessAnswer(w, Movement(garage, identity, lane, direction, at, enteredAt), RecordsFor(b, regs, garage.id))
  }

  function DayAt(w: World, garage: Garage, at: Instant): Day {
    w.clock(garage.timezone, at).day
  }

  /** The registration is this row, read; on its checkout day, at an exit, a day longer. */
  ghost predicate ReadFrom(w: World, b: Books, garage: Garage, key: string, direction: Direction, at: Instant,
                           r: Registration, row: Register.Row) {
    && row in b.rows && OfCarAt(row, garage.id, key)
    && r == RegistrationOf(b.codes, key, Today(w, garage, at), row).(end := r.end)
    && (r.end != row.end ==>
          && direction == Exit && row.end == Some(DayAt(w, garage, at)) && r.end == Some(DayAt(w, garage, at) + 1)
          && CheckedOut(b, garage.id, key, DayAt(w, garage, at), row.pass))
  }

  lemma HandedIsRead(w: World, b: Books, garage: Garage, identity: string, direction: Direction, at: Instant, i: nat)
    requires i < |Handed(w, b, garage, identity, direction, at)|
    ensures PlateKey(identity) != "" && i < |RowsOf(b, garage.id, PlateKey(identity))|
    ensures ReadFrom(w, b, garage, PlateKey(identity), direction, at, Handed(w, b, garage, identity, direction, at)[i],
                     RowsOf(b, garage.id, PlateKey(identity))[i])
  {
    var found := RegistrationsOf(b, garage.id, identity, Today(w, garage, at));
    assert |found| > 0;
    LongerIsRead(w, b, garage, PlateKey(identity), direction, at, found[i], RowsOf(b, garage.id, PlateKey(identity))[i]);
  }

  lemma LongerIsRead(w: World, b: Books, garage: Garage, key: string, direction: Direction, at: Instant, r: Registration,
                     row: Register.Row)
    requires row in RowsOf(b, garage.id, key) && r == RegistrationOf(b.codes, key, Today(w, garage, at), row)
    ensures ReadFrom(w, b, garage, key, direction, at, r, row)
    ensures direction == Exit ==>
              ReadFrom(w, b, garage, key, direction, at, ADayLonger(b, garage.id, key, DayAt(w, garage, at), r), row)
  {
  }

  lemma HandedKnown(w: World, b: Books, garage: Garage, identity: string, direction: Direction, at: Instant)
    requires BooksOk(b)
    ensures forall r :: r in Handed(w, b, garage, identity, direction, at) ==>
              && r.identity == PlateKey(identity) && r.pass in b.passes && garage.id in b.passes[r.pass].garages
              && exists row :: ReadFrom(w, b, garage, PlateKey(identity), direction, at, r, row)
  {
    var regs := Handed(w, b, garage, identity, direction, at);
    forall r | r in regs
      ensures r.identity == PlateKey(identity) && r.pass in b.passes && garage.id in b.passes[r.pass].garages
      ensures exists row :: ReadFrom(w, b, garage, PlateKey(identity), direction, at, r, row)
    {
      var i :| 0 <= i < |regs| && regs[i] == r;
      HandedIsRead(w, b, garage, identity, direction, at, i);
      var row := RowsOf(b, garage.id, PlateKey(identity))[i];
      var j :| 0 <= j < |b.rows| && b.rows[j] == row;
    }
  }

  lemma HandedOnPasses(w: World, b: Books, garage: Garage, identity: string, direction: Direction, at: Instant)
    requires BooksOk(b)
    ensures forall r :: r in Handed(w, b, garage, identity, direction, at) ==> r.pass in b.passes
  {
    HandedKnown(w, b, garage, identity, direction, at);
  }

  /** The answer for an identity, from the register. */
  function AnswerInTransaction(w: World, b: Books, garage: Garage, identity: string, lane: string, direction: Direction,
                               at: Instant, enteredAt: Option<Instant>): Answer
    requires BooksOk(b)
  {
    HandedOnPasses(w, b, garage, Strip(identity), direction, at);
    AnswerFor(w, b, garage, Strip(identity), Handed(w, b, garage, Strip(identity), direction, at), lane, direction, at, enteredAt)
  }

  function TheStay(w: World, garage: Garage, key: string, p: PassId, from: Day, at: Instant): Registration {
    Registration(p, key, from, Some(DayAt(w, garage, at) + 1), false, None)
  }

  /** On the day a stay ended early: its own pass alone, as if it ran to the end of today. */
  function AnswerOnTheStaysLastDay(w: World, b: Books, garage: Garage, key: string, p: PassId, from: Day, lane: string,
                                   direction: Direction, at: Instant): Answer
    requires BooksOk(b) && p in b.passes
  {
    AnswerFor(w, b, garage, key, [TheStay(w, garage, key, p, from, at)], lane, direction, at, None)
  }

  // --------------------------------------------------------------- a bound QR, shown

  datatype UseRefusal = CancelledCode | WrongCar | ExitOnlyCode | StayNotStarted | StayEnded | ExitOnlyToday
  datatype Use = NoUse(why: UseRefusal) | MatchRequired | Recognised(passedBy: Passed, stay: Runs.StayState)

  /** The QR's car at this lane, before its stay is looked at. None: a match decides. */
  function Presented(c: Code, read: string, direction: Direction): (out: (Option<UseRefusal>, Option<Passed>))
    requires BoundTo(c).Some?
  {
    if c.state == Cancelled then (Some(CancelledCode), None)
    else
      var unread := Strip(read) == "";
      if c.plate.None? && !unread && Some(Strip(read)) != c.identity then (Some(WrongCar), None)
      else if direction == Entry && c.exitOnlyAt.Some? then (Some(ExitOnlyCode), None)
      else if c.plate.Some? then (None, SimilarEnough(if unread then None else Some(Strip(read)), c.plate.value))
      else (None, if unread then None else Some(Passed.SamePlate))
  }

  function OutsideTheStay(stay: Runs.StayState, direction: Direction): Option<UseRefusal> {
    match stay
    case NotStarted => Some(StayNotStarted)
    case Over => Some(StayEnded)
    case LastDay => if direction == Entry then Some(ExitOnlyToday) else None
    case Live => None
  }

  function StayOfCode(b: Books, garage: Garage, c: Code, today: Day): Runs.StayState
    requires BoundTo(c).Some?
  {
    Runs.StayOf(b.rows, garage.id, c.pass, PlateKey(BoundTo(c).value), today)
  }

  function UseOf(w: World, b: Books, garage: Garage, c: Code, read: string, direction: Direction, at: Instant): Use
    requires BoundTo(c).Some?
  {
    var shown := Presented(c, read, direction);
    var stay := StayOfCode(b, garage, c, DayAt(w, garage, at));
    if shown.0.Some? then NoUse(shown.0.value)
    else if OutsideTheStay(stay, direction).Some? then NoUse(OutsideTheStay(stay, direction).value)
    else if shown.1.None? then MatchRequired
    else Recognised(shown.1.value, stay)
  }

  /** After a picture match: which car is decided, the stay and the replacement still bind. */
  function MatchedUse(w: World, b: Books, garage: Garage, c: Code, matched: bool, read: string, direction: Direction,
                      at: Instant): Use
    requires BoundTo(c).Some?
  {
    var stay := StayOfCode(b, garage, c, DayAt(w, garage, at));
    if c.state == Cancelled then NoUse(CancelledCode)
    else if !matched || (Strip(read) != "" && c.plate.None? && Some(Strip(read)) != c.identity) then NoUse(WrongCar)
    else if direction == Entry && c.exitOnlyAt.Some? then NoUse(ExitOnlyCode)
    else if OutsideTheStay(stay, direction).Some? then NoUse(OutsideTheStay(stay, direction).value)
    else Recognised(NothingRead, stay)
  }

  /** A row of the stay that ended early today. */
  predicate EndedEarly(r: Register.Row, g: GarageId, p: PassId, key: string, today: Day) {
    Runs.OfStay(r, g, p, key) && r.end == Some(today) && Runs.EndsAStay(r.why)
  }

  /** The day the stay that ends today began: of several rows of it, the earliest. */
  function LastDayFrom(rows: seq<Register.Row>, g: GarageId, p: PassId, key: string, today: Day): Day {
    if rows == [] then today
    else
      var rest := LastDayFrom(rows[1..], g, p, key, today);
      if EndedEarly(rows[0], g, p, key, today) then Min(rows[0].from, rest) else rest
  }

  /** What the lane is told of a recognised use: about the QR's own car. */
  function RecognisedAnswer(w: World, b: Books, garage: Garage, c: Code, stay: Runs.StayState, lane: string,
                            direction: Direction, at: Instant): Answer
    requires BooksOk(b) && BoundTo(c).Some? && c.pass in b.passes
  {
    var key := PlateKey(BoundTo(c).value);
    if stay == Runs.LastDay then
      AnswerOnTheStaysLastDay(w, b, garage, key, c.pass, LastDayFrom(b.rows, garage.id, c.pass, key, DayAt(w, garage, at)),
                              lane, direction, at)
    else AnswerInTransaction(w, b, garage, BoundTo(c).value, lane, direction, at, None)
  }
}
