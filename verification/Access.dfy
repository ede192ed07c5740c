/** The access answer: what a lane is told about one movement. */
module Access {
  import opened Basics
  import opened Text
  import opened States
  import opened Plates
  import opened Terms
  import opened Lists

  // ------------------------------------------------------------------- values

  /** `unreadable`: the stored zone is not one this system carries. */
  datatype Garage = Garage(id: GarageId, timezone: string, transient: Option<bool>, unreadable: bool)
  datatype Pass = Pass(id: PassId, garages: set<GarageId>, ownerLabel: string, terms: Option<Terms>, state: State,
                       unreadable: bool)
  datatype Registration = Registration(pass: PassId, identity: string, from: Day, end: Option<Day>,
                                       exitOnly: bool, exitOnlyAt: Option<Instant>)
  datatype Visit = Visit(pass: PassId, garage: GarageId, identity: string, enteredAt: Instant, exitedAt: Option<Instant>)

  /** What the wall clock of a zone reads at an instant. */
  datatype Wall = Wall(day: Day, minute: int)

  /** What the copies of one id are put in order by. */
  datatype CopyKey = CopyKey(state: State, unreadable: bool, described: string, ownerLabel: string)

  /** Taken from outside the module: the time-zone database, the one-line description of
      the terms, and the order the copies of an id are sorted in (by their keys). */
  datatype World = World(clock: (string, Instant) -> Wall, describe: Terms -> string, rank: CopyKey -> int)

  datatype Movement = Movement(garage: Garage, identity: string, lane: string, direction: Direction, at: Instant,
                               enteredAt: Option<Instant>)
  datatype Records = Records(passes: seq<Pass>, registrations: seq<Registration>, visits: seq<Visit>, garages: seq<Garage>)

  datatype Outcome = Covered | NotCovered | RefusedToAnswer
  datatype Reason =
    | GarageUnreadable | BlankIdentity | BlankLane | PassNotHandedIn | PassRevoked | NoPass | PassUnreadable
    | PassExpired | PassSuspended | NotActive | NotStarted | ExitOnly | DirectionNotAllowed | WrongLane
    | OutsideWindow | OutOfVisits | OverMaxStay | PassDuplicated
  datatype Missing =
    | MissingTimezone | MissingVehicleIdentity | MissingLane | MissingTransientMode | MissingPassHandedIn
    | DuplicatedPassId | UnreadableTerms | MissingGarageHandedIn | DuplicatedGarageId | MissingOnePass
  datatype Means = MeansCovered | TransientStay | NothingToAdmitAs | ExitOutOfTerms

  /** `exitNote`: an exit is never refused. The last two: what could not be measured. */
  datatype Answer = Answer(outcome: Outcome, pass: Option<PassId>, reason: Option<Reason>, missing: Option<Missing>,
                           means: Option<Means>, exitNote: bool, stayUnmeasured: bool, replacementUnmeasured: bool)

  /** A pass built by its own constructor: readable, it has terms that passed their validator. */
  ghost predicate PassOk(p: Pass) {
    !p.unreadable ==> p.terms.Some? && TermsOk(p.terms.value)
  }

  ghost predicate RecordsOk(r: Records) {
    forall p :: p in r.passes ==> PassOk(p)
  }

  predicate CoversDay(r: Registration, d: Day) {
    r.from <= d && (r.end.None? || d < r.end.value)
  }

  // ------------------------------------------------------------------ answers

  function Refused(m: Movement, missing: Missing, pass: Option<PassId>): Answer {
    Answer(RefusedToAnswer, pass, None, Some(missing), None, m.direction == Exit, false, false)
  }

  function Not(m: Movement, reason: Reason, pass: Option<PassId>): Answer {
    var means := if m.direction == Exit then ExitOutOfTerms
                 else if m.garage.transient == Some(true) then TransientStay else NothingToAdmitAs;
    Answer(NotCovered, pass, Some(reason), None, Some(means), m.direction == Exit, false, false)
  }

  function CoveredOn(m: Movement, p: Pass, stayUnmeasured: bool, replacementUnmeasured: bool): Answer {
    Answer(Covered, Some(p.id), None, None, Some(MeansCovered), m.direction == Exit, stayUnmeasured, replacementUnmeasured)
  }

  function Now(w: World, m: Movement): Wall {
    w.clock(m.garage.timezone, m.at)
  }

  // ------------------------------------------------------- visits and windows

  datatype ClockAt = ZoneAt(timezone: string) | NoClockAt(missing: Missing)

  /** The zone a recorded entry is read in: that of the garage it was recorded at. */
  function ClockOf(m: Movement, garages: seq<Garage>, g: GarageId): ClockAt {
    if g == m.garage.id then ZoneAt(m.garage.timezone)
    else
      var copies := Filter(garages, (x: Garage) => x.id == g);
      if copies == [] then NoClockAt(MissingGarageHandedIn)
      else if |copies| > 1 then NoClockAt(DuplicatedGarageId)
      else if copies[0].unreadable then NoClockAt(MissingTimezone)
      else ZoneAt(copies[0].timezone)
  }

  function Inside(window: Window, minute: int): bool {
    window.start <= minute < window.end
  }

  /** The first window open at the movement's instant. */
  function WindowNow(w: World, m: Movement, windows: seq<Window>): Option<Window> {
    if windows == [] then None
    else if Weekday(Now(w, m).day) in windows[0].days && Inside(windows[0], Now(w, m).minute) then Some(windows[0])
    else WindowNow(w, m, windows[1..])
  }

  /** Whether a recorded entry fell in the window today, on its own garage's clock. */
  function InWindowToday(w: World, m: Movement, garages: seq<Garage>, window: Window, v: Visit): bool {
    var clock := ClockOf(m, garages, v.garage);
    clock.ZoneAt?
    && var wall := w.clock(clock.timezone, v.enteredAt); wall.day == Now(w, m).day && Inside(window, wall.minute)
  }

  datatype Counted = Used(count: nat) | NoClock(missing: Missing)

  function OnPass(visits: seq<Visit>, p: PassId): seq<Visit> {
    Filter(visits, (v: Visit) => v.pass == p)
  }

  /** Entries counted against the allowance, over every garage of the pass. */
  function VisitsUsed(w: World, m: Movement, r: Records, p: Pass, per: Period, window: Option<Window>): Counted {
    var onPass := OnPass(r.visits, p.id);
    if per == Life || window.None? then Used(|onPass|)
    else if exists v :: v in onPass && ClockOf(m, r.garages, v.garage).NoClockAt? then
      NoClock(FirstNoClock(m, r.garages, onPass))
    else Used(|Filter(onPass, (v: Visit) => InWindowToday(w, m, r.garages, window.value, v))|)
  }

  function FirstNoClock(m: Movement, garages: seq<Garage>, visits: seq<Visit>): Missing
    requires exists v :: v in visits && ClockOf(m, garages, v.garage).NoClockAt?
  {
    if ClockOf(m, garages, visits[0].garage).NoClockAt? then ClockOf(m, garages, visits[0].garage).missing
    else
      assert forall v :: v in visits <==> v == visits[0] || v in visits[1..];
      FirstNoClock(m, garages, visits[1..])
  }

  /** The clocks of the first `k` are held. */
  ghost predicate ClocksHeld(m: Movement, garages: seq<Garage>, visits: seq<Visit>, k: nat) {
    k <= |visits| && forall j :: 0 <= j < k ==> ClockOf(m, garages, visits[j].garage).ZoneAt?
  }

  lemma {:induction false} FirstNoClockThere(m: Movement, garages: seq<Garage>, visits: seq<Visit>, k: nat)
    requires k < |visits| && ClockOf(m, garages, visits[k].garage).NoClockAt?
    requires ClocksHeld(m, garages, visits, k)
    ensures visits[k] in visits && FirstNoClock(m, garages, visits) == ClockOf(m, garages, visits[k].garage).missing
  {
    if k > 0 {
      FirstNoClockThere(m, garages, visits[1..], k - 1);
    }
  }

  method CountVisits(w: World, m: Movement, r: Records, p: Pass, per: Period, window: Option<Window>)
    returns (counted: Counted)
    requires per == PerWindow ==> window.Some?
    ensures counted == VisitsUsed(w, m, r, p, per, window)
  {
    var onPass := OnPass(r.visits, p.id);
    if per == Life { return Used(|onPass|); }
    var inWindow: seq<Visit> := [];
    for k := 0 to |onPass|
      invariant ClocksHeld(m, r.garages, onPass, k)
      invariant inWindow == Filter(onPass[..k], (v: Visit) => InWindowToday(w, m, r.garages, window.value, v))
    {
      var v := onPass[k];
      assert v in onPass;
      var clock := ClockOf(m, r.garages, v.garage);
      if clock.NoClockAt? {
        FirstNoClockThere(m, r.garages, onPass, k);
        return NoClock(clock.missing);
      }
      FilterTake(onPass, k, (v: Visit) => InWindowToday(w, m, r.garages, window.value, v));
      var wall := w.clock(clock.timezone, v.enteredAt);
      if wall.day == Now(w, m).day && window.value.start <= wall.minute < window.value.end {
        inWindow := inWindow + [v];
      }
    }
    assert onPass[..|onPass|] == onPass;
    counted := Used(|inWindow|);
  }

  /** The still-open entries of this vehicle on this pass at this garage. */
  function OpenVisits(m: Movement, visits: seq<Visit>, p: PassId): seq<Visit> {
    Filter(visits, (v: Visit) =>
      v.pass == p && v.garage == m.garage.id && PlateKey(v.identity) == PlateKey(Strip(m.identity)) && v.exitedAt.None?)
  }

  /** When the latest of them entered. */
  function LatestEntry(visits: seq<Visit>): Option<Instant> {
    if visits == [] then None
    else
      var rest := LatestEntry(visits[1..]);
      Some(if rest.None? then visits[0].enteredAt else Max(visits[0].enteredAt, rest.value))
  }

  // ----------------------------------------------------------------- one pass

  /** The car was replaced on the pass: it leaves on it and no longer enters on it. */
  function IsExitOnly(effective: seq<Registration>, p: PassId): bool {
    exists r :: r in effective && r.pass == p && r.exitOnly
  }

  function ReplacedAt(effective: seq<Registration>, p: PassId): Option<Instant> {
    if effective == [] then None
    else
      var n := |effective| - 1;
      var before := ReplacedAt(effective[..n], p);
      var r := effective[n];
      if r.pass == p && r.exitOnly && r.exitOnlyAt.Some? then
        Some(if before.None? then r.exitOnlyAt.value else Max(r.exitOnlyAt.value, before.value))
      else before
  }

  /** Up to the window: the state, the replacement, direction, lane and window. */
  function NotOnState(w: World, m: Movement, effective: seq<Registration>, p: Pass): Option<Answer>
    requires !p.unreadable ==> p.terms.Some?
  {
    var today := Now(w, m).day;
    var exit := m.direction == Exit;
    if p.state == Revoked then Some(Not(m, PassRevoked, Some(p.id)))
    else if p.unreadable then
      Some(if exit then Not(m, PassUnreadable, Some(p.id)) else Refused(m, UnreadableTerms, Some(p.id)))
    else
      var terms := p.terms.value;
      var state := EffectiveState(p.state, terms.validTo, today);
      if state == Expired then Some(Not(m, PassExpired, Some(p.id)))
      else if state == Typed(Suspended) then Some(Not(m, PassSuspended, Some(p.id)))
      else if state == Typed(Draft) || state == Typed(AwaitingEnrolment) then Some(Not(m, NotActive, Some(p.id)))
      else if terms.validFrom.Some? && today < terms.validFrom.value then Some(Not(m, NotStarted, Some(p.id)))
      else if !exit && IsExitOnly(effective, p.id) then Some(Not(m, ExitOnly, Some(p.id)))
      else if exit && IsExitOnly(effective, p.id) && EnteredAfterReplacement(m, effective, p.id) then
        Some(Not(m, ExitOnly, Some(p.id)))
      else None
  }

  function EnteredAfterReplacement(m: Movement, effective: seq<Registration>, p: PassId): bool {
    var replaced := ReplacedAt(effective, p);
    m.enteredAt.Some? && replaced.Some? && m.enteredAt.value >= replaced.value
  }

  function ReplacementUnmeasured(m: Movement, effective: seq<Registration>, p: PassId): bool {
    m.direction == Exit && IsExitOnly(effective, p)
    && (m.enteredAt.None? || ReplacedAt(effective, p).None?)
  }

  function NotOnTerms(w: World, m: Movement, r: Records, p: Pass, terms: Terms): Option<Answer> {
    var lanes := LanesAt(terms.lanes, m.garage.id);
    if m.direction !in terms.directions then Some(Not(m, DirectionNotAllowed, Some(p.id)))
    else if lanes.Some? && Strip(m.lane) !in lanes.value then Some(Not(m, WrongLane, Some(p.id)))
    else if terms.windows != [] && WindowNow(w, m, terms.windows).None? then Some(Not(m, OutsideWindow, Some(p.id)))
    else if m.direction == Entry && terms.allowance.Some? then
      var counted := VisitsUsed(w, m, r, p, terms.allowance.value.per, WindowNow(w, m, terms.windows));
      if counted.NoClock? then Some(Refused(m, counted.missing, Some(p.id)))
      else if counted.count >= terms.allowance.value.count then Some(Not(m, OutOfVisits, Some(p.id)))
      else None
    else None
  }

  datatype Stay = WithinStay | OverStay | StayNotMeasured

  function StayNow(m: Movement, r: Records, p: Pass, maxStay: int): Stay {
    var entered := LatestEntry(OpenVisits(m, r.visits, p.id));
    if entered.None? || m.at < entered.value then StayNotMeasured
    else if m.at - entered.value > maxStay then OverStay
    else WithinStay
  }

  /** One pass, in the order that is the contract. */
  function Evaluate(w: World, m: Movement, r: Records, effective: seq<Registration>, p: Pass): Answer
    requires !p.unreadable ==> p.terms.Some?
  {
    var state := NotOnState(w, m, effective, p);
    if state.Some? then state.value
    else
      var terms := p.terms.value;
      var no := NotOnTerms(w, m, r, p, terms);
      if no.Some? then no.value
      else if m.direction == Exit && terms.maxStay.Some? then
        var stay := StayNow(m, r, p, terms.maxStay.value);
        if stay == OverStay then Not(m, OverMaxStay, Some(p.id))
        else CoveredOn(m, p, stay == StayNotMeasured, ReplacementUnmeasured(m, effective, p.id))
      else CoveredOn(m, p, false, ReplacementUnmeasured(m, effective, p.id))
  }

  // ------------------------------------------------------------- which pass

  function CopiesOf(passes: seq<Pass>, id: PassId): seq<Pass> {
    Filter(passes, (p: Pass) => p.id == id)
  }

  /** One id handed in more than once, any of the copies at this garage. */
  function IsDuplicated(passes: seq<Pass>, g: GarageId, id: PassId): bool {
    var copies := CopiesOf(passes, id);
    |copies| > 1 && exists p :: p in copies && g in p.garages
  }

  function ById(passes: seq<Pass>, g: GarageId, id: PassId): (p: Option<Pass>)
    ensures p.Some? ==> p.value in passes && p.value.id == id && g in p.value.garages
  {
    var copies := CopiesOf(passes, id);
    if |copies| == 1 && g in copies[0].garages then Some(copies[0]) else None
  }

  function OfThisCar(m: Movement, r: Registration): bool {
    PlateKey(r.identity) == PlateKey(Strip(m.identity))
  }

  /** A registration of this plate on a pass that names this garage, read or handed in twice. */
  function IsHere(m: Movement, passes: seq<Pass>, r: Registration): bool {
    OfThisCar(m, r) && (IsDuplicated(passes, m.garage.id, r.pass) || ById(passes, m.garage.id, r.pass).Some?)
  }

  /** In force today, and naming a pass that was not handed in at all. */
  function IsDangling(w: World, m: Movement, passes: seq<Pass>, r: Registration): bool {
    OfThisCar(m, r) && CopiesOf(passes, r.pass) == [] && CoversDay(r, Now(w, m).day)
  }

  function Here(m: Movement, rs: Records): seq<Registration> {
    Filter(rs.registrations, (r: Registration) => IsHere(m, rs.passes, r))
  }

  function Dangling(w: World, m: Movement, rs: Records): seq<Registration> {
    Filter(rs.registrations, (r: Registration) => IsDangling(w, m, rs.passes, r))
  }

  function InForce(w: World, m: Movement, rs: Records): seq<Registration> {
    Filter(Here(m, rs), (r: Registration) => CoversDay(r, Now(w, m).day))
  }

  function KeyOf(w: World, p: Pass): CopyKey {
    CopyKey(p.state, p.unreadable, if p.terms.Some? then w.describe(p.terms.value) else "", p.ownerLabel)
  }

  /** The copies of one id in the fixed order, or the one pass of that id here. */
  function Candidates(w: World, m: Movement, passes: seq<Pass>, id: PassId): seq<Pass> {
    if IsDuplicated(passes, m.garage.id, id) then SortedBy(CopiesOf(passes, id), (p: Pass) => w.rank(KeyOf(w, p)))
    else if ById(passes, m.garage.id, id).Some? then [ById(passes, m.garage.id, id).value] else []
  }

  function AllCandidates(w: World, m: Movement, passes: seq<Pass>, effective: seq<Registration>): seq<Pass> {
    if effective == [] then []
    else
      var n := |effective| - 1;
      AllCandidates(w, m, passes, effective[..n]) + Candidates(w, m, passes, effective[n].pass)
  }

  /** Every candidate, in pass order and, within a pass, in copy order. */
  function InOrder(w: World, m: Movement, passes: seq<Pass>, effective: seq<Registration>): seq<Pass> {
    AllCandidates(w, m, passes, SortedBy(effective, (r: Registration) => r.pass))
  }

  function AnyDuplicated(m: Movement, passes: seq<Pass>, effective: seq<Registration>): bool {
    exists r :: r in effective && IsDuplicated(passes, m.garage.id, r.pass)
  }

  // --------------------------------------------------------------- the answer

  /** What cannot be evaluated at all, in order. */
  function Unanswerable(m: Movement): Option<Answer> {
    var exit := m.direction == Exit;
    if m.garage.unreadable then
      Some(if exit then Not(m, GarageUnreadable, None) else Refused(m, MissingTimezone, None))
    else if Strip(m.identity) == "" then
      Some(if exit then Not(m, BlankIdentity, None) else Refused(m, MissingVehicleIdentity, None))
    else if Strip(m.lane) == "" then
      Some(if exit then Not(m, BlankLane, None) else Refused(m, MissingLane, None))
    else if !exit && m.garage.transient.None? then Some(Refused(m, MissingTransientMode, None))
    else None
  }

  /** max(rs, key = (end day or today, effective day)): the first of the greatest. */
  function LatestOf(rs: seq<Registration>, today: Day): (r: Registration)
    requires rs != []
    ensures r in rs
  {
    if |rs| == 1 then rs[0]
    else
      var n := |rs| - 1;
      var best := LatestOf(rs[..n], today);
      var e, f := EndOr(best, today), EndOr(rs[n], today);
      if e < f || (e == f && best.from < rs[n].from) then rs[n] else best
  }

  function EndOr(r: Registration, today: Day): Day {
    if r.end.Some? then r.end.value else today
  }

  predicate OnRevoked(m: Movement, passes: seq<Pass>, r: Registration) {
    ById(passes, m.garage.id, r.pass).Some? && ById(passes, m.garage.id, r.pass).value.state == Revoked
  }

  /** No registration in force here: a revoked pass is named as revoked, else no pass. */
  function NoneInForce(w: World, m: Movement, rs: Records): Answer {
    var revoked := Filter(Here(m, rs), (r: Registration) => OnRevoked(m, rs.passes, r));
    if revoked != [] then Not(m, PassRevoked, Some(LatestOf(revoked, Now(w, m).day).pass))
    else Not(m, NoPass, None)
  }

  function FirstCovered(answers: seq<Answer>): Option<Answer> {
    if answers == [] then None
    else if answers[0].outcome == Covered then Some(answers[0])
    else FirstCovered(answers[1..])
  }

  function EvaluateAll(w: World, m: Movement, rs: Records, effective: seq<Registration>, ps: seq<Pass>): (out: seq<Answer>)
    requires forall p :: p in ps ==> (!p.unreadable ==> p.terms.Some?)
    ensures |out| == |ps| && forall i :: 0 <= i < |ps| ==> out[i] == Evaluate(w, m, rs, effective, ps[i])
  {
    seq(|ps|, i requires 0 <= i < |ps| => assert ps[i] in ps; Evaluate(w, m, rs, effective, ps[i]))
  }

  /** Each candidate is a copy of a pass handed in, and a registration here has at least one. */
  lemma CandidatesAreCopies(w: World, m: Movement, passes: seq<Pass>, id: PassId)
    ensures forall p :: p in Candidates(w, m, passes, id) ==> p in passes && p.id == id
    ensures IsDuplicated(passes, m.garage.id, id) || ById(passes, m.garage.id, id).Some? ==>
              Candidates(w, m, passes, id) != []
              && forall p :: p in passes && p.id == id ==> p in Candidates(w, m, passes, id)
  {
    var copies := CopiesOf(passes, id);
    SortedHeadIsLeast(copies, (p: Pass) => w.rank(KeyOf(w, p)));
  }

  /** Some of the registrations is on the pass. */
  ghost predicate NamedBy(effective: seq<Registration>, p: Pass) {
    exists r :: r in effective && r.pass == p.id
  }

  lemma NamedByOneMore(effective: seq<Registration>, p: Pass)
    requires effective != []
    ensures var n := |effective| - 1; NamedBy(effective, p) <==> NamedBy(effective[..n], p) || p.id == effective[n].pass
  {
    var n := |effective| - 1;
    assert forall r :: r in effective <==> r in effective[..n] || r == effective[n];
  }

  lemma {:induction false} AllCandidatesAreCopies(w: World, m: Movement, rs: Records, effective: seq<Registration>)
    requires forall r :: r in effective ==> IsHere(m, rs.passes, r)
    ensures forall p :: p in AllCandidates(w, m, rs.passes, effective) <==> p in rs.passes && NamedBy(effective, p)
    ensures effective != [] ==> AllCandidates(w, m, rs.passes, effective) != []
  {
    if effective != [] {
      var n := |effective| - 1;
      var before, last := AllCandidates(w, m, rs.passes, effective[..n]), Candidates(w, m, rs.passes, effective[n].pass);
      AllCandidatesAreCopies(w, m, rs, effective[..n]);
      CandidatesAreCopies(w, m, rs.passes, effective[n].pass);
      assert AllCandidates(w, m, rs.passes, effective) == before + last;
      assert IsHere(m, rs.passes, effective[n]);
      forall p ensures NamedBy(effective, p) <==> NamedBy(effective[..n], p) || p.id == effective[n].pass {
        NamedByOneMore(effective, p);
      }
    }
  }

  lemma AllCandidatesTake(w: World, m: Movement, passes: seq<Pass>, effective: seq<Registration>, k: nat)
    requires k < |effective|
    ensures AllCandidates(w, m, passes, effective[..k + 1])
            == AllCandidates(w, m, passes, effective[..k]) + Candidates(w, m, passes, effective[k].pass)
  {
    var more := effective[..k + 1];
    assert more[..k] == effective[..k] && more[k] == effective[k];
  }

  lemma InOrderAreCopies(w: World, m: Movement, rs: Records)
    ensures var effective := InForce(w, m, rs); var ps := InOrder(w, m, rs.passes, effective);
            && (forall p :: p in ps <==> p in rs.passes && exists r :: r in effective && r.pass == p.id)
            && (effective != [] ==> ps != [])
  {
    var effective := InForce(w, m, rs);
    var sorted := SortedBy(effective, (r: Registration) => r.pass);
    SortedHeadIsLeast(effective, (r: Registration) => r.pass);
    AllCandidatesAreCopies(w, m, rs, sorted);
  }

  /** THE ANSWER. */
  function AccessAnswer(w: World, m: Movement, rs: Records): Answer
    requires RecordsOk(rs)
  {
    var exit := m.direction == Exit;
    if Unanswerable(m).Some? then Unanswerable(m).value
    else
      var effective, dangling := InForce(w, m, rs), Dangling(w, m, rs);
      var duplicated := AnyDuplicated(m, rs.passes, effective);
      if dangling != [] && !exit then Refused(m, MissingPassHandedIn, None)
      else if duplicated && !exit then Refused(m, DuplicatedPassId, None)
      else if effective == [] then
        if dangling != [] then Not(m, PassNotHandedIn, None) else NoneInForce(w, m, rs)
      else if |effective| == 1 && dangling == [] && !duplicated then
        assert effective[0] in effective;
        Evaluate(w, m, rs, effective, ById(rs.passes, m.garage.id, effective[0].pass).value)
      else if !exit then Refused(m, MissingOnePass, None)
      else
        InOrderAreCopies(w, m, rs);
        var answers := EvaluateAll(w, m, rs, effective, InOrder(w, m, rs.passes, effective));
        if FirstCovered(answers).Some? then FirstCovered(answers).value
        else if duplicated && |effective| == 1 && dangling == [] then Not(m, PassDuplicated, None)
        else answers[0]
  }

  // ---------------------------------------------------------- the loops of it

  /** The passes grouped by id. */
  method GroupById(passes: seq<Pass>) returns (copies: map<PassId, seq<Pass>>)
    ensures forall id :: id in copies <==> CopiesOf(passes, id) != []
    ensures forall id :: id in copies ==> copies[id] == CopiesOf(passes, id)
  {
    copies := map[];
    for k := 0 to |passes|
      invariant forall id :: id in copies <==> CopiesOf(passes[..k], id) != []
      invariant forall id :: id in copies ==> copies[id] == CopiesOf(passes[..k], id)
    {
      var p := passes[k];
      forall id ensures CopiesOf(passes[..k + 1], id) == CopiesOf(passes[..k], id) + (if p.id == id then [p] else []) {
        FilterTake(passes, k, (x: Pass) => x.id == id);
      }
      copies := copies[p.id := (if p.id in copies then copies[p.id] else []) + [p]];
    }
    assert passes[..|passes|] == passes;
  }

  /** A registration is here when some copy of its pass, however many, names the garage. */
  lemma HereIff(m: Movement, passes: seq<Pass>, r: Registration)
    ensures IsHere(m, passes, r) <==>
              OfThisCar(m, r) && exists p :: p in CopiesOf(passes, r.pass) && m.garage.id in p.garages
  {
    var copies := CopiesOf(passes, r.pass);
    if |copies| == 1 {
      assert forall p :: p in copies <==> p == copies[0];
    }
  }

  /** The registrations of this plate that are here, and those naming a pass not handed in. */
  method SortOut(w: World, m: Movement, rs: Records, copies: map<PassId, seq<Pass>>)
    returns (here: seq<Registration>, dangling: seq<Registration>)
    requires forall id :: id in copies <==> CopiesOf(rs.passes, id) != []
    requires forall id :: id in copies ==> copies[id] == CopiesOf(rs.passes, id)
    ensures here == Here(m, rs) && dangling == Dangling(w, m, rs)
  {
    here, dangling := [], [];
    for k := 0 to |rs.registrations|
      invariant here == Filter(rs.registrations[..k], (r: Registration) => IsHere(m, rs.passes, r))
      invariant dangling == Filter(rs.registrations[..k], (r: Registration) => IsDangling(w, m, rs.passes, r))
    {
      var r := rs.registrations[k];
      FilterTake(rs.registrations, k, (r: Registration) => IsHere(m, rs.passes, r));
      FilterTake(rs.registrations, k, (r: Registration) => IsDangling(w, m, rs.passes, r));
      HereIff(m, rs.passes, r);
      if PlateKey(r.identity) != PlateKey(Strip(m.identity)) {
        continue;
      }
      if r.pass !in copies {
        if CoversDay(r, Now(w, m).day) {
          dangling := dangling + [r];
        }
        continue;
      }
      var namesHere := exists p :: p in copies[r.pass] && m.garage.id in p.garages;
      if namesHere {
        here := here + [r];
      }
    }
    assert rs.registrations[..|rs.registrations|] == rs.registrations;
  }

  /** The candidates, pass by pass in id order. */
  method ListCandidates(w: World, m: Movement, rs: Records, effective: seq<Registration>) returns (ps: seq<Pass>)
    ensures ps == InOrder(w, m, rs.passes, effective)
  {
    var sorted := SortedBy(effective, (r: Registration) => r.pass);
    ps := [];
    for k := 0 to |sorted|
      invariant ps == AllCandidates(w, m, rs.passes, sorted[..k])
    {
      AllCandidatesTake(w, m, rs.passes, sorted, k);
      ps := ps + Candidates(w, m, rs.passes, sorted[k].pass);
    }
    assert sorted[..|sorted|] == sorted;
  }

  method AnswerLane(w: World, m: Movement, rs: Records) returns (a: Answer)
    requires RecordsOk(rs)
    ensures a == AccessAnswer(w, m, rs)
  {
    var exit := m.direction == Exit;
    if Unanswerable(m).Some? { return Unanswerable(m).value; }
    var copies := GroupById(rs.passes);
    var here, dangling := SortOut(w, m, rs, copies);
    var effective := Filter(here, (r: Registration) => CoversDay(r, Now(w, m).day));
    var duplicated := AnyDuplicated(m, rs.passes, effective);
    if dangling != [] && !exit { return Refused(m, MissingPassHandedIn, None); }
    if duplicated && !exit { return Refused(m, DuplicatedPassId, None); }
    if dangling != [] && effective == [] { return Not(m, PassNotHandedIn, None); }
    if effective == [] { return NoneInForce(w, m, rs); }
    if |effective| == 1 && dangling == [] && !duplicated {
      assert effective[0] in effective;
      return Evaluate(w, m, rs, effective, ById(rs.passes, m.garage.id, effective[0].pass).value);
    }
    if !exit { return Refused(m, MissingOnePass, None); }
    var candidates := ListCandidates(w, m, rs, effective);
    InOrderAreCopies(w, m, rs);
    var answers := EvaluateAll(w, m, rs, effective, candidates);
    var first := FirstCovered(answers);
    if first.Some? { return first.value; }
    if duplicated && |effective| == 1 && dangling == [] { return Not(m, PassDuplicated, None); }
    a := answers[0];
  }
}
