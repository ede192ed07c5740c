/** When a lane is told "covered", told from the data alone: rows, days, minutes and counts. */
module Admission {
  import opened Basics
  import opened Text
  import opened States
  import opened Plates
  import opened Terms
  import opened Lists
  import opened Access
  import opened AccessProofs

  // -------------------------------------------------------------------- counting

  ghost function Places<T(!new)>(s: seq<T>, f: T -> bool): set<int> {
    set i | 0 <= i < |s| && f(s[i])
  }

  /** How many of the list there are. */
  ghost function HowMany<T(!new)>(s: seq<T>, f: T -> bool): nat {
    |Places(s, f)|
  }

  lemma OneMorePlace<T(!new)>(s: seq<T>, f: T -> bool)
    requires s != []
    ensures var n := |s| - 1; Places(s, f) == Places(s[..n], f) + (if f(s[n]) then {n} else {})
  {
    var n := |s| - 1;
    forall i ensures i in Places(s, f) <==> i in Places(s[..n], f) || (i == n && f(s[n])) {
      if 0 <= i < n {
        assert s[..n][i] == s[i];
      }
    }
  }

  lemma {:induction false} FilterSize<T(!new)>(s: seq<T>, f: T -> bool)
    ensures |Filter(s, f)| == HowMany(s, f)
  {
    if s == [] {
      assert Places(s, f) == {};
    } else {
      FilterSize(s[..|s| - 1], f);
      OneMorePlace(s, f);
    }
  }

  lemma HowManyAlike<T(!new)>(s: seq<T>, f: T -> bool, g: T -> bool)
    requires forall i :: 0 <= i < |s| ==> f(s[i]) == g(s[i])
    ensures HowMany(s, f) == HowMany(s, g)
  {
    assert Places(s, f) == Places(s, g);
  }

  lemma {:induction false} FilterBoth<T(!new)>(s: seq<T>, f: T -> bool, g: T -> bool, both: T -> bool)
    requires forall x :: both(x) <==> f(x) && g(x)
    ensures Filter(Filter(s, f), g) == Filter(s, both)
  {
    if s != [] {
      var n := |s| - 1;
      FilterBoth(s[..n], f, g, both);
      if f(s[n]) {
        FilterSnoc(Filter(s[..n], f), s[n], g);
      } else {
        assert Filter(s, f) == Filter(s[..n], f) && Filter(s, both) == Filter(s[..n], both);
      }
    }
  }

  /** The i-th alone. */
  ghost predicate Alone<T(!new)>(s: seq<T>, f: T -> bool, i: int) {
    0 <= i < |s| && f(s[i]) && forall j :: 0 <= j < |s| && f(s[j]) ==> j == i
  }

  /** One is left exactly when one place of the list is kept. */
  lemma OneIsLeft<T(!new)>(s: seq<T>, f: T -> bool)
    ensures |Filter(s, f)| == 1 <==> exists i :: Alone(s, f, i)
    ensures forall i :: Alone(s, f, i) ==> Filter(s, f) == [s[i]]
  {
    FilterSize(s, f);
    if |Places(s, f)| == 1 {
      OnlyPlace(s, f);
    }
    forall i | Alone(s, f, i) ensures Filter(s, f) == [s[i]] {
      assert Places(s, f) == {i};
      assert s[i] in s && s[i] in Filter(s, f);
    }
  }

  lemma OnlyPlace<T(!new)>(s: seq<T>, f: T -> bool)
    requires |Places(s, f)| == 1
    ensures exists i :: Alone(s, f, i)
  {
    var i :| i in Places(s, f);
    assert |Places(s, f) - {i}| == 0;
    forall j | 0 <= j < |s| && f(s[j]) ensures j == i {
      assert j in Places(s, f) && j !in Places(s, f) - {i};
    }
    assert Alone(s, f, i);
  }

  // ----------------------------------------------------------------- the movement

  /** The day and the minute of the movement on the garage's own clock. */
  ghost function TodayAt(w: World, m: Movement): Day {
    w.clock(m.garage.timezone, m.at).day
  }

  ghost function MinuteAt(w: World, m: Movement): int {
    w.clock(m.garage.timezone, m.at).minute
  }

  ghost predicate CanBeRead(m: Movement) {
    !m.garage.unreadable && !Blank(m.identity) && !Blank(m.lane)
  }

  /** A registration of this plate, in force today. */
  ghost predicate Current(w: World, m: Movement, r: Registration) {
    PlateKey(r.identity) == PlateKey(m.identity) && r.from <= TodayAt(w, m) && (r.end.None? || TodayAt(w, m) < r.end.value)
  }

  /** ... on a pass that was handed in, and names this garage. */
  ghost predicate CurrentHere(w: World, m: Movement, rs: Records, r: Registration) {
    Current(w, m, r) && exists p :: p in rs.passes && p.id == r.pass && m.garage.id in p.garages
  }

  /** The i-th registration is the one in force there. */
  ghost predicate OnlyCurrent(w: World, m: Movement, rs: Records, i: int) {
    Alone(rs.registrations, (r: Registration) => CurrentHere(w, m, rs, r), i)
  }

  /** The pass was handed in once. */
  ghost predicate HandedInOnce(rs: Records, p: Pass) {
    p in rs.passes && forall i, j :: 0 <= i < |rs.passes| && 0 <= j < |rs.passes| && rs.passes[i].id == rs.passes[j].id == p.id ==> i == j
  }

  // --------------------------------------------------------------------- its terms

  ghost predicate InItsDays(t: Terms, d: Day) {
    (t.validFrom.Some? ==> t.validFrom.value <= d) && (t.validTo.Some? ==> d <= t.validTo.value)
  }

  /** The lane is stated for this garage; where none are stated, any is. */
  ghost predicate OnItsLanes(t: Terms, g: GarageId, lane: string) {
    t.lanes.Some? ==> exists i :: ListsIt(t.lanes.value, g, lane, i)
  }

  /** The first entry of the garage names the lane. */
  ghost predicate ListsIt(entries: seq<GarageLanes>, g: GarageId, lane: string, i: int) {
    && 0 <= i < |entries| && entries[i].garage == g && lane in entries[i].lanes
    && forall j :: 0 <= j < i ==> entries[j].garage != g
  }

  /** From its first minute to the one before its end, on the days it names. */
  ghost predicate OpenOn(window: Window, d: Day, minute: int) {
    Weekday(d) in window.days && window.start <= minute && minute < window.end
  }

  ghost predicate InItsWindows(t: Terms, d: Day, minute: int) {
    t.windows == [] || exists i :: 0 <= i < |t.windows| && OpenOn(t.windows[i], d, minute)
  }

  /** The zone a recorded entry is read in: its own garage's, known and handed in once. */
  ghost predicate InZone(m: Movement, rs: Records, g: GarageId, zone: string) {
    if g == m.garage.id then zone == m.garage.timezone
    else exists i :: Alone(rs.garages, (x: Garage) => x.id == g, i) && !rs.garages[i].unreadable && rs.garages[i].timezone == zone
  }

  /** Entered today, on its own garage's clock, inside the window's minutes. */
  ghost predicate EnteredInside(w: World, m: Movement, rs: Records, window: Window, v: Visit) {
    exists zone :: InZone(m, rs, v.garage, zone) && ReadsInside(w.clock(zone, v.enteredAt), TodayAt(w, m), window)
  }

  ghost predicate ReadsInside(wall: Wall, d: Day, window: Window) {
    wall.day == d && window.start <= wall.minute && wall.minute < window.end
  }

  /** Fewer entries are recorded on the pass than it allows: ever; or today, under the window
      that is open now and comes first, every one of them with a clock to read it on. */
  ghost predicate UnderItsAllowance(w: World, m: Movement, rs: Records, p: PassId, t: Terms) {
    t.allowance.Some? ==>
      if t.allowance.value.per == Life then HowMany(rs.visits, (v: Visit) => v.pass == p) < t.allowance.value.count
      else
        && (forall v :: v in rs.visits && v.pass == p ==> exists zone :: InZone(m, rs, v.garage, zone))
        && exists i :: OpensFirst(w, m, t, i) && EnteredUnder(w, m, rs, p, t.windows[i]) < t.allowance.value.count
  }

  /** The window is open now, and none before it is. */
  ghost predicate OpensFirst(w: World, m: Movement, t: Terms, i: int) {
    && 0 <= i < |t.windows| && OpenOn(t.windows[i], TodayAt(w, m), MinuteAt(w, m))
    && forall j :: 0 <= j < i ==> !OpenOn(t.windows[j], TodayAt(w, m), MinuteAt(w, m))
  }

  /** How many entries of the pass are recorded in the window today. */
  ghost function EnteredUnder(w: World, m: Movement, rs: Records, p: PassId, window: Window): nat {
    HowMany(rs.visits, (v: Visit) => v.pass == p && EnteredInside(w, m, rs, window, v))
  }

  /** The car is recorded as inside, on the pass, at this garage. */
  ghost predicate StillInside(m: Movement, p: PassId, v: Visit) {
    v.pass == p && v.garage == m.garage.id && PlateKey(v.identity) == PlateKey(m.identity) && v.exitedAt.None?
  }

  /** The car is not recorded inside, or its last entry is no longer ago than the longest stay. */
  ghost predicate WithinItsStay(m: Movement, visits: seq<Visit>, p: PassId, t: Terms) {
    t.maxStay.Some? && (exists v :: v in visits && StillInside(m, p, v)) ==>
      exists v :: v in visits && StillInside(m, p, v) && m.at - v.enteredAt <= t.maxStay.value
  }

  /** The car was replaced on the pass. */
  ghost predicate ReplacedOn(w: World, m: Movement, rs: Records, p: PassId) {
    exists r :: r in rs.registrations && CurrentHere(w, m, rs, r) && r.pass == p && r.exitOnly
  }

  /** ... and at some instant, if any is known, later than the entry that is stated. */
  ghost predicate EnteredBefore(w: World, m: Movement, rs: Records, p: PassId) {
    m.enteredAt.Some? ==>
      || (exists r :: r in rs.registrations && CurrentHere(w, m, rs, r) && r.pass == p && r.exitOnly
                      && r.exitOnlyAt.Some? && m.enteredAt.value < r.exitOnlyAt.value)
      || (forall r :: r in rs.registrations && CurrentHere(w, m, rs, r) && r.pass == p && r.exitOnly ==> r.exitOnlyAt.None?)
  }

  /** An active pass that can be read, on one of its days, in its windows, on its lanes, in a
      direction it names. */
  ghost predicate Admits(w: World, m: Movement, p: Pass) {
    && p.state == Active && !p.unreadable && p.terms.Some?
    && InItsDays(p.terms.value, TodayAt(w, m))
    && m.direction in p.terms.value.directions
    && OnItsLanes(p.terms.value, m.garage.id, Strip(m.lane))
    && InItsWindows(p.terms.value, TodayAt(w, m), MinuteAt(w, m))
  }

  ghost predicate AdmitsEntry(w: World, m: Movement, rs: Records, p: Pass) {
    && Admits(w, m, p)
    && !ReplacedOn(w, m, rs, p.id)
    && UnderItsAllowance(w, m, rs, p.id, p.terms.value)
  }

  ghost predicate LetsOut(w: World, m: Movement, rs: Records, p: Pass) {
    && Admits(w, m, p)
    && (ReplacedOn(w, m, rs, p.id) ==> EnteredBefore(w, m, rs, p.id))
    && WithinItsStay(m, rs.visits, p.id, p.terms.value)
  }

  // ------------------------------------------------------------ leaf by leaf, the same

  lemma BlankIsStripped(s: string)
    ensures Blank(s) <==> Strip(s) == ""
  {
    BlankStripsLeft(s);
    StripLeftKeeps(s);
    BlankStripsRight(StripLeft(s));
  }

  lemma {:induction false} BlankStripsLeft(s: string)
    ensures Blank(s) <==> StripLeft(s) == ""
  {
    if s != "" && IsSpace(s[0]) {
      assert forall c :: c in s <==> c == s[0] || c in s[1..];
      BlankStripsLeft(s[1..]);
    } else if s != "" {
      assert s[0] in s;
    }
  }

  lemma {:induction false} StripLeftKeeps(s: string)
    ensures StripLeft(s) == "" || (StripLeft(s)[0] in s && !IsSpace(StripLeft(s)[0]))
  {
    if s != "" && IsSpace(s[0]) {
      StripLeftKeeps(s[1..]);
    }
  }

  lemma {:induction false} BlankStripsRight(s: string)
    ensures s != "" && !IsSpace(s[0]) ==> StripRight(s) != ""
  {
    if s != "" && IsSpace(s[|s| - 1]) {
      BlankStripsRight(s[..|s| - 1]);
    }
  }

  lemma ReadableIs(m: Movement)
    ensures Readable(m) <==> CanBeRead(m)
  {
    BlankIsStripped(m.identity);
    BlankIsStripped(m.lane);
  }

  lemma {:induction false} LanesInIs(entries: seq<GarageLanes>, g: GarageId, lane: string)
    ensures lane in LanesIn(entries, g) <==> exists i :: ListsIt(entries, g, lane, i)
  {
    if entries != [] {
      var rest := entries[1..];
      LanesInIs(rest, g, lane);
      if entries[0].garage != g {
        if i :| ListsIt(rest, g, lane, i) {
          assert forall j :: 0 < j <= i + 1 ==> entries[j] == rest[j - 1];
          assert ListsIt(entries, g, lane, i + 1);
        }
        if i :| ListsIt(entries, g, lane, i) {
          assert forall j :: 0 <= j <= i - 1 ==> rest[j] == entries[j + 1];
          assert ListsIt(rest, g, lane, i - 1);
        }
      } else if lane in entries[0].lanes {
        assert ListsIt(entries, g, lane, 0);
      }
    }
  }

  lemma LanesAre(t: Terms, g: GarageId, lane: string)
    ensures LaneAllowed(t, g, lane) <==> OnItsLanes(t, g, lane)
  {
    if t.lanes.Some? {
      LanesInIs(t.lanes.value, g, lane);
    }
  }

  lemma OpenIs(w: World, m: Movement, window: Window)
    ensures Open(w, m, window) <==> OpenOn(window, TodayAt(w, m), MinuteAt(w, m))
  {
  }

  lemma ClockIs(m: Movement, rs: Records, g: GarageId, zone: string)
    ensures InZone(m, rs, g, zone) <==> ClockOf(m, rs.garages, g) == ZoneAt(zone)
  {
    if g != m.garage.id {
      OneIsLeft(rs.garages, (x: Garage) => x.id == g);
    }
  }

  lemma ClocksAre(m: Movement, rs: Records, p: PassId)
    ensures ClocksKnown(m, rs, p) <==> forall v :: v in rs.visits && v.pass == p ==> exists zone :: InZone(m, rs, v.garage, zone)
  {
    forall v | v in rs.visits && v.pass == p
      ensures ClockOf(m, rs.garages, v.garage).ZoneAt? <==> exists zone :: InZone(m, rs, v.garage, zone)
    {
      if ClockOf(m, rs.garages, v.garage).ZoneAt? {
        ClockIs(m, rs, v.garage, ClockOf(m, rs.garages, v.garage).timezone);
      }
      if zone :| InZone(m, rs, v.garage, zone) {
        ClockIs(m, rs, v.garage, zone);
      }
    }
  }

  lemma InsideIs(w: World, m: Movement, rs: Records, window: Window, v: Visit)
    ensures InWindowToday(w, m, rs.garages, window, v) <==> EnteredInside(w, m, rs, window, v)
  {
    if InWindowToday(w, m, rs.garages, window, v) {
      ClockIs(m, rs, v.garage, ClockOf(m, rs.garages, v.garage).timezone);
    }
    if zone :| InZone(m, rs, v.garage, zone) && ReadsInside(w.clock(zone, v.enteredAt), TodayAt(w, m), window) {
      ClockIs(m, rs, v.garage, zone);
    }
  }

  // ------------------------------------------------------------- the registrations

  lemma SameCar(m: Movement, r: Registration)
    ensures OfThisCar(m, r) <==> PlateKey(r.identity) == PlateKey(m.identity)
  {
    StripKeepsKey(m.identity);
  }

  lemma CopiesHandedIn(passes: seq<Pass>, id: PassId)
    ensures forall p :: p in CopiesOf(passes, id) <==> p in passes && p.id == id
    ensures CopiesOf(passes, id) == [] <==> !exists p :: p in passes && p.id == id
  {
    if CopiesOf(passes, id) != [] {
      assert CopiesOf(passes, id)[0] in CopiesOf(passes, id);
    }
  }

  lemma HereIs(w: World, m: Movement, rs: Records, r: Registration)
    ensures IsHere(m, rs.passes, r) && CoversDay(r, Now(w, m).day) <==> CurrentHere(w, m, rs, r)
  {
    SameCar(m, r);
    HereIff(m, rs.passes, r);
    CopiesHandedIn(rs.passes, r.pass);
  }

  lemma InForceHere(w: World, m: Movement, rs: Records)
    ensures forall r :: r in InForce(w, m, rs) <==> r in rs.registrations && CurrentHere(w, m, rs, r)
    ensures |InForce(w, m, rs)| == 1 <==> exists i :: OnlyCurrent(w, m, rs, i)
    ensures forall i :: OnlyCurrent(w, m, rs, i) ==>
              InForce(w, m, rs) == [rs.registrations[i]]
  {
    var here := (r: Registration) => IsHere(m, rs.passes, r);
    var today := (r: Registration) => CoversDay(r, Now(w, m).day);
    var current := (r: Registration) => CurrentHere(w, m, rs, r);
    forall r ensures current(r) <==> here(r) && today(r) {
      HereIs(w, m, rs, r);
    }
    FilterBoth(rs.registrations, here, today, current);
    OneIsLeft(rs.registrations, current);
    forall i ensures Alone(rs.registrations, current, i) <==> OnlyCurrent(w, m, rs, i) {
    }
  }

  /** No registration of the plate in force today is on a pass that was not handed in. */
  ghost predicate NothingDangles(w: World, m: Movement, rs: Records) {
    forall r :: r in rs.registrations && Current(w, m, r) ==> exists p :: p in rs.passes && p.id == r.pass
  }

  lemma DanglingIs(w: World, m: Movement, rs: Records)
    ensures Dangling(w, m, rs) == [] <==> NothingDangles(w, m, rs)
  {
    forall r ensures IsDangling(w, m, rs.passes, r) <==> Current(w, m, r) && !exists p :: p in rs.passes && p.id == r.pass {
      SameCar(m, r);
      CopiesHandedIn(rs.passes, r.pass);
    }
    if Dangling(w, m, rs) != [] {
      assert Dangling(w, m, rs)[0] in Dangling(w, m, rs);
    }
  }

  lemma OnceIs(rs: Records, p: Pass)
    requires p in rs.passes
    ensures CopiesOf(rs.passes, p.id) == [p] <==> HandedInOnce(rs, p)
  {
    var ofIt := (x: Pass) => x.id == p.id;
    OneIsLeft(rs.passes, ofIt);
    var i :| 0 <= i < |rs.passes| && rs.passes[i] == p;
    if HandedInOnce(rs, p) {
      assert Alone(rs.passes, ofIt, i);
    }
    if CopiesOf(rs.passes, p.id) == [p] {
      var k :| Alone(rs.passes, ofIt, k);
    }
  }

  // ------------------------------------------------------------------- one pass

  lemma {:induction false} ReplacedAtMost(effective: seq<Registration>, p: PassId)
    ensures ReplacedAt(effective, p).Some? <==> exists r :: r in effective && r.pass == p && r.exitOnly && r.exitOnlyAt.Some?
    ensures forall r :: r in effective && r.pass == p && r.exitOnly && r.exitOnlyAt.Some? ==>
              r.exitOnlyAt.value <= ReplacedAt(effective, p).value
    ensures ReplacedAt(effective, p).Some? ==>
              exists r :: r in effective && r.pass == p && r.exitOnly && r.exitOnlyAt == ReplacedAt(effective, p)
  {
    if effective != [] {
      var n := |effective| - 1;
      ReplacedAtMost(effective[..n], p);
      assert effective[n] in effective && forall r :: r in effective <==> r in effective[..n] || r == effective[n];
    }
  }

  lemma ReplacedIs(w: World, m: Movement, rs: Records, p: PassId)
    ensures NotReplaced(m, InForce(w, m, rs), p)
            <==> (ReplacedOn(w, m, rs, p) ==> m.direction == Exit && EnteredBefore(w, m, rs, p))
  {
    var effective := InForce(w, m, rs);
    InForceHere(w, m, rs);
    ReplacedAtMost(effective, p);
    assert IsExitOnly(effective, p) <==> ReplacedOn(w, m, rs, p);
    if m.enteredAt.Some? && ReplacedAt(effective, p).Some? {
      var latest :| latest in effective && latest.pass == p && latest.exitOnly && latest.exitOnlyAt == ReplacedAt(effective, p);
    }
  }

  lemma AllowanceIs(w: World, m: Movement, rs: Records, p: Pass, t: Terms)
    ensures AllowanceLeft(w, m, rs, p, t) <==> UnderItsAllowance(w, m, rs, p.id, t)
  {
    FilterSize(rs.visits, (v: Visit) => v.pass == p.id);
    ClocksAre(m, rs, p.id);
    forall i: nat | i < |t.windows|
      ensures EntriesCounted(w, m, rs, p.id, PerWindow, t.windows[i]) == EnteredUnder(w, m, rs, p.id, t.windows[i])
      ensures FirstOpen(w, m, t.windows, i) <==> OpensFirst(w, m, t, i)
    {
      CountIs(w, m, rs, p.id, t.windows[i]);
      FirstIs(w, m, t, i);
    }
  }

  lemma FirstIs(w: World, m: Movement, t: Terms, i: nat)
    ensures FirstOpen(w, m, t.windows, i) <==> OpensFirst(w, m, t, i)
  {
    forall j | 0 <= j < |t.windows| ensures Open(w, m, t.windows[j]) <==> OpenOn(t.windows[j], TodayAt(w, m), MinuteAt(w, m)) {
      OpenIs(w, m, t.windows[j]);
    }
  }

  lemma CountIs(w: World, m: Movement, rs: Records, p: PassId, window: Window)
    ensures EntriesCounted(w, m, rs, p, PerWindow, window) == EnteredUnder(w, m, rs, p, window)
  {
    var mine := (v: Visit) => v.pass == p;
    var inside := (v: Visit) => InWindowToday(w, m, rs.garages, window, v);
    var both := (v: Visit) => v.pass == p && InWindowToday(w, m, rs.garages, window, v);
    FilterBoth(rs.visits, mine, inside, both);
    FilterSize(rs.visits, both);
    forall v ensures InWindowToday(w, m, rs.garages, window, v) <==> EnteredInside(w, m, rs, window, v) {
      InsideIs(w, m, rs, window, v);
    }
    HowManyAlike(rs.visits, both, (v: Visit) => v.pass == p && EnteredInside(w, m, rs, window, v));
  }

  lemma StayIs(m: Movement, rs: Records, p: Pass, t: Terms)
    ensures StayAllowed(m, rs, p, t) <==> WithinItsStay(m, rs.visits, p.id, t)
  {
    StripKeepsKey(m.identity);
    var open := OpenVisits(m, rs.visits, p.id);
    assert forall v :: v in open <==> v in rs.visits && StillInside(m, p.id, v);
    if open != [] {
      assert open[0] in open;
    }
  }

  lemma AdmitsIs(w: World, m: Movement, rs: Records, p: Pass)
    ensures Satisfies(w, m, rs, InForce(w, m, rs), p) <==>
              if m.direction == Entry then AdmitsEntry(w, m, rs, p) else LetsOut(w, m, rs, p)
  {
    ReplacedIs(w, m, rs, p.id);
    if p.terms.Some? {
      var t := p.terms.value;
      LanesAre(t, m.garage.id, Strip(m.lane));
      forall i | 0 <= i < |t.windows| ensures Open(w, m, t.windows[i]) <==> OpenOn(t.windows[i], TodayAt(w, m), MinuteAt(w, m)) {
        OpenIs(w, m, t.windows[i]);
      }
      AllowanceIs(w, m, rs, p, t);
      StayIs(m, rs, p, t);
    }
  }

  // --------------------------------------------------------------- the two theorems

  /** The i-th registration is the one in force there, and its pass was handed in once. */
  ghost predicate TheOnePass(w: World, m: Movement, rs: Records, i: int, p: Pass) {
    && OnlyCurrent(w, m, rs, i)
    && p.id == rs.registrations[i].pass && m.garage.id in p.garages && p in rs.passes && HandedInOnce(rs, p)
  }

  /** A pass handed in, on which a registration of the plate is in force there. */
  ghost predicate RegisteredOn(w: World, m: Movement, rs: Records, p: Pass) {
    p in rs.passes && exists r :: r in rs.registrations && CurrentHere(w, m, rs, r) && r.pass == p.id
  }

  /** AN ENTRY IS COVERED EXACTLY WHEN the garage, the plate and the lane can be read and it is
      stated whether it sells transient stays; one registration of the plate is in force there
      and none is on a pass that is missing; its pass was handed in once, names the garage, and
      admits the movement: active, on its days, inside a window's minutes, on its lanes, in
      its directions, not replaced, and with an entry of its allowance left. */
  lemma EntryIsCovered(w: World, m: Movement, rs: Records)
    requires RecordsOk(rs) && m.direction == Entry
    ensures AccessAnswer(w, m, rs).outcome == Covered <==>
              && CanBeRead(m) && m.garage.transient.Some? && NothingDangles(w, m, rs)
              && exists i: int, p: Pass :: TheOnePass(w, m, rs, i, p) && AdmitsEntry(w, m, rs, p)
  {
    EntryCoveredIff(w, m, rs);
    ReadableIs(m);
    DanglingIs(w, m, rs);
    InForceHere(w, m, rs);
    forall p | p in rs.passes
      ensures CopiesOf(rs.passes, p.id) == [p] <==> HandedInOnce(rs, p)
      ensures Satisfies(w, m, rs, InForce(w, m, rs), p) <==> AdmitsEntry(w, m, rs, p)
    {
      OnceIs(rs, p);
      AdmitsIs(w, m, rs, p);
    }
    if i: int, p: Pass :| TheOnePass(w, m, rs, i, p) && AdmitsEntry(w, m, rs, p) {
      assert InForce(w, m, rs) == [rs.registrations[i]];
    }
    if |InForce(w, m, rs)| == 1 {
      var i :| OnlyCurrent(w, m, rs, i);
      forall p | p in rs.passes && p.id == InForce(w, m, rs)[0].pass && CopiesOf(rs.passes, p.id) == [p] && m.garage.id in p.garages
        ensures TheOnePass(w, m, rs, i, p)
      {
      }
    }
  }

  /** AN EXIT IS COVERED EXACTLY WHEN the garage, the plate and the lane can be read, and some
      pass handed in, on which a registration of the plate is in force there, lets it out. */
  lemma ExitIsCovered(w: World, m: Movement, rs: Records)
    requires RecordsOk(rs) && m.direction == Exit
    ensures AccessAnswer(w, m, rs).outcome == Covered <==>
              CanBeRead(m) && exists p :: RegisteredOn(w, m, rs, p) && LetsOut(w, m, rs, p)
  {
    ExitCoveredIff(w, m, rs);
    ReadableIs(m);
    InForceHere(w, m, rs);
    forall p | p in rs.passes ensures Satisfies(w, m, rs, InForce(w, m, rs), p) <==> LetsOut(w, m, rs, p) {
      AdmitsIs(w, m, rs, p);
    }
    if p :| p in rs.passes && LeavesOn(w, m, rs, p) {
      assert RegisteredOn(w, m, rs, p) && LetsOut(w, m, rs, p);
    }
    if p :| RegisteredOn(w, m, rs, p) && LetsOut(w, m, rs, p) {
      assert LeavesOn(w, m, rs, p);
    }
  }

  // ------------------------------------------------------------------- half-open

  /** TWO WINDOWS THAT MEET are never open at one instant, whatever days they name; and a
      movement at the last minute of the only window is outside it. */
  lemma WindowsThatMeet(w: World, m: Movement, first: Window, second: Window)
    requires first.end == second.start
    ensures !(Open(w, m, first) && Open(w, m, second))
    ensures MinuteAt(w, m) == first.end ==> !Open(w, m, first) && WindowNow(w, m, [first]).None?
  {
    WindowNowIsFirstOpen(w, m, [first]);
  }

  /** AT A WINDOW'S END NOBODY ENTERS OR LEAVES on a pass whose every window ends there or is
      closed then, however many terms hold beside it. */
  lemma NobodyAtTheEnd(w: World, m: Movement, rs: Records, p: Pass)
    requires RecordsOk(rs) && p in rs.passes && p.terms.Some? && p.terms.value.windows != []
    requires forall i :: 0 <= i < |p.terms.value.windows| ==>
               var window := p.terms.value.windows[i];
               MinuteAt(w, m) < window.start || window.end <= MinuteAt(w, m) || Weekday(TodayAt(w, m)) !in window.days
    ensures Evaluate(w, m, rs, InForce(w, m, rs), p).outcome != Covered
  {
    EvaluateCovers(w, m, rs, InForce(w, m, rs), p);
    AdmitsIs(w, m, rs, p);
  }
}
