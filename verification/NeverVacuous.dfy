/** Terms that were accepted can be satisfied: no pass is sold that never opens a gate. */
module NeverVacuous {
  import opened Basics
  import opened Text
  import opened States
  import opened Plates
  import opened Terms
  import opened Lists
  import opened Sets
  import opened Access
  import opened AccessProofs
  import opened Admission

  /** The clock of the zone reads every minute of every day at some instant. */
  ghost predicate ReadsEveryMinute(w: World, timezone: string) {
    forall wall: Wall :: 0 <= wall.minute < END_OF_DAY ==> ReadsAtSomeInstant(w, timezone, wall)
  }

  ghost predicate ReadsAtSomeInstant(w: World, timezone: string, wall: Wall) {
    exists at: Instant :: w.clock(timezone, at) == wall
  }

  /** At some instant the zone's clock reads a day of the validity and, if any is stated, a
      minute of some window on it. */
  ghost predicate SomeMoment(w: World, t: Terms, timezone: string) {
    exists at: Instant :: IsMoment(w, t, timezone, at)
  }

  ghost predicate IsMoment(w: World, t: Terms, timezone: string, at: Instant) {
    var wall := w.clock(timezone, at);
    && InValidity(t, wall.day)
    && (t.windows != [] ==>
          exists i :: 0 <= i < |t.windows| && OpenOn(t.windows[i], wall.day, wall.minute))
  }

  ghost predicate InValidity(t: Terms, d: Day) {
    && (t.validFrom.Some? ==> t.validFrom.value <= d)
    && (t.validTo.Some? ==> d <= t.validTo.value)
  }

  /** Lanes are stated for exactly the garages of the pass, or not at all. */
  ghost predicate LanesOfThePass(t: Terms, garages: set<GarageId>) {
    t.lanes.Some? ==> forall g :: g in garages <==> exists i :: 0 <= i < |t.lanes.value| && t.lanes.value[i].garage == g
  }

  /** A window whose fields are in range is accepted exactly when some minute of some day
      of the validity falls inside it. */
  lemma WindowAcceptedIffItOpens(window: Window, from: Option<Day>, to: Option<Day>)
    requires forall d :: d in window.days ==> 1 <= d <= 7
    requires 0 <= window.start && window.end <= END_OF_DAY
    requires from.Some? && to.Some? ==> from.value <= to.value
    ensures WindowOk(window, from, to) <==>
              exists d: Day, minute ::
                OpenOn(window, d, minute)
                && (from.Some? ==> from.value <= d) && (to.Some? ==> d <= to.value)
  {
    if WindowOk(window, from, to) {
      var d := ADay(window, from, to);
      assert OpenOn(window, d, window.start);
    }
    if d: Day, minute :|
      OpenOn(window, d, minute)
      && (from.Some? ==> from.value <= d) && (to.Some? ==> d <= to.value)
    {
      if from.Some? && to.Some? {
        assert Occurs(from.value, to.value, Weekday(d));
      }
    }
  }

  /** A day of the validity that the window names. */
  lemma ADay(window: Window, from: Option<Day>, to: Option<Day>) returns (d: Day)
    requires WindowOk(window, from, to)
    ensures Weekday(d) in window.days
    ensures (from.Some? ==> from.value <= d) && (to.Some? ==> d <= to.value)
  {
    if from.Some? && to.Some? {
      var weekday :| weekday in window.days && Occurs(from.value, to.value, weekday);
      d :| from.value <= d <= to.value && Weekday(d) == weekday;
    } else {
      var weekday := Member(window.days);
      var first := if from.Some? then from.value else if to.Some? then to.value - 6 else 0;
      AWeekHasEveryDay(first, first + 6);
      assert Occurs(first, first + 6, weekday);
      d :| first <= d <= first + 6 && Weekday(d) == weekday;
    }
  }

  /** A clock that skips no minute reads one that accepted terms allow. */
  lemma AcceptedTermsHaveAMoment(w: World, t: Terms, timezone: string)
    requires TermsOk(t) && ReadsEveryMinute(w, timezone)
    ensures SomeMoment(w, t, timezone)
  {
    var d, minute := 0, 0;
    if t.windows == [] {
      d := if t.validFrom.Some? then t.validFrom.value else if t.validTo.Some? then t.validTo.value else 0;
    } else {
      d := ADay(t.windows[0], t.validFrom, t.validTo);
      minute := t.windows[0].start;
    }
    assert ReadsAtSomeInstant(w, timezone, Wall(d, minute));
    var at: Instant :| w.clock(timezone, at) == Wall(d, minute);
    assert IsMoment(w, t, timezone, at);
  }

  lemma {:induction false} LanesAreOfAnEntry(entries: seq<GarageLanes>, g: GarageId)
    ensures LanesIn(entries, g) != {} ==>
              exists i :: 0 <= i < |entries| && entries[i].garage == g && LanesIn(entries, g) == entries[i].lanes
    ensures (exists i :: 0 <= i < |entries| && entries[i].garage == g) && LanesOk(entries) ==> LanesIn(entries, g) != {}
  {
    if entries != [] && entries[0].garage != g {
      assert forall i :: 0 < i < |entries| ==> entries[i] == entries[1..][i - 1];
      LanesAreOfAnEntry(entries[1..], g);
    }
  }

  /** A lane's name reaches the comparison without the white space around it: a stated lane
      counts for something only when it has none. */
  ghost predicate SomeLaneUsable(t: Terms, g: GarageId) {
    t.lanes.Some? ==> exists l :: l in LanesIn(t.lanes.value, g) && Trimmed(l)
  }

  /** A lane the pass may use at one of its garages. */
  lemma ALane(t: Terms, g: GarageId) returns (lane: string)
    requires TermsOk(t) && SomeLaneUsable(t, g)
    ensures Strip(lane) == lane && lane != "" && LaneAllowed(t, g, lane)
  {
    if t.lanes.None? {
      lane := "A";
    } else {
      lane :| lane in LanesIn(t.lanes.value, g) && Trimmed(lane);
      LanesAreOfAnEntry(t.lanes.value, g);
      assert lane == "" ==> Blank(lane);
    }
    StripTrims(lane);
  }

  /** A pass states lanes at each of its garages, so trimmed names are all it takes. */
  lemma StatedLanesAreUsable(t: Terms, garages: set<GarageId>, g: GarageId)
    requires TermsOk(t) && LanesOfThePass(t, garages) && g in garages
    requires t.lanes.Some? ==>
               forall i, l :: 0 <= i < |t.lanes.value| && l in t.lanes.value[i].lanes ==> Trimmed(l)
    ensures SomeLaneUsable(t, g)
  {
    if t.lanes.Some? {
      LanesAreOfAnEntry(t.lanes.value, g);
      var l := Member(LanesIn(t.lanes.value, g));
    }
  }

  /** The car is registered on the pass today, and nothing has been recorded. */
  function FirstVisit(w: World, p: Pass, m: Movement): Records {
    Records([p], [Registration(p.id, m.identity, Now(w, m).day, None, false, None)], [], [])
  }

  ghost predicate Admits(w: World, p: Pass, garage: Garage, identity: string, direction: Direction, lane: string, at: Instant) {
    PassOk(p) &&
    var m := Movement(garage, Strip(identity), lane, direction, at, None);
    AccessAnswer(w, m, FirstVisit(w, p, m)).outcome == Covered
  }

  /** ACCEPTED TERMS ARE NEVER VACUOUS: at each garage an active pass names, some direction,
      lane and instant is covered for a car registered that day with nothing recorded --
      exactly when its lanes, if stated, include one whose name can be matched, and the
      garage's clock ever reads a minute the range and the windows allow. */
  lemma AcceptedTermsAdmitSomeone(w: World, p: Pass, garage: Garage, identity: string)
    requires PassOk(p) && !p.unreadable && p.state == Active
    requires garage.id in p.garages && !garage.unreadable && garage.transient.Some?
    requires Strip(identity) != ""
    ensures SomeLaneUsable(p.terms.value, garage.id) && SomeMoment(w, p.terms.value, garage.timezone) <==>
              exists direction, lane, at :: Admits(w, p, garage, identity, direction, lane, at)
  {
    var t := p.terms.value;
    StripTrims(identity);
    StripTrims(Strip(identity));
    if SomeLaneUsable(t, garage.id) && SomeMoment(w, t, garage.timezone) {
      var lane := ALane(t, garage.id);
      var at: Instant :| IsMoment(w, t, garage.timezone, at);
      var direction :| direction in t.directions;
      Admitted(w, p, garage, identity, direction, lane, at);
    }
    forall direction, lane, at | Admits(w, p, garage, identity, direction, lane, at)
      ensures SomeLaneUsable(t, garage.id) && IsMoment(w, t, garage.timezone, at)
    {
      AdmittedIsUsable(w, p, garage, identity, direction, lane, at);
    }
  }

  lemma AdmittedIsUsable(w: World, p: Pass, garage: Garage, identity: string, direction: Direction, lane: string, at: Instant)
    requires garage.id in p.garages && Admits(w, p, garage, identity, direction, lane, at) && p.terms.Some?
    ensures SomeLaneUsable(p.terms.value, garage.id) && IsMoment(w, p.terms.value, garage.timezone, at)
  {
    var t := p.terms.value;
    var m := Movement(garage, Strip(identity), lane, direction, at, None);
    AdmitsSatisfies(w, p, garage, identity, direction, lane, at);
    StripTrims(lane);
    assert LaneAllowed(t, garage.id, Strip(lane));
    assert forall i :: 0 <= i < |t.windows| && Open(w, m, t.windows[i]) ==>
             OpenOn(t.windows[i], Now(w, m).day, Now(w, m).minute);
  }

  // ------------------------------------------------------------- and when they are not

  /** The one lane of garage 1 has a blank before its name. */
  const UNMATCHED := Terms(None, None, [], None, None, {Entry, Exit}, Some([GarageLanes(1, {" A"})]))

  /** A validator takes the lane " A", and no movement can ever name it. */
  lemma ALaneNobodyCanName(w: World, garage: Garage, identity: string)
    requires garage.id == 1 && !garage.unreadable && garage.transient.Some? && Strip(identity) != ""
    ensures TermsOk(UNMATCHED)
    ensures var p := Pass(7, {1}, "guest", Some(UNMATCHED), Active, false);
            !exists direction, lane, at :: Admits(w, p, garage, identity, direction, lane, at)
  {
    var p := Pass(7, {1}, "guest", Some(UNMATCHED), Active, false);
    assert 'A' in " A" && !IsSpace('A') && " A" in {" A"};
    assert Entry in UNMATCHED.directions;
    assert LanesIn(UNMATCHED.lanes.value, 1) == {" A"};
    assert !Trimmed(" A");
    assert !SomeLaneUsable(UNMATCHED, 1);
    AcceptedTermsAdmitSomeone(w, p, garage, identity);
  }

  lemma AdmitsSatisfies(w: World, p: Pass, garage: Garage, identity: string, direction: Direction, lane: string, at: Instant)
    requires garage.id in p.garages && Admits(w, p, garage, identity, direction, lane, at)
    ensures var m := Movement(garage, Strip(identity), lane, direction, at, None);
            Satisfies(w, m, FirstVisit(w, p, m), FirstVisit(w, p, m).registrations, p)
  {
    var m := Movement(garage, Strip(identity), lane, direction, at, None);
    StripTrims(identity);
    StripTrims(Strip(identity));
    var rs := FirstVisit(w, p, m);
    AdmitsReads(w, m, rs);
    OneCarAnswer(w, m, rs, p);
  }

  lemma AdmitsReads(w: World, m: Movement, rs: Records)
    requires RecordsOk(rs) && AccessAnswer(w, m, rs).outcome == Covered
    ensures Unanswerable(m).None?
  {
    if Unanswerable(m).Some? {
      UnanswerableShaped(w, m, rs);
    }
  }

  lemma Admitted(w: World, p: Pass, garage: Garage, identity: string, direction: Direction, lane: string, at: Instant)
    requires PassOk(p) && !p.unreadable && p.state == Active
    requires garage.id in p.garages && !garage.unreadable && garage.transient.Some?
    requires Strip(identity) != "" && Strip(Strip(identity)) == Strip(identity)
    requires Strip(lane) == lane && lane != "" && LaneAllowed(p.terms.value, garage.id, lane)
    requires direction in p.terms.value.directions
    requires IsMoment(w, p.terms.value, garage.timezone, at)
    ensures Admits(w, p, garage, identity, direction, lane, at)
  {
    var m := Movement(garage, Strip(identity), lane, direction, at, None);
    var rs := FirstVisit(w, p, m);
    OneCarAnswer(w, m, rs, p);
    var t := p.terms.value;
    if t.windows != [] {
      var i :| 0 <= i < |t.windows| && OpenOn(t.windows[i], Now(w, m).day, Now(w, m).minute);
      assert Open(w, m, t.windows[i]);
    }
    FirstVisitSatisfies(w, p, m);
  }

  lemma FirstVisitSatisfies(w: World, p: Pass, m: Movement)
    requires PassOk(p) && !p.unreadable && p.state == Active
    requires m.direction in p.terms.value.directions
    requires InValidity(p.terms.value, Now(w, m).day)
    requires InSomeWindow(w, m, p.terms.value)
    requires Strip(m.lane) == m.lane && LaneAllowed(p.terms.value, m.garage.id, m.lane)
    ensures var rs := FirstVisit(w, p, m); Satisfies(w, m, rs, rs.registrations, p)
  {
    var t := p.terms.value;
    var rs := FirstVisit(w, p, m);
    assert !IsExitOnly(rs.registrations, p.id);
    assert OnPass(rs.visits, p.id) == [] && OpenVisits(m, rs.visits, p.id) == [];
    WindowNowIsFirstOpen(w, m, t.windows);
    assert forall window :: EntriesCounted(w, m, rs, p.id, PerWindow, window) == 0;
  }
}
