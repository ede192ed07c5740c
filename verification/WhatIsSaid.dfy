/** What a lane is told beside "covered": the reason, what is missing and what could not be
    measured, from the data alone. */
module WhatIsSaid {
  import opened Basics
  import opened Text
  import opened States
  import opened Plates
  import opened Terms
  import opened Lists
  import opened Access
  import opened AccessProofs
  import opened Admission
  import Sets

  // ------------------------------------------------------ before a pass is looked at

  /** Told, and about which pass: an exit is not covered, an entry is not answered. */
  ghost predicate IsTold(m: Movement, a: Answer, reason: Option<Reason>, missing: Option<Missing>) {
    && a.reason == reason && a.missing == missing && a.pass.None?
    && a.outcome == if missing.Some? then RefusedToAnswer else NotCovered
  }

  /** A pass the car is registered on there today was handed in more than once. */
  ghost predicate SomePassTwice(w: World, m: Movement, rs: Records) {
    exists r :: r in rs.registrations && CurrentHere(w, m, rs, r) && TwiceHandedIn(rs, r.pass)
  }

  ghost predicate TwiceHandedIn(rs: Records, id: PassId) {
    exists i, j :: 0 <= i < j < |rs.passes| && rs.passes[i].id == id && rs.passes[j].id == id
  }

  /** Nobody's: no registration of the plate is in force there. */
  ghost predicate NoneCurrent(w: World, m: Movement, rs: Records) {
    forall r :: r in rs.registrations ==> !CurrentHere(w, m, rs, r)
  }

  lemma TwoPlaces(places: set<int>)
    ensures |places| > 1 <==> exists i, j :: i in places && j in places && i < j
  {
    if |places| > 1 {
      TwoOf(places);
    }
    if i, j :| i in places && j in places && i < j {
      Sets.SubsetCount({i, j}, places);
    }
  }

  lemma TwoOf(places: set<int>)
    requires |places| > 1
    ensures exists i, j :: i in places && j in places && i < j
  {
    var i := Sets.Member(places);
    assert |places - {i}| == |places| - 1;
    var j := Sets.Member(places - {i});
    assert Min(i, j) in places && Max(i, j) in places && Min(i, j) < Max(i, j);
  }

  lemma TwiceIs(m: Movement, rs: Records, id: PassId)
    ensures IsDuplicated(rs.passes, m.garage.id, id) <==>
              TwiceHandedIn(rs, id) && exists p :: p in rs.passes && p.id == id && m.garage.id in p.garages
  {
    CopiesHandedIn(rs.passes, id);
    ManyCopies(rs, id);
  }

  lemma ManyCopies(rs: Records, id: PassId)
    ensures |CopiesOf(rs.passes, id)| > 1 <==> TwiceHandedIn(rs, id)
  {
    var ofIt := (x: Pass) => x.id == id;
    FilterSize(rs.passes, ofIt);
    var places := Places(rs.passes, ofIt);
    TwoPlaces(places);
    assert forall i :: i in places <==> 0 <= i < |rs.passes| && rs.passes[i].id == id;
  }

  lemma SomeTwiceIs(w: World, m: Movement, rs: Records)
    ensures AnyDuplicated(m, rs.passes, InForce(w, m, rs)) <==> SomePassTwice(w, m, rs)
    ensures InForce(w, m, rs) == [] <==> NoneCurrent(w, m, rs)
  {
    InForceHere(w, m, rs);
    forall r | r in rs.registrations && CurrentHere(w, m, rs, r)
      ensures IsDuplicated(rs.passes, m.garage.id, r.pass) <==> TwiceHandedIn(rs, r.pass)
    {
      TwiceIs(m, rs, r.pass);
    }
    if InForce(w, m, rs) != [] {
      assert InForce(w, m, rs)[0] in InForce(w, m, rs);
    }
  }

  /** WHAT NOBODY CAN EVALUATE, in order: no clock; no plate; no lane; at an entry, no transient
      mode, a pass that is missing, or one handed in twice; and at an exit where nothing else is
      in force, a pass that is missing. */
  lemma ToldBefore(w: World, m: Movement, rs: Records)
    requires RecordsOk(rs)
    ensures var a, exit := AccessAnswer(w, m, rs), m.direction == Exit;
            if m.garage.unreadable then
              if exit then IsTold(m, a, Some(GarageUnreadable), None) else IsTold(m, a, None, Some(MissingTimezone))
            else if Blank(m.identity) then
              if exit then IsTold(m, a, Some(BlankIdentity), None) else IsTold(m, a, None, Some(MissingVehicleIdentity))
            else if Blank(m.lane) then
              if exit then IsTold(m, a, Some(BlankLane), None) else IsTold(m, a, None, Some(MissingLane))
            else if !exit && m.garage.transient.None? then IsTold(m, a, None, Some(MissingTransientMode))
            else if !exit && !NothingDangles(w, m, rs) then IsTold(m, a, None, Some(MissingPassHandedIn))
            else if !exit && SomePassTwice(w, m, rs) then IsTold(m, a, None, Some(DuplicatedPassId))
            else if NoneCurrent(w, m, rs) && !NothingDangles(w, m, rs) then IsTold(m, a, Some(PassNotHandedIn), None)
            else true
  {
    BlankIsStripped(m.identity);
    BlankIsStripped(m.lane);
    DanglingIs(w, m, rs);
    SomeTwiceIs(w, m, rs);
  }

  // ------------------------------------------------------------------ none in force

  /** A registration of the plate, on some day, on a revoked pass of this garage handed in once. */
  ghost predicate OnARevokedPass(m: Movement, rs: Records, r: Registration) {
    && r in rs.registrations && PlateKey(r.identity) == PlateKey(m.identity)
    && exists p :: p in rs.passes && p.id == r.pass && m.garage.id in p.garages && p.state == Revoked && HandedInOnce(rs, p)
  }

  /** No other such registration ends later, one still open ending today; or begins later, of
      those that end together. */
  ghost predicate IsTheLatest(m: Movement, rs: Records, today: Day, r: Registration) {
    forall x :: OnARevokedPass(m, rs, x) ==>
      EndOrToday(x, today) < EndOrToday(r, today) || (EndOrToday(x, today) == EndOrToday(r, today) && x.from <= r.from)
  }

  ghost function EndOrToday(r: Registration, today: Day): Day {
    if r.end.None? then today else r.end.value
  }

  lemma {:induction false} LatestIsLatest(rs: seq<Registration>, today: Day)
    requires rs != []
    ensures var best := LatestOf(rs, today);
            forall x :: x in rs ==>
              EndOrToday(x, today) < EndOrToday(best, today)
              || (EndOrToday(x, today) == EndOrToday(best, today) && x.from <= best.from)
  {
    if |rs| > 1 {
      LatestIsLatest(rs[..|rs| - 1], today);
      assert forall x :: x in rs <==> x in rs[..|rs| - 1] || x == rs[|rs| - 1];
    }
  }

  lemma OneCopyIs(m: Movement, rs: Records, id: PassId)
    ensures ById(rs.passes, m.garage.id, id).Some? <==>
              exists p :: p in rs.passes && p.id == id && m.garage.id in p.garages && HandedInOnce(rs, p)
    ensures forall p :: p in rs.passes && p.id == id && m.garage.id in p.garages && HandedInOnce(rs, p) ==>
              ById(rs.passes, m.garage.id, id) == Some(p)
  {
    CopiesHandedIn(rs.passes, id);
    forall p | p in rs.passes && p.id == id ensures CopiesOf(rs.passes, id) == [p] <==> HandedInOnce(rs, p) {
      OnceIs(rs, p);
    }
    if ById(rs.passes, m.garage.id, id).Some? {
      assert CopiesOf(rs.passes, id) == [ById(rs.passes, m.garage.id, id).value];
    }
  }

  lemma RevokedAre(m: Movement, rs: Records, r: Registration)
    requires r in rs.registrations
    ensures IsHere(m, rs.passes, r) && OnRevoked(m, rs.passes, r) <==> OnARevokedPass(m, rs, r)
  {
    SameCar(m, r);
    OneCopyIs(m, rs, r.pass);
  }

  /** NOTHING IN FORCE: the pass is named as revoked when the plate is, or was, on a revoked one,
      the latest of them; else there is none. */
  lemma ToldOfNone(w: World, m: Movement, rs: Records)
    requires RecordsOk(rs) && CanBeRead(m) && (m.direction == Entry ==> m.garage.transient.Some?)
    requires NothingDangles(w, m, rs) && NoneCurrent(w, m, rs)
    ensures var a := AccessAnswer(w, m, rs);
            && a.outcome == NotCovered
            && (a.reason == Some(PassRevoked) <==> exists r :: OnARevokedPass(m, rs, r))
            && (a.reason != Some(PassRevoked) ==> a.reason == Some(NoPass) && a.pass.None?)
            && (a.reason == Some(PassRevoked) ==>
                  exists r :: OnARevokedPass(m, rs, r) && a.pass == Some(r.pass) && IsTheLatest(m, rs, TodayAt(w, m), r))
  {
    ReadableIs(m);
    DanglingIs(w, m, rs);
    SomeTwiceIs(w, m, rs);
    assert AccessAnswer(w, m, rs) == NoneInForce(w, m, rs);
    NoneInForceSays(w, m, rs);
  }

  lemma NoneInForceSays(w: World, m: Movement, rs: Records)
    ensures var a := NoneInForce(w, m, rs);
            && a.outcome == NotCovered
            && (a.reason == Some(PassRevoked) <==> exists r :: OnARevokedPass(m, rs, r))
            && (a.reason != Some(PassRevoked) ==> a.reason == Some(NoPass) && a.pass.None?)
            && (a.reason == Some(PassRevoked) ==>
                  exists r :: OnARevokedPass(m, rs, r) && a.pass == Some(r.pass) && IsTheLatest(m, rs, TodayAt(w, m), r))
  {
    var revoked := RevokedHere(m, rs);
    if revoked != [] {
      assert revoked[0] in revoked;
      LatestIsLatest(revoked, TodayAt(w, m));
    }
  }

  ghost function RevokedHere(m: Movement, rs: Records): (revoked: seq<Registration>)
    ensures forall r :: r in revoked <==> OnARevokedPass(m, rs, r)
  {
    assert forall r :: r in rs.registrations ==> (IsHere(m, rs.passes, r) && OnRevoked(m, rs.passes, r) <==> OnARevokedPass(m, rs, r)) by {
      forall r | r in rs.registrations
        ensures IsHere(m, rs.passes, r) && OnRevoked(m, rs.passes, r) <==> OnARevokedPass(m, rs, r)
      {
        RevokedAre(m, rs, r);
      }
    }
    Filter(Here(m, rs), (r: Registration) => OnRevoked(m, rs.passes, r))
  }

  // ----------------------------------------------------------------- one, or several

  /** ONE PASS IN FORCE is answered for itself; at an entry several are not answered. */
  lemma ToldOfOneOrMore(w: World, m: Movement, rs: Records)
    requires RecordsOk(rs) && CanBeRead(m) && !NoneCurrent(w, m, rs)
    requires m.direction == Entry ==> m.garage.transient.Some? && NothingDangles(w, m, rs) && !SomePassTwice(w, m, rs)
    ensures forall i, p :: TheOnePass(w, m, rs, i, p) && NothingDangles(w, m, rs) && PassOk(p) ==>
              AccessAnswer(w, m, rs) == Evaluate(w, m, rs, InForce(w, m, rs), p)
    ensures m.direction == Entry && (forall i :: !OnlyCurrent(w, m, rs, i)) ==>
              IsTold(m, AccessAnswer(w, m, rs), None, Some(MissingOnePass))
  {
    forall i, p | TheOnePass(w, m, rs, i, p) && NothingDangles(w, m, rs) && PassOk(p)
      ensures AccessAnswer(w, m, rs) == Evaluate(w, m, rs, InForce(w, m, rs), p)
    {
      TheOneIsEvaluated(w, m, rs, i, p);
    }
    if m.direction == Entry && forall i :: !OnlyCurrent(w, m, rs, i) {
      SeveralAreNot(w, m, rs);
    }
  }

  lemma TheOneIsEvaluated(w: World, m: Movement, rs: Records, i: int, p: Pass)
    requires RecordsOk(rs) && CanBeRead(m) && (m.direction == Entry ==> m.garage.transient.Some?)
    requires TheOnePass(w, m, rs, i, p) && NothingDangles(w, m, rs) && PassOk(p)
    ensures AccessAnswer(w, m, rs) == Evaluate(w, m, rs, InForce(w, m, rs), p)
  {
    ReadableIs(m);
    DanglingIs(w, m, rs);
    InForceHere(w, m, rs);
    OneCopyIs(m, rs, p.id);
    OnceIs(rs, p);
    assert InForce(w, m, rs) == [rs.registrations[i]];
    assert !IsDuplicated(rs.passes, m.garage.id, p.id);
  }

  lemma SeveralAreNot(w: World, m: Movement, rs: Records)
    requires RecordsOk(rs) && CanBeRead(m) && !NoneCurrent(w, m, rs) && m.direction == Entry && m.garage.transient.Some?
    requires NothingDangles(w, m, rs) && !SomePassTwice(w, m, rs) && forall i :: !OnlyCurrent(w, m, rs, i)
    ensures IsTold(m, AccessAnswer(w, m, rs), None, Some(MissingOnePass))
  {
    SeveralInForce(w, m, rs);
    NotAnswered(w, m, rs);
  }

  lemma SeveralInForce(w: World, m: Movement, rs: Records)
    requires CanBeRead(m) && !NoneCurrent(w, m, rs) && m.direction == Entry && m.garage.transient.Some?
    requires NothingDangles(w, m, rs) && !SomePassTwice(w, m, rs) && forall i :: !OnlyCurrent(w, m, rs, i)
    ensures Unanswerable(m).None? && Dangling(w, m, rs) == []
    ensures |InForce(w, m, rs)| > 1 && !AnyDuplicated(m, rs.passes, InForce(w, m, rs))
  {
    ReadableIs(m);
    DanglingIs(w, m, rs);
    SomeTwiceIs(w, m, rs);
    InForceHere(w, m, rs);
  }

  lemma NotAnswered(w: World, m: Movement, rs: Records)
    requires RecordsOk(rs) && m.direction == Entry && Unanswerable(m).None? && Dangling(w, m, rs) == []
    requires |InForce(w, m, rs)| > 1 && !AnyDuplicated(m, rs.passes, InForce(w, m, rs))
    ensures AccessAnswer(w, m, rs) == Refused(m, MissingOnePass, None)
  {
  }

  // --------------------------------------------------------------- not measured

  /** THE STAY WAS NOT MEASURED of an exit that one pass covers when it has a longest one and
      the car's entry is not recorded, or is recorded as later than now. */
  lemma StayNotMeasured(w: World, m: Movement, rs: Records, p: Pass)
    requires PassOk(p) && Evaluate(w, m, rs, InForce(w, m, rs), p).outcome == Covered
    ensures p.terms.Some?
    ensures Evaluate(w, m, rs, InForce(w, m, rs), p).stayUnmeasured <==>
              && m.direction == Exit && p.terms.value.maxStay.Some?
              && forall v :: v in rs.visits && StillInside(m, p.id, v) ==>
                   exists u :: u in rs.visits && StillInside(m, p.id, u) && m.at < u.enteredAt
  {
    EvaluateCovers(w, m, rs, InForce(w, m, rs), p);
    StripKeepsKey(m.identity);
    var open := OpenVisits(m, rs.visits, p.id);
    assert forall v :: v in open <==> v in rs.visits && StillInside(m, p.id, v);
    if p.terms.value.maxStay.Some? {
      StayNowIffAllowed(m, rs, p, p.terms.value);
    }
  }

  /** THE REPLACEMENT WAS NOT MEASURED when the car was replaced, and no entry is stated or no
      instant of it is known. */
  lemma ReplacementNotMeasured(w: World, m: Movement, rs: Records, p: Pass)
    requires PassOk(p) && Evaluate(w, m, rs, InForce(w, m, rs), p).outcome == Covered
    ensures Evaluate(w, m, rs, InForce(w, m, rs), p).replacementUnmeasured <==>
              && m.direction == Exit && ReplacedOn(w, m, rs, p.id)
              && (m.enteredAt.None?
                  || forall r :: r in rs.registrations && CurrentHere(w, m, rs, r) && r.pass == p.id && r.exitOnly ==>
                       r.exitOnlyAt.None?)
  {
    var effective := InForce(w, m, rs);
    EvaluateCovers(w, m, rs, effective, p);
    EvaluatedFlag(w, m, rs, effective, p);
    InForceHere(w, m, rs);
    ReplacedAtMost(effective, p.id);
    assert IsExitOnly(effective, p.id) <==> ReplacedOn(w, m, rs, p.id);
  }

  lemma EvaluatedFlag(w: World, m: Movement, rs: Records, effective: seq<Registration>, p: Pass)
    requires PassOk(p) && Evaluate(w, m, rs, effective, p).outcome == Covered
    ensures Evaluate(w, m, rs, effective, p).replacementUnmeasured == ReplacementUnmeasured(m, effective, p.id)
  {
  }
}
