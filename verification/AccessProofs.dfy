/** What the access answer means: when a movement is covered, that an exit is never
    refused, and that the first thing that fails is the reason. */
module AccessProofs {
  import opened Basics
  import opened Text
  import opened States
  import opened Plates
  import opened Terms
  import opened Lists
  import opened Access

  // ------------------------------------------------ the terms, with no order in them

  ghost predicate LaneAllowed(t: Terms, g: GarageId, lane: string) {
    t.lanes.Some? ==> lane in LanesIn(t.lanes.value, g)
  }

  ghost predicate Open(w: World, m: Movement, window: Window) {
    Weekday(Now(w, m).day) in window.days && Inside(window, Now(w, m).minute)
  }

  /** Some window is open, or none is stated. */
  ghost predicate InSomeWindow(w: World, m: Movement, t: Terms) {
    t.windows != [] ==> exists i :: 0 <= i < |t.windows| && Open(w, m, t.windows[i])
  }

  /** The window an entry is counted in: open, and none before it is. */
  ghost predicate FirstOpen(w: World, m: Movement, windows: seq<Window>, i: nat) {
    i < |windows| && Open(w, m, windows[i]) && forall j :: 0 <= j < i ==> !Open(w, m, windows[j])
  }

  ghost predicate ClocksKnown(m: Movement, r: Records, p: PassId) {
    forall v :: v in r.visits && v.pass == p ==> ClockOf(m, r.garages, v.garage).ZoneAt?
  }

  /** How many recorded entries count: on the pass, over every garage it names; per
      window, those that fell inside it today, each on its own garage's clock. */
  ghost function EntriesCounted(w: World, m: Movement, r: Records, p: PassId, per: Period, window: Window): nat {
    if per == Life then |OnPass(r.visits, p)|
    else |Filter(OnPass(r.visits, p), (v: Visit) => InWindowToday(w, m, r.garages, window, v))|
  }

  ghost predicate AllowanceLeft(w: World, m: Movement, r: Records, p: Pass, t: Terms) {
    t.allowance.Some? ==>
      var a := t.allowance.value;
      if a.per == Life then |OnPass(r.visits, p.id)| < a.count
      else ClocksKnown(m, r, p.id)
           && exists i: nat :: FirstOpen(w, m, t.windows, i)
                && EntriesCounted(w, m, r, p.id, PerWindow, t.windows[i]) < a.count
  }

  /** No open entry here is too old to be the stay's: none is open, or one entered no
      longer ago than the maximum (or, by its clock, has not happened yet). */
  ghost predicate StayAllowed(m: Movement, r: Records, p: Pass, t: Terms) {
    t.maxStay.Some? ==>
      var open := OpenVisits(m, r.visits, p.id);
      open == [] || exists v :: v in open && m.at - v.enteredAt <= t.maxStay.value
  }

  ghost predicate NotReplaced(m: Movement, effective: seq<Registration>, p: PassId) {
    IsExitOnly(effective, p) ==>
      m.direction == Exit && (m.enteredAt.Some? ==>
        forall at :: ReplacedAt(effective, p) == Some(at) ==> m.enteredAt.value < at)
  }

  ghost predicate StateSatisfied(w: World, m: Movement, effective: seq<Registration>, p: Pass) {
    && p.state == Active && !p.unreadable && p.terms.Some?
    && (p.terms.value.validFrom.Some? ==> p.terms.value.validFrom.value <= Now(w, m).day)
    && (p.terms.value.validTo.Some? ==> Now(w, m).day <= p.terms.value.validTo.value)
    && NotReplaced(m, effective, p.id)
  }

  ghost predicate TermsSatisfied(w: World, m: Movement, r: Records, p: Pass, t: Terms) {
    && m.direction in t.directions
    && LaneAllowed(t, m.garage.id, Strip(m.lane))
    && InSomeWindow(w, m, t)
    && (m.direction == Entry ==> AllowanceLeft(w, m, r, p, t))
  }

  /** A readable, active pass, and every term of it. */
  ghost predicate Satisfies(w: World, m: Movement, r: Records, effective: seq<Registration>, p: Pass) {
    && StateSatisfied(w, m, effective, p)
    && TermsSatisfied(w, m, r, p, p.terms.value)
    && (m.direction == Exit ==> StayAllowed(m, r, p, p.terms.value))
  }

  lemma {:induction false} WindowNowIsFirstOpen(w: World, m: Movement, windows: seq<Window>)
    ensures WindowNow(w, m, windows).Some? <==> exists i :: 0 <= i < |windows| && Open(w, m, windows[i])
    ensures WindowNow(w, m, windows).Some? ==>
              exists i: nat :: FirstOpen(w, m, windows, i) && windows[i] == WindowNow(w, m, windows).value
    ensures forall i: nat :: FirstOpen(w, m, windows, i) ==> WindowNow(w, m, windows) == Some(windows[i])
  {
    if windows != [] {
      var rest := windows[1..];
      WindowNowIsFirstOpen(w, m, rest);
      if Open(w, m, windows[0]) {
        assert FirstOpen(w, m, windows, 0);
      } else {
        forall i: nat | FirstOpen(w, m, rest, i) ensures FirstOpen(w, m, windows, i + 1) && windows[i + 1] == rest[i] {
          forall j | 0 <= j < i + 1 ensures !Open(w, m, windows[j]) {
            assert j > 0 ==> windows[j] == rest[j - 1];
          }
        }
        forall i: nat | FirstOpen(w, m, windows, i) ensures i > 0 && FirstOpen(w, m, rest, i - 1) {
          forall j | 0 <= j < i - 1 ensures !Open(w, m, rest[j]) {
            assert rest[j] == windows[j + 1];
          }
        }
        forall i | 0 <= i < |windows| && Open(w, m, windows[i])
          ensures exists k :: 0 <= k < |rest| && Open(w, m, rest[k])
        {
          assert windows[i] == rest[i - 1];
        }
      }
    }
  }

  lemma {:induction false} LatestEntryIsLatest(vs: seq<Visit>)
    ensures LatestEntry(vs).None? <==> vs == []
    ensures vs != [] ==> exists v :: v in vs && v.enteredAt == LatestEntry(vs).value
    ensures forall v :: v in vs ==> v.enteredAt <= LatestEntry(vs).value
  {
    if vs != [] {
      LatestEntryIsLatest(vs[1..]);
      assert forall v :: v in vs <==> v == vs[0] || v in vs[1..];
      assert vs[0] in vs;
    }
  }

  lemma StayNowIffAllowed(m: Movement, r: Records, p: Pass, t: Terms)
    requires TermsOk(t) && t.maxStay.Some?
    ensures StayNow(m, r, p, t.maxStay.value) == OverStay <==> !StayAllowed(m, r, p, t)
    ensures StayNow(m, r, p, t.maxStay.value) == StayNotMeasured <==>
              forall v :: v in OpenVisits(m, r.visits, p.id) ==>
                exists u :: u in OpenVisits(m, r.visits, p.id) && m.at < u.enteredAt
  {
    LatestEntryIsLatest(OpenVisits(m, r.visits, p.id));
  }

  lemma StateHolds(w: World, m: Movement, effective: seq<Registration>, p: Pass)
    requires PassOk(p)
    ensures NotOnState(w, m, effective, p).None? <==> StateSatisfied(w, m, effective, p)
    ensures NotOnState(w, m, effective, p).Some? ==> Refuses(m, p, NotOnState(w, m, effective, p).value)
  {
  }

  /** The terms of a pass, checked in order, hold exactly when none of them fails. */
  lemma TermsHold(w: World, m: Movement, r: Records, p: Pass, t: Terms)
    requires TermsOk(t)
    ensures NotOnTerms(w, m, r, p, t).None? <==> TermsSatisfied(w, m, r, p, t)
    ensures NotOnTerms(w, m, r, p, t).Some? ==> Refuses(m, p, NotOnTerms(w, m, r, p, t).value)
  {
    WindowNowIsFirstOpen(w, m, t.windows);
    if NotOnTerms(w, m, r, p, t).Some? {
      TermsRefuse(w, m, r, p, t);
    }
  }

  lemma TermsRefuse(w: World, m: Movement, r: Records, p: Pass, t: Terms)
    requires NotOnTerms(w, m, r, p, t).Some?
    ensures Refuses(m, p, NotOnTerms(w, m, r, p, t).value)
  {
  }

  /** An answer about the pass that does not cover; at an exit, a not-covered one. */
  ghost predicate Refuses(m: Movement, p: Pass, a: Answer) {
    && a.outcome != Covered && a.pass == Some(p.id)
    && WellFormed(m, a) && a.exitNote == (m.direction == Exit)
  }

  /** ONE PASS IS COVERED EXACTLY WHEN EVERY TERM HOLDS. */
  lemma EvaluateCovers(w: World, m: Movement, r: Records, effective: seq<Registration>, p: Pass)
    requires PassOk(p)
    ensures var a := Evaluate(w, m, r, effective, p);
            && (a.outcome == Covered <==> Satisfies(w, m, r, effective, p))
            && a.pass == Some(p.id) && WellFormed(m, a) && a.exitNote == (m.direction == Exit)
  {
    StateHolds(w, m, effective, p);
    if NotOnState(w, m, effective, p).None? {
      var t := p.terms.value;
      TermsHold(w, m, r, p, t);
      if t.maxStay.Some? {
        StayNowIffAllowed(m, r, p, t);
      }
    }
  }

  // ------------------------------------------------------------ the whole answer

  ghost predicate Readable(m: Movement) {
    !m.garage.unreadable && Strip(m.identity) != "" && Strip(m.lane) != ""
  }

  /** A registration of the plate, in force today, on a pass of this garage. */
  ghost predicate HoldsToday(w: World, m: Movement, rs: Records, r: Registration) {
    r in rs.registrations && IsHere(m, rs.passes, r) && CoversDay(r, Now(w, m).day)
  }

  lemma InForceIs(w: World, m: Movement, rs: Records)
    ensures forall r :: r in InForce(w, m, rs) <==> HoldsToday(w, m, rs, r)
    ensures forall r :: r in Dangling(w, m, rs) <==> r in rs.registrations && IsDangling(w, m, rs.passes, r)
  {
  }

  /** AN ENTRY IS COVERED EXACTLY WHEN: the garage, the plate and the lane can be read and
      the transient mode is stated; the records agree (nothing dangling, one registration
      in force, its pass handed in once); and that pass satisfies every term. */
  lemma EntryCoveredIff(w: World, m: Movement, rs: Records)
    requires RecordsOk(rs) && m.direction == Entry
    ensures AccessAnswer(w, m, rs).outcome == Covered <==>
              && Readable(m) && m.garage.transient.Some?
              && Dangling(w, m, rs) == [] && |InForce(w, m, rs)| == 1
              && var r := InForce(w, m, rs)[0];
                 exists p :: p in rs.passes && p.id == r.pass && CopiesOf(rs.passes, r.pass) == [p]
                   && m.garage.id in p.garages && Satisfies(w, m, rs, InForce(w, m, rs), p)
    ensures AccessAnswer(w, m, rs).outcome == Covered ==> AccessAnswer(w, m, rs).pass == Some(InForce(w, m, rs)[0].pass)
  {
    assert Unanswerable(m).None? <==> Readable(m) && m.garage.transient.Some?;
    if Unanswerable(m).Some? {
      UnanswerableShaped(w, m, rs);
    } else if |InForce(w, m, rs)| == 1 && Dangling(w, m, rs) == [] {
      OneInForce(w, m, rs);
    } else if InForce(w, m, rs) == [] {
      NoneShaped(w, m, rs);
    } else {
      EntrySeveralShaped(w, m, rs);
    }
  }

  lemma OneInForce(w: World, m: Movement, rs: Records)
    requires RecordsOk(rs) && m.direction == Entry && Unanswerable(m).None?
    requires |InForce(w, m, rs)| == 1 && Dangling(w, m, rs) == []
    ensures var r := InForce(w, m, rs)[0];
            && (AccessAnswer(w, m, rs).outcome == Covered <==>
                  exists p :: p in rs.passes && p.id == r.pass && CopiesOf(rs.passes, r.pass) == [p]
                    && m.garage.id in p.garages && Satisfies(w, m, rs, InForce(w, m, rs), p))
            && (AccessAnswer(w, m, rs).outcome == Covered ==> AccessAnswer(w, m, rs).pass == Some(r.pass))
  {
    var effective := InForce(w, m, rs);
    assert effective[0] in effective && IsHere(m, rs.passes, effective[0]);
    var id := effective[0].pass;
    if IsDuplicated(rs.passes, m.garage.id, id) {
      assert AnyDuplicated(m, rs.passes, effective);
    } else {
      var p := ById(rs.passes, m.garage.id, id).value;
      assert CopiesOf(rs.passes, id) == [p];
      OneCandidate(w, m, rs);
      OnlyAnswer(w, m, rs, p);
    }
  }

  lemma {:induction false} FirstCoveredFinds(answers: seq<Answer>)
    ensures FirstCovered(answers).Some? <==> exists i :: 0 <= i < |answers| && answers[i].outcome == Covered
    ensures FirstCovered(answers).Some? ==> FirstCovered(answers).value in answers && FirstCovered(answers).value.outcome == Covered
  {
    if answers != [] {
      FirstCoveredFinds(answers[1..]);
      assert forall i :: 0 <= i < |answers| - 1 ==> answers[1..][i] == answers[i + 1];
    }
  }

  lemma CandidatesAnswer(w: World, m: Movement, rs: Records)
    requires RecordsOk(rs)
    ensures var effective := InForce(w, m, rs);
            var ps := InOrder(w, m, rs.passes, effective);
            && (forall p :: p in ps ==> p in rs.passes && exists r :: r in effective && r.pass == p.id)
            && var answers := EvaluateAll(w, m, rs, effective, ps);
               forall i :: 0 <= i < |ps| ==>
                 && (answers[i].outcome == Covered <==> Satisfies(w, m, rs, effective, ps[i]))
                 && WellFormed(m, answers[i]) && answers[i].exitNote == (m.direction == Exit)
  {
    var effective := InForce(w, m, rs);
    InOrderAreCopies(w, m, rs);
    var ps := InOrder(w, m, rs.passes, effective);
    forall i | 0 <= i < |ps|
      ensures var a := Evaluate(w, m, rs, effective, ps[i]);
              && (a.outcome == Covered <==> Satisfies(w, m, rs, effective, ps[i]))
              && WellFormed(m, a) && a.exitNote == (m.direction == Exit)
    {
      assert ps[i] in ps;
      EvaluateCovers(w, m, rs, effective, ps[i]);
    }
  }

  lemma SomeCandidateSatisfies(w: World, m: Movement, rs: Records)
    requires RecordsOk(rs)
    ensures var effective := InForce(w, m, rs);
            var ps := InOrder(w, m, rs.passes, effective);
            && (forall p :: p in ps ==> p in rs.passes)
            && ((exists i :: 0 <= i < |ps| && Satisfies(w, m, rs, effective, ps[i])) <==>
                CanLeave(w, m, rs))
  {
    var effective := InForce(w, m, rs);
    InOrderAreCopies(w, m, rs);
    var ps := InOrder(w, m, rs.passes, effective);
    if p :| p in rs.passes && LeavesOn(w, m, rs, p) {
      assert p in ps;
      var i :| 0 <= i < |ps| && ps[i] == p;
    }
    if i :| 0 <= i < |ps| && Satisfies(w, m, rs, effective, ps[i]) {
      assert ps[i] in ps;
      assert LeavesOn(w, m, rs, ps[i]);
    }
  }

  /** Every candidate evaluated: one covers exactly when the car may leave on some pass. */
  lemma SomeCandidateCovers(w: World, m: Movement, rs: Records)
    requires RecordsOk(rs)
    ensures var effective := InForce(w, m, rs);
            var ps := InOrder(w, m, rs.passes, effective);
            && (forall p :: p in ps ==> p in rs.passes)
            && (FirstCovered(EvaluateAll(w, m, rs, effective, ps)).Some? <==>
                CanLeave(w, m, rs))
  {
    SomeCandidateSatisfies(w, m, rs);
    CandidatesAnswer(w, m, rs);
    FirstCoveredFinds(EvaluateAll(w, m, rs, InForce(w, m, rs), InOrder(w, m, rs.passes, InForce(w, m, rs))));
  }

  /** AN EXIT IS COVERED EXACTLY WHEN what can be read can be read, and some copy of some
      pass the car is registered on in force satisfies every term: however many passes
      there are, however many copies, whatever is missing beside them. */
  lemma ExitCoveredIff(w: World, m: Movement, rs: Records)
    requires RecordsOk(rs) && m.direction == Exit
    ensures AccessAnswer(w, m, rs).outcome == Covered <==>
              Readable(m) && CanLeave(w, m, rs)
  {
    var effective := InForce(w, m, rs);
    if Unanswerable(m).None? && effective != [] {
      if |effective| == 1 && Dangling(w, m, rs) == [] && !AnyDuplicated(m, rs.passes, effective) {
        OneCandidateLeaves(w, m, rs);
      } else {
        SeveralCandidates(w, m, rs);
      }
    }
  }

  lemma OneCandidateLeaves(w: World, m: Movement, rs: Records)
    requires RecordsOk(rs) && Unanswerable(m).None? && Dangling(w, m, rs) == []
    requires |InForce(w, m, rs)| == 1 && !AnyDuplicated(m, rs.passes, InForce(w, m, rs))
    ensures AccessAnswer(w, m, rs).outcome == Covered <==> CanLeave(w, m, rs)
  {
    var p := TheCandidate(w, m, rs);
    OnlyAnswer(w, m, rs, p);
    LeavesOnlyOn(w, m, rs, InForce(w, m, rs)[0], p);
  }

  lemma TheCandidate(w: World, m: Movement, rs: Records) returns (p: Pass)
    requires |InForce(w, m, rs)| == 1 && !AnyDuplicated(m, rs.passes, InForce(w, m, rs))
    ensures var r := InForce(w, m, rs)[0];
            && r in InForce(w, m, rs) && (forall x :: x in InForce(w, m, rs) ==> x == r)
            && ById(rs.passes, m.garage.id, r.pass) == Some(p) && p in rs.passes && p.id == r.pass
            && forall q :: q in rs.passes && q.id == r.pass ==> q == p
  {
    assert InForce(w, m, rs)[0] in InForce(w, m, rs);
    OneCandidate(w, m, rs);
    p := ById(rs.passes, m.garage.id, InForce(w, m, rs)[0].pass).value;
  }

  lemma LeavesOnlyOn(w: World, m: Movement, rs: Records, r: Registration, p: Pass)
    requires r in InForce(w, m, rs) && forall x :: x in InForce(w, m, rs) ==> x == r
    requires p in rs.passes && p.id == r.pass && forall q :: q in rs.passes && q.id == r.pass ==> q == p
    ensures CanLeave(w, m, rs) <==> Satisfies(w, m, rs, InForce(w, m, rs), p)
  {
    if Satisfies(w, m, rs, InForce(w, m, rs), p) {
      assert LeavesOn(w, m, rs, p);
    }
  }

  lemma OnlyAnswer(w: World, m: Movement, rs: Records, p: Pass)
    requires RecordsOk(rs) && Unanswerable(m).None? && Dangling(w, m, rs) == []
    requires |InForce(w, m, rs)| == 1 && !AnyDuplicated(m, rs.passes, InForce(w, m, rs))
    requires ById(rs.passes, m.garage.id, InForce(w, m, rs)[0].pass) == Some(p)
    ensures AccessAnswer(w, m, rs).outcome == Covered <==> Satisfies(w, m, rs, InForce(w, m, rs), p)
    ensures AccessAnswer(w, m, rs).pass == Some(p.id)
  {
    EvaluateCovers(w, m, rs, InForce(w, m, rs), p);
  }

  lemma SeveralCandidates(w: World, m: Movement, rs: Records)
    requires RecordsOk(rs) && Unanswerable(m).None? && m.direction == Exit && InForce(w, m, rs) != []
    requires !(|InForce(w, m, rs)| == 1 && Dangling(w, m, rs) == [] && !AnyDuplicated(m, rs.passes, InForce(w, m, rs)))
    ensures AccessAnswer(w, m, rs).outcome == Covered <==> CanLeave(w, m, rs)
    ensures AccessAnswer(w, m, rs).outcome != RefusedToAnswer && WellFormed(m, AccessAnswer(w, m, rs))
    ensures AccessAnswer(w, m, rs).exitNote
  {
    SomeCandidateCovers(w, m, rs);
    CandidatesAnswer(w, m, rs);
    SeveralIs(w, m, rs);
    FirstCoveredFinds(EvaluateAll(w, m, rs, InForce(w, m, rs), InOrder(w, m, rs.passes, InForce(w, m, rs))));
  }

  /** The branch that evaluates every candidate: the first that covers, or that the pass is
      duplicated, or what the first says. */
  lemma SeveralIs(w: World, m: Movement, rs: Records)
    requires RecordsOk(rs) && Unanswerable(m).None? && m.direction == Exit && InForce(w, m, rs) != []
    requires !(|InForce(w, m, rs)| == 1 && Dangling(w, m, rs) == [] && !AnyDuplicated(m, rs.passes, InForce(w, m, rs)))
    ensures var ps := InOrder(w, m, rs.passes, InForce(w, m, rs));
            && (forall p :: p in ps ==> p in rs.passes) && ps != []
            && var answers := EvaluateAll(w, m, rs, InForce(w, m, rs), ps);
               AccessAnswer(w, m, rs)
               == if FirstCovered(answers).Some? then FirstCovered(answers).value
                  else if |InForce(w, m, rs)| == 1 && Dangling(w, m, rs) == [] then Not(m, PassDuplicated, None)
                  else answers[0]
  {
    InOrderAreCopies(w, m, rs);
  }

  ghost predicate LeavesOn(w: World, m: Movement, rs: Records, p: Pass) {
    && (exists r :: r in InForce(w, m, rs) && r.pass == p.id)
    && Satisfies(w, m, rs, InForce(w, m, rs), p)
  }

  ghost predicate SaidByCandidate(w: World, m: Movement, rs: Records, a: Answer) {
    && PassesBuilt(rs)
    && exists p ::
         p in rs.passes && (exists r :: r in InForce(w, m, rs) && r.pass == p.id) && a == Evaluate(w, m, rs, InForce(w, m, rs), p)
  }

  ghost predicate PassesBuilt(rs: Records) {
    forall p :: p in rs.passes ==> (!p.unreadable ==> p.terms.Some?)
  }

  lemma EveryCandidateSays(w: World, m: Movement, rs: Records)
    requires RecordsOk(rs)
    ensures var ps := InOrder(w, m, rs.passes, InForce(w, m, rs));
            && (forall p :: p in ps ==> p in rs.passes)
            && forall i :: 0 <= i < |ps| ==>
                 SaidByCandidate(w, m, rs, EvaluateAll(w, m, rs, InForce(w, m, rs), ps)[i])
  {
    InOrderAreCopies(w, m, rs);
    var ps := InOrder(w, m, rs.passes, InForce(w, m, rs));
    forall i | 0 <= i < |ps| ensures SaidByCandidate(w, m, rs, EvaluateAll(w, m, rs, InForce(w, m, rs), ps)[i]) {
      assert ps[i] in ps;
    }
  }

  /** With several candidates the answer is what one of them said, or names no pass. */
  lemma SeveralSay(w: World, m: Movement, rs: Records)
    requires RecordsOk(rs) && Unanswerable(m).None? && InForce(w, m, rs) != []
    requires !(|InForce(w, m, rs)| == 1 && Dangling(w, m, rs) == [] && !AnyDuplicated(m, rs.passes, InForce(w, m, rs)))
    ensures SaidByCandidate(w, m, rs, AccessAnswer(w, m, rs))
            || (AccessAnswer(w, m, rs).pass.None? && AccessAnswer(w, m, rs).outcome != Covered)
  {
    if m.direction == Exit {
      EveryCandidateSays(w, m, rs);
      SeveralIs(w, m, rs);
      FirstCoveredFinds(EvaluateAll(w, m, rs, InForce(w, m, rs), InOrder(w, m, rs.passes, InForce(w, m, rs))));
    }
  }

  lemma OneSays(w: World, m: Movement, rs: Records)
    requires RecordsOk(rs) && Unanswerable(m).None? && |InForce(w, m, rs)| == 1
    requires Dangling(w, m, rs) == [] && !AnyDuplicated(m, rs.passes, InForce(w, m, rs))
    ensures SaidByCandidate(w, m, rs, AccessAnswer(w, m, rs))
  {
    assert InForce(w, m, rs)[0] in InForce(w, m, rs);
  }

  /** A covered answer is what evaluating some pass the car is registered on said. */
  lemma CoveredIsEvaluated(w: World, m: Movement, rs: Records)
    requires RecordsOk(rs) && AccessAnswer(w, m, rs).outcome == Covered
    ensures SaidByCandidate(w, m, rs, AccessAnswer(w, m, rs))
  {
    var effective := InForce(w, m, rs);
    if Unanswerable(m).Some? {
      UnanswerableShaped(w, m, rs);
    } else if effective == [] {
      NoneShaped(w, m, rs);
    } else if |effective| == 1 && Dangling(w, m, rs) == [] && !AnyDuplicated(m, rs.passes, effective) {
      OneSays(w, m, rs);
    } else {
      SeveralSay(w, m, rs);
    }
  }

  /** When every registration in force is on one pass, handed in once and nothing dangling,
      the answer is about that pass or about none. */
  lemma OnePassAnswer(w: World, m: Movement, rs: Records, p: PassId)
    requires RecordsOk(rs) && InForce(w, m, rs) != []
    requires forall r :: r in InForce(w, m, rs) ==> r.pass == p
    requires Dangling(w, m, rs) == [] && !AnyDuplicated(m, rs.passes, InForce(w, m, rs))
    ensures AccessAnswer(w, m, rs).pass in {None, Some(p)}
  {
    if Unanswerable(m).None? {
      if |InForce(w, m, rs)| == 1 {
        OneSays(w, m, rs);
      } else {
        SeveralSay(w, m, rs);
      }
      if SaidByCandidate(w, m, rs, AccessAnswer(w, m, rs)) {
        var q :| q in rs.passes && (exists r :: r in InForce(w, m, rs) && r.pass == q.id)
                 && AccessAnswer(w, m, rs) == Evaluate(w, m, rs, InForce(w, m, rs), q);
        EvaluateCovers(w, m, rs, InForce(w, m, rs), q);
      }
    }
  }

  /** Some copy of some pass the car is registered on lets it out. */
  ghost predicate CanLeave(w: World, m: Movement, rs: Records) {
    exists p :: p in rs.passes && LeavesOn(w, m, rs, p)
  }

  /** One registration in force, its pass handed in once: one pass to evaluate. */
  lemma OneCandidate(w: World, m: Movement, rs: Records)
    requires |InForce(w, m, rs)| == 1 && !IsDuplicated(rs.passes, m.garage.id, InForce(w, m, rs)[0].pass)
    ensures var id := InForce(w, m, rs)[0].pass;
            ById(rs.passes, m.garage.id, id).Some?
            && forall p :: p in rs.passes && p.id == id ==> p == ById(rs.passes, m.garage.id, id).value
    ensures AnyDuplicated(m, rs.passes, InForce(w, m, rs)) == false
  {
    InForceIs(w, m, rs);
    var r := InForce(w, m, rs)[0];
    assert r in InForce(w, m, rs);
    var copies := CopiesOf(rs.passes, r.pass);
    forall p | p in rs.passes && p.id == r.pass ensures p == copies[0] {
      assert p in copies;
    }
  }

  ghost predicate Shaped(m: Movement, a: Answer) {
    (a.exitNote <==> m.direction == Exit) && (m.direction == Exit ==> a.outcome != RefusedToAnswer) && WellFormed(m, a)
  }

  lemma OneShaped(w: World, m: Movement, rs: Records)
    requires RecordsOk(rs) && Unanswerable(m).None? && |InForce(w, m, rs)| == 1
    requires Dangling(w, m, rs) == [] && !AnyDuplicated(m, rs.passes, InForce(w, m, rs))
    ensures Shaped(m, AccessAnswer(w, m, rs))
  {
    var effective := InForce(w, m, rs);
    assert effective[0] in effective;
    EvaluateCovers(w, m, rs, effective, ById(rs.passes, m.garage.id, effective[0].pass).value);
  }

  lemma UnanswerableShaped(w: World, m: Movement, rs: Records)
    requires RecordsOk(rs) && Unanswerable(m).Some?
    ensures Shaped(m, AccessAnswer(w, m, rs)) && AccessAnswer(w, m, rs).outcome != Covered
    ensures AccessAnswer(w, m, rs) == Unanswerable(m).value
  {
  }

  lemma NoneShaped(w: World, m: Movement, rs: Records)
    requires RecordsOk(rs) && Unanswerable(m).None? && InForce(w, m, rs) == []
    ensures Shaped(m, AccessAnswer(w, m, rs)) && AccessAnswer(w, m, rs).outcome != Covered
  {
    var a := NoneInForce(w, m, rs);
    assert Shaped(m, a) && a.outcome == NotCovered;
  }

  lemma EntrySeveralShaped(w: World, m: Movement, rs: Records)
    requires RecordsOk(rs) && Unanswerable(m).None? && m.direction == Entry && InForce(w, m, rs) != []
    requires !(|InForce(w, m, rs)| == 1 && Dangling(w, m, rs) == [] && !AnyDuplicated(m, rs.passes, InForce(w, m, rs)))
    ensures Shaped(m, AccessAnswer(w, m, rs)) && AccessAnswer(w, m, rs).outcome != Covered
  {
    var a := AccessAnswer(w, m, rs);
    assert a == Refused(m, MissingPassHandedIn, None) || a == Refused(m, DuplicatedPassId, None)
           || a == Refused(m, MissingOnePass, None);
  }

  /** AN EXIT IS NEVER REFUSED: always covered or not covered, always with the note that
      says so, naming nothing as missing and never read as a stay outside the terms when
      it is covered. An entry carries none of that. */
  lemma EveryExitIsAnswered(w: World, m: Movement, rs: Records)
    requires RecordsOk(rs)
    ensures Shaped(m, AccessAnswer(w, m, rs))
  {
    var effective := InForce(w, m, rs);
    if Unanswerable(m).Some? {
      UnanswerableShaped(w, m, rs);
    } else if effective == [] {
      NoneShaped(w, m, rs);
    } else if |effective| == 1 && Dangling(w, m, rs) == [] && !AnyDuplicated(m, rs.passes, effective) {
      OneShaped(w, m, rs);
    } else if m.direction == Exit {
      SeveralCandidates(w, m, rs);
    } else {
      EntrySeveralShaped(w, m, rs);
    }
  }

  /** One of the three shapes of an answer, and no mixture of them. */
  ghost predicate WellFormed(m: Movement, a: Answer) {
    match a.outcome
    case Covered => a.pass.Some? && a.reason.None? && a.missing.None? && a.means == Some(MeansCovered)
    case NotCovered =>
      a.reason.Some? && a.missing.None? && !a.stayUnmeasured && !a.replacementUnmeasured
      && a.means == Some(if m.direction == Exit then ExitOutOfTerms
                         else if m.garage.transient == Some(true) then TransientStay else NothingToAdmitAs)
    case RefusedToAnswer =>
      && m.direction == Entry && a.missing.Some? && a.reason.None? && a.means.None?
      && !a.stayUnmeasured && !a.replacementUnmeasured
  }

  lemma OnePassById(passes: seq<Pass>, p: Pass, g: GarageId)
    requires passes == [p] && g in p.garages
    ensures CopiesOf(passes, p.id) == [p]
    ensures !IsDuplicated(passes, g, p.id) && ById(passes, g, p.id) == Some(p)
  {
    OneKept(p, (x: Pass) => x.id == p.id);
  }

  lemma OneCarInForce(w: World, m: Movement, rs: Records, p: Pass, r: Registration)
    requires rs.passes == [p] && rs.registrations == [r] && r.pass == p.id && m.garage.id in p.garages
    requires OfThisCar(m, r) && CoversDay(r, Now(w, m).day)
    ensures InForce(w, m, rs) == [r] && Dangling(w, m, rs) == []
  {
    OnePassById(rs.passes, p, m.garage.id);
    assert IsHere(m, rs.passes, r);
    OneKept(r, (x: Registration) => IsHere(m, rs.passes, x));
    OneKept(r, (x: Registration) => CoversDay(x, Now(w, m).day));
    NoneKept(rs.registrations, (x: Registration) => IsDangling(w, m, rs.passes, x));
  }

  /** One car, on one pass: the answer is whether every term of it holds. */
  lemma OneCarAnswer(w: World, m: Movement, rs: Records, p: Pass)
    requires RecordsOk(rs) && Unanswerable(m).None?
    requires |rs.registrations| == 1 && rs.passes == [p] && m.garage.id in p.garages
    requires var r := rs.registrations[0]; r.pass == p.id && OfThisCar(m, r) && CoversDay(r, Now(w, m).day)
    ensures AccessAnswer(w, m, rs).outcome == Covered <==> Satisfies(w, m, rs, rs.registrations, p)
  {
    var r := rs.registrations[0];
    assert rs.registrations == [r];
    OneCarInForce(w, m, rs, p, r);
    OnePassById(rs.passes, p, m.garage.id);
    OnlyAnswer(w, m, rs, p);
  }

  // ------------------------------------------- the first thing that fails is the reason

  /** The checks of one pass, in the order of the contract. */
  datatype Check =
    | CRevoked | CUnreadable | CExpired | CSuspended | CNotActive | CNotStarted | CReplaced | CDirection | CLane
    | CWindow | CClocks | CAllowance | CMaxStay

  const CHECKS := [CRevoked, CUnreadable, CExpired, CSuspended, CNotActive, CNotStarted, CReplaced, CDirection, CLane,
                   CWindow, CClocks, CAllowance, CMaxStay]

  ghost predicate Fails(w: World, m: Movement, r: Records, effective: seq<Registration>, p: Pass, c: Check) {
    if c == CRevoked then p.state == Revoked
    else if c == CUnreadable then p.unreadable
    else
      p.terms.Some? &&
      var t := p.terms.value; var today := Now(w, m).day;
      match c
      case CExpired => t.validTo.Some? && t.validTo.value < today
      case CSuspended => p.state == Suspended
      case CNotActive => p.state == Draft || p.state == AwaitingEnrolment
      case CNotStarted => t.validFrom.Some? && today < t.validFrom.value
      case CReplaced => !NotReplaced(m, effective, p.id)
      case CDirection => m.direction !in t.directions
      case CLane => !LaneAllowed(t, m.garage.id, Strip(m.lane))
      case CWindow => !InSomeWindow(w, m, t)
      case CClocks => m.direction == Entry && t.allowance.Some? && t.allowance.value.per == PerWindow
                      && !ClocksKnown(m, r, p.id)
      case CAllowance => m.direction == Entry && !AllowanceLeft(w, m, r, p, t)
      case CMaxStay => m.direction == Exit && !StayAllowed(m, r, p, t)
  }

  ghost predicate Says(m: Movement, a: Answer, c: Check) {
    match c
    case CRevoked => a.reason == Some(PassRevoked)
    case CUnreadable => if m.direction == Exit then a.reason == Some(PassUnreadable) else a.missing == Some(UnreadableTerms)
    case CExpired => a.reason == Some(PassExpired)
    case CSuspended => a.reason == Some(PassSuspended)
    case CNotActive => a.reason == Some(NotActive)
    case CNotStarted => a.reason == Some(NotStarted)
    case CReplaced => a.reason == Some(ExitOnly)
    case CDirection => a.reason == Some(DirectionNotAllowed)
    case CLane => a.reason == Some(WrongLane)
    case CWindow => a.reason == Some(OutsideWindow)
    case CClocks => a.missing in {Some(MissingGarageHandedIn), Some(DuplicatedGarageId), Some(MissingTimezone)}
    case CAllowance => a.reason == Some(OutOfVisits)
    case CMaxStay => a.reason == Some(OverMaxStay)
  }

  /** THE FIRST CHECK THAT FAILS IS THE REASON, and nothing after it is reported: revoked
      outranks everything, an unreadable pass outranks its terms, expiry its typed state. */
  lemma FirstFailureIsTheReason(w: World, m: Movement, r: Records, effective: seq<Registration>, p: Pass, k: nat)
    requires PassOk(p) && k < |CHECKS|
    requires Fails(w, m, r, effective, p, CHECKS[k])
    requires forall j :: 0 <= j < k ==> !Fails(w, m, r, effective, p, CHECKS[j])
    ensures Says(m, Evaluate(w, m, r, effective, p), CHECKS[k])
    ensures Evaluate(w, m, r, effective, p).pass == Some(p.id)
    ensures Evaluate(w, m, r, effective, p).outcome
            == if k == 10 || (k == 1 && m.direction == Entry) then RefusedToAnswer else NotCovered
  {
    assert k > 0 ==> !Fails(w, m, r, effective, p, CHECKS[0]);
    assert k > 1 ==> !Fails(w, m, r, effective, p, CHECKS[1]);
    assert k > 2 ==> !Fails(w, m, r, effective, p, CHECKS[2]);
    assert k > 3 ==> !Fails(w, m, r, effective, p, CHECKS[3]);
    assert k > 4 ==> !Fails(w, m, r, effective, p, CHECKS[4]);
    assert k > 5 ==> !Fails(w, m, r, effective, p, CHECKS[5]);
    assert k > 6 ==> !Fails(w, m, r, effective, p, CHECKS[6]);
    if k >= 7 {
      TermsFailInOrder(w, m, r, effective, p, k);
    }
  }

  /** Seven checks passed: the state of the pass is satisfied. */
  lemma StateChecksPassed(w: World, m: Movement, r: Records, effective: seq<Registration>, p: Pass)
    requires PassOk(p)
    requires forall j :: 0 <= j < 7 ==> !Fails(w, m, r, effective, p, CHECKS[j])
    ensures NotOnState(w, m, effective, p).None? && p.terms.Some? && !p.unreadable
  {
    assert !Fails(w, m, r, effective, p, CHECKS[0]) && !Fails(w, m, r, effective, p, CHECKS[1]);
    assert !Fails(w, m, r, effective, p, CHECKS[2]) && !Fails(w, m, r, effective, p, CHECKS[3]);
    assert !Fails(w, m, r, effective, p, CHECKS[4]) && !Fails(w, m, r, effective, p, CHECKS[5]);
    assert !Fails(w, m, r, effective, p, CHECKS[6]);
    StateHolds(w, m, effective, p);
  }

  /** Every check passed: every term holds. */
  lemma AllChecksPassed(w: World, m: Movement, r: Records, effective: seq<Registration>, p: Pass)
    requires PassOk(p)
    requires forall j :: 0 <= j < |CHECKS| ==> !Fails(w, m, r, effective, p, CHECKS[j])
    ensures Satisfies(w, m, r, effective, p)
  {
    StateChecksPassed(w, m, r, effective, p);
    StateHolds(w, m, effective, p);
    assert !Fails(w, m, r, effective, p, CHECKS[7]) && !Fails(w, m, r, effective, p, CHECKS[8]);
    assert !Fails(w, m, r, effective, p, CHECKS[9]) && !Fails(w, m, r, effective, p, CHECKS[11]);
    assert !Fails(w, m, r, effective, p, CHECKS[12]);
  }

  lemma TermsFailInOrder(w: World, m: Movement, r: Records, effective: seq<Registration>, p: Pass, k: nat)
    requires PassOk(p) && 7 <= k < |CHECKS|
    requires Fails(w, m, r, effective, p, CHECKS[k])
    requires forall j :: 0 <= j < k ==> !Fails(w, m, r, effective, p, CHECKS[j])
    ensures Says(m, Evaluate(w, m, r, effective, p), CHECKS[k])
    ensures Evaluate(w, m, r, effective, p).pass == Some(p.id)
    ensures Evaluate(w, m, r, effective, p).outcome == if k == 10 then RefusedToAnswer else NotCovered
  {
    StateChecksPassed(w, m, r, effective, p);
    var t := p.terms.value;
    assert k > 7 ==> !Fails(w, m, r, effective, p, CHECKS[7]);
    assert k > 8 ==> !Fails(w, m, r, effective, p, CHECKS[8]);
    assert k > 9 ==> !Fails(w, m, r, effective, p, CHECKS[9]);
    assert k > 10 ==> !Fails(w, m, r, effective, p, CHECKS[10]);
    assert k > 11 ==> !Fails(w, m, r, effective, p, CHECKS[11]);
    if k <= 11 {
      OneTermFails(w, m, r, p, t, CHECKS[k]);
    } else {
      StayFails(w, m, r, effective, p, t);
    }
  }

  lemma StayFails(w: World, m: Movement, r: Records, effective: seq<Registration>, p: Pass, t: Terms)
    requires PassOk(p) && p.terms == Some(t) && NotOnState(w, m, effective, p).None?
    requires TermsSatisfied(w, m, r, p, t) && m.direction == Exit && !StayAllowed(m, r, p, t)
    ensures Evaluate(w, m, r, effective, p) == Not(m, OverMaxStay, Some(p.id))
  {
    TermsHold(w, m, r, p, t);
    StayNowIffAllowed(m, r, p, t);
  }

  lemma {:induction false} FirstNoClockIs(m: Movement, garages: seq<Garage>, visits: seq<Visit>)
    requires exists v :: v in visits && ClockOf(m, garages, v.garage).NoClockAt?
    ensures FirstNoClock(m, garages, visits) in {MissingGarageHandedIn, DuplicatedGarageId, MissingTimezone}
  {
    if !ClockOf(m, garages, visits[0].garage).NoClockAt? {
      assert forall v :: v in visits <==> v == visits[0] || v in visits[1..];
      FirstNoClockIs(m, garages, visits[1..]);
    }
  }

  lemma OneTermFails(w: World, m: Movement, r: Records, p: Pass, t: Terms, c: Check)
    requires TermsOk(t) && p.terms == Some(t)
    requires c in {CDirection, CLane, CWindow, CClocks, CAllowance}
    requires c != CDirection ==> m.direction in t.directions
    requires c != CDirection && c != CLane ==> LaneAllowed(t, m.garage.id, Strip(m.lane))
    requires c == CClocks || c == CAllowance ==> InSomeWindow(w, m, t)
    requires c == CDirection ==> m.direction !in t.directions
    requires c == CLane ==> !LaneAllowed(t, m.garage.id, Strip(m.lane))
    requires c == CWindow ==> !InSomeWindow(w, m, t)
    requires c == CClocks || c == CAllowance ==> m.direction == Entry && t.allowance.Some?
    requires c == CClocks ==> t.allowance.value.per == PerWindow && !ClocksKnown(m, r, p.id)
    requires c == CAllowance ==>
               !AllowanceLeft(w, m, r, p, t) && (t.allowance.value.per == PerWindow ==> ClocksKnown(m, r, p.id))
    ensures var no := NotOnTerms(w, m, r, p, t);
            no.Some? && Says(m, no.value, c) && no.value.pass == Some(p.id)
            && no.value.outcome == if c == CClocks then RefusedToAnswer else NotCovered
  {
    if c == CClocks {
      ClockFails(w, m, r, p, t);
    } else if c == CAllowance {
      AllowanceFails(w, m, r, p, t);
    } else {
      WindowNowIsFirstOpen(w, m, t.windows);
    }
  }

  /** The movement is on everything that is asked before the visits are counted. */
  ghost predicate ComesToVisits(w: World, m: Movement, p: Pass, t: Terms) {
    && TermsOk(t) && p.terms == Some(t) && m.direction == Entry && m.direction in t.directions
    && LaneAllowed(t, m.garage.id, Strip(m.lane)) && InSomeWindow(w, m, t) && t.allowance.Some?
  }

  lemma CountedAtLast(w: World, m: Movement, r: Records, p: Pass, t: Terms)
    requires ComesToVisits(w, m, p, t)
    ensures t.windows != [] ==> WindowNow(w, m, t.windows).Some?
    ensures var counted := VisitsUsed(w, m, r, p, t.allowance.value.per, WindowNow(w, m, t.windows));
            NotOnTerms(w, m, r, p, t)
            == if counted.NoClock? then Some(Refused(m, counted.missing, Some(p.id)))
               else if counted.count >= t.allowance.value.count then Some(Not(m, OutOfVisits, Some(p.id))) else None
  {
    WindowNowIsFirstOpen(w, m, t.windows);
  }

  lemma ClockFails(w: World, m: Movement, r: Records, p: Pass, t: Terms)
    requires ComesToVisits(w, m, p, t) && t.allowance.value.per == PerWindow && !ClocksKnown(m, r, p.id)
    ensures var no := NotOnTerms(w, m, r, p, t);
            no.Some? && Says(m, no.value, CClocks) && no.value.pass == Some(p.id) && no.value.outcome == RefusedToAnswer
  {
    CountedAtLast(w, m, r, p, t);
    var v :| v in r.visits && v.pass == p.id && ClockOf(m, r.garages, v.garage).NoClockAt?;
    assert v in OnPass(r.visits, p.id);
    FirstNoClockIs(m, r.garages, OnPass(r.visits, p.id));
  }

  lemma AllowanceFails(w: World, m: Movement, r: Records, p: Pass, t: Terms)
    requires ComesToVisits(w, m, p, t)
    requires !AllowanceLeft(w, m, r, p, t) && (t.allowance.value.per == PerWindow ==> ClocksKnown(m, r, p.id))
    ensures var no := NotOnTerms(w, m, r, p, t);
            no.Some? && Says(m, no.value, CAllowance) && no.value.pass == Some(p.id) && no.value.outcome == NotCovered
  {
    CountedAtLast(w, m, r, p, t);
    WindowNowIsFirstOpen(w, m, t.windows);
  }
}
