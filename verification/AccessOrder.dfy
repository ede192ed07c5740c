/** The answer does not depend on the order its inputs arrived in: outcome and means never;
    the reason unless tied copies of one pass fail for different reasons. */
module AccessOrder {
  import opened Basics
  import opened Text
  import opened States
  import opened Plates
  import opened Terms
  import opened Lists
  import opened Sets
  import opened Access
  import opened AccessProofs

  ghost predicate Reordered(a: Records, b: Records) {
    && Permuted(a.passes, b.passes) && Permuted(a.registrations, b.registrations)
    && Permuted(a.visits, b.visits) && Permuted(a.garages, b.garages)
  }

  /** Equal but for which of several unknown clocks is named. */
  ghost predicate Same(a: Answer, b: Answer) {
    a.missing.Some? == b.missing.Some? && a == b.(missing := a.missing)
  }

  /** Two copies that evaluate alike: all that is read of a pass once it is a candidate. */
  ghost predicate SameTerms(p: Pass, q: Pass) {
    p.id == q.id && p.terms == q.terms && p.state == q.state && p.unreadable == q.unreadable
  }

  lemma ClockSame(m: Movement, a: seq<Garage>, b: seq<Garage>, g: GarageId)
    requires Permuted(a, b)
    ensures ClockOf(m, a, g) == ClockOf(m, b, g)
  {
    FilterPermuted(a, b, (x: Garage) => x.id == g);
    PermutedFacts(Filter(a, (x: Garage) => x.id == g), Filter(b, (x: Garage) => x.id == g));
  }

  lemma OnPassSame(a: Records, b: Records, p: PassId)
    requires Reordered(a, b)
    ensures Permuted(OnPass(a.visits, p), OnPass(b.visits, p))
    ensures |OnPass(a.visits, p)| == |OnPass(b.visits, p)|
    ensures forall v :: v in OnPass(a.visits, p) <==> v in OnPass(b.visits, p)
  {
    FilterPermuted(a.visits, b.visits, (v: Visit) => v.pass == p);
    PermutedFacts(OnPass(a.visits, p), OnPass(b.visits, p));
  }

  lemma NoClockSame(m: Movement, a: Records, b: Records, p: PassId)
    requires Reordered(a, b)
    ensures (exists v :: v in OnPass(a.visits, p) && ClockOf(m, a.garages, v.garage).NoClockAt?) <==>
              exists v :: v in OnPass(b.visits, p) && ClockOf(m, b.garages, v.garage).NoClockAt?
  {
    OnPassSame(a, b, p);
    forall g ensures ClockOf(m, a.garages, g) == ClockOf(m, b.garages, g) {
      ClockSame(m, a.garages, b.garages, g);
    }
  }

  lemma InWindowSame(w: World, m: Movement, a: Records, b: Records, p: PassId, window: Window)
    requires Reordered(a, b)
    ensures |Filter(OnPass(a.visits, p), (v: Visit) => InWindowToday(w, m, a.garages, window, v))|
            == |Filter(OnPass(b.visits, p), (v: Visit) => InWindowToday(w, m, b.garages, window, v))|
  {
    OnPassSame(a, b, p);
    var f := (v: Visit) => InWindowToday(w, m, a.garages, window, v);
    var g := (v: Visit) => InWindowToday(w, m, b.garages, window, v);
    forall v | v in OnPass(a.visits, p) ensures f(v) == g(v) {
      ClockSame(m, a.garages, b.garages, v.garage);
    }
    FilterAcross(OnPass(a.visits, p), OnPass(b.visits, p), f, g);
    PermutedFacts(Filter(OnPass(a.visits, p), f), Filter(OnPass(b.visits, p), g));
  }

  lemma VisitsSame(w: World, m: Movement, a: Records, b: Records, p: Pass, q: Pass, per: Period, window: Option<Window>)
    requires Reordered(a, b) && p.id == q.id
    ensures var one, two := VisitsUsed(w, m, a, p, per, window), VisitsUsed(w, m, b, q, per, window);
            one.Used? == two.Used? && (one.Used? ==> one == two)
  {
    OnPassSame(a, b, p.id);
    NoClockSame(m, a, b, p.id);
    if window.Some? {
      InWindowSame(w, m, a, b, p.id, window.value);
    }
  }

  lemma LatestEntrySame(a: seq<Visit>, b: seq<Visit>)
    requires Permuted(a, b)
    ensures LatestEntry(a) == LatestEntry(b)
  {
    LatestEntryIsLatest(a);
    LatestEntryIsLatest(b);
    PermutedFacts(a, b);
  }

  lemma StayNowSame(m: Movement, a: Records, b: Records, p: Pass, q: Pass, maxStay: int)
    requires Reordered(a, b) && p.id == q.id
    ensures StayNow(m, a, p, maxStay) == StayNow(m, b, q, maxStay)
  {
    FilterPermuted(a.visits, b.visits, (v: Visit) =>
      v.pass == p.id && v.garage == m.garage.id && PlateKey(v.identity) == PlateKey(Strip(m.identity)) && v.exitedAt.None?);
    LatestEntrySame(OpenVisits(m, a.visits, p.id), OpenVisits(m, b.visits, p.id));
  }

  ghost predicate ReplacedOn(r: Registration, p: PassId) {
    r.pass == p && r.exitOnly && r.exitOnlyAt.Some?
  }

  /** The latest replacement of the car on the pass, of the registrations in force. */
  lemma {:induction false} ReplacedAtIsLatest(effective: seq<Registration>, p: PassId)
    ensures ReplacedAt(effective, p).Some? <==> exists r :: r in effective && ReplacedOn(r, p)
    ensures ReplacedAt(effective, p).Some? ==>
              && (exists r :: r in effective && ReplacedOn(r, p) && r.exitOnlyAt == ReplacedAt(effective, p))
              && forall r :: r in effective && ReplacedOn(r, p) ==> r.exitOnlyAt.value <= ReplacedAt(effective, p).value
  {
    if effective != [] {
      var n := |effective| - 1;
      ReplacedAtIsLatest(effective[..n], p);
      assert forall r :: r in effective <==> r in effective[..n] || r == effective[n];
      assert effective[n] in effective;
    }
  }

  lemma ReplacedAtSame(a: seq<Registration>, b: seq<Registration>, p: PassId)
    requires Permuted(a, b)
    ensures ReplacedAt(a, p) == ReplacedAt(b, p) && IsExitOnly(a, p) == IsExitOnly(b, p)
  {
    ReplacedAtIsLatest(a, p);
    ReplacedAtIsLatest(b, p);
    PermutedFacts(a, b);
  }

  lemma StateSame(w: World, m: Movement, ea: seq<Registration>, eb: seq<Registration>, p: Pass, q: Pass)
    requires Permuted(ea, eb) && PassOk(p) && SameTerms(p, q)
    ensures NotOnState(w, m, ea, p) == NotOnState(w, m, eb, q)
    ensures ReplacementUnmeasured(m, ea, p.id) == ReplacementUnmeasured(m, eb, q.id)
  {
    ReplacedAtSame(ea, eb, p.id);
  }

  lemma TermsSame(w: World, m: Movement, a: Records, b: Records, p: Pass, q: Pass, t: Terms)
    requires Reordered(a, b) && p.id == q.id
    ensures var one, two := NotOnTerms(w, m, a, p, t), NotOnTerms(w, m, b, q, t);
            one.Some? == two.Some? && (one.Some? ==> Same(one.value, two.value))
  {
    if t.allowance.Some? {
      VisitsSame(w, m, a, b, p, q, t.allowance.value.per, WindowNow(w, m, t.windows));
    }
  }

  /** One pass answers alike whatever the order of everything else. */
  lemma EvaluateSame(w: World, m: Movement, a: Records, b: Records, ea: seq<Registration>, eb: seq<Registration>,
                     p: Pass, q: Pass)
    requires Reordered(a, b) && Permuted(ea, eb) && PassOk(p) && SameTerms(p, q)
    ensures Same(Evaluate(w, m, a, ea, p), Evaluate(w, m, b, eb, q))
  {
    StateSame(w, m, ea, eb, p, q);
    if NotOnState(w, m, ea, p).None? {
      var t := p.terms.value;
      TermsSame(w, m, a, b, p, q, t);
      if t.maxStay.Some? {
        StayNowSame(m, a, b, p, q, t.maxStay.value);
      }
    }
  }

  // --------------------------------------------------------------- which pass

  lemma IdsSame(a: seq<Pass>, b: seq<Pass>, g: GarageId, id: PassId)
    requires Permuted(a, b)
    ensures Permuted(CopiesOf(a, id), CopiesOf(b, id))
    ensures CopiesOf(a, id) == [] <==> CopiesOf(b, id) == []
    ensures IsDuplicated(a, g, id) == IsDuplicated(b, g, id)
    ensures ById(a, g, id) == ById(b, g, id)
  {
    FilterPermuted(a, b, (p: Pass) => p.id == id);
    PermutedFacts(CopiesOf(a, id), CopiesOf(b, id));
  }

  lemma RegistrationsSame(w: World, m: Movement, a: Records, b: Records)
    requires Reordered(a, b)
    ensures Permuted(Here(m, a), Here(m, b))
    ensures Permuted(InForce(w, m, a), InForce(w, m, b))
    ensures Permuted(Dangling(w, m, a), Dangling(w, m, b))
  {
    forall r: Registration
      ensures IsHere(m, a.passes, r) == IsHere(m, b.passes, r)
      ensures IsDangling(w, m, a.passes, r) == IsDangling(w, m, b.passes, r)
    {
      IdsSame(a.passes, b.passes, m.garage.id, r.pass);
    }
    FilterAcross(a.registrations, b.registrations, (r: Registration) => IsHere(m, a.passes, r),
                 (r: Registration) => IsHere(m, b.passes, r));
    FilterAcross(a.registrations, b.registrations, (r: Registration) => IsDangling(w, m, a.passes, r),
                 (r: Registration) => IsDangling(w, m, b.passes, r));
    FilterPermuted(Here(m, a), Here(m, b), (r: Registration) => CoversDay(r, Now(w, m).day));
  }

  lemma RevokedSame(m: Movement, a: Records, b: Records, w: World)
    requires Reordered(a, b)
    ensures Filter(Here(m, a), (r: Registration) => OnRevoked(m, a.passes, r)) == []
            <==> Filter(Here(m, b), (r: Registration) => OnRevoked(m, b.passes, r)) == []
  {
    RegistrationsSame(w, m, a, b);
    forall r: Registration ensures OnRevoked(m, a.passes, r) == OnRevoked(m, b.passes, r) {
      IdsSame(a.passes, b.passes, m.garage.id, r.pass);
    }
    var f := (r: Registration) => OnRevoked(m, a.passes, r);
    var g := (r: Registration) => OnRevoked(m, b.passes, r);
    FilterAcross(Here(m, a), Here(m, b), f, g);
    PermutedFacts(Filter(Here(m, a), f), Filter(Here(m, b), g));
  }

  lemma DuplicationSame(w: World, m: Movement, a: Records, b: Records)
    requires Reordered(a, b)
    ensures |InForce(w, m, a)| == |InForce(w, m, b)|
    ensures forall r :: r in InForce(w, m, a) <==> r in InForce(w, m, b)
    ensures |InForce(w, m, a)| == 1 ==> InForce(w, m, a) == InForce(w, m, b)
    ensures Dangling(w, m, a) == [] <==> Dangling(w, m, b) == []
    ensures AnyDuplicated(m, a.passes, InForce(w, m, a)) == AnyDuplicated(m, b.passes, InForce(w, m, b))
  {
    RegistrationsSame(w, m, a, b);
    PermutedFacts(InForce(w, m, a), InForce(w, m, b));
    PermutedFacts(Dangling(w, m, a), Dangling(w, m, b));
    forall id: PassId ensures IsDuplicated(a.passes, m.garage.id, id) == IsDuplicated(b.passes, m.garage.id, id) {
      IdsSame(a.passes, b.passes, m.garage.id, id);
    }
  }

  /** The exit branch that evaluates every candidate. */
  predicate Several(w: World, m: Movement, rs: Records) {
    && Unanswerable(m).None? && m.direction == Exit && InForce(w, m, rs) != []
    && !(|InForce(w, m, rs)| == 1 && Dangling(w, m, rs) == [] && !AnyDuplicated(m, rs.passes, InForce(w, m, rs)))
  }

  ghost predicate SomeCovers(w: World, m: Movement, rs: Records)
    requires RecordsOk(rs)
  {
    exists p :: p in rs.passes && (exists r :: r in InForce(w, m, rs) && r.pass == p.id)
      && Evaluate(w, m, rs, InForce(w, m, rs), p).outcome == Covered
  }

  lemma CandidatesCoverIff(w: World, m: Movement, rs: Records)
    requires RecordsOk(rs)
    ensures var ps := InOrder(w, m, rs.passes, InForce(w, m, rs));
            && (forall p :: p in ps ==> p in rs.passes)
            && (FirstCovered(EvaluateAll(w, m, rs, InForce(w, m, rs), ps)).Some? <==> SomeCovers(w, m, rs))
  {
    SomeCandidateCovers(w, m, rs);
    var effective := InForce(w, m, rs);
    forall p | p in rs.passes
      ensures Evaluate(w, m, rs, effective, p).outcome == Covered <==> Satisfies(w, m, rs, effective, p)
    {
      EvaluateCovers(w, m, rs, effective, p);
    }
  }

  lemma SomeCoversSame(w: World, m: Movement, a: Records, b: Records)
    requires RecordsOk(a) && RecordsOk(b) && Reordered(a, b)
    ensures SomeCovers(w, m, a) ==> SomeCovers(w, m, b)
  {
    if SomeCovers(w, m, a) {
      var p :| p in a.passes && (exists r :: r in InForce(w, m, a) && r.pass == p.id)
               && Evaluate(w, m, a, InForce(w, m, a), p).outcome == Covered;
      RegistrationsSame(w, m, a, b);
      PermutedFacts(a.passes, b.passes);
      PermutedFacts(InForce(w, m, a), InForce(w, m, b));
      EvaluateSame(w, m, a, b, InForce(w, m, a), InForce(w, m, b), p, p);
    }
  }

  lemma BackAgain(a: Records, b: Records)
    requires Reordered(a, b)
    ensures Reordered(b, a)
    ensures RecordsOk(a) <==> RecordsOk(b)
  {
    PermutedFacts(a.passes, b.passes);
  }

  /** When every candidate is evaluated, the answer is one that covers, or PASS_DUPLICATED,
      or what the first candidate says. */
  lemma SeveralAnswer(w: World, m: Movement, rs: Records)
    requires RecordsOk(rs) && Several(w, m, rs)
    ensures SomeCovers(w, m, rs) <==> AccessAnswer(w, m, rs).outcome == Covered
    ensures SomeCovers(w, m, rs) ==> AccessAnswer(w, m, rs).reason.None?
    ensures AccessAnswer(w, m, rs).outcome != RefusedToAnswer && WellFormed(m, AccessAnswer(w, m, rs))
    ensures !SomeCovers(w, m, rs) && |InForce(w, m, rs)| == 1 && Dangling(w, m, rs) == [] ==>
              AccessAnswer(w, m, rs).reason == Some(PassDuplicated)
  {
    SeveralCandidates(w, m, rs);
    CandidatesCoverIff(w, m, rs);
    FirstCoveredFinds(EvaluateAll(w, m, rs, InForce(w, m, rs), InOrder(w, m, rs.passes, InForce(w, m, rs))));
    if !SomeCovers(w, m, rs) {
      NoneCovers(w, m, rs);
    }
  }

  lemma NoneCovers(w: World, m: Movement, rs: Records)
    requires RecordsOk(rs) && Several(w, m, rs) && !SomeCovers(w, m, rs)
    ensures InOrder(w, m, rs.passes, InForce(w, m, rs)) != []
    ensures InOrder(w, m, rs.passes, InForce(w, m, rs))[0] in rs.passes
    ensures AccessAnswer(w, m, rs).outcome == NotCovered
    ensures |InForce(w, m, rs)| == 1 && Dangling(w, m, rs) == [] ==> AccessAnswer(w, m, rs).reason == Some(PassDuplicated)
    ensures !(|InForce(w, m, rs)| == 1 && Dangling(w, m, rs) == []) ==>
              AccessAnswer(w, m, rs) == Evaluate(w, m, rs, InForce(w, m, rs), InOrder(w, m, rs.passes, InForce(w, m, rs))[0])
  {
    CandidatesCoverIff(w, m, rs);
    SeveralIs(w, m, rs);
    SeveralCandidates(w, m, rs);
    FirstCoveredFinds(EvaluateAll(w, m, rs, InForce(w, m, rs), InOrder(w, m, rs.passes, InForce(w, m, rs))));
  }

  /** Up to the branch that evaluates several candidates nothing depends on the order. */
  lemma OneAnswerSame(w: World, m: Movement, a: Records, b: Records)
    requires RecordsOk(a) && RecordsOk(b) && Reordered(a, b) && !Several(w, m, a)
    ensures !Several(w, m, b)
    ensures Same(AccessAnswer(w, m, a), AccessAnswer(w, m, b).(pass := AccessAnswer(w, m, a).pass))
  {
    DuplicationSame(w, m, a, b);
    RevokedSame(m, a, b, w);
    var effective := InForce(w, m, a);
    if Unanswerable(m).None? && |effective| == 1 && Dangling(w, m, a) == [] && !AnyDuplicated(m, a.passes, effective) {
      var r := effective[0];
      assert r in effective;
      IdsSame(a.passes, b.passes, m.garage.id, r.pass);
      var p := ById(a.passes, m.garage.id, r.pass).value;
      RegistrationsSame(w, m, a, b);
      EvaluateSame(w, m, a, b, effective, InForce(w, m, b), p, p);
    }
  }

  /** THE ORDER OF THE INPUTS NEVER CHANGES THE OUTCOME, NOR WHAT IT MEANS FOR THE LANE,
      whichever of the passes, registrations, visits and garages are reordered. */
  lemma OrderNeverChangesTheOutcome(w: World, m: Movement, a: Records, b: Records)
    requires RecordsOk(a) && Reordered(a, b)
    ensures RecordsOk(b)
    ensures AccessAnswer(w, m, a).outcome == AccessAnswer(w, m, b).outcome
    ensures AccessAnswer(w, m, a).means == AccessAnswer(w, m, b).means
  {
    BackAgain(a, b);
    if Several(w, m, a) {
      DuplicationSame(w, m, a, b);
      SomeCoversSame(w, m, a, b);
      SomeCoversSame(w, m, b, a);
      SeveralAnswer(w, m, a);
      SeveralAnswer(w, m, b);
    } else {
      OneAnswerSame(w, m, a, b);
    }
  }

  // ----------------------------------------------------------------- the reason

  lemma {:induction false} FirstCandidate(w: World, m: Movement, passes: seq<Pass>, effective: seq<Registration>)
    requires effective != [] && Candidates(w, m, passes, effective[0].pass) != []
    ensures AllCandidates(w, m, passes, effective) != []
    ensures AllCandidates(w, m, passes, effective)[0] == Candidates(w, m, passes, effective[0].pass)[0]
  {
    if |effective| > 1 {
      FirstCandidate(w, m, passes, effective[..|effective| - 1]);
    } else {
      assert AllCandidates(w, m, passes, effective[..0]) == [];
    }
  }

  function LeastPass(effective: seq<Registration>): (id: PassId)
    requires effective != []
    ensures exists r :: r in effective && r.pass == id
    ensures forall r :: r in effective ==> id <= r.pass
  {
    SortedHeadIsLeast(effective, (r: Registration) => r.pass);
    var r := SortedBy(effective, (r: Registration) => r.pass)[0];
    assert r in SortedBy(effective, (r: Registration) => r.pass);
    r.pass
  }

  lemma FirstInOrder(w: World, m: Movement, rs: Records)
    requires InForce(w, m, rs) != []
    ensures var id := LeastPass(InForce(w, m, rs));
            && Candidates(w, m, rs.passes, id) != []
            && InOrder(w, m, rs.passes, InForce(w, m, rs)) != []
            && InOrder(w, m, rs.passes, InForce(w, m, rs))[0] == Candidates(w, m, rs.passes, id)[0]
  {
    var effective := InForce(w, m, rs);
    var sorted := SortedBy(effective, (r: Registration) => r.pass);
    SortedHeadIsLeast(effective, (r: Registration) => r.pass);
    assert sorted[0] in effective;
    CandidatesAreCopies(w, m, rs.passes, sorted[0].pass);
    FirstCandidate(w, m, rs.passes, sorted);
  }

  /** A copy of the id that no other copy of it sorts before. */
  ghost predicate Foremost(w: World, passes: seq<Pass>, id: PassId, p: Pass) {
    p in passes && p.id == id
    && forall q :: q in passes && q.id == id ==> w.rank(KeyOf(w, p)) <= w.rank(KeyOf(w, q))
  }

  lemma FirstCandidateIsForemost(w: World, m: Movement, passes: seq<Pass>, id: PassId)
    requires Candidates(w, m, passes, id) != []
    ensures Foremost(w, passes, id, Candidates(w, m, passes, id)[0])
  {
    var copies := CopiesOf(passes, id);
    SortedHeadIsLeast(copies, (p: Pass) => w.rank(KeyOf(w, p)));
    CandidatesAreCopies(w, m, passes, id);
    var first := Candidates(w, m, passes, id)[0];
    assert first in Candidates(w, m, passes, id);
    forall q | q in passes && q.id == id ensures w.rank(KeyOf(w, first)) <= w.rank(KeyOf(w, q)) {
      assert q in copies;
    }
  }

  /** Of the thirteen checks of a pass, in order, the first it fails. */
  ghost predicate FirstFails(w: World, m: Movement, rs: Records, p: Pass, k: nat) {
    && k < |CHECKS| && Fails(w, m, rs, InForce(w, m, rs), p, CHECKS[k])
    && forall j :: 0 <= j < k ==> !Fails(w, m, rs, InForce(w, m, rs), p, CHECKS[j])
  }

  /** The one branch that reports the first candidate of an exit nobody can leave on, and two
      copies of that pass share the place of the first but fail different checks first. */
  ghost predicate TiedCopiesDiffer(w: World, m: Movement, rs: Records) {
    && Several(w, m, rs) && !CanLeave(w, m, rs) && !(|InForce(w, m, rs)| == 1 && Dangling(w, m, rs) == [])
    && exists p, q, k: nat, l: nat ::
         && Foremost(w, rs.passes, LeastPass(InForce(w, m, rs)), p) && FirstFails(w, m, rs, p, k)
         && Foremost(w, rs.passes, LeastPass(InForce(w, m, rs)), q) && FirstFails(w, m, rs, q, l) && k != l
  }

  /** The same, by what the copies are answered. */
  ghost predicate TiedReasonsDiffer(w: World, m: Movement, rs: Records)
    requires RecordsOk(rs)
  {
    && Several(w, m, rs) && !SomeCovers(w, m, rs) && !(|InForce(w, m, rs)| == 1 && Dangling(w, m, rs) == [])
    && exists p, q ::
         && Foremost(w, rs.passes, LeastPass(InForce(w, m, rs)), p)
         && Foremost(w, rs.passes, LeastPass(InForce(w, m, rs)), q)
         && Evaluate(w, m, rs, InForce(w, m, rs), p).reason != Evaluate(w, m, rs, InForce(w, m, rs), q).reason
  }

  lemma SomeCoversIffCanLeave(w: World, m: Movement, rs: Records)
    requires RecordsOk(rs)
    ensures SomeCovers(w, m, rs) <==> CanLeave(w, m, rs)
  {
    forall p | p in rs.passes
      ensures Evaluate(w, m, rs, InForce(w, m, rs), p).outcome == Covered <==> Satisfies(w, m, rs, InForce(w, m, rs), p)
    {
      EvaluateCovers(w, m, rs, InForce(w, m, rs), p);
    }
  }

  /** At an exit, what each check that fails first is answered with. */
  function ExitReason(c: Check): Reason {
    match c
    case CRevoked => PassRevoked
    case CUnreadable => PassUnreadable
    case CExpired => PassExpired
    case CSuspended => PassSuspended
    case CNotActive => NotActive
    case CNotStarted => NotStarted
    case CReplaced => ExitOnly
    case CDirection => DirectionNotAllowed
    case CLane => WrongLane
    case CWindow => OutsideWindow
    case CClocks => OutOfVisits
    case CAllowance => OutOfVisits
    case CMaxStay => OverMaxStay
  }

  lemma FirstFailIsAnswered(w: World, m: Movement, rs: Records, p: Pass, k: nat)
    requires PassOk(p) && m.direction == Exit && FirstFails(w, m, rs, p, k)
    ensures k != 10 && k != 11 && Evaluate(w, m, rs, InForce(w, m, rs), p).reason == Some(ExitReason(CHECKS[k]))
  {
    FirstFailureIsTheReason(w, m, rs, InForce(w, m, rs), p, k);
  }

  lemma DifferentChecksDifferentReasons(k: nat, l: nat)
    requires k < |CHECKS| && l < |CHECKS| && k != l && k !in {10, 11} && l !in {10, 11}
    ensures ExitReason(CHECKS[k]) != ExitReason(CHECKS[l])
  {
  }

  lemma {:induction false} LeastFailing(w: World, m: Movement, rs: Records, p: Pass, k: nat) returns (least: nat)
    requires k < |CHECKS| && Fails(w, m, rs, InForce(w, m, rs), p, CHECKS[k])
    ensures FirstFails(w, m, rs, p, least)
  {
    if j :| 0 <= j < k && Fails(w, m, rs, InForce(w, m, rs), p, CHECKS[j]) {
      least := LeastFailing(w, m, rs, p, j);
    } else {
      least := k;
    }
  }

  /** A pass nobody can leave on fails some check. */
  lemma SomeCheckFails(w: World, m: Movement, rs: Records, p: Pass) returns (least: nat)
    requires PassOk(p) && m.direction == Exit && !Satisfies(w, m, rs, InForce(w, m, rs), p)
    ensures FirstFails(w, m, rs, p, least)
  {
    if forall j :: 0 <= j < |CHECKS| ==> !Fails(w, m, rs, InForce(w, m, rs), p, CHECKS[j]) {
      AllChecksPassed(w, m, rs, InForce(w, m, rs), p);
    }
    var k :| 0 <= k < |CHECKS| && Fails(w, m, rs, InForce(w, m, rs), p, CHECKS[k]);
    least := LeastFailing(w, m, rs, p, k);
  }

  lemma CopyFails(w: World, m: Movement, rs: Records, p: Pass) returns (k: nat)
    requires RecordsOk(rs) && Several(w, m, rs) && !CanLeave(w, m, rs)
    requires Foremost(w, rs.passes, LeastPass(InForce(w, m, rs)), p)
    ensures FirstFails(w, m, rs, p, k) && Evaluate(w, m, rs, InForce(w, m, rs), p).reason == Some(ExitReason(CHECKS[k]))
  {
    assert Satisfies(w, m, rs, InForce(w, m, rs), p) ==> LeavesOn(w, m, rs, p);
    k := SomeCheckFails(w, m, rs, p);
    FirstFailIsAnswered(w, m, rs, p, k);
  }

  lemma TiedIff(w: World, m: Movement, rs: Records)
    requires RecordsOk(rs)
    ensures TiedCopiesDiffer(w, m, rs) <==> TiedReasonsDiffer(w, m, rs)
  {
    SomeCoversIffCanLeave(w, m, rs);
    if TiedReasonsDiffer(w, m, rs) {
      var p, q :|
        && Foremost(w, rs.passes, LeastPass(InForce(w, m, rs)), p)
        && Foremost(w, rs.passes, LeastPass(InForce(w, m, rs)), q)
        && Evaluate(w, m, rs, InForce(w, m, rs), p).reason != Evaluate(w, m, rs, InForce(w, m, rs), q).reason;
      var k := CopyFails(w, m, rs, p);
      var l := CopyFails(w, m, rs, q);
    }
    if TiedCopiesDiffer(w, m, rs) {
      var p, q, k: nat, l: nat :|
        && Foremost(w, rs.passes, LeastPass(InForce(w, m, rs)), p) && FirstFails(w, m, rs, p, k)
        && Foremost(w, rs.passes, LeastPass(InForce(w, m, rs)), q) && FirstFails(w, m, rs, q, l) && k != l;
      FirstFailIsAnswered(w, m, rs, p, k);
      FirstFailIsAnswered(w, m, rs, q, l);
      DifferentChecksDifferentReasons(k, l);
    }
  }

  lemma ReasonSame(w: World, m: Movement, a: Records, b: Records)
    requires RecordsOk(a) && RecordsOk(b) && Reordered(a, b) && !TiedReasonsDiffer(w, m, a)
    ensures AccessAnswer(w, m, a).reason == AccessAnswer(w, m, b).reason
  {
    BackAgain(a, b);
    if !Several(w, m, a) {
      OneAnswerSame(w, m, a, b);
    } else {
      DuplicationSame(w, m, a, b);
      SomeCoversSame(w, m, a, b);
      SomeCoversSame(w, m, b, a);
      SeveralAnswer(w, m, a);
      SeveralAnswer(w, m, b);
      if !SomeCovers(w, m, a) && !(|InForce(w, m, a)| == 1 && Dangling(w, m, a) == []) {
        FirstReasonSame(w, m, a, b);
      }
    }
  }

  lemma FirstReasonSame(w: World, m: Movement, a: Records, b: Records)
    requires RecordsOk(a) && RecordsOk(b) && Reordered(a, b) && !TiedReasonsDiffer(w, m, a)
    requires Several(w, m, a) && !SomeCovers(w, m, a) && !(|InForce(w, m, a)| == 1 && Dangling(w, m, a) == [])
    requires Several(w, m, b) && !SomeCovers(w, m, b) && !(|InForce(w, m, b)| == 1 && Dangling(w, m, b) == [])
    ensures AccessAnswer(w, m, a).reason == AccessAnswer(w, m, b).reason
  {
    DuplicationSame(w, m, a, b);
    RegistrationsSame(w, m, a, b);
    PermutedFacts(a.passes, b.passes);
    var ea, eb := InForce(w, m, a), InForce(w, m, b);
    var id := LeastPass(ea);
    assert LeastPass(eb) == id;
    FirstInOrder(w, m, a);
    FirstInOrder(w, m, b);
    FirstCandidateIsForemost(w, m, a.passes, id);
    FirstCandidateIsForemost(w, m, b.passes, id);
    NoneCovers(w, m, a);
    NoneCovers(w, m, b);
    var p, q := Candidates(w, m, a.passes, id)[0], Candidates(w, m, b.passes, id)[0];
    assert Foremost(w, a.passes, id, q);
    EvaluateSame(w, m, a, b, ea, eb, q, q);
  }

  /** The passes with one copy brought to the front. */
  ghost function Fronted(passes: seq<Pass>, p: Pass): (out: seq<Pass>)
    requires p in passes
    ensures Permuted(passes, out) && out[0] == p
  {
    var i :| 0 <= i < |passes| && passes[i] == p;
    assert passes == passes[..i] + [passes[i]] + passes[i + 1..];
    [p] + passes[..i] + passes[i + 1..]
  }

  lemma {:induction false} FilterKeepsFront<T(!new)>(s: seq<T>, f: T -> bool)
    requires s != [] && f(s[0])
    ensures Filter(s, f) != [] && Filter(s, f)[0] == s[0]
  {
    if |s| > 1 {
      FilterKeepsFront(s[..|s| - 1], f);
    } else {
      assert Filter(s[..0], f) == [];
    }
  }

  lemma FrontedLeads(w: World, passes: seq<Pass>, id: PassId, p: Pass)
    requires Foremost(w, passes, id, p)
    ensures CopiesOf(Fronted(passes, p), id) != [] && CopiesOf(Fronted(passes, p), id)[0] == p
    ensures HeadIsLeast(CopiesOf(Fronted(passes, p), id), (x: Pass) => w.rank(KeyOf(w, x)))
  {
    PermutedFacts(passes, Fronted(passes, p));
    FilterKeepsFront(Fronted(passes, p), (x: Pass) => x.id == id);
  }

  /** A foremost copy that arrives first is the first candidate. */
  lemma FrontedIsFirst(w: World, m: Movement, passes: seq<Pass>, id: PassId, p: Pass)
    requires Foremost(w, passes, id, p) && Candidates(w, m, passes, id) != []
    ensures Candidates(w, m, Fronted(passes, p), id) != [] && Candidates(w, m, Fronted(passes, p), id)[0] == p
  {
    var front := Fronted(passes, p);
    var key := (x: Pass) => w.rank(KeyOf(w, x));
    PermutedFacts(passes, front);
    IdsSame(passes, front, m.garage.id, id);
    var copies := CopiesOf(front, id);
    FrontedLeads(w, passes, id, p);
    FirstOfTheLeastStaysFirst(copies, key);
    CandidatesAreCopies(w, m, front, id);
    if ById(front, m.garage.id, id).Some? {
      assert ById(front, m.garage.id, id).value == p by {
        assert copies == [p];
      }
    }
  }

  lemma FrontedReason(w: World, m: Movement, rs: Records, p: Pass)
    requires RecordsOk(rs) && TiedReasonsDiffer(w, m, rs)
    requires Foremost(w, rs.passes, LeastPass(InForce(w, m, rs)), p)
    ensures var front := rs.(passes := Fronted(rs.passes, p));
            && RecordsOk(front) && Reordered(rs, front)
            && AccessAnswer(w, m, front).reason == Evaluate(w, m, rs, InForce(w, m, rs), p).reason
  {
    var front := rs.(passes := Fronted(rs.passes, p));
    BackAgain(rs, front);
    DuplicationSame(w, m, rs, front);
    RegistrationsSame(w, m, rs, front);
    SomeCoversSame(w, m, front, rs);
    var id := LeastPass(InForce(w, m, rs));
    assert LeastPass(InForce(w, m, front)) == id;
    FirstInOrder(w, m, rs);
    FirstInOrder(w, m, front);
    FrontedIsFirst(w, m, rs.passes, id, p);
    NoneCovers(w, m, front);
    EvaluateSame(w, m, rs, front, InForce(w, m, rs), InForce(w, m, front), p, p);
  }

  /** THE REASON IS THE SAME IN EVERY ORDER EXACTLY WHEN no two tied copies of the pass
      that would be reported first fail different checks first. */
  lemma OrderKeepsTheReasonIff(w: World, m: Movement, rs: Records)
    requires RecordsOk(rs)
    ensures !TiedCopiesDiffer(w, m, rs) <==>
              forall other :: Reordered(rs, other) && RecordsOk(other) ==>
                AccessAnswer(w, m, other).reason == AccessAnswer(w, m, rs).reason
  {
    TiedIff(w, m, rs);
    if !TiedReasonsDiffer(w, m, rs) {
      forall other | Reordered(rs, other) && RecordsOk(other)
        ensures AccessAnswer(w, m, other).reason == AccessAnswer(w, m, rs).reason
      {
        ReasonSame(w, m, rs, other);
      }
    } else {
      SomeOrderChangesTheReason(w, m, rs);
    }
  }

  lemma SomeOrderChangesTheReason(w: World, m: Movement, rs: Records)
    requires RecordsOk(rs) && TiedReasonsDiffer(w, m, rs)
    ensures exists other :: Reordered(rs, other) && RecordsOk(other) && AccessAnswer(w, m, other).reason != AccessAnswer(w, m, rs).reason
  {
    var p, q :|
      && Foremost(w, rs.passes, LeastPass(InForce(w, m, rs)), p)
      && Foremost(w, rs.passes, LeastPass(InForce(w, m, rs)), q)
      && Evaluate(w, m, rs, InForce(w, m, rs), p).reason != Evaluate(w, m, rs, InForce(w, m, rs), q).reason;
    FrontedReason(w, m, rs, p);
    FrontedReason(w, m, rs, q);
    OneOfTheTwoDiffers(w, m, rs, rs.(passes := Fronted(rs.passes, p)), rs.(passes := Fronted(rs.passes, q)));
  }

  lemma OneOfTheTwoDiffers(w: World, m: Movement, rs: Records, one: Records, two: Records)
    requires RecordsOk(rs) && RecordsOk(one) && RecordsOk(two) && Reordered(rs, one) && Reordered(rs, two)
    requires AccessAnswer(w, m, one).reason != AccessAnswer(w, m, two).reason
    ensures exists other :: Reordered(rs, other) && RecordsOk(other) && AccessAnswer(w, m, other).reason != AccessAnswer(w, m, rs).reason
  {
    var other := if AccessAnswer(w, m, one).reason != AccessAnswer(w, m, rs).reason then one else two;
    assert Reordered(rs, other);
  }

  /** The same state, readable or not, the same label, and terms described in the same words. */
  predicate ReadAlike(w: World, p: Pass, q: Pass) {
    && p.state == q.state && p.unreadable == q.unreadable && p.ownerLabel == q.ownerLabel
    && (if p.terms.Some? then w.describe(p.terms.value) else "") == if q.terms.Some? then w.describe(q.terms.value) else ""
  }

  /** When the copies are told apart by what they are sorted by, the order never shows. */
  lemma DistinguishedCopiesNeverDiffer(w: World, m: Movement, rs: Records)
    requires RecordsOk(rs)
    requires forall k, l :: w.rank(k) == w.rank(l) ==> k == l
    requires forall p, q :: p in rs.passes && q in rs.passes && p.id == q.id && ReadAlike(w, p, q) ==> p.terms == q.terms
    ensures !TiedCopiesDiffer(w, m, rs)
  {
    TiedIff(w, m, rs);
    if Several(w, m, rs) {
      var id := LeastPass(InForce(w, m, rs));
      forall p, q | Foremost(w, rs.passes, id, p) && Foremost(w, rs.passes, id, q)
        ensures Evaluate(w, m, rs, InForce(w, m, rs), p).reason == Evaluate(w, m, rs, InForce(w, m, rs), q).reason
      {
        assert ReadAlike(w, p, q);
        EvaluateSame(w, m, rs, rs, InForce(w, m, rs), InForce(w, m, rs), p, q);
      }
    }
  }

  // --------------------------------------------------------------- it does happen

  function Joined(names: seq<string>): string {
    if names == [] then "" else if |names| == 1 then names[0] else names[0] + "," + Joined(names[1..])
  }

  predicate Before(a: string, b: string) {
    b != "" && (a == "" || a[0] < b[0] || (a[0] == b[0] && Before(a[1..], b[1..])))
  }

  ghost predicate Ascending(names: seq<string>) {
    forall i, j :: 0 <= i < j < |names| ==> Before(names[i], names[j])
  }

  /** The lanes of a garage are described by their names in order, joined by commas. */
  ghost predicate DescribesLanesJoined(w: World) {
    forall t: Terms, g: GarageId, a: seq<string>, b: seq<string> ::
      Ascending(a) && Ascending(b) && Joined(a) == Joined(b) ==>
        w.describe(t.(lanes := Some([GarageLanes(g, Of(a))]))) == w.describe(t.(lanes := Some([GarageLanes(g, Of(b))])))
  }

  const GATE := Garage(1, "UTC", Some(true), false)
  const LEAVING := Movement(GATE, "X", "A", Exit, 0, None)

  function TermsWithLanes(lanes: set<string>): Terms {
    Terms(None, None, [Window({1}, 0, 1)], None, None, {Exit}, Some([GarageLanes(1, lanes)]))
  }

  function CopyWithLanes(lanes: set<string>): Pass {
    Pass(7, {1}, "guest", Some(TermsWithLanes(lanes)), Active, false)
  }

  function TwoCopies(first: set<string>, second: set<string>): Records {
    Records([CopyWithLanes(first), CopyWithLanes(second)],
            [Registration(7, "X", 0, None, false, None), Registration(8, "X", 0, None, false, None)], [], [])
  }

  lemma CommaTermsAreOk()
    ensures TermsOk(TermsWithLanes({"A,B"})) && TermsOk(TermsWithLanes({"A", "B"}))
  {
    assert 'A' in "A,B" && 'A' in "A" && 'B' in "B" && !IsSpace('A') && !IsSpace('B');
    assert "A,B" in {"A,B"} && "A" in {"A", "B"} && 1 in {1};
  }

  lemma CommaTies(w: World)
    requires DescribesLanesJoined(w)
    ensures KeyOf(w, CopyWithLanes({"A,B"})) == KeyOf(w, CopyWithLanes({"A", "B"}))
  {
    var one, two := ["A,B"], ["A", "B"];
    assert two[1..] == ["B"];
    assert Joined(two) == "A,B" == Joined(one);
    assert Of(one) == {"A,B"} && Of(two) == {"A", "B"};
    assert Ascending(one) && Ascending(two);
    var t := TermsWithLanes({});
    assert TermsWithLanes({"A,B"}) == t.(lanes := Some([GarageLanes(1, Of(one))]));
    assert TermsWithLanes({"A", "B"}) == t.(lanes := Some([GarageLanes(1, Of(two))]));
  }

  lemma CopiesFail(w: World, rs: Records, effective: seq<Registration>)
    requires w.clock("UTC", 0) == Wall(1, 60)
    requires forall r :: r in effective ==> !r.exitOnly
    ensures Evaluate(w, LEAVING, rs, effective, CopyWithLanes({"A,B"})).reason == Some(WrongLane)
    ensures Evaluate(w, LEAVING, rs, effective, CopyWithLanes({"A", "B"})).reason == Some(OutsideWindow)
    ensures Evaluate(w, LEAVING, rs, effective, CopyWithLanes({"A,B"})).outcome == NotCovered
    ensures Evaluate(w, LEAVING, rs, effective, CopyWithLanes({"A", "B"})).outcome == NotCovered
  {
    StripTrims("A");
    assert LanesIn([GarageLanes(1, {"A,B"})], 1) == {"A,B"};
    assert LanesIn([GarageLanes(1, {"A", "B"})], 1) == {"A", "B"};
    assert "A" != "A,B";
    var windows := [Window({1}, 0, 1)];
    assert windows[1..] == [];
    assert WindowNow(w, LEAVING, windows).None?;
  }

  /** A garage lane named "A,B" beside two lanes "A" and "B": the two copies of the pass are
      described alike, and which arrived first decides the reason the exit is given. */
  lemma CommaInALaneNameShowsTheOrder(w: World)
    requires DescribesLanesJoined(w) && w.clock("UTC", 0) == Wall(1, 60)
    ensures var rs := TwoCopies({"A,B"}, {"A", "B"});
            RecordsOk(rs) && TiedCopiesDiffer(w, LEAVING, rs)
  {
    var rs := TwoCopies({"A,B"}, {"A", "B"});
    CommaTermsAreOk();
    CommaIsSeveral(w, rs);
    CommaCopiesTie(w, rs);
    TiedIff(w, LEAVING, rs);
  }

  lemma CommaCopiesTie(w: World, rs: Records)
    requires DescribesLanesJoined(w) && w.clock("UTC", 0) == Wall(1, 60)
    requires rs == TwoCopies({"A,B"}, {"A", "B"}) && RecordsOk(rs)
    requires forall r :: r in InForce(w, LEAVING, rs) ==> r.pass == 7 && !r.exitOnly
    requires InForce(w, LEAVING, rs) != []
    ensures !SomeCovers(w, LEAVING, rs)
    ensures exists p, q ::
              && Foremost(w, rs.passes, LeastPass(InForce(w, LEAVING, rs)), p)
              && Foremost(w, rs.passes, LeastPass(InForce(w, LEAVING, rs)), q)
              && Evaluate(w, LEAVING, rs, InForce(w, LEAVING, rs), p).reason
                 != Evaluate(w, LEAVING, rs, InForce(w, LEAVING, rs), q).reason
  {
    var one, two := CopyWithLanes({"A,B"}), CopyWithLanes({"A", "B"});
    CommaTies(w);
    assert forall p :: p in rs.passes <==> p == one || p == two;
    CopiesFail(w, rs, InForce(w, LEAVING, rs));
    assert Foremost(w, rs.passes, 7, one) && Foremost(w, rs.passes, 7, two);
  }

  lemma CommaIsSeveral(w: World, rs: Records)
    requires w.clock("UTC", 0) == Wall(1, 60)
    requires rs == TwoCopies({"A,B"}, {"A", "B"})
    ensures Several(w, LEAVING, rs)
    ensures Dangling(w, LEAVING, rs) != []
    ensures forall r :: r in InForce(w, LEAVING, rs) ==> r.pass == 7 && !r.exitOnly
    ensures InForce(w, LEAVING, rs) != []
  {
    StripTrims("A");
    StripTrims("X");
    CommaInForce(w, rs);
    CommaDangles(w, rs);
  }

  lemma CommaInForce(w: World, rs: Records)
    requires w.clock("UTC", 0) == Wall(1, 60)
    requires rs == TwoCopies({"A,B"}, {"A", "B"})
    ensures forall r :: r in InForce(w, LEAVING, rs) ==> r.pass == 7 && !r.exitOnly
    ensures InForce(w, LEAVING, rs) != []
  {
    CommaHere(rs);
    InForceIs(w, LEAVING, rs);
    var on := rs.registrations[0];
    assert HoldsToday(w, LEAVING, rs, on);
    assert forall r :: r in InForce(w, LEAVING, rs) ==> HoldsToday(w, LEAVING, rs, r);
  }

  lemma CommaHere(rs: Records)
    requires rs == TwoCopies({"A,B"}, {"A", "B"})
    ensures IsHere(LEAVING, rs.passes, rs.registrations[0])
    ensures forall r :: r in rs.registrations && IsHere(LEAVING, rs.passes, r) ==> r == rs.registrations[0]
  {
    CopiesHere(rs);
    StripTrims("X");
    assert forall r :: r in rs.registrations ==> r == rs.registrations[0] || r == rs.registrations[1];
  }

  lemma CommaDangles(w: World, rs: Records)
    requires w.clock("UTC", 0) == Wall(1, 60)
    requires rs == TwoCopies({"A,B"}, {"A", "B"})
    ensures Dangling(w, LEAVING, rs) != []
  {
    var off := rs.registrations[1];
    assert forall p :: p in rs.passes ==> p.id == 7;
    NoneKept(rs.passes, (p: Pass) => p.id == 8);
    assert off in rs.registrations;
    assert off in Dangling(w, LEAVING, rs);
  }

  lemma CopiesHere(rs: Records)
    requires rs == TwoCopies({"A,B"}, {"A", "B"})
    ensures IsDuplicated(rs.passes, 1, 7) && !IsDuplicated(rs.passes, 1, 8) && ById(rs.passes, 1, 8).None?
  {
    var f := (p: Pass) => p.id == 7;
    FilterTake(rs.passes, 0, f);
    FilterTake(rs.passes, 1, f);
    assert rs.passes[..2] == rs.passes && Filter(rs.passes[..0], f) == [];
    assert rs.passes[0] in CopiesOf(rs.passes, 7);
  }
}
