/** One token, one bind: any number of lanes at one credential that no plate was stated for.

    Two things keep it, and each does so alone: the credential's row is locked and re-read
    before it is judged, and the spend writes only a row that is still issued. The machine
    has a switch for each, so that either can be taken away. */
module OneBind {
  import opened Basics
  import opened States

  type LaneId = nat

  datatype Cred = Cred(state: CredentialState, bound: Option<string>)

  /** What a transaction at the credential is for: the lane's bind, or a cancellation. */
  datatype Doing = Bind(identity: string) | Cancel
  datatype Phase = Began | Locked | Judged(seen: CredentialState) | Wrote(cred: Cred)
  datatype Lane = Lane(doing: Doing, phase: Phase)

  datatype Guards = Guards(lock: bool, stillIssued: bool)

  /** `binds`: the identities whose bind was committed, in order. */
  datatype Desk = Desk(cred: Cred, lanes: map<LaneId, Lane>, binds: seq<string>)

  datatype Step = Begin(t: LaneId, doing: Doing) | Lock(t: LaneId) | Judge(t: LaneId) | Write(t: LaneId)
                | Commit(t: LaneId) | Leave(t: LaneId)

  /** Holds the row lock it asked for before judging. */
  predicate Holds(g: Guards, lane: Lane) {
    g.lock && !lane.phase.Began?
  }

  /** No other transaction has the row: by its lock, or by a write it has not committed. */
  predicate Free(g: Guards, d: Desk, t: LaneId) {
    forall u :: u in d.lanes && u != t ==> !Holds(g, d.lanes[u]) && !d.lanes[u].phase.Wrote?
  }

  /** The state the transaction may go on from. */
  predicate Fit(doing: Doing, state: CredentialState) {
    if doing.Bind? then state == Issued else state != Cancelled
  }

  predicate Enabled(g: Guards, d: Desk, step: Step) {
    match step
    case Begin(t, _) => t !in d.lanes
    case Lock(t) => t in d.lanes && d.lanes[t].phase == Began && (g.lock ==> Free(g, d, t))
    case Judge(t) => t in d.lanes && d.lanes[t].phase == Locked && Fit(d.lanes[t].doing, d.cred.state)
    case Write(t) =>
      && t in d.lanes && d.lanes[t].phase.Judged? && Free(g, d, t)
      && (g.stillIssued ==> d.cred.state == d.lanes[t].phase.seen)
    case Commit(t) => t in d.lanes && d.lanes[t].phase.Wrote?
    case Leave(t) => t in d.lanes
  }

  function Written(cred: Cred, doing: Doing): Cred {
    if doing.Bind? then Cred(Redeemed, Some(doing.identity)) else cred.(state := Cancelled)
  }

  function Next(g: Guards, d: Desk, step: Step): Desk
    requires Enabled(g, d, step)
  {
    match step
    case Begin(t, doing) => d.(lanes := d.lanes[t := Lane(doing, Began)])
    case Lock(t) => d.(lanes := d.lanes[t := d.lanes[t].(phase := Locked)])
    case Judge(t) => d.(lanes := d.lanes[t := d.lanes[t].(phase := Judged(d.cred.state))])
    case Write(t) => d.(lanes := d.lanes[t := d.lanes[t].(phase := Wrote(Written(d.cred, d.lanes[t].doing)))])
    case Commit(t) =>
      var lane := d.lanes[t];
      Desk(lane.phase.cred, d.lanes - {t}, if lane.doing.Bind? then d.binds + [lane.doing.identity] else d.binds)
    case Leave(t) => d.(lanes := d.lanes - {t})
  }

  const MINTED := Desk(Cred(Issued, None), map[], [])

  ghost predicate Reaches(g: Guards, from: Desk, steps: seq<Step>, to: Desk)
    decreases |steps|
  {
    if steps == [] then to == from
    else exists next :: Enabled(g, from, steps[0]) && next == Next(g, from, steps[0]) && Reaches(g, next, steps[1..], to)
  }

  // ------------------------------------------------------------------ what is kept

  /** The credential is bound to the one identity whose bind was committed, if there is one. */
  ghost predicate Bound(d: Desk) {
    && (d.cred.state == Issued ==> d.cred.bound.None?)
    && d.binds == (if d.cred.bound.Some? then [d.cred.bound.value] else [])
  }

  /** What a write not yet committed was made from: the row as it still stands. */
  ghost predicate Pending(d: Desk, lane: Lane) {
    lane.phase.Wrote? ==>
      lane.phase.cred == Written(d.cred, lane.doing) && (lane.doing.Bind? ==> d.cred.state == Issued)
  }

  ghost predicate OneWriter(d: Desk) {
    forall t, u :: t in d.lanes && u in d.lanes && t != u && d.lanes[t].phase.Wrote? ==> !d.lanes[u].phase.Wrote?
  }

  /** With the predicate: nothing but the row being written tells a bind it may be. */
  ghost predicate KeptByPredicate(d: Desk) {
    && Bound(d) && OneWriter(d)
    && (forall t :: t in d.lanes ==> Pending(d, d.lanes[t]))
    && forall t :: t in d.lanes && d.lanes[t].phase.Judged? ==> Fit(d.lanes[t].doing, d.lanes[t].phase.seen)
  }

  /** With the lock: one transaction at a time is past it, and what it judged still stands. */
  ghost predicate KeptByLock(d: Desk) {
    && Bound(d)
    && (forall t, u :: t in d.lanes && u in d.lanes && t != u && !d.lanes[t].phase.Began? ==> d.lanes[u].phase.Began?)
    && (forall t :: t in d.lanes ==> Pending(d, d.lanes[t]))
    && forall t :: t in d.lanes && d.lanes[t].phase.Judged? ==>
         d.lanes[t].phase.seen == d.cred.state && Fit(d.lanes[t].doing, d.cred.state)
  }

  lemma PredicateKeeps(d: Desk, step: Step)
    requires KeptByPredicate(d) && Enabled(Guards(false, true), d, step)
    ensures KeptByPredicate(Next(Guards(false, true), d, step))
  {
  }

  lemma LockKeeps(d: Desk, step: Step)
    requires KeptByLock(d) && Enabled(Guards(true, false), d, step)
    ensures KeptByLock(Next(Guards(true, false), d, step))
  {
  }

  /** Both guards allow no more than either alone. */
  lemma BothAllowLess(d: Desk, step: Step)
    requires Enabled(Guards(true, true), d, step)
    ensures Enabled(Guards(true, false), d, step)
    ensures Next(Guards(true, true), d, step) == Next(Guards(true, false), d, step)
  {
  }

  lemma {:induction false} KeptInEveryRun(g: Guards, from: Desk, steps: seq<Step>, to: Desk)
    requires g.lock || g.stillIssued
    requires Reaches(g, from, steps, to)
    requires if g.lock then KeptByLock(from) else KeptByPredicate(from)
    ensures if g.lock then KeptByLock(to) else KeptByPredicate(to)
    ensures from.cred.bound.Some? ==> to.cred.bound == from.cred.bound && to.binds == from.binds
    decreases |steps|
  {
    if steps != [] {
      var next :| Enabled(g, from, steps[0]) && next == Next(g, from, steps[0]) && Reaches(g, next, steps[1..], to);
      if g.lock {
        if g.stillIssued { BothAllowLess(from, steps[0]); }
        LockKeeps(from, steps[0]);
      } else {
        PredicateKeeps(from, steps[0]);
      }
      KeptInEveryRun(g, next, steps[1..], to);
    }
  }

  /** At most one bind is ever committed, and the identity bound never changes. */
  ghost predicate OneBindOnly(g: Guards) {
    && (forall steps, d :: Reaches(g, MINTED, steps, d) ==> |d.binds| <= 1)
    && (forall steps, d, more, e ::
          Reaches(g, MINTED, steps, d) && Reaches(g, d, more, e) && d.cred.bound.Some? ==> e.cred.bound == d.cred.bound)
  }

  // --------------------------------------------------------- and with neither of them

  const NEITHER := Guards(false, false)
  const BOTH_JUDGED := Desk(Cred(Issued, None), map[1 := Lane(Bind("A"), Judged(Issued)), 2 := Lane(Bind("B"), Judged(Issued))], [])
  const ONE_BOUND := Desk(Cred(Redeemed, Some("A")), map[2 := Lane(Bind("B"), Judged(Issued))], ["A"])
  const REBOUND := Desk(Cred(Redeemed, Some("B")), map[], ["A", "B"])

  lemma OneStep(g: Guards, d: Desk, step: Step, steps: seq<Step>, to: Desk)
    requires Enabled(g, d, step) && Reaches(g, Next(g, d, step), steps, to)
    ensures Reaches(g, d, [step] + steps, to)
  {
    assert ([step] + steps)[1..] == steps;
  }

  /** One lane goes from nothing to having judged the row, whatever the other has done. */
  lemma Judging(d: Desk, t: LaneId, identity: string, to: Desk, steps: seq<Step>)
    requires t !in d.lanes && d.cred.state == Issued
    requires Reaches(NEITHER, d.(lanes := d.lanes[t := Lane(Bind(identity), Judged(Issued))]), steps, to)
    ensures Reaches(NEITHER, d, [Begin(t, Bind(identity))] + ([Lock(t)] + ([Judge(t)] + steps)), to)
  {
    var began := Next(NEITHER, d, Begin(t, Bind(identity)));
    var locked := Next(NEITHER, began, Lock(t));
    assert Next(NEITHER, locked, Judge(t)) == d.(lanes := d.lanes[t := Lane(Bind(identity), Judged(Issued))]);
    OneStep(NEITHER, locked, Judge(t), steps, to);
    OneStep(NEITHER, began, Lock(t), [Judge(t)] + steps, to);
    OneStep(NEITHER, d, Begin(t, Bind(identity)), [Lock(t)] + ([Judge(t)] + steps), to);
  }

  lemma Spending(d: Desk, t: LaneId, to: Desk)
    requires (d == BOTH_JUDGED && t == 1 && to == ONE_BOUND) || (d == ONE_BOUND && t == 2 && to == REBOUND)
    ensures Reaches(NEITHER, d, [Write(t)] + ([Commit(t)] + []), to)
  {
    var wrote := Next(NEITHER, d, Write(t));
    assert Next(NEITHER, wrote, Commit(t)) == to;
    OneStep(NEITHER, wrote, Commit(t), [], to);
    OneStep(NEITHER, d, Write(t), [Commit(t)] + [], to);
  }

  const ONE_JUDGED := Desk(Cred(Issued, None), map[1 := Lane(Bind("A"), Judged(Issued))], [])

  lemma SecondJudges(spend: seq<Step>, to: Desk)
    requires Reaches(NEITHER, BOTH_JUDGED, spend, to)
    ensures Reaches(NEITHER, ONE_JUDGED, [Begin(2, Bind("B"))] + ([Lock(2)] + ([Judge(2)] + spend)), to)
  {
    assert ONE_JUDGED.(lanes := ONE_JUDGED.lanes[2 := Lane(Bind("B"), Judged(Issued))]) == BOTH_JUDGED;
    Judging(ONE_JUDGED, 2, "B", to, spend);
  }

  lemma FirstJudges(steps: seq<Step>, to: Desk)
    requires Reaches(NEITHER, ONE_JUDGED, steps, to)
    ensures Reaches(NEITHER, MINTED, [Begin(1, Bind("A"))] + ([Lock(1)] + ([Judge(1)] + steps)), to)
  {
    assert MINTED.(lanes := MINTED.lanes[1 := Lane(Bind("A"), Judged(Issued))]) == ONE_JUDGED;
    Judging(MINTED, 1, "A", to, steps);
  }

  lemma BothJudge(spend: seq<Step>, to: Desk)
    requires Reaches(NEITHER, BOTH_JUDGED, spend, to)
    ensures exists steps :: Reaches(NEITHER, MINTED, steps, to)
  {
    SecondJudges(spend, to);
    FirstJudges([Begin(2, Bind("B"))] + ([Lock(2)] + ([Judge(2)] + spend)), to);
  }

  /** Both lanes judged the row while it was issued, and both spent it. */
  lemma BothLanesBind()
    ensures exists steps, more ::
              Reaches(NEITHER, MINTED, steps, ONE_BOUND) && Reaches(NEITHER, ONE_BOUND, more, REBOUND)
  {
    Spending(BOTH_JUDGED, 1, ONE_BOUND);
    Spending(ONE_BOUND, 2, REBOUND);
    BothJudge([Write(1)] + ([Commit(1)] + []), ONE_BOUND);
  }

  /** ONE TOKEN, ONE BIND, in every interleaving of any number of lanes and cancellations,
      exactly when the lock is taken or the spend says "still issued". */
  lemma OneBindIff(g: Guards)
    ensures OneBindOnly(g) <==> g.lock || g.stillIssued
  {
    if g.lock || g.stillIssued {
      forall steps, d | Reaches(g, MINTED, steps, d) ensures |d.binds| <= 1 {
        KeptInEveryRun(g, MINTED, steps, d);
      }
      forall steps, d, more, e | Reaches(g, MINTED, steps, d) && Reaches(g, d, more, e) && d.cred.bound.Some?
        ensures e.cred.bound == d.cred.bound
      {
        KeptInEveryRun(g, MINTED, steps, d);
        KeptInEveryRun(g, d, more, e);
      }
    } else {
      BothLanesBind();
    }
  }
}
