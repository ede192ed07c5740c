/** A revocation that nobody is in the way of can always be carried out to its commit. */
module ProtocolRuns {
  import opened Basics
  import opened States
  import opened Sets
  import opened Register
  import opened Protocol
  import opened ProtocolInv
  import opened ProtocolProofs

  /** Nobody else is connected, and the transaction is ready to go on with its revocation. */
  ghost predicate Alone(db: Db, t: TxnId) {
    Inv(db) && Revokes(db, t)
  }

  predicate Revokes(db: Db, t: TxnId) {
    db.txns.Keys == {t} && Ready(db.c, db.txns[t]) && db.txns[t].revocation.Some?
  }

  /** What the rest of a revocation leaves as it is. */
  predicate StillRevoking(from: Db, to: Db, t: TxnId) {
    && Revokes(from, t) && Revokes(to, t)
    && to.c == from.c && to.txns[t].pass == from.txns[t].pass
    && to.txns[t].revocation.value.days == from.txns[t].revocation.value.days
    && to.txns[t].revocation.value.credsDone
  }

  lemma TakeAlone(db: Db, t: TxnId, act: Act) returns (next: Db)
    requires Alone(db, t) && May(db.c, db.txns[t], act)
    ensures Enabled(db, Take(t, act)) && next == Next(db, Take(t, act)) && Inv(next) && next.txns.Keys == {t}
    ensures next.c == db.c && next.txns[t] == After(db.c, db.txns[t], act)
  {
    assert forall u :: u in db.txns ==> u == t;
    next := Next(db, Take(t, act));
    StepKeeps(db, Take(t, act));
  }

  lemma OneStep(from: Db, step: Step, next: Db, steps: seq<Step>, to: Db)
    requires Enabled(from, step) && next == Next(from, step) && Reaches(next, steps, to)
    ensures Reaches(from, [step] + steps, to)
  {
    assert ([step] + steps)[1..] == steps;
  }

  lemma AfterEndRow(c: Committed, x: Txn, r: RowId)
    requires May(c, x, EndRow(r))
    ensures var y := After(c, x, EndRow(r)); var rv := x.revocation.value;
            y.pass == x.pass && y.wants == x.wants && y.revocation == Some(rv.(at := rv.at.(left := rv.at.left - {r})))
  {
  }

  /** The row is one the statement sees. */
  lemma MayEnd(c: Committed, x: Txn, r: RowId)
    requires Ready(c, x) && RevocationOk(c, x) && x.revocation.Some? && x.revocation.value.at.At?
    requires r in x.revocation.value.at.left
    ensures May(c, x, EndRow(r))
  {
    assert r in Rows(c, x).Keys;
  }

  lemma EndOne(db: Db, t: TxnId, r: RowId) returns (next: Db)
    requires Alone(db, t) && db.txns[t].revocation.value.at.At? && db.txns[t].revocation.value.credsDone
    requires r in db.txns[t].revocation.value.at.left
    ensures Enabled(db, Take(t, EndRow(r))) && next == Next(db, Take(t, EndRow(r))) && StillRevoking(db, next, t) && Inv(next)
    ensures var rv := db.txns[t].revocation.value;
            next.txns[t].revocation.value == rv.(at := rv.at.(left := rv.at.left - {r}))
  {
    MayEnd(db.c, db.txns[t], r);
    next := TakeAlone(db, t, EndRow(r));
    AfterEndRow(db.c, db.txns[t], r);
  }

  lemma StartOne(db: Db, t: TxnId, g: GarageId) returns (next: Db)
    requires Alone(db, t) && db.txns[t].revocation.value.at == NoStatement && db.txns[t].revocation.value.credsDone
    requires g in db.txns[t].revocation.value.days
    ensures Enabled(db, Take(t, StartGarage(g))) && next == Next(db, Take(t, StartGarage(g))) && StillRevoking(db, next, t) && Inv(next)
    ensures next.txns[t].revocation.value.at.At? && next.txns[t].revocation.value.at.garage == g
    ensures next.txns[t].revocation.value.done == db.txns[t].revocation.value.done
  {
    next := TakeAlone(db, t, StartGarage(g));
  }

  /** The statement of the garage it was at has been carried out. */
  predicate AtDone(from: Db, to: Db, t: TxnId) {
    && StillRevoking(from, to, t) && to.txns[t].revocation.value.at == NoStatement && from.txns[t].revocation.value.at.At?
    && to.txns[t].revocation.value.done
       == from.txns[t].revocation.value.done + {from.txns[t].revocation.value.at.garage}
  }

  lemma OneRowThenDone(from: Db, next: Db, to: Db, t: TxnId, r: RowId)
    requires StillRevoking(from, next, t) && AtDone(next, to, t)
    requires from.txns[t].revocation.value.at.At?
    requires var rv := from.txns[t].revocation.value;
             next.txns[t].revocation.value == rv.(at := rv.at.(left := rv.at.left - {r}))
    ensures AtDone(from, to, t)
  {
  }

  lemma FinishOne(db: Db, t: TxnId) returns (next: Db)
    requires Alone(db, t) && db.txns[t].revocation.value.at.At? && db.txns[t].revocation.value.credsDone
    requires db.txns[t].revocation.value.at.left == {}
    ensures Enabled(db, Take(t, FinishGarage)) && next == Next(db, Take(t, FinishGarage)) && AtDone(db, next, t) && Inv(next)
  {
    next := TakeAlone(db, t, FinishGarage);
  }

  lemma NoRowLeft(db: Db, t: TxnId) returns (steps: seq<Step>, to: Db)
    requires Alone(db, t) && db.txns[t].revocation.value.at.At? && db.txns[t].revocation.value.credsDone
    requires db.txns[t].revocation.value.at.left == {}
    ensures Reaches(db, steps, to) && AtDone(db, to, t) && Inv(to)
  {
    to := FinishOne(db, t);
    OneStep(db, Take(t, FinishGarage), to, [], to);
    steps := [Take(t, FinishGarage)] + [];
  }

  /** The rows the statement matched are reached one by one, and the garage is finished. */
  lemma {:induction false} GarageFinishes(db: Db, t: TxnId, left: set<RowId>) returns (steps: seq<Step>, to: Db)
    requires Alone(db, t) && db.txns[t].revocation.value.at.At? && db.txns[t].revocation.value.credsDone
    requires left == db.txns[t].revocation.value.at.left
    ensures Reaches(db, steps, to) && AtDone(db, to, t) && Inv(to)
    decreases |left|
  {
    if left == {} {
      steps, to := NoRowLeft(db, t);
    } else {
      var r := Member(left);
      var next := EndOne(db, t, r);
      var more;
      more, to := GarageFinishes(next, t, left - {r});
      OneStep(db, Take(t, EndRow(r)), next, more, to);
      OneRowThenDone(db, next, to, t, r);
      steps := [Take(t, EndRow(r))] + more;
    }
  }

  lemma OneGarage(db: Db, t: TxnId, g: GarageId) returns (steps: seq<Step>, to: Db)
    requires Alone(db, t) && db.txns[t].revocation.value.at == NoStatement && db.txns[t].revocation.value.credsDone
    requires g in db.txns[t].revocation.value.days
    ensures Reaches(db, steps, to) && Finished(db, to, t, {g}) && Inv(to)
  {
    var started := StartOne(db, t, g);
    var more;
    more, to := GarageFinishes(started, t, started.txns[t].revocation.value.at.left);
    OneStep(db, Take(t, StartGarage(g)), started, more, to);
    steps := [Take(t, StartGarage(g))] + more;
  }

  /** Between two garages: from here the rows at all of these have been ended. */
  predicate Finished(from: Db, to: Db, t: TxnId, garages: set<GarageId>) {
    && StillRevoking(from, to, t) && to.txns[t].revocation.value.at == NoStatement
    && to.txns[t].revocation.value.done == from.txns[t].revocation.value.done + garages
  }

  lemma FinishedTwice(a: Db, b: Db, c: Db, t: TxnId, one: set<GarageId>, two: set<GarageId>, both: set<GarageId>)
    requires Finished(a, b, t, one) && Finished(b, c, t, two) && both == one + two
    ensures Finished(a, c, t, both)
  {
  }

  lemma {:induction false} GaragesFinish(db: Db, t: TxnId, left: set<GarageId>) returns (steps: seq<Step>, to: Db)
    requires Alone(db, t) && db.txns[t].revocation.value.at == NoStatement && db.txns[t].revocation.value.credsDone
    requires left <= db.txns[t].revocation.value.days.Keys
    ensures Reaches(db, steps, to) && Finished(db, to, t, left) && Inv(to)
    decreases |left|
  {
    if left == {} {
      steps, to := [], db;
    } else {
      var g := Member(left);
      var one, finished := OneGarage(db, t, g);
      var rest;
      rest, to := GaragesFinish(finished, t, left - {g});
      steps := one + rest;
      GarageAndRest(db, one, finished, rest, to, t, g, left);
    }
  }

  lemma GarageAndRest(db: Db, one: seq<Step>, finished: Db, rest: seq<Step>, to: Db, t: TxnId, g: GarageId,
                      left: set<GarageId>)
    requires Reaches(db, one, finished) && Finished(db, finished, t, {g}) && g in left
    requires Reaches(finished, rest, to) && Finished(finished, to, t, left - {g})
    ensures Reaches(db, one + rest, to) && Finished(db, to, t, left)
  {
    Joined(db, one, finished, rest, to);
    assert left == {g} + (left - {g});
    FinishedTwice(db, finished, to, t, {g}, left - {g}, left);
  }

  lemma {:induction false} Joined(a: Db, one: seq<Step>, b: Db, two: seq<Step>, c: Db)
    requires Reaches(a, one, b) && Reaches(b, two, c)
    ensures Reaches(a, one + two, c)
    decreases |one|
  {
    if one == [] {
      assert one + two == two;
    } else {
      assert (one + two)[0] == one[0] && (one + two)[1..] == one[1..] + two;
      Joined(Next(a, one[0]), one[1..], b, two, c);
    }
  }

  /** From the state change on: cancel, end the rows at every garage, commit. */
  lemma ARevocationCommits(db: Db, t: TxnId, days: map<GarageId, Day>) returns (steps: seq<Step>, to: Db)
    requires Inv(db) && db.txns.Keys == {t} && Ready(db.c, db.txns[t]) && db.txns[t].op == Changes
    requires db.txns[t].changes == [] && db.txns[t].revocation.None?
    requires Revoked in Allowed(StateSeen(db.c, db.txns[t]))
    requires days.Keys == set g | g in db.c.passes[db.txns[t].pass.value].garages
    ensures Reaches(db, steps, to) && to.txns == map[] && Inv(to)
    ensures var p := db.txns[t].pass.value; IsRevoked(to.c, p) && p in to.c.revokedOn && to.c.revokedOn[p] == days
  {
    var moved := Moved(db, t, days);
    var rest;
    rest, to := TheRestCommits(moved, t, days);
    OneStep(db, Take(t, ChangeState(Revoked, days)), moved, rest, to);
    steps := [Take(t, ChangeState(Revoked, days))] + rest;
  }

  lemma TheRestCommits(moved: Db, t: TxnId, days: map<GarageId, Day>) returns (steps: seq<Step>, to: Db)
    requires Alone(moved, t) && moved.txns[t].revocation == Some(Revocation(days, false, {}, NoStatement))
    ensures Reaches(moved, steps, to) && to.txns == map[] && Inv(to)
    ensures var p := moved.txns[t].pass.value; IsRevoked(to.c, p) && p in to.c.revokedOn && to.c.revokedOn[p] == days
  {
    var cancelled := TakeAlone(moved, t, CancelAll);
    var middle, ended := GaragesFinish(cancelled, t, days.Keys);
    to := CommitsRevoked(ended, t);
    OneStep(ended, Commit(t), to, [], to);
    Joined(cancelled, middle, ended, [Commit(t)] + [], to);
    OneStep(moved, Take(t, CancelAll), cancelled, middle + ([Commit(t)] + []), to);
    steps := [Take(t, CancelAll)] + (middle + ([Commit(t)] + []));
  }

  lemma Moved(db: Db, t: TxnId, days: map<GarageId, Day>) returns (next: Db)
    requires Inv(db) && db.txns.Keys == {t} && Ready(db.c, db.txns[t]) && db.txns[t].op == Changes
    requires db.txns[t].changes == [] && db.txns[t].revocation.None?
    requires Revoked in Allowed(StateSeen(db.c, db.txns[t]))
    requires days.Keys == set g | g in db.c.passes[db.txns[t].pass.value].garages
    ensures Enabled(db, Take(t, ChangeState(Revoked, days))) && next == Next(db, Take(t, ChangeState(Revoked, days)))
    ensures Alone(next, t) && next.c == db.c && next.txns[t].pass == db.txns[t].pass
    ensures next.txns[t].revocation == Some(Revocation(days, false, {}, NoStatement))
  {
    assert forall u :: u in db.txns ==> u == t;
    next := Next(db, Take(t, ChangeState(Revoked, days)));
    StepKeeps(db, Take(t, ChangeState(Revoked, days)));
  }

  lemma CommitsRevoked(db: Db, t: TxnId) returns (to: Db)
    requires Alone(db, t) && db.txns[t].revocation.value.at == NoStatement && db.txns[t].revocation.value.credsDone
    requires db.txns[t].revocation.value.days.Keys <= db.txns[t].revocation.value.done
    ensures Enabled(db, Commit(t)) && to == Next(db, Commit(t)) && Inv(to) && to.txns == map[]
    ensures var p := db.txns[t].pass.value;
            IsRevoked(to.c, p) && p in to.c.revokedOn && to.c.revokedOn[p] == db.txns[t].revocation.value.days
  {
    to := Next(db, Commit(t));
    StepKeeps(db, Commit(t));
    assert db.txns - {t} == map[];
  }
}
