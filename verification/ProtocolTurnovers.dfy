/** Rows written as they were read: nothing in the way, the write is carried out to its commit;
    and a run in which a stay is turned over while its own pass is about to run it on, and the
    run-on is refused. */
module ProtocolTurnovers {
  import opened Basics
  import opened States
  import opened Register
  import opened Protocol
  import opened ProtocolInv
  import opened ProtocolProofs
  import opened ProtocolRuns
  import opened ProtocolDays

  // ------------------------------------------------- acts of one, the others standing by

  predicate Waits(act: Act) {
    act.GetPass? || act.GetCred?
  }

  ghost predicate Chain<X(!new), A(!new)>(step: (X, A, X) -> bool, x: X, acts: seq<A>, y: X)
    decreases |acts|
  {
    if acts == [] then x == y else exists next :: step(x, acts[0], next) && Chain(step, next, acts[1..], y)
  }

  lemma {:induction false} ChainOn<X(!new), A(!new)>(step: (X, A, X) -> bool, x: X, one: seq<A>, y: X, two: seq<A>, z: X)
    requires Chain(step, x, one, y) && Chain(step, y, two, z)
    ensures Chain(step, x, one + two, z)
    decreases |one|
  {
    if one == [] {
      assert one + two == two;
    } else {
      assert (one + two)[0] == one[0] && (one + two)[1..] == one[1..] + two;
      var next :| step(x, one[0], next) && Chain(step, next, one[1..], y);
      ChainOn(step, next, one[1..], y, two, z);
    }
  }

  function Acts(c: Committed): (Txn, Act, Txn) -> bool {
    (x, act, y) => May(c, x, act) && !Waits(act) && y == After(c, x, act)
  }

  /** The acts, one after another, take the transaction from `x` to `y`. */
  ghost predicate Leads(c: Committed, x: Txn, acts: seq<Act>, y: Txn) {
    Chain(Acts(c), x, acts, y)
  }

  /** It has written nothing, and locked no credential. */
  predicate WroteNothing(x: Txn) {
    x.newRows == map[] && x.newCreds == map[] && x.creds == {}
  }

  predicate StandBy(db: Db, t: TxnId) {
    forall u :: u in db.txns && u != t ==> WroteNothing(db.txns[u])
  }

  function Takes(t: TxnId, acts: seq<Act>): (steps: seq<Step>)
    ensures |steps| == |acts| && forall i :: 0 <= i < |acts| ==> steps[i] == Take(t, acts[i])
  {
    seq(|acts|, i requires 0 <= i < |acts| => Take(t, acts[i]))
  }

  lemma {:induction false} ActsReach(db: Db, t: TxnId, acts: seq<Act>, y: Txn)
    requires t in db.txns && StandBy(db, t) && Leads(db.c, db.txns[t], acts, y)
    ensures Reaches(db, Takes(t, acts), db.(txns := db.txns[t := y]))
    decreases |acts|
  {
    if acts == [] {
      assert db.txns[t := y] == db.txns;
    } else {
      var z :| Acts(db.c)(db.txns[t], acts[0], z) && Chain(Acts(db.c), z, acts[1..], y);
      var next := db.(txns := db.txns[t := z]);
      ActsReach(next, t, acts[1..], y);
      assert next.txns[t := y] == db.txns[t := y];
      assert Takes(t, acts) == [Take(t, acts[0])] + Takes(t, acts[1..]);
      OneStep(db, Take(t, acts[0]), next, Takes(t, acts[1..]), db.(txns := db.txns[t := y]));
    }
  }

  function Opening(t: TxnId, op: Op, p: PassId): seq<Step> {
    [Begin(t, op)] + ([Take(t, AskPass(p))] + [Take(t, GetPass)])
  }

  /** A transaction that has its pass's lock. */
  function Opened(op: Op, p: PassId): Txn {
    Start(op).(pass := Some(p))
  }

  lemma Opens(db: Db, t: TxnId, op: Op, p: PassId)
    requires t !in db.txns && p in db.c.passes
    requires forall u :: u in db.txns ==> db.txns[u].pass != Some(p) && WroteNothing(db.txns[u])
    ensures Reaches(db, Opening(t, op, p), db.(txns := db.txns[t := Opened(op, p)]))
  {
    var begun := db.(txns := db.txns[t := Start(op)]);
    var asked := db.(txns := db.txns[t := Start(op).(wants := ThePass(p))]);
    var locked := db.(txns := db.txns[t := Opened(op, p)]);
    ItGets(db, t, op, p);
    ItAsks(db, t, op, p);
    OneStep(begun, Take(t, AskPass(p)), asked, [Take(t, GetPass)], locked);
    OneStep(db, Begin(t, op), begun, [Take(t, AskPass(p))] + [Take(t, GetPass)], locked);
  }

  lemma ItAsks(db: Db, t: TxnId, op: Op, p: PassId)
    requires t !in db.txns && p in db.c.passes
    requires forall u :: u in db.txns ==> db.txns[u].pass != Some(p) && WroteNothing(db.txns[u])
    ensures var begun := db.(txns := db.txns[t := Start(op)]);
            && Enabled(begun, Take(t, AskPass(p)))
            && Next(begun, Take(t, AskPass(p))) == db.(txns := db.txns[t := Start(op).(wants := ThePass(p))])
  {
    var begun := db.(txns := db.txns[t := Start(op)]);
    assert Next(begun, Take(t, AskPass(p))).txns == db.txns[t := Start(op).(wants := ThePass(p))];
  }

  lemma ItGets(db: Db, t: TxnId, op: Op, p: PassId)
    requires t !in db.txns && p in db.c.passes
    requires forall u :: u in db.txns ==> db.txns[u].pass != Some(p) && WroteNothing(db.txns[u])
    ensures var asked := db.(txns := db.txns[t := Start(op).(wants := ThePass(p))]);
            Reaches(asked, [Take(t, GetPass)], db.(txns := db.txns[t := Opened(op, p)]))
  {
    var asked := db.(txns := db.txns[t := Start(op).(wants := ThePass(p))]);
    var locked := db.(txns := db.txns[t := Opened(op, p)]);
    assert Next(asked, Take(t, GetPass)).txns == locked.txns;
    assert Reaches(locked, [], locked);
    OneStep(asked, Take(t, GetPass), locked, [], locked);
    assert [Take(t, GetPass)] + [] == [Take(t, GetPass)];
  }

  lemma Commits(db: Db, t: TxnId, to: Db)
    requires Enabled(db, Commit(t)) && to == Next(db, Commit(t))
    ensures Reaches(db, [Commit(t)], to)
  {
    assert Reaches(to, [], to);
    OneStep(db, Commit(t), to, [], to);
    assert [Commit(t)] + [] == [Commit(t)];
  }

  // ------------------------------------------------------- a write as read commits

  lemma LeadsOn(c: Committed, x: Txn, one: seq<Act>, y: Txn, two: seq<Act>, z: Txn)
    requires Leads(c, x, one, y) && Leads(c, y, two, z)
    ensures Leads(c, x, one + two, z)
  {
    ChainOn(Acts(c), x, one, y, two, z);
  }

  lemma LeadsFrom(c: Committed, x: Txn, acts: seq<Act>, next: Txn, y: Txn)
    requires acts != [] && May(c, x, acts[0]) && !Waits(acts[0]) && next == After(c, x, acts[0]) && Leads(c, next, acts[1..], y)
    ensures Leads(c, x, acts, y)
  {
    assert Acts(c)(x, acts[0], next);
  }

  lemma LeadsOne(c: Committed, x: Txn, act: Act)
    requires May(c, x, act) && !Waits(act)
    ensures Leads(c, x, [act], After(c, x, act))
  {
    assert [act][1..] == [];
    LeadsFrom(c, x, [act], After(c, x, act), After(c, x, act));
  }

  predicate EndsAsRead(c: Committed, x: Txn, claim: Claim) {
    claim.row in Rows(c, x) && Rows(c, x)[claim.row].end == claim.read
  }

  /** From the n-th on the claims are still to be written, and end as they were read. */
  ghost predicate Pending(c: Committed, x: Txn, s: AsReadWrite, n: nat) {
    && InTheMiddle(c, x) && x.writing == Some(s) && |x.moves| == s.first + n && n <= |s.claims|
    && (forall i, j :: 0 <= i < j < |s.claims| ==> s.claims[i].row != s.claims[j].row)
    && forall i :: n <= i < |s.claims| ==> EndsAsRead(c, x, s.claims[i])
  }

  /** The rows claimed from the n-th on, written; every other row as it was. */
  ghost predicate Written(before: map<RowId, Row>, after: map<RowId, Row>, s: AsReadWrite, n: nat) {
    && (forall i :: n <= i < |s.claims| ==>
          var k := s.claims[i].row; k in before && k in after && after[k] == Retarget(s.to, before[k]))
    && forall k :: k in before && (forall i :: n <= i < |s.claims| ==> s.claims[i].row != k) ==>
         k in after && after[k] == before[k]
  }

  lemma WriteOne(c: Committed, x: Txn, s: AsReadWrite, n: nat)
    requires Pending(c, x, s, n) && n < |s.claims|
    ensures May(c, x, WriteNext) && Pending(c, After(c, x, WriteNext), s, n + 1)
    ensures var y, k := After(c, x, WriteNext), s.claims[n].row;
            && y == x.(newRows := y.newRows, moves := y.moves)
            && Rows(c, y) == Rows(c, x)[k := Retarget(s.to, Rows(c, x)[k])]
  {
    var y, k := After(c, x, WriteNext), s.claims[n].row;
    assert EndsAsRead(c, x, s.claims[n]);
    assert Rows(c, y) == Rows(c, x)[k := Retarget(s.to, Rows(c, x)[k])];
    forall i | n + 1 <= i < |s.claims| ensures EndsAsRead(c, y, s.claims[i]) {
      assert EndsAsRead(c, x, s.claims[i]) && s.claims[i].row != k;
    }
  }

  lemma OneMoreWritten(before: map<RowId, Row>, next: map<RowId, Row>, after: map<RowId, Row>, s: AsReadWrite, n: nat)
    requires n < |s.claims| && s.claims[n].row in before
    requires next == before[s.claims[n].row := Retarget(s.to, before[s.claims[n].row])] && Written(next, after, s, n + 1)
    requires forall i, j :: 0 <= i < j < |s.claims| ==> s.claims[i].row != s.claims[j].row
    ensures Written(before, after, s, n)
  {
  }

  lemma {:induction false} AllWritten(c: Committed, x: Txn, s: AsReadWrite, n: nat) returns (acts: seq<Act>, y: Txn)
    requires Pending(c, x, s, n)
    ensures Leads(c, x, acts, y) && Pending(c, y, s, |s.claims|) && Written(Rows(c, x), Rows(c, y), s, n)
    ensures y == x.(newRows := y.newRows, moves := y.moves)
    decreases |s.claims| - n
  {
    if n == |s.claims| {
      acts, y := [], x;
    } else {
      WriteOne(c, x, s, n);
      var rest;
      rest, y := AllWritten(c, After(c, x, WriteNext), s, n + 1);
      LeadsOne(c, x, WriteNext);
      LeadsOn(c, x, [WriteNext], After(c, x, WriteNext), rest, y);
      OneMoreWritten(Rows(c, x), Rows(c, After(c, x, WriteNext)), Rows(c, y), s, n);
      acts := [WriteNext] + rest;
    }
  }

  /** What the act writes its rows as. */
  function TargetOf(act: Act): Target
    requires act.TurnOver? || act.RunOn? || act.End?
  {
    match act
    case TurnOver(_, _, from, _) => TurnOverTo(from)
    case RunOn(_, _, until) => RunOnTo(until)
    case End(_, day) => EndTo(day)
  }

  /** It claims several rows, every one of them read. */
  predicate Claims(x: Txn, act: Act) {
    (act.TurnOver? || act.RunOn? || act.End?) && forall i :: 0 <= i < |act.rows| ==> act.rows[i] in x.claims
  }

  /** ... and they end as they were read. */
  ghost predicate Unmoved(c: Committed, x: Txn, act: Act)
    requires Claims(x, act)
  {
    forall i :: 0 <= i < |act.rows| ==> EndsAsRead(c, x, Claim(act.rows[i], x.claims[act.rows[i]].end))
  }

  function WriteOf(x: Txn, act: Act): AsReadWrite
    requires Claims(x, act)
  {
    AsReadWrite(TargetOf(act), seq(|act.rows|, i requires 0 <= i < |act.rows| => Claim(act.rows[i], x.claims[act.rows[i]].end)),
                |x.moves|)
  }

  lemma ItClaimed(c: Committed, x: Txn, act: Act)
    requires Claims(x, act) && May(c, x, act) && Unmoved(c, x, act)
    ensures Pending(c, After(c, x, act), WriteOf(x, act), 0) && Rows(c, After(c, x, act)) == Rows(c, x)
    ensures After(c, x, act) == x.(writing := Some(WriteOf(x, act)))
  {
    var y, s := After(c, x, act), WriteOf(x, act);
    assert y.writing.value.claims == s.claims;
    forall i | 0 <= i < |s.claims| ensures EndsAsRead(c, y, s.claims[i]) {
    }
  }

  /** The whole write, claimed to finished. */
  lemma ItIsWritten(c: Committed, x: Txn, act: Act) returns (acts: seq<Act>, y: Txn)
    requires Claims(x, act) && May(c, x, act) && Unmoved(c, x, act)
    ensures Leads(c, x, acts, y) && Written(Rows(c, x), Rows(c, y), WriteOf(x, act), 0)
    ensures y == x.(newRows := y.newRows, moves := y.moves, asRead := x.asRead + [WriteOf(x, act)])
  {
    var claimed := After(c, x, act);
    ItClaimed(c, x, act);
    LeadsOne(c, x, act);
    var writes, written := AllWritten(c, claimed, WriteOf(x, act), 0);
    LeadsOn(c, x, [act], claimed, writes, written);
    y := After(c, written, FinishWrite);
    LeadsOne(c, written, FinishWrite);
    LeadsOn(c, x, [act] + writes, written, [FinishWrite], y);
    acts := [act] + writes + [FinishWrite];
    assert Rows(c, y) == Rows(c, written);
  }

  /** A WRITE AS READ COMMITS: a turnover, a run-on or an end whose rows still end as they were
      read, the other transactions having written nothing, is carried out to its commit,
      recorded whole, with every row of it written and no other. */
  lemma AWriteAsReadCommits(db: Db, t: TxnId, act: Act) returns (steps: seq<Step>, to: Db)
    requires Inv(db) && t in db.txns && StandBy(db, t)
    requires Claims(db.txns[t], act) && May(db.c, db.txns[t], act) && Unmoved(db.c, db.txns[t], act)
    ensures Reaches(db, steps, to) && to.txns == db.txns - {t}
    ensures var s := WriteOf(db.txns[t], act); s.(first := s.first + |db.c.log|) in to.c.asRead
    ensures Written(Rows(db.c, db.txns[t]), to.c.rows, WriteOf(db.txns[t], act), 0)
  {
    NoRevocation(db, t, act);
    steps, to := WrittenAndCommitted(db, t, act);
  }

  lemma WrittenAndCommitted(db: Db, t: TxnId, act: Act) returns (steps: seq<Step>, to: Db)
    requires t in db.txns && StandBy(db, t) && db.c.passes.Keys <= db.c.history.Keys
    requires var x := db.txns[t];
             && Claims(x, act) && May(db.c, x, act) && Unmoved(db.c, x, act)
             && x.pass.Some? && x.pass.value in db.c.passes && x.wants == Nothing && x.writing.None? && x.revocation.None?
    ensures Reaches(db, steps, to) && to.txns == db.txns - {t}
    ensures var s := WriteOf(db.txns[t], act); s.(first := s.first + |db.c.log|) in to.c.asRead
    ensures Written(Rows(db.c, db.txns[t]), to.c.rows, WriteOf(db.txns[t], act), 0)
  {
    var x := db.txns[t];
    var acts, y := ItIsWritten(db.c, x, act);
    steps, to := ActsThenCommit(db, t, acts, y);
    Recorded(db.c, y, WriteOf(x, act));
  }

  lemma ActsThenCommit(db: Db, t: TxnId, acts: seq<Act>, y: Txn) returns (steps: seq<Step>, to: Db)
    requires t in db.txns && StandBy(db, t) && Leads(db.c, db.txns[t], acts, y)
    requires Complete(db.c, y) && db.c.passes.Keys <= db.c.history.Keys
    ensures Reaches(db, steps, to) && to == Db(Committing(db.c, y), db.txns - {t})
  {
    var written := db.(txns := db.txns[t := y]);
    ActsReach(db, t, acts, y);
    assert db.txns[t := y] - {t} == db.txns - {t};
    to := Next(written, Commit(t));
    Commits(written, t, to);
    Joined(db, Takes(t, acts), written, [Commit(t)], to);
    steps := Takes(t, acts) + [Commit(t)];
  }

  lemma NoRevocation(db: Db, t: TxnId, act: Act)
    requires Inv(db) && t in db.txns && Claims(db.txns[t], act) && May(db.c, db.txns[t], act)
    ensures db.txns[t].pass.Some? && db.txns[t].pass.value in db.c.passes && db.txns[t].wants == Nothing
    ensures db.txns[t].writing.None? && db.txns[t].revocation.None? && db.c.passes.Keys <= db.c.history.Keys
  {
    assert TxnOk(db.c, db.txns[t]);
  }

  /** The last write of a transaction, among those committed. */
  lemma Recorded(c: Committed, x: Txn, s: AsReadWrite)
    requires Complete(c, x) && c.passes.Keys <= c.history.Keys && x.asRead != [] && x.asRead[|x.asRead| - 1] == s
    ensures s.(first := s.first + |c.log|) in Committing(c, x).asRead && Committing(c, x).rows == Rows(c, x)
  {
    var n := |x.asRead| - 1;
    assert Committing(c, x).asRead[|c.asRead| + n] == s.(first := s.first + |c.log|);
  }

  // ----------------------------------------------------------------------- the run

  const PASSES := map[1 := PassRow([1], Active, true, None), 2 := PassRow([1], Active, true, None)]
  const NEW := Committed(PASSES, map[1 := [Active], 2 := [Active]], map[], map[], map[], [], [])

  /** Pass 1's stay, days 0 to 5, and its registration. */
  const STAY := NewRow(1, "X", 0, Some(6), AfterLastDay, 1)
  const STAYED := Move(0, Inserting, NoRow, None, Some(6))
  const HELD := NEW.(rows := map[0 := STAY], log := [STAYED])

  /** Pass 2's next stay from day 5, and what it makes of the first. */
  const NEXT := NewRow(2, "X", 5, Some(8), AfterLastDay, 1)
  const ENDED := TurnedOver(STAY, 5)
  const TURNED := Move(0, TurningOver, RunsTo(Some(6)), Some(6), Some(5))
  const WRITE := AsReadWrite(TurnOverTo(5), [Claim(0, Some(6))], 0)
  const LEFT := HELD.(rows := map[0 := ENDED, 1 := NEXT], log := [STAYED, TURNED, Move(1, Inserting, NoRow, None, Some(8))],
                      asRead := [WRITE.(first := 1)])

  /** Pass 1 has read its stay and is about to run it on to day 9. */
  const READ := Opened(Issues, 1).(claims := map[0 := STAY])

  function Turning(): seq<Act> {
    [Read(0), Act.TurnOver([0], "X", 5, Some(8)), WriteNext, FinishWrite, Insert(1, 1, "X", 5, Some(8), AfterLastDay)]
  }

  const TURNER := Opened(Issues, 2).(claims := map[0 := STAY], newRows := map[0 := ENDED, 1 := NEXT],
                                     moves := [TURNED, Move(1, Inserting, NoRow, None, Some(8))], asRead := [WRITE])

  // the turnover, act by act

  const READING := Opened(Issues, 2).(claims := map[0 := STAY])
  const CLAIMED := READING.(writing := Some(WRITE))
  const WRITTEN := READING.(writing := Some(WRITE), newRows := map[0 := ENDED], moves := [TURNED])
  const FINISHED := READING.(newRows := map[0 := ENDED], moves := [TURNED], asRead := [WRITE])

  lemma ItReads(op: Op, p: PassId)
    requires p in {1, 2}
    ensures May(HELD, Opened(op, p), Read(0))
    ensures After(HELD, Opened(op, p), Read(0)) == Opened(op, p).(claims := map[0 := STAY])
  {
  }

  lemma ItClaims()
    ensures May(HELD, READING, Act.TurnOver([0], "X", 5, Some(8))) && After(HELD, READING, Act.TurnOver([0], "X", 5, Some(8))) == CLAIMED
  {
    assert Judge(PASSES, 2, "X", 5, Some(8), STAY) == Verdict.TurnOver;
    assert After(HELD, READING, Act.TurnOver([0], "X", 5, Some(8))).writing.value.claims == [Claim(0, Some(6))];
  }

  lemma ItWrites()
    ensures May(HELD, CLAIMED, WriteNext) && After(HELD, CLAIMED, WriteNext) == WRITTEN
    ensures May(HELD, WRITTEN, FinishWrite) && After(HELD, WRITTEN, FinishWrite) == FINISHED
  {
    assert Rows(HELD, CLAIMED) == HELD.rows;
  }

  lemma ItRegisters()
    ensures May(HELD, FINISHED, Insert(1, 1, "X", 5, Some(8), AfterLastDay))
    ensures After(HELD, FINISHED, Insert(1, 1, "X", 5, Some(8), AfterLastDay)) == TURNER
  {
    assert Rows(HELD, FINISHED) == map[0 := ENDED];
  }

  lemma ItTurnsOver()
    ensures Leads(HELD, Opened(Issues, 2), Turning(), TURNER)
  {
    ItReads(Issues, 2);
    ItClaims();
    ItWrites();
    ItRegisters();
    var acts := Turning();
    assert acts[4..] == [acts[4]] && acts[3..][1..] == acts[4..] && acts[2..][1..] == acts[3..] && acts[1..][1..] == acts[2..];
    LeadsOne(HELD, FINISHED, acts[4]);
    LeadsFrom(HELD, WRITTEN, acts[3..], FINISHED, TURNER);
    LeadsFrom(HELD, CLAIMED, acts[2..], WRITTEN, TURNER);
    LeadsFrom(HELD, READING, acts[1..], CLAIMED, TURNER);
    LeadsFrom(HELD, Opened(Issues, 2), acts, READING, TURNER);
  }

  lemma ItCommits()
    ensures Complete(HELD, TURNER) && Committing(HELD, TURNER) == LEFT
  {
    assert Rows(HELD, TURNER) == LEFT.rows && Creds(HELD, TURNER) == map[];
    assert HELD.log + TURNER.moves == LEFT.log;
    assert Shifted(TURNER.asRead, 1) == LEFT.asRead;
  }

  // the first stay, and the run-on that comes too late

  const FIRST := Opened(Issues, 1).(newRows := map[0 := STAY], moves := [STAYED])
  const RUNNING := READ.(writing := Some(AsReadWrite(RunOnTo(9), [Claim(0, Some(6))], 0)))

  lemma TheFirstStay()
    ensures Leads(NEW, Opened(Issues, 1), [Insert(0, 1, "X", 0, Some(6), AfterLastDay)], FIRST)
    ensures Complete(NEW, FIRST) && Committing(NEW, FIRST) == HELD
  {
    assert Rows(NEW, FIRST) == HELD.rows && Creds(NEW, FIRST) == map[] && NEW.log + FIRST.moves == HELD.log;
    LeadsOne(NEW, Opened(Issues, 1), Insert(0, 1, "X", 0, Some(6), AfterLastDay));
  }

  lemma ItIsTooLate()
    ensures Leads(LEFT, READ, [RunOn([0], 6, 9), WriteNext], Refusing(READ))
  {
    ItClaimsTheStay();
    assert May(LEFT, RUNNING, WriteNext) && After(LEFT, RUNNING, WriteNext) == Refusing(READ);
    LeadsOne(LEFT, RUNNING, WriteNext);
    assert [RunOn([0], 6, 9), WriteNext][1..] == [WriteNext];
    LeadsFrom(LEFT, READ, [RunOn([0], 6, 9), WriteNext], RUNNING, Refusing(READ));
  }

  lemma ItClaimsTheStay()
    ensures May(LEFT, READ, RunOn([0], 6, 9)) && After(LEFT, READ, RunOn([0], 6, 9)) == RUNNING
  {
    assert [0][0] in READ.claims && [0][0] in Rows(LEFT, READ) && READ.claims[0].garage == 1;
    assert After(LEFT, READ, RunOn([0], 6, 9)).writing.value.claims == [Claim(0, Some(6))];
  }

  // --------------------------------------------------------------------- put together

  const AT_FIRST := Db(NEW, map[])
  const MEANWHILE := Db(HELD, map[2 := READ])
  const AT_LAST := Db(LEFT, map[2 := Refusing(READ)])

  lemma UpToTheStay() returns (steps: seq<Step>)
    ensures Reaches(AT_FIRST, steps, Db(HELD, map[]))
  {
    TheFirstStay();
    Opens(AT_FIRST, 0, Issues, 1);
    var locked := Db(NEW, map[0 := Opened(Issues, 1)]);
    assert AT_FIRST.txns[0 := Opened(Issues, 1)] == locked.txns;
    var rest, held := ActsThenCommit(locked, 0, [Insert(0, 1, "X", 0, Some(6), AfterLastDay)], FIRST);
    assert locked.txns - {0} == map[];
    steps := Opening(0, Issues, 1) + rest;
    Joined(AT_FIRST, Opening(0, Issues, 1), locked, rest, held);
  }

  lemma UpToTheRead() returns (steps: seq<Step>)
    ensures Reaches(AT_FIRST, steps, MEANWHILE)
  {
    var first := UpToTheStay();
    var held, locked := Db(HELD, map[]), Db(HELD, map[2 := Opened(Issues, 1)]);
    Opens(held, 2, Issues, 1);
    assert held.txns[2 := Opened(Issues, 1)] == locked.txns;
    ItReads(Issues, 1);
    LeadsOne(HELD, Opened(Issues, 1), Read(0));
    ActsReach(locked, 2, [Read(0)], READ);
    assert locked.txns[2 := READ] == MEANWHILE.txns;
    Joined(held, Opening(2, Issues, 1), locked, Takes(2, [Read(0)]), MEANWHILE);
    steps := first + (Opening(2, Issues, 1) + Takes(2, [Read(0)]));
    Joined(AT_FIRST, first, held, Opening(2, Issues, 1) + Takes(2, [Read(0)]), MEANWHILE);
  }

  lemma TheTurnoverCommits() returns (steps: seq<Step>)
    ensures Reaches(MEANWHILE, steps, Db(LEFT, map[2 := READ]))
  {
    Opens(MEANWHILE, 1, Issues, 2);
    var locked := Db(HELD, map[2 := READ, 1 := Opened(Issues, 2)]);
    assert MEANWHILE.txns[1 := Opened(Issues, 2)] == locked.txns;
    ItTurnsOver();
    ItCommits();
    var rest, left := ActsThenCommit(locked, 1, Turning(), TURNER);
    assert locked.txns - {1} == map[2 := READ];
    steps := Opening(1, Issues, 2) + rest;
    Joined(MEANWHILE, Opening(1, Issues, 2), locked, rest, left);
  }

  lemma TheRunOnIsRefused() returns (steps: seq<Step>)
    ensures Reaches(MEANWHILE, steps, AT_LAST)
  {
    var turning := TheTurnoverCommits();
    var left := Db(LEFT, map[2 := READ]);
    ItIsTooLate();
    var acts := [RunOn([0], 6, 9), WriteNext];
    ActsReach(left, 2, acts, Refusing(READ));
    assert left.txns[2 := Refusing(READ)] == AT_LAST.txns;
    steps := turning + Takes(2, acts);
    Joined(MEANWHILE, turning, left, Takes(2, acts), AT_LAST);
  }

  /** IT DOES HAPPEN: from a register just created, a run in which one pass's transaction has
      read its stay to run it on; another pass's turns the stay's last day over meanwhile and
      commits, its claim moved as read; and the run-on finds the row moved and is refused. The
      day is held by the first stay before and by the next one after. */
  lemma ATurnoverBeforeARunOn() returns (start: Db, before: seq<Step>, mid: Db, after: seq<Step>, db: Db)
    ensures Empty(start) && Reaches(start, before, mid) && Reaches(mid, after, db) && OneHolder(mid.c) && OneHolder(db.c)
    ensures db.c.asRead == [AsReadWrite(TurnOverTo(5), [Claim(0, Some(6))], 1)] && TakenAt(db.c.log, 1, 0, 5)
    ensures 2 in mid.txns && mid.txns[2].claims == mid.c.rows && 2 in db.txns && db.txns[2] == Refusing(mid.txns[2])
    ensures 0 in mid.c.rows && mid.c.rows[0].pass == 1 && Covers(mid.c.rows[0], 5)
    ensures 1 in db.c.rows && db.c.rows[1].pass == 2 && Covers(db.c.rows[1], 5)
    ensures db.c.rows[1].garage == mid.c.rows[0].garage && db.c.rows[1].plate == mid.c.rows[0].plate
  {
    start, mid, db := AT_FIRST, MEANWHILE, AT_LAST;
    before := UpToTheRead();
    after := TheRunOnIsRefused();
  }
}
