/** What holds in every interleaving: revoked stays safe, no update is lost, the history is
    a path, and the locks cannot deadlock. */
module ProtocolProofs {
  import opened Basics
  import opened States
  import opened Register
  import opened Protocol
  import opened ProtocolInv

  // -------------------------------------------------------------- two transactions

  lemma ActApart(c: Committed, x: Txn, y: Txn, act: Act)
    requires May(c, x, act) && Separate(x, y) && Unhindered(x, y, c, act)
    ensures Separate(After(c, x, act), y)
  {
    var z := After(c, x, act);
    forall k | k in z.newRows ensures k !in y.newRows {
      assert k in x.newRows || WritesRow(x, act, k);
    }
    ActCredsApart(c, x, y, act);
  }

  lemma ActCredsApart(c: Committed, x: Txn, y: Txn, act: Act)
    requires May(c, x, act) && Separate(x, y) && Unhindered(x, y, c, act)
    ensures forall k :: k in After(c, x, act).newCreds ==> k !in y.newCreds
  {
    forall k | k in After(c, x, act).newCreds ensures k !in y.newCreds {
      assert k in x.newCreds || WritesCred(c, x, act, k);
    }
  }

  // ----------------------------------------------------------------------- commit

  lemma {:induction false} EndByJoined(a: seq<Move>, b: seq<Move>, k: RowId, start: Held)
    ensures EndBy(a + b, k, start) == EndBy(b, k, EndBy(a, k, start))
  {
    if b == [] {
      assert a + b == a;
    } else {
      assert (a + b)[..|a + b| - 1] == a + b[..|b| - 1];
      EndByJoined(a, b[..|b| - 1], k, start);
    }
  }

  lemma CommittedEnds(c: Committed, x: Txn)
    requires LogLinked(c) && MovesOk(c, x)
    ensures forall k :: EndBy(c.log + x.moves, k, NoRow) == HeldIn(Rows(c, x), k)
  {
    forall k ensures EndBy(c.log + x.moves, k, NoRow) == HeldIn(Rows(c, x), k) {
      EndByJoined(c.log, x.moves, k, NoRow);
      assert EndBy(c.log, k, NoRow) == HeldIn(c.rows, k);
    }
  }

  lemma CommittedLog(c: Committed, x: Txn)
    requires LogLinked(c) && MovesOk(c, x)
    ensures Linked(c.log + x.moves, map[])
    ensures forall k :: EndBy(c.log + x.moves, k, NoRow) == HeldIn(Rows(c, x), k)
  {
    CommittedEnds(c, x);
    var all := c.log + x.moves;
    var n := |c.log|;
    forall i | 0 <= i < |all|
      ensures AsRead(all[i]) && all[i].before == EndBy(all[..i], all[i].row, HeldIn(map[], all[i].row))
    {
      if i < n {
        assert all[..i] == c.log[..i] && all[i] == c.log[i];
      } else {
        var m := x.moves[i - n];
        assert all[i] == m && all[..i] == c.log + x.moves[..i - n];
        EndByJoined(c.log, x.moves[..i - n], m.row, NoRow);
        assert EndBy(c.log, m.row, NoRow) == HeldIn(c.rows, m.row);
      }
    }
  }

  lemma AllMovedBefore(a: seq<Move>, b: seq<Move>, s: AsReadWrite)
    requires AllMoved(a, s)
    ensures AllMoved(a + b, s)
  {
  }

  lemma AllMovedAfter(a: seq<Move>, b: seq<Move>, s: AsReadWrite)
    requires AllMoved(b, s)
    ensures AllMoved(a + b, s.(first := s.first + |a|))
  {
    forall i | 0 <= i < |s.claims| ensures MovedAsRead((a + b)[s.first + |a| + i], s.to, s.claims[i]) {
      assert (a + b)[s.first + |a| + i] == b[s.first + i];
    }
  }

  lemma InSomeJoined(one: seq<AsReadWrite>, two: seq<AsReadWrite>, n: nat, i: nat)
    ensures InSome(one, i) ==> InSome(one + Shifted(two, n), i)
    ensures InSome(two, i) ==> InSome(one + Shifted(two, n), i + n)
  {
    var all := one + Shifted(two, n);
    if InSome(one, i) {
      var k :| 0 <= k < |one| && Within(one[k], i);
      assert Within(all[k], i);
    }
    if InSome(two, i) {
      var k :| 0 <= k < |two| && Within(two[k], i);
      assert Within(all[|one| + k], i + n);
    }
  }

  /** The writes as read, beside those committed before them. */
  lemma CommittedWhole(log: seq<Move>, asRead: seq<AsReadWrite>, moves: seq<Move>, mine: seq<AsReadWrite>)
    requires Whole(log, asRead) && Whole(moves, mine)
    ensures Whole(log + moves, asRead + Shifted(mine, |log|))
  {
    var n, both, all := |log|, log + moves, asRead + Shifted(mine, |log|);
    forall k | 0 <= k < |all| ensures AllMoved(both, all[k]) {
      if k < |asRead| {
        AllMovedBefore(log, moves, asRead[k]);
      } else {
        AllMovedAfter(log, moves, mine[k - |asRead|]);
      }
    }
    forall i | 0 <= i < |both| && Guarded(both[i].how) ensures InSome(all, i) {
      if i < n {
        assert both[i] == log[i];
        InSomeJoined(asRead, mine, n, i);
      } else {
        assert both[i] == moves[i - n];
        InSomeJoined(asRead, mine, n, i - n);
      }
    }
  }

  lemma CommittedHistories(c: Committed, x: Txn)
    requires CommittedOk(c) && TxnOk(c, x) && Complete(c, x)
    ensures Histories(Committing(c, x))
    ensures forall p :: IsRevoked(c, p) ==> IsRevoked(Committing(c, x), p)
    ensures forall p :: IsRevoked(Committing(c, x), p) && !IsRevoked(c, p) ==>
              x.pass == Some(p) && x.revocation.Some? && p in Committing(c, x).revokedOn
              && Committing(c, x).revokedOn[p] == x.revocation.value.days
    ensures forall p :: IsRevoked(c, p) && p in c.revokedOn ==>
              p in Committing(c, x).revokedOn && Committing(c, x).revokedOn[p] == c.revokedOn[p]
  {
    CommittedPaths(c, x);
    RevokedStays(c, x);
    NewlyRevoked(c, x);
  }

  lemma RevokedStays(c: Committed, x: Txn)
    requires CommittedOk(c) && TxnOk(c, x) && Complete(c, x)
    ensures forall p :: IsRevoked(c, p) ==> IsRevoked(Committing(c, x), p)
    ensures forall p :: IsRevoked(c, p) && p in c.revokedOn ==>
              p in Committing(c, x).revokedOn && Committing(c, x).revokedOn[p] == c.revokedOn[p]
  {
    if x.pass.Some? {
      RevokedIsTheLast(c, x);
    }
  }

  lemma NewlyRevoked(c: Committed, x: Txn)
    requires c.passes.Keys <= c.history.Keys && ChangesOk(c, x) && Complete(c, x)
    ensures forall p :: IsRevoked(Committing(c, x), p) && !IsRevoked(c, p) ==>
              x.pass == Some(p) && x.revocation.Some? && p in Committing(c, x).revokedOn
              && Committing(c, x).revokedOn[p] == x.revocation.value.days
  {
  }

  /** Each stored history is a path to the stored state after the commit too. */
  lemma CommittedPaths(c: Committed, x: Txn)
    requires CommittedOk(c) && TxnOk(c, x) && Complete(c, x)
    ensures Histories(Committing(c, x))
  {
    var d := Committing(c, x);
    forall p | p in d.passes ensures HistoryOk(d, p) {
      assert HistoryOk(c, p);
      if x.pass == Some(p) && x.changes != [] {
        assert d.history[p][|d.history[p]| - 1] == x.changes[|x.changes| - 1];
      }
    }
  }

  /** What a complete revocation has made of the pass's rows and credentials. */
  lemma RevocationIsComplete(c: Committed, x: Txn)
    requires CommittedOk(c) && TxnOk(c, x) && Complete(c, x) && x.revocation.Some?
    ensures forall k :: k in Creds(c, x) && Creds(c, x)[k].pass == x.pass.value ==> Dead(Creds(c, x)[k])
    ensures forall k :: k in Rows(c, x) && Rows(c, x)[k].pass == x.pass.value ==>
              Rows(c, x)[k].garage in x.revocation.value.days
              && EndedBy(Rows(c, x)[k], x.revocation.value.days[Rows(c, x)[k].garage])
  {
    forall k | k in Rows(c, x) && Rows(c, x)[k].pass == x.pass.value
      ensures Rows(c, x)[k].garage in x.revocation.value.days
              && EndedBy(Rows(c, x)[k], x.revocation.value.days[Rows(c, x)[k].garage])
    {
      SeenRowIsOver(c, x, k);
    }
  }

  lemma CommittedCreds(c: Committed, x: Txn)
    requires CommittedOk(c) && TxnOk(c, x) && Complete(c, x)
    ensures CredsDead(Committing(c, x))
  {
    var d := Committing(c, x);
    CommittedHistories(c, x);
    if x.revocation.Some? {
      RevocationIsComplete(c, x);
    }
    forall k | k in d.creds
      ensures d.creds[k].pass in d.passes && (IsRevoked(d, d.creds[k].pass) ==> Dead(d.creds[k]))
    {
      assert d.creds[k] == Creds(c, x)[k];
    }
  }

  lemma CommittedRows(c: Committed, x: Txn)
    requires CommittedOk(c) && TxnOk(c, x) && Complete(c, x)
    ensures RowsOver(Committing(c, x))
  {
    var d := Committing(c, x);
    forall k | k in d.rows ensures RowKnown(d, d.rows[k]) && RowOver(d, d.rows[k]) {
      CommittedRow(c, x, k);
    }
  }

  lemma CommittedRow(c: Committed, x: Txn, k: RowId)
    requires CommittedOk(c) && TxnOk(c, x) && Complete(c, x) && k in Committing(c, x).rows
    ensures var d := Committing(c, x); RowKnown(d, d.rows[k]) && RowOver(d, d.rows[k])
  {
    assert Committing(c, x).rows[k] == Rows(c, x)[k];
    SeenRowIsOver(c, x, k);
    CommittedHistories(c, x);
    if x.revocation.Some? {
      RevocationIsComplete(c, x);
    }
  }

  lemma CommitKeepsCommitted(c: Committed, x: Txn)
    requires CommittedOk(c) && TxnOk(c, x) && Complete(c, x)
    ensures CommittedOk(Committing(c, x))
  {
    CommittedHistories(c, x);
    CommittedCreds(c, x);
    CommittedRows(c, x);
    CommittedLog(c, x);
    assert x.moves[..|x.moves|] == x.moves;
    CommittedWhole(c.log, c.asRead, x.moves, x.asRead);
  }

  // ---------------------------------------------- what a commit leaves the others with

  lemma CommittingParts(c: Committed, x: Txn)
    requires Complete(c, x) && c.passes.Keys <= c.history.Keys
    ensures Committing(c, x).rows == Rows(c, x) && Committing(c, x).creds == Creds(c, x)
    ensures forall p :: p in c.passes && x.pass != Some(p) ==>
              p in Committing(c, x).passes && Committing(c, x).passes[p] == c.passes[p]
              && p in Committing(c, x).history && Committing(c, x).history[p] == c.history[p]
  {
  }

  lemma RowsAfterCommit(c: Committed, x: Txn, y: Txn)
    requires RowsOk(c, x) && Separate(x, y)
    ensures var rows := Rows(c, x) + y.newRows;
            && (forall k :: k in Rows(c, y) ==> k in rows && SameRow(Rows(c, y)[k], rows[k]))
            && (forall k :: k in y.newRows ==>
                  (k in c.rows <==> k in Rows(c, x)) && (k in c.rows ==> Rows(c, x)[k] == c.rows[k]))
  {
    var rows := Rows(c, x) + y.newRows;
    forall k | k in Rows(c, y) ensures k in rows && SameRow(Rows(c, y)[k], rows[k]) {
      if k !in y.newRows && k in x.newRows {
        assert WrittenOk(c, x, k, x.newRows[k]);
      }
    }
  }

  lemma CredsAfterCommit(c: Committed, x: Txn, y: Txn)
    requires CredsOk(c, x) && Separate(x, y)
    ensures var creds := Creds(c, x) + y.newCreds;
            && (forall k :: k in Creds(c, y) ==> k in creds && creds[k].pass == Creds(c, y)[k].pass)
            && (forall k :: k in y.newCreds ==>
                  (k in c.creds <==> k in Creds(c, x)) && (k in c.creds ==> Creds(c, x)[k] == c.creds[k]))
            && (forall k :: k in creds && y.pass == Some(creds[k].pass) ==>
                  k in Creds(c, y) && creds[k] == Creds(c, y)[k])
  {
  }

  /** Another's commit, seen from here: nothing this transaction has locked or written moves. */
  lemma SeenAfterCommit(c: Committed, x: Txn, y: Txn)
    requires CommittedOk(c) && RowsOk(c, x) && CredsOk(c, x) && Complete(c, x) && Separate(x, y)
    ensures var d := Committing(c, x);
            && (forall k :: k in Rows(c, y) ==> k in Rows(d, y) && SameRow(Rows(c, y)[k], Rows(d, y)[k]))
            && (forall k :: k in y.newRows ==> (k in c.rows <==> k in d.rows) && (k in c.rows ==> d.rows[k] == c.rows[k]))
            && (forall k :: k in Creds(c, y) ==> k in Creds(d, y) && Creds(d, y)[k].pass == Creds(c, y)[k].pass)
            && (forall k :: k in y.newCreds ==> (k in c.creds <==> k in d.creds) && (k in c.creds ==> d.creds[k] == c.creds[k]))
  {
    CommittingParts(c, x);
    RowsAfterCommit(c, x, y);
    CredsAfterCommit(c, x, y);
  }

  /** No row of this pass but was there before, and none runs longer than it did. */
  lemma OwnRowsAfterCommit(c: Committed, x: Txn, y: Txn)
    requires RowsOk(c, x) && Separate(x, y) && y.pass.Some?
    ensures var rows := Rows(c, x) + y.newRows;
            forall k :: k in rows && rows[k].pass == y.pass.value ==>
              k in Rows(c, y) && SameRow(rows[k], Rows(c, y)[k])
              && forall day :: EndedBy(Rows(c, y)[k], day) ==> EndedBy(rows[k], day)
  {
    var rows := Rows(c, x) + y.newRows;
    forall k | k in rows && rows[k].pass == y.pass.value
      ensures k in Rows(c, y) && SameRow(rows[k], Rows(c, y)[k])
      ensures forall day :: EndedBy(Rows(c, y)[k], day) ==> EndedBy(rows[k], day)
    {
      if k !in y.newRows && k in x.newRows {
        assert WrittenOk(c, x, k, x.newRows[k]);
      }
    }
  }

  lemma OwnAfterCommit(c: Committed, x: Txn, y: Txn)
    requires CommittedOk(c) && RowsOk(c, x) && CredsOk(c, x) && Complete(c, x) && Separate(x, y)
    requires y.pass.Some? && y.pass.value in c.passes
    ensures var d := Committing(c, x);
            && (forall k :: k in Rows(d, y) && Rows(d, y)[k].pass == y.pass.value ==>
                  k in Rows(c, y) && SameRow(Rows(d, y)[k], Rows(c, y)[k])
                  && forall day :: EndedBy(Rows(c, y)[k], day) ==> EndedBy(Rows(d, y)[k], day))
            && (forall k :: k in Creds(d, y) && Creds(d, y)[k].pass == y.pass.value ==>
                  k in Creds(c, y) && Creds(d, y)[k] == Creds(c, y)[k])
            && d.passes[y.pass.value] == c.passes[y.pass.value] && d.history[y.pass.value] == c.history[y.pass.value]
  {
    OwnPassStands(c, x, y);
    CommittingParts(c, x);
    OwnRowsAfterCommit(c, x, y);
    CredsAfterCommit(c, x, y);
  }

  lemma OwnPassStands(c: Committed, x: Txn, y: Txn)
    requires Histories(c) && Complete(c, x) && Separate(x, y) && y.pass.Some? && y.pass.value in c.passes
    ensures var d := Committing(c, x);
            y.pass.value in d.passes && y.pass.value in d.history && y.pass.value in c.history
            && d.passes[y.pass.value] == c.passes[y.pass.value] && d.history[y.pass.value] == c.history[y.pass.value]
  {
  }

  lemma CommitKeepsLocksOfOthers(c: Committed, x: Txn, y: Txn)
    requires CommittedOk(c) && TxnOk(c, x) && TxnOk(c, y) && Complete(c, x) && Separate(x, y)
    ensures UnderLock(Committing(c, x), y) && CredsOk(Committing(c, x), y)
    ensures ChangesOk(Committing(c, x), y)
  {
    SeenAfterCommit(c, x, y);
    CommittedHistories(c, x);
    if y.pass.Some? {
      OwnAfterCommit(c, x, y);
    }
  }

  lemma CommitKeepsRowsOfOthers(c: Committed, x: Txn, y: Txn)
    requires CommittedOk(c) && TxnOk(c, x) && TxnOk(c, y) && Complete(c, x) && Separate(x, y)
    ensures RowsOk(Committing(c, x), y)
  {
    var d := Committing(c, x);
    SeenAfterCommit(c, x, y);
    CommittingParts(c, x);
    CommittedHistories(c, x);
    CommittedRows(c, x);
    CommittedPasses(c, x);
    forall k | k in y.newRows ensures WrittenOk(d, y, k, y.newRows[k]) {
      assert WrittenOk(c, y, k, y.newRows[k]);
      OtherRowStands(c, d, y, k, y.newRows[k]);
    }
  }

  lemma CommittedPasses(c: Committed, x: Txn)
    requires Complete(c, x) && c.passes.Keys <= c.history.Keys
    ensures forall p :: p in c.passes ==>
              p in Committing(c, x).passes && Committing(c, x).passes[p].garages == c.passes[p].garages
  {
  }

  /** A row written beside another's commit: still known, still over if its pass now is. */
  lemma OtherRowStands(c: Committed, d: Committed, y: Txn, k: RowId, row: Row)
    requires WrittenOk(c, y, k, row) && RowsOver(d) && (k in c.rows <==> k in d.rows) && (k in c.rows ==> d.rows[k] == c.rows[k])
    requires forall p :: p in c.passes ==> p in d.passes && d.passes[p].garages == c.passes[p].garages
    requires y.pass == Some(row.pass) ==>
               d.passes[row.pass] == c.passes[row.pass]
               && (IsRevoked(c, row.pass) && row.pass in c.revokedOn ==>
                     row.pass in d.revokedOn && d.revokedOn[row.pass] == c.revokedOn[row.pass])
    ensures WrittenOk(d, y, k, row)
  {
    if k in d.rows {
      assert RowKnown(d, d.rows[k]) && RowOver(d, d.rows[k]);
    }
  }

  lemma CommitKeepsClaimsOfOthers(c: Committed, x: Txn, y: Txn)
    requires CommittedOk(c) && TxnOk(c, x) && TxnOk(c, y) && Complete(c, x) && Separate(x, y)
    ensures ClaimsOk(Committing(c, x), y)
  {
    var d := Committing(c, x);
    SeenAfterCommit(c, x, y);
    CommittedHistories(c, x);
    forall k | k in y.claims
      ensures k in Rows(d, y) && SameRow(y.claims[k], Rows(d, y)[k])
      ensures y.pass == Some(y.claims[k].pass) ==> RowOver(d, y.claims[k])
    {
      assert k in Rows(c, y) && SameRow(y.claims[k], Rows(c, y)[k]);
    }
  }

  lemma CommitKeepsRevocationsOfOthers(c: Committed, x: Txn, y: Txn)
    requires CommittedOk(c) && TxnOk(c, x) && TxnOk(c, y) && Complete(c, x) && Separate(x, y)
    ensures RevocationOk(Committing(c, x), y)
  {
    if y.revocation.Some? && y.pass.Some? {
      SeenAfterCommit(c, x, y);
      OwnAfterCommit(c, x, y);
    }
  }

  lemma {:induction false} EndByOthers(moves: seq<Move>, k: RowId, start: Held)
    requires forall i :: 0 <= i < |moves| ==> moves[i].row != k
    ensures EndBy(moves, k, start) == start
  {
    if moves != [] {
      EndByOthers(moves[..|moves| - 1], k, start);
    }
  }

  /** The rows under a transaction's moves did not change beneath them. */
  lemma MovesStand(c: Committed, d: Committed, y: Txn)
    requires MovesOk(c, y)
    requires forall k :: k in y.newRows ==> (k in c.rows <==> k in d.rows) && (k in c.rows ==> d.rows[k] == c.rows[k])
    ensures MovesOk(d, y)
  {
    forall k ensures EndBy(y.moves, k, HeldIn(d.rows, k)) == HeldIn(Rows(d, y), k) {
      assert EndBy(y.moves, k, HeldIn(c.rows, k)) == HeldIn(Rows(c, y), k);
      if k !in y.newRows {
        EndByOthers(y.moves, k, HeldIn(d.rows, k));
      }
    }
    forall i | 0 <= i < |y.moves|
      ensures AsRead(y.moves[i])
              && y.moves[i].before == EndBy(y.moves[..i], y.moves[i].row, HeldIn(d.rows, y.moves[i].row))
    {
      assert y.moves[i].row in y.newRows;
    }
  }

  lemma CommitKeepsMovesOfOthers(c: Committed, x: Txn, y: Txn)
    requires CommittedOk(c) && TxnOk(c, x) && TxnOk(c, y) && Complete(c, x) && Separate(x, y)
    ensures MovesOk(Committing(c, x), y)
  {
    SeenAfterCommit(c, x, y);
    MovesStand(c, Committing(c, x), y);
  }

  lemma CommitKeepsWritesOfOthers(c: Committed, x: Txn, y: Txn)
    requires CommittedOk(c) && TxnOk(c, x) && TxnOk(c, y) && Complete(c, x) && Separate(x, y)
    ensures WritingOk(Committing(c, x), y)
  {
    if y.writing.Some? {
      var d, s := Committing(c, x), y.writing.value;
      SeenAfterCommit(c, x, y);
      OwnAfterCommit(c, x, y);
      forall i | 0 <= i < |s.claims| ensures Fits(d, y, s.to, s.claims[i]) {
        assert Fits(c, y, s.to, s.claims[i]);
      }
    }
  }

  lemma CommitKeepsOthers(c: Committed, x: Txn, y: Txn)
    requires CommittedOk(c) && TxnOk(c, x) && TxnOk(c, y) && Complete(c, x) && Separate(x, y)
    ensures TxnOk(Committing(c, x), y)
  {
    CommitKeepsLocksOfOthers(c, x, y);
    CommitKeepsRowsOfOthers(c, x, y);
    CommitKeepsClaimsOfOthers(c, x, y);
    CommitKeepsRevocationsOfOthers(c, x, y);
    CommitKeepsMovesOfOthers(c, x, y);
    CommitKeepsWritesOfOthers(c, x, y);
  }

  // ------------------------------------------------------------------ every step

  lemma StepKeeps(db: Db, step: Step)
    requires Inv(db) && Enabled(db, step)
    ensures Inv(Next(db, step))
  {
    match step
    case Begin(t, op) => BeginKeeps(db, t, op);
    case Abort(t) => AbortKeeps(db, t);
    case Take(t, act) => TakeKeeps(db, t, act);
    case Commit(t) => CommitKeeps(db, t);
  }

  lemma BeginKeeps(db: Db, t: TxnId, op: Op)
    requires Inv(db) && Enabled(db, Begin(t, op))
    ensures Inv(Next(db, Begin(t, op)))
  {
    StartIsOk(db.c, op);
    StartIsApart(db, op);
  }

  lemma StartIsApart(db: Db, op: Op)
    ensures forall u :: u in db.txns ==> Separate(Start(op), db.txns[u]) && Separate(db.txns[u], Start(op))
  {
  }

  lemma AbortKeeps(db: Db, t: TxnId)
    requires Inv(db) && Enabled(db, Abort(t))
    ensures Inv(Next(db, Abort(t)))
  {
  }

  lemma CommitKeeps(db: Db, t: TxnId)
    requires Inv(db) && Enabled(db, Commit(t))
    ensures Inv(Next(db, Commit(t)))
  {
    CommitKeepsCommitted(db.c, db.txns[t]);
    forall u | u in db.txns && u != t ensures TxnOk(Committing(db.c, db.txns[t]), db.txns[u]) {
      CommitKeepsOthers(db.c, db.txns[t], db.txns[u]);
    }
  }

  lemma StartIsOk(c: Committed, op: Op)
    ensures TxnOk(c, Start(op))
  {
    assert Rows(c, Start(op)) == c.rows;
  }

  lemma TakeKeeps(db: Db, t: TxnId, act: Act)
    requires Inv(db) && Enabled(db, Take(t, act))
    ensures Inv(Next(db, Take(t, act)))
  {
    var x, y := db.txns[t], After(db.c, db.txns[t], act);
    ActKeeps(db.c, x, act);
    forall u | u in db.txns && u != t ensures Separate(y, db.txns[u]) && Separate(db.txns[u], y) {
      ActApart(db.c, x, db.txns[u], act);
    }
    OneTxnMoved(db, t, y);
  }

  lemma OneTxnMoved(db: Db, t: TxnId, y: Txn)
    requires Inv(db) && t in db.txns && TxnOk(db.c, y)
    requires forall u :: u in db.txns && u != t ==> Separate(y, db.txns[u]) && Separate(db.txns[u], y)
    ensures Inv(db.(txns := db.txns[t := y]))
  {
  }

  lemma {:induction false} RunKeeps(from: Db, steps: seq<Step>, to: Db)
    requires Inv(from) && Reaches(from, steps, to)
    ensures Inv(to)
    decreases |steps|
  {
    if steps != [] {
      var next :| Enabled(from, steps[0]) && next == Next(from, steps[0]) && Reaches(next, steps[1..], to);
      StepKeeps(from, steps[0]);
      RunKeeps(next, steps[1..], to);
    }
  }

  /** A register just created: passes as typed, nobody registered, nothing issued, nobody connected. */
  ghost predicate Empty(db: Db) {
    && db.txns == map[] && db.c.rows == map[] && db.c.creds == map[] && db.c.log == [] && db.c.asRead == []
    && db.c.history.Keys == db.c.passes.Keys
    && forall p :: p in db.c.passes ==> db.c.history[p] == [db.c.passes[p].state]
  }

  lemma EmptyIsOk(db: Db)
    requires Empty(db)
    ensures Inv(db)
  {
    forall p | p in db.c.passes ensures HistoryOk(db.c, p) {
    }
  }

  // ----------------------------------------------------------------- the theorems

  /** REVOKED IS SAFE, in every interleaving of revoking, redeeming, issuing, registering and
      ending: once a revocation is committed no enrolment on the pass is issued or redeemed,
      no holder link is issued, and no registration on it, at any of its garages, covers
      that garage's day of the revocation or any later day. */
  lemma RevokedIsSafe(start: Db, steps: seq<Step>, db: Db, p: PassId)
    requires Empty(start) && Reaches(start, steps, db) && IsRevoked(db.c, p)
    ensures forall k :: k in db.c.creds && db.c.creds[k].pass == p ==>
              match db.c.creds[k].kind
              case Enrolment => db.c.creds[k].state == Cancelled
              case HolderLink => db.c.creds[k].state != Issued
    ensures forall k :: k in db.c.rows && db.c.rows[k].pass == p ==>
              var row := db.c.rows[k];
              && row.garage in db.c.passes[p].garages
              && p in db.c.revokedOn && row.garage in db.c.revokedOn[p]
              && forall d :: db.c.revokedOn[p][row.garage] <= d ==> !Covers(row, d)
  {
    EmptyIsOk(start);
    RunKeeps(start, steps, db);
    forall k | k in db.c.rows && db.c.rows[k].pass == p
      ensures p in db.c.revokedOn && db.c.rows[k].garage in db.c.revokedOn[p]
      ensures db.c.rows[k].garage in db.c.passes[p].garages
      ensures forall d :: db.c.revokedOn[p][db.c.rows[k].garage] <= d ==> !Covers(db.c.rows[k], d)
    {
      assert RowKnown(db.c, db.c.rows[k]) && RowOver(db.c, db.c.rows[k]);
      EndedByCoversNothing(db.c.rows[k], db.c.revokedOn[p][db.c.rows[k].garage]);
    }
  }

  /** ... AND FOR EVER: nothing un-revokes a pass, and the days it was revoked on stand. */
  lemma {:induction false} RevokedForEver(from: Db, steps: seq<Step>, to: Db, p: PassId)
    requires Inv(from) && Reaches(from, steps, to) && IsRevoked(from.c, p)
    ensures IsRevoked(to.c, p)
    ensures p in from.c.revokedOn ==> p in to.c.revokedOn && to.c.revokedOn[p] == from.c.revokedOn[p]
    decreases |steps|
  {
    if steps != [] {
      var next :| Enabled(from, steps[0]) && next == Next(from, steps[0]) && Reaches(next, steps[1..], to);
      StepKeeps(from, steps[0]);
      if steps[0].Commit? {
        CommittedHistories(from.c, from.txns[steps[0].t]);
      }
      RevokedForEver(next, steps[1..], to, p);
    }
  }

  /** NO UPDATE IS LOST, with no lock on the other pass's rows. A turnover, a run-on and an
      end that are committed have moved every row they claimed, each from the very end it
      was read with, and no such move was ever made but as one of them. The committed moves
      of a row, in the order they were committed, lead from no row to the end it now has,
      each from exactly the end the one before it left. A turnover took the last day of a stay
      and no other, a release never replaced an end; and none but the run-on ever moved an end later, save the stay's end, which is not
      held to what it read: it can where the row was moved after it was read, and nowhere
      else. */
  lemma NoUpdateIsLost(start: Db, steps: seq<Step>, db: Db)
    requires Empty(start) && Reaches(start, steps, db)
    ensures forall k :: 0 <= k < |db.c.asRead| ==> AllMoved(db.c.log, db.c.asRead[k])
    ensures forall i :: 0 <= i < |db.c.log| && Guarded(db.c.log[i].how) ==> InSome(db.c.asRead, i)
    ensures forall k :: HeldIn(db.c.rows, k) == EndBy(db.c.log, k, NoRow)
    ensures forall i :: 0 <= i < |db.c.log| ==>
              var m := db.c.log[i];
              && m.before == EndBy(db.c.log[..i], m.row, NoRow)
              && (m.how == Releasing ==> m.before == RunsTo(None))
              && (m.how == RunningOn ==> Lengthens(m))
              && (m.how == TurningOver && m.read.Some? ==> m.wrote == Some(m.read.value - 1))
              && (m.how in {TurningOver, Releasing, Ending, Revoking} ==> Shortens(m))
              && (m.how == EndingStay && m.before == RunsTo(m.read) ==> Shortens(m))
  {
    EmptyIsOk(start);
    RunKeeps(start, steps, db);
  }

  /** A REFUSAL LEAVES NOTHING BEHIND: an operation that found a row moved has written
      nothing, holds nothing, and whether it then commits or not the tables are as they were. */
  lemma RefusedLeavesNothing(start: Db, steps: seq<Step>, db: Db, t: TxnId)
    requires Empty(start) && Reaches(start, steps, db) && t in db.txns && db.txns[t].refused
    ensures db.txns[t] == Refusing(db.txns[t])
    ensures Enabled(db, Commit(t)) && Next(db, Commit(t)).c == db.c && Next(db, Abort(t)).c == db.c
    ensures forall act :: !Enabled(db, Take(t, act))
  {
    EmptyIsOk(start);
    RunKeeps(start, steps, db);
    RefusedStandsStill(start, steps, db, t);
    NothingToCommit(db.c, db.txns[t].op);
  }

  lemma NothingToCommit(c: Committed, op: Op)
    requires c.passes.Keys <= c.history.Keys
    ensures var x := Start(op).(refused := true);
            && Complete(c, x) && Committing(c, x) == c && forall act :: !May(c, x, act)
  {
    var x := Start(op).(refused := true);
    assert Rows(c, x) == c.rows && Creds(c, x) == c.creds;
    assert c.log + [] == c.log && c.asRead + Shifted([], |c.log|) == c.asRead;
  }

  lemma {:induction false} RefusedStandsStill(from: Db, steps: seq<Step>, to: Db, t: TxnId)
    requires Reaches(from, steps, to) && t in to.txns && to.txns[t].refused
    requires t in from.txns && from.txns[t].refused ==> from.txns[t] == Refusing(from.txns[t])
    ensures to.txns[t] == Refusing(to.txns[t])
    decreases |steps|
  {
    if steps != [] {
      var next :| Enabled(from, steps[0]) && next == Next(from, steps[0]) && Reaches(next, steps[1..], to);
      RefusedStepWhole(from, steps[0], t);
      RefusedStandsStill(next, steps[1..], to, t);
    }
  }

  lemma RefusedStepWhole(from: Db, step: Step, t: TxnId)
    requires Enabled(from, step) && (t in from.txns && from.txns[t].refused ==> from.txns[t] == Refusing(from.txns[t]))
    ensures var next := Next(from, step);
            t in next.txns && next.txns[t].refused ==> next.txns[t] == Refusing(next.txns[t])
  {
    if step.Take? && step.t == t {
      RefusedOnlyWhole(from.c, from.txns[t], step.act);
    }
  }

  lemma RefusedOnlyWhole(c: Committed, x: Txn, act: Act)
    requires May(c, x, act) && (x.refused ==> x == Refusing(x))
    ensures After(c, x, act).refused ==> After(c, x, act) == Refusing(After(c, x, act))
  {
  }

  /** The step of such a write: the claimed row moved from the end it was read with, or the
      operation refused. */
  lemma AClaimMovesOrRefuses(start: Db, steps: seq<Step>, db: Db, t: TxnId)
    requires Empty(start) && Reaches(start, steps, db) && Enabled(db, Take(t, WriteNext))
    ensures var x, y := db.txns[t], Next(db, Take(t, WriteNext)).txns[t];
            var claim := NextClaim(x);
            if Rows(db.c, x)[claim.row].end != claim.read then y == Refusing(x)
            else |y.moves| == |x.moves| + 1 && MovedAsRead(y.moves[|x.moves|], x.writing.value.to, claim)
  {
    EmptyIsOk(start);
    RunKeeps(start, steps, db);
    WriteNextKeeps(db.c, db.txns[t]);
  }

  /** THE HISTORY IS A PATH: every stored history is allowed step by step, ends at the stored
      state, and nothing follows revoked. */
  lemma HistoryIsAPath(start: Db, steps: seq<Step>, db: Db, p: PassId)
    requires Empty(start) && Reaches(start, steps, db) && p in db.c.passes
    ensures p in db.c.history && History(db.c.history[p])
    ensures db.c.history[p][|db.c.history[p]| - 1] == db.c.passes[p].state
    ensures forall i :: 0 <= i < |db.c.history[p]| - 1 ==> db.c.history[p][i] != Revoked
  {
    EmptyIsOk(start);
    RunKeeps(start, steps, db);
    assert HistoryOk(db.c, p);
    var h := db.c.history[p];
    forall i | 0 <= i < |h| - 1 ensures h[i] != Revoked {
      assert h[i + 1] in Allowed(h[i]);
    }
  }

  // -------------------------------------------------------------------- deadlocks

  /** `t` asks for a pass or a credential that `u` has locked. */
  ghost predicate WaitsFor(db: Db, t: TxnId, u: TxnId) {
    && t in db.txns && u in db.txns && t != u
    && match db.txns[t].wants
       case Nothing => false
       case ThePass(p) => db.txns[u].pass == Some(p)
       case TheCred(k) => k in db.txns[u].creds || k in db.txns[u].newCreds
  }

  /** A wait is always for a pass, by a transaction that holds nothing, and what it waits
      for is waiting for no such lock itself: a credential is locked only under its pass. */
  lemma WhoWaitsHoldsNothing(db: Db, t: TxnId, u: TxnId)
    requires Inv(db) && WaitsFor(db, t, u)
    ensures db.txns[t].wants.ThePass? && db.txns[t] == Start(db.txns[t].op).(wants := db.txns[t].wants)
    ensures forall v :: !WaitsFor(db, u, v) && !WaitsFor(db, v, t)
  {
    var x, y := db.txns[t], db.txns[u];
    assert Separate(x, y);
    if x.wants.TheCred? {
      WhoWantsACredential(db, t, u);
    }
    forall v ensures !WaitsFor(db, u, v) {
      if WaitsFor(db, u, v) {
        assert y.pass.Some?;
        if y.wants.TheCred? {
          WhoWantsACredential(db, u, v);
        }
      }
    }
  }

  lemma WhoWantsACredential(db: Db, t: TxnId, u: TxnId)
    requires Inv(db) && t in db.txns && u in db.txns && t != u && db.txns[t].wants.TheCred?
    ensures !WaitsFor(db, t, u)
  {
    var k := db.txns[t].wants.cred;
    var y := db.txns[u];
    assert Separate(db.txns[t], y);
  }

  /** Each waits for the next. */
  ghost predicate WaitChain(db: Db, ts: seq<TxnId>) {
    |ts| > 1 ==> WaitsFor(db, ts[0], ts[1]) && WaitChain(db, ts[1..])
  }

  /** NO WAIT CYCLE among the pass and credential locks, in any reachable state: no chain of
      waits is ever longer than one wait. */
  lemma NoWaitCycle(start: Db, steps: seq<Step>, db: Db, ts: seq<TxnId>)
    requires Empty(start) && Reaches(start, steps, db) && WaitChain(db, ts)
    ensures |ts| <= 2
    ensures |ts| == 2 ==> ts[0] != ts[1]
  {
    EmptyIsOk(start);
    RunKeeps(start, steps, db);
    if |ts| >= 2 {
      SecondWait(db, ts);
      WhoWaitsHoldsNothing(db, ts[0], ts[1]);
    }
  }

  lemma SecondWait(db: Db, ts: seq<TxnId>)
    requires WaitChain(db, ts)
    ensures |ts| >= 3 ==> WaitsFor(db, ts[1], ts[2])
  {
    if |ts| >= 3 {
      assert WaitChain(db, ts[1..]);
    }
  }
}
