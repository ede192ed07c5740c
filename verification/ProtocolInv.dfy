/** What every step of the protocol keeps. */
module ProtocolInv {
  import opened Basics
  import opened States
  import opened Register
  import opened Protocol

  // -------------------------------------------------------------- what is committed

  predicate IsRevoked(c: Committed, p: PassId) {
    p in c.passes && c.passes[p].state == Revoked
  }

  /** A row of a revoked pass covers nothing from its garage's day of the revocation. */
  predicate RowOver(c: Committed, r: Row) {
    IsRevoked(c, r.pass) ==>
      r.pass in c.revokedOn && r.garage in c.revokedOn[r.pass] && EndedBy(r, c.revokedOn[r.pass][r.garage])
  }

  predicate RowKnown(c: Committed, r: Row) {
    r.pass in c.passes && r.garage in c.passes[r.pass].garages
  }

  /** The end a list of moves leaves a row with, from what it was before them. */
  function EndBy(moves: seq<Move>, k: RowId, start: Held): Held {
    if moves == [] then start
    else
      var last := moves[|moves| - 1];
      if last.row == k then RunsTo(last.wrote) else EndBy(moves[..|moves| - 1], k, start)
  }

  /** Written as read: the move replaced the very end day its transaction had read. A turnover
      takes the last day of a stay and no other, and a run-on only adds days. */
  predicate AsRead(m: Move) {
    && (m.how == Inserting ==> m.before == NoRow)
    && (m.how == TurningOver || m.how == RunningOn || m.how == Ending ==> m.before == RunsTo(m.read))
    && (m.how == Releasing ==> m.before == RunsTo(None))
    && (m.how == RunningOn ==> Lengthens(m))
    && (m.how == TurningOver && m.read.Some? ==> m.wrote == Some(m.read.value - 1))
    && (m.how == TurningOver || m.how == Releasing || m.how == Ending || m.how == Revoking ==> Shortens(m))
    && (m.how == EndingStay && m.before == RunsTo(m.read) ==> Shortens(m))
  }

  predicate Shortens(m: Move) {
    m.before.RunsTo? && m.wrote.Some? && (m.before.end.Some? ==> m.wrote.value <= m.before.end.value)
  }

  predicate Lengthens(m: Move) {
    m.before.RunsTo? && m.before.end.Some? && m.wrote.Some? && m.before.end.value < m.wrote.value
  }

  /** Each move replaced what the moves before it left. */
  ghost predicate Linked(moves: seq<Move>, rows: map<RowId, Row>) {
    forall i :: 0 <= i < |moves| ==>
      AsRead(moves[i]) && moves[i].before == EndBy(moves[..i], moves[i].row, HeldIn(rows, moves[i].row))
  }

  /** The history of the pass is a path that ends at its stored state. */
  ghost predicate HistoryOk(c: Committed, p: PassId) {
    && p in c.history && p in c.passes
    && History(c.history[p]) && c.history[p][|c.history[p]| - 1] == c.passes[p].state
  }

  ghost predicate Histories(c: Committed) {
    && c.passes.Keys == c.history.Keys
    && forall p :: p in c.passes ==> HistoryOk(c, p)
  }

  ghost predicate CredsDead(c: Committed) {
    forall k :: k in c.creds ==>
      c.creds[k].pass in c.passes && (IsRevoked(c, c.creds[k].pass) ==> Dead(c.creds[k]))
  }

  ghost predicate RowsOver(c: Committed) {
    forall k :: k in c.rows ==> RowKnown(c, c.rows[k]) && RowOver(c, c.rows[k])
  }

  ghost predicate LogLinked(c: Committed) {
    Linked(c.log, map[]) && forall k :: EndBy(c.log, k, NoRow) == HeldIn(c.rows, k)
  }

  predicate Guarded(how: How) {
    how == TurningOver || how == RunningOn || how == Ending
  }

  /** The move wrote the claimed row from exactly the end it was read with. */
  predicate MovedAsRead(m: Move, to: Target, claim: Claim) {
    m.row == claim.row && m.how == HowOf(to) && m.read == claim.read && m.before == RunsTo(claim.read)
  }

  /** Every row claimed was moved, one after another, from the end it was read with. */
  ghost predicate AllMoved(moves: seq<Move>, s: AsReadWrite) {
    && s.first + |s.claims| <= |moves|
    && (forall i :: 0 <= i < |s.claims| ==> MovedAsRead(moves[s.first + i], s.to, s.claims[i]))
    && (forall i, j :: 0 <= i < j < |s.claims| ==> s.claims[i].row != s.claims[j].row)
  }

  predicate Within(s: AsReadWrite, i: nat) {
    s.first <= i < s.first + |s.claims|
  }

  ghost predicate InSome(asRead: seq<AsReadWrite>, i: nat) {
    exists k :: 0 <= k < |asRead| && Within(asRead[k], i)
  }

  /** Such writes are carried out whole, and there is no such move outside one. */
  ghost predicate Whole(moves: seq<Move>, asRead: seq<AsReadWrite>) {
    && (forall k :: 0 <= k < |asRead| ==> AllMoved(moves, asRead[k]))
    && (forall i :: 0 <= i < |moves| && Guarded(moves[i].how) ==> InSome(asRead, i))
  }

  ghost predicate CommittedOk(c: Committed) {
    Histories(c) && CredsDead(c) && RowsOver(c) && LogLinked(c) && Whole(c.log, c.asRead)
  }

  // -------------------------------------------------------------- one transaction

  /** It holds credentials, and has read and written, only under its pass's lock. */
  ghost predicate UnderLock(c: Committed, x: Txn) {
    && (x.wants.ThePass? ==> x.pass.None? && x.wants.pass in c.passes && !x.refused)
    && (x.wants.TheCred? ==>
          x.pass.Some? && x.wants.cred in Creds(c, x) && Creds(c, x)[x.wants.cred].pass == x.pass.value)
    && (x.pass.Some? ==> x.pass.value in c.passes)
    && (x.pass.None? ==> x.(wants := Nothing, refused := false) == Start(x.op))
    && (forall k :: k in x.creds ==> x.pass.Some? && k in Creds(c, x) && Creds(c, x)[k].pass == x.pass.value)
  }

  ghost predicate CredsOk(c: Committed, x: Txn) {
    forall k :: k in x.newCreds ==>
      && x.pass == Some(x.newCreds[k].pass)
      && (k in c.creds ==> c.creds[k].pass == x.newCreds[k].pass)
      && (IsRevoked(c, x.newCreds[k].pass) ==> Dead(x.newCreds[k]))
  }

  /** Another pass's row is only ever shortened, a new row is this pass's. */
  predicate WrittenOk(c: Committed, x: Txn, k: RowId, row: Row) {
    && RowKnown(c, row) && RowOver(c, row)
    && (k !in c.rows ==> x.pass == Some(row.pass))
    && (k in c.rows ==>
          && SameRow(row, c.rows[k])
          && (x.pass != Some(row.pass) ==>
                row.end.Some? && (c.rows[k].end.Some? ==> row.end.value <= c.rows[k].end.value)))
  }

  ghost predicate RowsOk(c: Committed, x: Txn) {
    forall k :: k in x.newRows ==> WrittenOk(c, x, k, x.newRows[k])
  }

  ghost predicate ClaimsOk(c: Committed, x: Txn) {
    forall k :: k in x.claims ==>
      && k in Rows(c, x) && SameRow(x.claims[k], Rows(c, x)[k])
      && (x.pass == Some(x.claims[k].pass) ==> RowOver(c, x.claims[k]))
  }

  ghost predicate ChangesOk(c: Committed, x: Txn) {
    && (x.pass.Some? && x.pass.value in c.history ==> History(c.history[x.pass.value] + x.changes))
    && |x.changes| <= 1
    && (x.revocation.Some? <==> x.changes == [Revoked])
  }

  /** A statement that has run has left nothing behind it. */
  ghost predicate RevocationOk(c: Committed, x: Txn) {
    x.revocation.Some? && x.pass.Some? && x.pass.value in c.passes ==>
      var rv, p := x.revocation.value, x.pass.value;
      && x.op == Changes
      && (forall g :: g in c.passes[p].garages ==> g in rv.days)
      && (rv.at.At? ==> rv.credsDone && rv.at.garage in rv.days && rv.at.left <= Rows(c, x).Keys)
      && (rv.done <= rv.days.Keys) && (rv.done != {} ==> rv.credsDone)
      && (rv.credsDone ==> forall k :: k in Creds(c, x) && Creds(c, x)[k].pass == p ==> Dead(Creds(c, x)[k]))
      && (forall k :: k in Rows(c, x) && Rows(c, x)[k].pass == p && Rows(c, x)[k].garage in rv.done ==>
            EndedBy(Rows(c, x)[k], rv.days[Rows(c, x)[k].garage]))
      && (rv.at.At? ==> forall k :: k in Rows(c, x) && Runs(Rows(c, x)[k], p, rv.at.garage, rv.days[rv.at.garage]) ==>
            k in rv.at.left)
  }

  ghost predicate MovesOk(c: Committed, x: Txn) {
    && Linked(x.moves, c.rows)
    && (forall i :: 0 <= i < |x.moves| ==> x.moves[i].row in x.newRows)
    && forall k :: EndBy(x.moves, k, HeldIn(c.rows, k)) == HeldIn(Rows(c, x), k)
  }

  /** What writing the claimed row, if it still ends as it was read, will come to. */
  predicate Fits(c: Committed, x: Txn, to: Target, claim: Claim) {
    claim.row in Rows(c, x) &&
    var row := Rows(c, x)[claim.row];
    match to
    case TurnOverTo(from) => claim.read.Some? ==> Max(from, row.from) == claim.read.value - 1
    case RunOnTo(until) => x.pass == Some(row.pass) && claim.read.Some? && claim.read.value < until
    case EndTo(day) => claim.read.Some? ==> day <= claim.read.value
  }

  ghost predicate WritingOk(c: Committed, x: Txn) {
    x.writing.Some? ==>
      && InTheMiddle(c, x) && x.revocation.None?
      && var s := x.writing.value;
         && (s.to.RunOnTo? ==> Registrable(StateSeen(c, x)))
         && (forall i :: 0 <= i < |s.claims| ==> Fits(c, x, s.to, s.claims[i]))
         && (forall i, j :: 0 <= i < j < |s.claims| ==> s.claims[i].row != s.claims[j].row)
         && (forall i :: 0 <= i < |x.moves| - s.first ==> MovedAsRead(x.moves[s.first + i], s.to, s.claims[i]))
  }

  /** The writes made as read so far, but for one that is under way. */
  ghost predicate WholeSoFar(x: Txn) {
    var before := if x.writing.Some? && x.writing.value.first <= |x.moves| then x.writing.value.first else |x.moves|;
    Whole(x.moves[..before], x.asRead)
  }

  ghost predicate TxnOk(c: Committed, x: Txn) {
    && UnderLock(c, x) && CredsOk(c, x) && RowsOk(c, x) && ClaimsOk(c, x) && ChangesOk(c, x)
    && RevocationOk(c, x) && MovesOk(c, x) && WritingOk(c, x) && WholeSoFar(x)
  }

  /** Two transactions hold no lock together, and have written no row together. */
  ghost predicate Separate(x: Txn, y: Txn) {
    && (x.pass.Some? ==> x.pass != y.pass)
    && (forall k :: k in x.newRows ==> k !in y.newRows)
    && (forall k :: k in x.newCreds ==> k !in y.newCreds)
  }

  ghost predicate Inv(db: Db) {
    && CommittedOk(db.c)
    && (forall t :: t in db.txns ==> TxnOk(db.c, db.txns[t]))
    && (forall t, u :: t in db.txns && u in db.txns && t != u ==> Separate(db.txns[t], db.txns[u]))
  }

  // ------------------------------------------------------------------ the states

  /** Nothing follows revoked. */
  lemma RevokedIsTheLast(c: Committed, x: Txn)
    requires Histories(c) && ChangesOk(c, x) && x.pass.Some? && x.pass.value in c.passes
    ensures IsRevoked(c, x.pass.value) ==> x.changes == []
  {
    var h := c.history[x.pass.value];
    assert HistoryOk(c, x.pass.value);
    if x.changes != [] {
      var all := h + x.changes;
      assert all[|h|] in Allowed(all[|h| - 1]);
    }
  }

  /** A pass that takes a registration is not revoked, before or in this transaction. */
  lemma RegistrableIsNotRevoked(c: Committed, x: Txn)
    requires CommittedOk(c) && TxnOk(c, x) && x.pass.Some? && x.pass.value in c.passes && Registrable(StateSeen(c, x))
    ensures !IsRevoked(c, x.pass.value)
    ensures x.revocation.None?
  {
    RevokedIsTheLast(c, x);
  }

  // ---------------------------------------------------------------- writing a row

  lemma SeenRowIsOver(c: Committed, x: Txn, k: RowId)
    requires RowsOver(c) && RowsOk(c, x) && k in Rows(c, x)
    ensures RowKnown(c, Rows(c, x)[k]) && RowOver(c, Rows(c, x)[k])
    ensures k !in c.rows ==> x.pass == Some(Rows(c, x)[k].pass)
    ensures k in c.rows ==> SameRow(Rows(c, x)[k], c.rows[k])
    ensures k in c.rows && x.pass != Some(Rows(c, x)[k].pass) && c.rows[k].end.Some? ==>
              Rows(c, x)[k].end.Some? && Rows(c, x)[k].end.value <= c.rows[k].end.value
  {
    if k in x.newRows {
      assert WrittenOk(c, x, k, x.newRows[k]);
    } else {
      assert RowKnown(c, c.rows[k]) && RowOver(c, c.rows[k]);
    }
  }

  /** Shortening a row it sees keeps everything that holds of one. */
  lemma ShorterRow(c: Committed, x: Txn, k: RowId, row: Row)
    requires RowsOver(c) && RowsOk(c, x) && k in Rows(c, x)
    requires SameRow(row, Rows(c, x)[k]) && row.end.Some?
    requires Rows(c, x)[k].end.Some? ==> row.end.value <= Rows(c, x)[k].end.value
    ensures WrittenOk(c, x, k, row)
  {
    SeenRowIsOver(c, x, k);
  }

  lemma OwnRow(c: Committed, x: Txn, k: RowId, row: Row)
    requires RowsOver(c) && RowsOk(c, x) && k in Rows(c, x)
    requires SameRow(row, Rows(c, x)[k]) && x.pass == Some(row.pass) && RowOver(c, row)
    ensures WrittenOk(c, x, k, row)
  {
    SeenRowIsOver(c, x, k);
  }

  lemma OneMoreMove(c: Committed, x: Txn, r: RowId, row: Row, how: How, read: Option<Day>)
    requires MovesOk(c, x)
    requires AsRead(Move(r, how, HeldIn(Rows(c, x), r), read, row.end))
    ensures MovesOk(c, Writing(c, x, r, row, how, read))
  {
    var y := Writing(c, x, r, row, how, read);
    assert Rows(c, y) == Rows(c, x)[r := row];
    assert y.moves[..|x.moves|] == x.moves;
    forall k ensures EndBy(y.moves, k, HeldIn(c.rows, k)) == HeldIn(Rows(c, y), k) {
      assert EndBy(x.moves, k, HeldIn(c.rows, k)) == HeldIn(Rows(c, x), k);
    }
    assert EndBy(x.moves, r, HeldIn(c.rows, r)) == HeldIn(Rows(c, x), r);
    LinkedOneMore(x.moves, y.moves[|x.moves|], c.rows);
  }

  lemma LinkedOneMore(moves: seq<Move>, m: Move, rows: map<RowId, Row>)
    requires Linked(moves, rows) && AsRead(m) && m.before == EndBy(moves, m.row, HeldIn(rows, m.row))
    ensures Linked(moves + [m], rows)
  {
    var all := moves + [m];
    assert all[..|moves|] == moves;
    forall i | 0 <= i < |all|
      ensures AsRead(all[i]) && all[i].before == EndBy(all[..i], all[i].row, HeldIn(rows, all[i].row))
    {
      if i < |moves| {
        assert all[..i] == moves[..i] && all[i] == moves[i];
      }
    }
  }

  lemma WritingClaims(c: Committed, x: Txn, r: RowId, row: Row, how: How, read: Option<Day>)
    requires ClaimsOk(c, x) && (r in Rows(c, x) ==> SameRow(row, Rows(c, x)[r]))
    ensures ClaimsOk(c, Writing(c, x, r, row, how, read))
  {
    var y := Writing(c, x, r, row, how, read);
    assert Rows(c, y) == Rows(c, x)[r := row];
    forall k | k in y.claims
      ensures k in Rows(c, y) && SameRow(y.claims[k], Rows(c, y)[k])
      ensures y.pass == Some(y.claims[k].pass) ==> RowOver(c, y.claims[k])
    {
      assert k in x.claims && SameRow(x.claims[k], Rows(c, x)[k]);
    }
  }

  lemma WritingRows(c: Committed, x: Txn, r: RowId, row: Row, how: How, read: Option<Day>)
    requires RowsOk(c, x) && WrittenOk(c, x, r, row)
    ensures RowsOk(c, Writing(c, x, r, row, how, read))
  {
    var y := Writing(c, x, r, row, how, read);
    forall k | k in y.newRows ensures WrittenOk(c, y, k, y.newRows[k]) {
      assert k != r ==> k in x.newRows && WrittenOk(c, x, k, x.newRows[k]);
    }
  }

  lemma WritingRest(c: Committed, x: Txn, r: RowId, row: Row, how: How, read: Option<Day>)
    requires UnderLock(c, x) && CredsOk(c, x) && ChangesOk(c, x) && x.pass.Some?
    ensures var y := Writing(c, x, r, row, how, read); UnderLock(c, y) && CredsOk(c, y) && ChangesOk(c, y)
  {
    assert Creds(c, Writing(c, x, r, row, how, read)) == Creds(c, x);
  }

  lemma OtherMoveKeepsWhole(moves: seq<Move>, asRead: seq<AsReadWrite>, m: Move)
    requires Whole(moves, asRead) && !Guarded(m.how)
    ensures Whole(moves + [m], asRead)
  {
    forall k | 0 <= k < |asRead| ensures AllMoved(moves + [m], asRead[k]) {
      assert AllMoved(moves, asRead[k]);
    }
  }

  lemma WritingWhole(c: Committed, x: Txn, r: RowId, row: Row, how: How, read: Option<Day>)
    requires WholeSoFar(x) && x.writing.None? && !Guarded(how)
    ensures WholeSoFar(Writing(c, x, r, row, how, read))
  {
    var y := Writing(c, x, r, row, how, read);
    assert x.moves[..|x.moves|] == x.moves && y.moves[..|y.moves|] == y.moves;
    OtherMoveKeepsWhole(x.moves, x.asRead, y.moves[|x.moves|]);
  }

  /** A write of one row, under the pass's lock, that is as it should be. */
  lemma WritingKeeps(c: Committed, x: Txn, r: RowId, row: Row, how: How, read: Option<Day>)
    requires TxnOk(c, x) && x.pass.Some? && x.revocation.None? && x.writing.None? && !Guarded(how)
    requires WrittenOk(c, x, r, row) && (r in Rows(c, x) ==> SameRow(row, Rows(c, x)[r]))
    requires AsRead(Move(r, how, HeldIn(Rows(c, x), r), read, row.end))
    ensures TxnOk(c, Writing(c, x, r, row, how, read))
  {
    OneMoreMove(c, x, r, row, how, read);
    WritingClaims(c, x, r, row, how, read);
    WritingRows(c, x, r, row, how, read);
    WritingRest(c, x, r, row, how, read);
    WritingWhole(c, x, r, row, how, read);
  }

  // -------------------------------------------------------------- writing as read

  lemma WriteNextFits(c: Committed, x: Txn, r: RowId, row: Row, how: How, read: Option<Day>)
    requires WritingOk(c, x) && x.writing.Some? && May(c, x, WriteNext)
    requires r in Rows(c, x) && SameRow(row, Rows(c, x)[r])
    requires NextClaim(x) == Claim(r, read) && how == HowOf(x.writing.value.to) && Rows(c, x)[r].end == read
    ensures WritingOk(c, Writing(c, x, r, row, how, read))
  {
    var y := Writing(c, x, r, row, how, read);
    var s := x.writing.value;
    assert Rows(c, y) == Rows(c, x)[r := row];
    forall i | 0 <= i < |s.claims| ensures Fits(c, y, s.to, s.claims[i]) {
      assert Fits(c, x, s.to, s.claims[i]);
    }
    forall i | 0 <= i < |y.moves| - s.first ensures MovedAsRead(y.moves[s.first + i], s.to, s.claims[i]) {
      if s.first + i < |x.moves| {
        assert MovedAsRead(x.moves[s.first + i], s.to, s.claims[i]) && y.moves[s.first + i] == x.moves[s.first + i];
      }
    }
  }

  /** The claimed row still ends as it was read: what is written of it. */
  lemma RetargetedRow(c: Committed, x: Txn)
    requires CommittedOk(c) && TxnOk(c, x) && May(c, x, WriteNext) && Rows(c, x)[NextClaim(x).row].end == NextClaim(x).read
    ensures var claim, to := NextClaim(x), x.writing.value.to;
            var row := Retarget(to, Rows(c, x)[claim.row]);
            && WrittenOk(c, x, claim.row, row) && SameRow(row, Rows(c, x)[claim.row])
            && AsRead(Move(claim.row, HowOf(to), HeldIn(Rows(c, x), claim.row), claim.read, row.end))
  {
    var claim, to := NextClaim(x), x.writing.value.to;
    assert Fits(c, x, to, claim);
    if to.RunOnTo? {
      RegistrableIsNotRevoked(c, x);
      OwnRow(c, x, claim.row, Retarget(to, Rows(c, x)[claim.row]));
    } else {
      ShorterRow(c, x, claim.row, Retarget(to, Rows(c, x)[claim.row]));
    }
  }

  /** A row written as read is written from exactly the end it was read with; one found
      moved since takes back everything the operation wrote. */
  lemma WriteNextKeeps(c: Committed, x: Txn)
    requires CommittedOk(c) && TxnOk(c, x) && May(c, x, WriteNext)
    ensures TxnOk(c, After(c, x, WriteNext))
    ensures var y := After(c, x, WriteNext); var claim := NextClaim(x);
            if Rows(c, x)[claim.row].end != claim.read then y == Refusing(x)
            else |y.moves| == |x.moves| + 1 && MovedAsRead(y.moves[|x.moves|], x.writing.value.to, claim)
  {
    var claim, to := NextClaim(x), x.writing.value.to;
    var seen := Rows(c, x)[claim.row];
    if seen.end != claim.read {
      RefusingIsOk(c, x);
    } else {
      RetargetedRow(c, x);
      WriteOne(c, x, claim.row, Retarget(to, seen), HowOf(to), claim.read);
    }
  }

  lemma WriteOne(c: Committed, x: Txn, r: RowId, row: Row, how: How, read: Option<Day>)
    requires TxnOk(c, x) && May(c, x, WriteNext) && NextClaim(x) == Claim(r, read) && how == HowOf(x.writing.value.to)
    requires WrittenOk(c, x, r, row) && r in Rows(c, x) && SameRow(row, Rows(c, x)[r]) && Rows(c, x)[r].end == read
    requires AsRead(Move(r, how, HeldIn(Rows(c, x), r), read, row.end))
    ensures TxnOk(c, Writing(c, x, r, row, how, read))
  {
    OneMoreMove(c, x, r, row, how, read);
    WritingClaims(c, x, r, row, how, read);
    WritingRows(c, x, r, row, how, read);
    WritingRest(c, x, r, row, how, read);
    WriteNextFits(c, x, r, row, how, read);
    StillWholeBefore(c, x, r, row, how, read);
  }

  lemma StillWholeBefore(c: Committed, x: Txn, r: RowId, row: Row, how: How, read: Option<Day>)
    requires InTheMiddle(c, x) && WholeSoFar(x)
    ensures WholeSoFar(Writing(c, x, r, row, how, read))
  {
    var y := Writing(c, x, r, row, how, read);
    assert y.moves[..x.writing.value.first] == x.moves[..x.writing.value.first];
  }

  lemma RefusingIsOk(c: Committed, x: Txn)
    ensures TxnOk(c, Refusing(x))
  {
    var y := Refusing(x);
    assert Rows(c, y) == c.rows && y.moves[..0] == [];
  }

  /** The last row written, the write is whole. */
  lemma FinishWriteKeeps(c: Committed, x: Txn)
    requires CommittedOk(c) && TxnOk(c, x) && May(c, x, FinishWrite)
    ensures TxnOk(c, After(c, x, FinishWrite))
  {
    OnlyTheWriteMoved(c, x, None, x.asRead + [x.writing.value]);
    LastClaimWritten(c, x);
  }

  lemma LastClaimWritten(c: Committed, x: Txn)
    requires WritingOk(c, x) && WholeSoFar(x) && May(c, x, FinishWrite)
    ensures WholeSoFar(x.(writing := None, asRead := x.asRead + [x.writing.value]))
  {
    WholeWithOneMore(x.moves, x.asRead, x.writing.value);
    assert x.moves[..|x.moves|] == x.moves;
  }

  lemma OnlyTheWriteMoved(c: Committed, x: Txn, writing: Option<AsReadWrite>, asRead: seq<AsReadWrite>)
    requires TxnOk(c, x) && x.pass.Some?
    ensures var y := x.(writing := writing, asRead := asRead);
            && UnderLock(c, y) && CredsOk(c, y) && RowsOk(c, y) && ClaimsOk(c, y) && ChangesOk(c, y)
            && RevocationOk(c, y) && MovesOk(c, y)
  {
    var y := x.(writing := writing, asRead := asRead);
    assert Rows(c, y) == Rows(c, x) && Creds(c, y) == Creds(c, x);
  }

  lemma WholeWithOneMore(moves: seq<Move>, asRead: seq<AsReadWrite>, s: AsReadWrite)
    requires s.first + |s.claims| == |moves| && AllMoved(moves, s) && Whole(moves[..s.first], asRead)
    ensures Whole(moves, asRead + [s])
  {
    var all := asRead + [s];
    forall k | 0 <= k < |all| ensures AllMoved(moves, all[k]) {
      if k < |asRead| {
        assert AllMoved(moves[..s.first], asRead[k]);
      }
    }
    forall i | 0 <= i < |moves| && Guarded(moves[i].how) ensures InSome(all, i) {
      if i < s.first {
        assert moves[..s.first][i] == moves[i];
        assert InSome(asRead, i);
        var k :| 0 <= k < |asRead| && Within(asRead[k], i);
        assert all[k] == asRead[k];
      } else {
        assert Within(all[|asRead|], i);
      }
    }
  }

  lemma ClaimingKeeps(c: Committed, x: Txn, to: Target, rows: seq<RowId>)
    requires TxnOk(c, x) && Ready(c, x) && x.revocation.None? && HasRead(c, x, rows)
    requires to.RunOnTo? ==> Registrable(StateSeen(c, x))
    requires forall i :: 0 <= i < |rows| ==> Fits(c, x, to, Claim(rows[i], x.claims[rows[i]].end))
    ensures TxnOk(c, Claiming(x, to, rows))
  {
    var y := Claiming(x, to, rows);
    OnlyTheWriteMoved(c, x, y.writing, x.asRead);
    assert Rows(c, y) == Rows(c, x);
    forall i | 0 <= i < |rows| ensures Fits(c, y, to, y.writing.value.claims[i]) {
      assert Fits(c, x, to, Claim(rows[i], x.claims[rows[i]].end));
    }
    assert x.moves[..|x.moves|] == x.moves;
  }

  lemma InsertKeeps(c: Committed, x: Txn, act: Act)
    requires CommittedOk(c) && TxnOk(c, x) && May(c, x, act) && act.Insert?
    ensures TxnOk(c, After(c, x, act))
  {
    RegistrableIsNotRevoked(c, x);
    var row := NewRow(x.pass.value, act.plate, act.from, act.end, act.why, act.garage);
    WritingKeeps(c, x, act.r, row, Inserting, None);
  }

  /** A checkout-day turnover claims every row on a stay's last day that it has read, and
      each will only be shortened. */
  lemma TurnOverKeeps(c: Committed, x: Txn, act: Act)
    requires CommittedOk(c) && TxnOk(c, x) && May(c, x, act) && act.TurnOver?
    ensures TxnOk(c, After(c, x, act))
  {
    RegistrableIsNotRevoked(c, x);
    forall i | 0 <= i < |act.rows|
      ensures Fits(c, x, TurnOverTo(act.from), Claim(act.rows[i], x.claims[act.rows[i]].end))
    {
      assert act.rows[i] in act.rows;
      assert SameRow(x.claims[act.rows[i]], Rows(c, x)[act.rows[i]]);
    }
    ClaimingKeeps(c, x, TurnOverTo(act.from), act.rows);
  }

  lemma ReleaseKeeps(c: Committed, x: Txn, act: Act)
    requires CommittedOk(c) && TxnOk(c, x) && May(c, x, act) && act.Release?
    ensures TxnOk(c, After(c, x, act))
  {
    RegistrableIsNotRevoked(c, x);
    var seen := Rows(c, x)[act.r];
    var row := Released(seen, c.passes[x.claims[act.r].pass].validTo.value);
    ShorterRow(c, x, act.r, row);
    WritingKeeps(c, x, act.r, row, Releasing, x.claims[act.r].end);
  }

  lemma RunOnKeeps(c: Committed, x: Txn, act: Act)
    requires CommittedOk(c) && TxnOk(c, x) && May(c, x, act) && act.RunOn?
    ensures TxnOk(c, After(c, x, act))
  {
    RegistrableIsNotRevoked(c, x);
    forall i | 0 <= i < |act.rows|
      ensures Fits(c, x, RunOnTo(act.until), Claim(act.rows[i], x.claims[act.rows[i]].end))
    {
      assert SameRow(x.claims[act.rows[i]], Rows(c, x)[act.rows[i]]);
    }
    ClaimingKeeps(c, x, RunOnTo(act.until), act.rows);
  }

  lemma EndKeeps(c: Committed, x: Txn, act: Act)
    requires CommittedOk(c) && TxnOk(c, x) && May(c, x, act) && act.End?
    ensures TxnOk(c, After(c, x, act))
  {
    forall i | 0 <= i < |act.rows|
      ensures Fits(c, x, EndTo(act.day), Claim(act.rows[i], x.claims[act.rows[i]].end))
    {
      assert act.rows[i] in act.rows && SameRegistration(x.claims[act.rows[i]], x.claims[act.rows[0]]);
    }
    ClaimingKeeps(c, x, EndTo(act.day), act.rows);
  }

  /** The one write with no guard: of a row read under the pass's lock, so if the pass is
      revoked the row read was already over, and its new end is no later than that. */
  lemma EndStayKeeps(c: Committed, x: Txn, act: Act)
    requires CommittedOk(c) && TxnOk(c, x) && May(c, x, act) && act.EndStay?
    ensures TxnOk(c, After(c, x, act))
  {
    var seen := Rows(c, x)[act.r];
    assert SameRow(x.claims[act.r], seen) && RowOver(c, x.claims[act.r]);
    var row := seen.(end := Some(Max(act.day, seen.from)), why := Some(ByCheckout));
    OwnRow(c, x, act.r, row);
    WritingKeeps(c, x, act.r, row, EndingStay, x.claims[act.r].end);
  }

  // --------------------------------------------------------- locks and credentials

  lemma LocksKeep(c: Committed, x: Txn, act: Act)
    requires CommittedOk(c) && TxnOk(c, x) && May(c, x, act)
    requires act.AskPass? || act.AskCred? || act.GetCred? || act.Select?
    ensures TxnOk(c, After(c, x, act))
  {
    LockedOrRead(c, x, act);
    LocksFrame(c, x, After(c, x, act));
  }

  lemma LockedOrRead(c: Committed, x: Txn, act: Act)
    requires UnderLock(c, x) && ClaimsOk(c, x) && May(c, x, act)
    requires act.AskPass? || act.AskCred? || act.GetCred? || act.Select?
    ensures UnderLock(c, After(c, x, act)) && ClaimsOk(c, After(c, x, act))
  {
    var y := After(c, x, act);
    assert Rows(c, y) == Rows(c, x) && Creds(c, y) == Creds(c, x);
  }

  /** Only locks and what was read moved: everything written stands. */
  lemma LocksFrame(c: Committed, x: Txn, y: Txn)
    requires TxnOk(c, x) && x.writing.None?
    requires y == x.(wants := y.wants, creds := y.creds, claims := y.claims)
    requires UnderLock(c, y) && ClaimsOk(c, y)
    ensures TxnOk(c, y)
  {
    assert Rows(c, y) == Rows(c, x) && Creds(c, y) == Creds(c, x);
  }

  /** Only the pass's state moved, and the revocation that goes with it. */
  lemma StatesFrame(c: Committed, x: Txn, y: Txn)
    requires TxnOk(c, x) && x.pass.Some? && x.writing.None?
    requires y == x.(changes := y.changes, revocation := y.revocation)
    requires ChangesOk(c, y) && RevocationOk(c, y)
    ensures TxnOk(c, y)
  {
    assert Rows(c, y) == Rows(c, x) && Creds(c, y) == Creds(c, x);
  }

  lemma GetPassKeeps(c: Committed, x: Txn)
    requires CommittedOk(c) && TxnOk(c, x) && May(c, x, GetPass)
    ensures TxnOk(c, After(c, x, GetPass))
  {
    var p := x.wants.pass;
    assert x.(wants := Nothing) == Start(x.op);
    assert p in c.history && c.history[p] + [] == c.history[p];
  }

  lemma ReadKeeps(c: Committed, x: Txn, act: Act)
    requires CommittedOk(c) && TxnOk(c, x) && May(c, x, act) && act.Read?
    ensures TxnOk(c, After(c, x, act))
  {
    var y := x.(claims := x.claims[act.r := Rows(c, x)[act.r]]);
    SeenRowIsOver(c, x, act.r);
    ReadClaims(c, x, act.r);
    ClaimsFrame(c, x, y);
    LocksFrame(c, x, y);
  }

  lemma ReadClaims(c: Committed, x: Txn, r: RowId)
    requires ClaimsOk(c, x) && r in Rows(c, x) && RowOver(c, Rows(c, x)[r])
    ensures ClaimsOk(c, x.(claims := x.claims[r := Rows(c, x)[r]]))
  {
    var y := x.(claims := x.claims[r := Rows(c, x)[r]]);
    assert Rows(c, y) == Rows(c, x);
  }

  lemma ClaimsFrame(c: Committed, x: Txn, y: Txn)
    requires UnderLock(c, x) && x.pass.Some? && y == x.(claims := y.claims)
    ensures UnderLock(c, y)
  {
    assert Creds(c, y) == Creds(c, x);
  }

  lemma SeenCredIsDead(c: Committed, x: Txn, k: CredId)
    requires CredsDead(c) && CredsOk(c, x) && k in Creds(c, x)
    ensures IsRevoked(c, Creds(c, x)[k].pass) ==> Dead(Creds(c, x)[k])
    ensures k in c.creds ==> Creds(c, x)[k].pass == c.creds[k].pass
  {
  }

  /** Only credentials of the pass written: everything about rows and states stands. */
  lemma CredsFrame(c: Committed, x: Txn, creds: map<CredId, Cred>)
    requires TxnOk(c, x) && x.newCreds.Keys <= creds.Keys
    ensures var y := x.(newCreds := creds);
            RowsOk(c, y) && ClaimsOk(c, y) && ChangesOk(c, y) && MovesOk(c, y) && Rows(c, y) == Rows(c, x) && WholeSoFar(y)
  {
  }

  lemma CredsUnderLock(c: Committed, x: Txn, creds: map<CredId, Cred>)
    requires UnderLock(c, x) && x.pass.Some? && x.newCreds.Keys <= creds.Keys
    requires forall k :: k in creds ==> creds[k].pass == x.pass.value
    requires CredsOk(c, x.(newCreds := creds))
    ensures UnderLock(c, x.(newCreds := creds))
  {
    var y := x.(newCreds := creds);
    forall k | k in Creds(c, x) && Creds(c, x)[k].pass == x.pass.value
      ensures k in Creds(c, y) && Creds(c, y)[k].pass == x.pass.value
    {
    }
  }

  lemma CredKeeps(c: Committed, x: Txn, k: CredId, cred: Cred)
    requires CommittedOk(c) && TxnOk(c, x) && x.pass == Some(cred.pass) && x.writing.None?
    requires k in Creds(c, x) ==> Creds(c, x)[k].pass == cred.pass && (Dead(Creds(c, x)[k]) ==> Dead(cred))
    requires IsRevoked(c, cred.pass) ==> Dead(cred)
    requires x.revocation.Some? && x.revocation.value.credsDone ==> Dead(cred)
    ensures TxnOk(c, x.(newCreds := x.newCreds[k := cred]))
  {
    var y := x.(newCreds := x.newCreds[k := cred]);
    CredsFrame(c, x, x.newCreds[k := cred]);
    assert CredsOk(c, y) by {
      if k in c.creds {
        SeenCredIsDead(c, x, k);
      }
    }
    CredsUnderLock(c, x, x.newCreds[k := cred]);
    CredProgress(c, x, k, cred);
  }

  lemma CredProgress(c: Committed, x: Txn, k: CredId, cred: Cred)
    requires RevocationOk(c, x)
    requires x.revocation.Some? && x.revocation.value.credsDone ==> Dead(cred)
    ensures RevocationOk(c, x.(newCreds := x.newCreds[k := cred]))
  {
    var y := x.(newCreds := x.newCreds[k := cred]);
    assert Rows(c, y) == Rows(c, x) && Creds(c, y) == Creds(c, x)[k := cred];
  }

  lemma CredentialsKeep(c: Committed, x: Txn, act: Act)
    requires CommittedOk(c) && TxnOk(c, x) && May(c, x, act) && (act.Mint? || act.Spend? || act.Cancel?)
    ensures TxnOk(c, After(c, x, act))
  {
    if act.Mint? {
      RegistrableIsNotRevoked(c, x);
      CredKeeps(c, x, act.k, Cred(x.pass.value, act.kind, Issued));
    } else {
      if act.Spend? { RegistrableIsNotRevoked(c, x); }
      var state := if act.Spend? then Redeemed else Cancelled;
      OwnCred(c, x, act.k);
      CredKeeps(c, x, act.k, Creds(c, x)[act.k].(state := state));
    }
  }

  lemma OwnCred(c: Committed, x: Txn, k: CredId)
    requires UnderLock(c, x) && k in x.creds
    ensures k in Creds(c, x) && x.pass == Some(Creds(c, x)[k].pass)
  {
  }

  // -------------------------------------------------------------------- revoking

  lemma ChangeStateKeeps(c: Committed, x: Txn, act: Act)
    requires CommittedOk(c) && TxnOk(c, x) && May(c, x, act) && act.ChangeState?
    ensures TxnOk(c, After(c, x, act))
  {
    var y := After(c, x, act);
    assert Rows(c, y) == Rows(c, x) && Creds(c, y) == Creds(c, x);
    assert y.changes == [act.to] && x.revocation.None?;
    HistoryGrows(c, x, act.to);
    StatesFrame(c, x, y);
  }

  lemma HistoryGrows(c: Committed, x: Txn, to: State)
    requires Histories(c) && Ready(c, x) && x.changes == [] && to in Allowed(StateSeen(c, x))
    ensures History(c.history[x.pass.value] + [to])
  {
    assert HistoryOk(c, x.pass.value);
  }

  lemma CancelAllCreds(c: Committed, x: Txn)
    requires CommittedOk(c) && TxnOk(c, x) && May(c, x, CancelAll)
    ensures var y := x.(newCreds := AllCancelled(c, x, x.pass.value));
            && CredsOk(c, y) && UnderLock(c, y)
            && forall k :: k in Creds(c, y) && Creds(c, y)[k].pass == x.pass.value ==> Dead(Creds(c, y)[k])
  {
    var creds := AllCancelled(c, x, x.pass.value);
    var y := x.(newCreds := creds);
    forall k | k in creds ensures creds[k].pass == x.pass.value && Dead(creds[k]) && k in Creds(c, x)
                          ensures k in c.creds ==> c.creds[k].pass == creds[k].pass {
      SeenCredIsDead(c, x, k);
    }
    CredsUnderLock(c, x, creds);
    forall k | k in Creds(c, y) && Creds(c, y)[k].pass == x.pass.value ensures Dead(Creds(c, y)[k]) {
      assert k in creds || (k in Creds(c, x) && Creds(c, y)[k] == Creds(c, x)[k]);
    }
  }

  lemma CancelAllKeeps(c: Committed, x: Txn)
    requires CommittedOk(c) && TxnOk(c, x) && May(c, x, CancelAll)
    ensures TxnOk(c, After(c, x, CancelAll))
  {
    var creds := AllCancelled(c, x, x.pass.value);
    var rv := x.revocation.value.(credsDone := true);
    CancelAllCreds(c, x);
    CredsFrame(c, x, creds);
    assert RevocationOk(c, x.(newCreds := creds).(revocation := Some(rv))) by {
      CancelAllProgress(c, x, creds, rv);
    }
    RevocationOnly(c, x, x.(newCreds := creds), rv);
  }

  lemma CancelAllProgress(c: Committed, x: Txn, creds: map<CredId, Cred>, rv: Revocation)
    requires RevocationOk(c, x) && x.revocation.Some? && x.pass.Some? && x.pass.value in c.passes
    requires rv == x.revocation.value.(credsDone := true)
    requires forall k :: k in Creds(c, x.(newCreds := creds)) && Creds(c, x.(newCreds := creds))[k].pass == x.pass.value ==>
               Dead(Creds(c, x.(newCreds := creds))[k])
    ensures RevocationOk(c, x.(newCreds := creds).(revocation := Some(rv)))
  {
    var y := x.(newCreds := creds).(revocation := Some(rv));
    assert Rows(c, y) == Rows(c, x) && Creds(c, y) == Creds(c, x.(newCreds := creds));
  }

  /** Only the revocation's own progress written. */
  lemma RevocationOnly(c: Committed, x: Txn, z: Txn, rv: Revocation)
    requires UnderLock(c, z) && CredsOk(c, z) && RowsOk(c, z) && ClaimsOk(c, z) && ChangesOk(c, z) && MovesOk(c, z)
    requires z.writing.None? && WholeSoFar(z)
    requires z.revocation.Some? && z.pass.Some?
    requires RevocationOk(c, z.(revocation := Some(rv)))
    ensures TxnOk(c, z.(revocation := Some(rv)))
  {
    var y := z.(revocation := Some(rv));
    assert Rows(c, y) == Rows(c, z) && Creds(c, y) == Creds(c, z);
  }

  lemma StartGarageKeeps(c: Committed, x: Txn, g: GarageId)
    requires CommittedOk(c) && TxnOk(c, x) && May(c, x, StartGarage(g))
    ensures TxnOk(c, After(c, x, StartGarage(g)))
  {
    StartProgress(c, x, g);
    RevocationOnly(c, x, x, After(c, x, StartGarage(g)).revocation.value);
  }

  lemma StartProgress(c: Committed, x: Txn, g: GarageId)
    requires RevocationOk(c, x) && May(c, x, StartGarage(g))
    ensures RevocationOk(c, After(c, x, StartGarage(g)))
  {
    var y := After(c, x, StartGarage(g));
    assert Rows(c, y) == Rows(c, x) && Creds(c, y) == Creds(c, x);
  }

  lemma FinishGarageKeeps(c: Committed, x: Txn)
    requires CommittedOk(c) && TxnOk(c, x) && May(c, x, FinishGarage)
    ensures TxnOk(c, After(c, x, FinishGarage))
  {
    FinishProgress(c, x);
    RevocationOnly(c, x, x, After(c, x, FinishGarage).revocation.value);
  }

  lemma FinishProgress(c: Committed, x: Txn)
    requires RevocationOk(c, x) && May(c, x, FinishGarage)
    ensures RevocationOk(c, After(c, x, FinishGarage))
  {
    var y := After(c, x, FinishGarage);
    assert Rows(c, y) == Rows(c, x) && Creds(c, y) == Creds(c, x);
  }

  lemma EndRowKeeps(c: Committed, x: Txn, r: RowId)
    requires CommittedOk(c) && TxnOk(c, x) && May(c, x, EndRow(r))
    ensures TxnOk(c, After(c, x, EndRow(r)))
  {
    var rv := x.revocation.value;
    var seen, day := Rows(c, x)[r], rv.days[rv.at.garage];
    var next := rv.(at := rv.at.(left := rv.at.left - {r}));
    if EndedBy(seen, day) {
      ReachedRowKeeps(c, x, r);
    } else {
      var row := seen.(end := Some(Max(day, seen.from)), why := Some(ByRevocation));
      ShorterRow(c, x, r, row);
      RevokedRowKeeps(c, x, r, row, next);
    }
  }

  /** A row that is over by then is left as it is. */
  lemma ReachedRowKeeps(c: Committed, x: Txn, r: RowId)
    requires TxnOk(c, x) && May(c, x, EndRow(r))
    requires EndedBy(Rows(c, x)[r], x.revocation.value.days[x.revocation.value.at.garage])
    ensures TxnOk(c, After(c, x, EndRow(r)))
  {
    var rv := x.revocation.value;
    var next := rv.(at := rv.at.(left := rv.at.left - {r}));
    ReachedProgress(c, x, r, next);
    RevocationOnly(c, x, x, next);
  }

  lemma ReachedProgress(c: Committed, x: Txn, r: RowId, next: Revocation)
    requires RevocationOk(c, x) && May(c, x, EndRow(r))
    requires var rv := x.revocation.value;
             EndedBy(Rows(c, x)[r], rv.days[rv.at.garage]) && next == rv.(at := rv.at.(left := rv.at.left - {r}))
    ensures RevocationOk(c, x.(revocation := Some(next)))
  {
    var y := x.(revocation := Some(next));
    assert Rows(c, y) == Rows(c, x) && Creds(c, y) == Creds(c, x);
  }

  lemma RevokedRowKeeps(c: Committed, x: Txn, r: RowId, row: Row, next: Revocation)
    requires TxnOk(c, x) && x.pass.Some? && x.revocation.Some? && x.revocation.value.at.At? && r in Rows(c, x) && x.writing.None?
    requires WrittenOk(c, x, r, row) && SameRow(row, Rows(c, x)[r])
    requires x.pass.value in c.passes && x.revocation.value.at.garage in x.revocation.value.days
    requires var rv := x.revocation.value; var seen, day := Rows(c, x)[r], rv.days[rv.at.garage];
             && !EndedBy(seen, day) && row.end == Some(Max(day, seen.from))
             && next == rv.(at := rv.at.(left := rv.at.left - {r}))
    ensures TxnOk(c, Writing(c, x.(revocation := Some(next)), r, row, Revoking, Rows(c, x)[r].end))
  {
    var z := Writing(c, x, r, row, Revoking, Rows(c, x)[r].end);
    OneMoreMove(c, x, r, row, Revoking, Rows(c, x)[r].end);
    WritingClaims(c, x, r, row, Revoking, Rows(c, x)[r].end);
    WritingRows(c, x, r, row, Revoking, Rows(c, x)[r].end);
    WritingRest(c, x, r, row, Revoking, Rows(c, x)[r].end);
    WritingWhole(c, x, r, row, Revoking, Rows(c, x)[r].end);
    RevokedRowProgress(c, x, r, row, next);
    RevocationOnly(c, x, z, next);
    assert Writing(c, x.(revocation := Some(next)), r, row, Revoking, Rows(c, x)[r].end) == z.(revocation := Some(next));
  }

  lemma RevokedRowProgress(c: Committed, x: Txn, r: RowId, row: Row, next: Revocation)
    requires RevocationOk(c, x) && x.pass.Some? && x.revocation.Some? && x.revocation.value.at.At? && r in Rows(c, x)
    requires SameRow(row, Rows(c, x)[r])
    requires x.pass.value in c.passes && x.revocation.value.at.garage in x.revocation.value.days
    requires var rv := x.revocation.value; var seen, day := Rows(c, x)[r], rv.days[rv.at.garage];
             && !EndedBy(seen, day) && row.end == Some(Max(day, seen.from))
             && next == rv.(at := rv.at.(left := rv.at.left - {r}))
    ensures RevocationOk(c, Writing(c, x, r, row, Revoking, Rows(c, x)[r].end).(revocation := Some(next)))
  {
    var y := Writing(c, x, r, row, Revoking, Rows(c, x)[r].end).(revocation := Some(next));
    assert Rows(c, y) == Rows(c, x)[r := row] && Creds(c, y) == Creds(c, x);
  }

  /** EVERY ACT keeps what holds of its transaction. */
  lemma ActKeeps(c: Committed, x: Txn, act: Act)
    requires CommittedOk(c) && TxnOk(c, x) && May(c, x, act)
    ensures TxnOk(c, After(c, x, act))
  {
    if WritesSomeRow(act) {
      RowActKeeps(c, x, act);
    } else if act.Mint? || act.Spend? || act.Cancel? {
      CredentialsKeep(c, x, act);
    } else if act.AskPass? || act.AskCred? || act.GetCred? || act.Select? {
      LocksKeep(c, x, act);
    } else {
      RestKeeps(c, x, act);
    }
  }

  predicate WritesSomeRow(act: Act) {
    || act.Insert? || act.TurnOver? || act.Release? || act.RunOn? || act.End? || act.EndStay? || act.EndRow?
    || act.WriteNext? || act.FinishWrite?
  }

  lemma RowActKeeps(c: Committed, x: Txn, act: Act)
    requires CommittedOk(c) && TxnOk(c, x) && May(c, x, act) && WritesSomeRow(act)
    ensures TxnOk(c, After(c, x, act))
  {
    if act.Insert? { InsertKeeps(c, x, act); }
    else if act.TurnOver? { TurnOverKeeps(c, x, act); }
    else if act.Release? { ReleaseKeeps(c, x, act); }
    else if act.RunOn? { RunOnKeeps(c, x, act); }
    else if act.End? { EndKeeps(c, x, act); }
    else if act.WriteNext? { WriteNextKeeps(c, x); }
    else if act.FinishWrite? { FinishWriteKeeps(c, x); }
    else if act.EndStay? { EndStayKeeps(c, x, act); }
    else { EndRowKeeps(c, x, act.r); }
  }

  lemma RestKeeps(c: Committed, x: Txn, act: Act)
    requires CommittedOk(c) && TxnOk(c, x) && May(c, x, act)
    requires act.GetPass? || act.Read? || act.ChangeState? || act.CancelAll? || act.StartGarage? || act.FinishGarage?
    ensures TxnOk(c, After(c, x, act))
  {
    if act.GetPass? { GetPassKeeps(c, x); }
    else if act.Read? { ReadKeeps(c, x, act); }
    else if act.ChangeState? { ChangeStateKeeps(c, x, act); }
    else if act.CancelAll? { CancelAllKeeps(c, x); }
    else if act.StartGarage? { StartGarageKeeps(c, x, act.g); }
    else { FinishGarageKeeps(c, x); }
  }
}
