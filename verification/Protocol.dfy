/** The locking protocol: transactions at READ COMMITTED, interleaved step by step.

    A transaction is one operation of the store. It locks one pass (after at most an
    unlocked glimpse, which only says which pass), then that pass's credentials, and judges
    what it re-reads under them. Another pass's registration rows it reads and writes
    without that pass's lock. What it has written is its own until it commits, and no other
    transaction can write those rows meanwhile.

    A checkout-day turnover, a run-on and an end write several rows, each only as it was
    read: one found moved refuses the operation, which then leaves nothing written.

    The database's one-pass-per-garage constraint only ever aborts, and any transaction may
    abort at any step, so nothing here uses it. */
module Protocol {
  import opened Basics
  import opened States
  import opened Register

  type TxnId = nat
  type RowId = nat
  type CredId = nat

  datatype Kind = Enrolment | HolderLink
  datatype Cred = Cred(pass: PassId, kind: Kind, state: CredentialState)

  /** What a row's end day was, if there was a row. */
  datatype Held = NoRow | RunsTo(end: Option<Day>)

  datatype How = Inserting | TurningOver | Releasing | RunningOn | Ending | EndingStay | Revoking

  /** One row written: what it replaced, what the transaction had read, what it wrote. */
  datatype Move = Move(row: RowId, how: How, before: Held, read: Option<Day>, wrote: Option<Day>)

  /** A row, and the end day it was read with. */
  datatype Claim = Claim(row: RowId, read: Option<Day>)
  datatype Target = TurnOverTo(from: Day) | RunOnTo(until: Day) | EndTo(day: Day)

  /** Several rows written as read, the first of them the move at `first`. */
  datatype AsReadWrite = AsReadWrite(to: Target, claims: seq<Claim>, first: nat)

  /** `state` is on the pass's row, `history` in the table of its changes. */
  datatype Committed = Committed(
    passes: map<PassId, PassRow>, history: map<PassId, seq<State>>, creds: map<CredId, Cred>, rows: map<RowId, Row>,
    revokedOn: map<PassId, map<GarageId, Day>>, log: seq<Move>, asRead: seq<AsReadWrite>)

  /** Issues: whatever registers, mints, redeems or replaces. */
  datatype Op = Issues | Ends | EndsStay | Changes | Cancels
  datatype Want = Nothing | ThePass(pass: PassId) | TheCred(cred: CredId)

  /** A revocation's UPDATE of one garage: the rows its snapshot matched, not yet reached. */
  datatype Statement = NoStatement | At(garage: GarageId, left: set<RowId>)
  datatype Revocation = Revocation(days: map<GarageId, Day>, credsDone: bool, done: set<GarageId>, at: Statement)

  /** `writing`: rows being written as read; `asRead`: those that were, all of them. */
  datatype Txn = Txn(
    op: Op, pass: Option<PassId>, creds: set<CredId>, wants: Want, claims: map<RowId, Row>,
    changes: seq<State>, newCreds: map<CredId, Cred>, newRows: map<RowId, Row>, moves: seq<Move>,
    revocation: Option<Revocation>, writing: Option<AsReadWrite>, asRead: seq<AsReadWrite>, refused: bool)

  datatype Db = Db(c: Committed, txns: map<TxnId, Txn>)

  datatype Act =
    | AskPass(p: PassId) | GetPass | AskCred(k: CredId) | GetCred
    | Select | Read(r: RowId)
    | Insert(r: RowId, garage: GarageId, plate: string, from: Day, end: Option<Day>, why: Reason)
    | TurnOver(rows: seq<RowId>, plate: string, from: Day, end: Option<Day>)
    | Release(r: RowId, from: Day)
    | RunOn(rows: seq<RowId>, day: Day, until: Day)
    | End(rows: seq<RowId>, day: Day)
    | WriteNext | FinishWrite
    | EndStay(r: RowId, day: Day)
    | Mint(k: CredId, kind: Kind, startsOn: Day)
    | Spend(k: CredId)
    | Cancel(k: CredId)
    | ChangeState(to: State, days: map<GarageId, Day>)
    | CancelAll
    | StartGarage(g: GarageId)
    | EndRow(r: RowId)
    | FinishGarage

  datatype Step = Begin(t: TxnId, op: Op) | Take(t: TxnId, act: Act) | Commit(t: TxnId) | Abort(t: TxnId)

  // ------------------------------------------------------- what a transaction sees

  function Rows(c: Committed, x: Txn): map<RowId, Row> {
    c.rows + x.newRows
  }

  function Creds(c: Committed, x: Txn): map<CredId, Cred> {
    c.creds + x.newCreds
  }

  function StateSeen(c: Committed, x: Txn): State
    requires x.pass.Some? && x.pass.value in c.passes
  {
    if x.changes == [] then c.passes[x.pass.value].state else x.changes[|x.changes| - 1]
  }

  function PassSeen(c: Committed, x: Txn): PassRow
    requires x.pass.Some? && x.pass.value in c.passes
  {
    c.passes[x.pass.value].(state := StateSeen(c, x))
  }

  function HeldIn(rows: map<RowId, Row>, k: RowId): Held {
    if k in rows then RunsTo(rows[k].end) else NoRow
  }

  predicate Dead(k: Cred) {
    k.state == Cancelled || (k.kind == HolderLink && k.state == Redeemed)
  }

  predicate SameRow(a: Row, b: Row) {
    a.garage == b.garage && a.pass == b.pass && a.plate == b.plate && a.from == b.from
  }

  // -------------------------------------------------------------------- the steps

  function Start(op: Op): Txn {
    Txn(op, None, {}, Nothing, map[], [], map[], map[], [], None, None, [], false)
  }

  /** An operation refused: everything it wrote is taken back, and it goes no further. */
  function Refusing(x: Txn): Txn {
    Start(x.op).(refused := true)
  }

  /** Under its own pass's lock, waiting for nothing and with no write half done. */
  predicate Ready(c: Committed, x: Txn) {
    x.pass.Some? && x.pass.value in c.passes && x.wants == Nothing && x.writing.None?
  }

  predicate HasRead(c: Committed, x: Txn, rows: seq<RowId>) {
    && (forall i :: 0 <= i < |rows| ==> rows[i] in x.claims && rows[i] in Rows(c, x))
    && (forall i, j :: 0 <= i < j < |rows| ==> rows[i] != rows[j])
  }

  /** Every row of the plate found on a stay's last day, and no other. */
  predicate AreTheTurnover(c: Committed, x: Txn, rows: seq<RowId>, plate: string, from: Day, end: Option<Day>)
    requires x.pass.Some? && x.pass.value in c.passes
  {
    forall r :: r in x.claims ==>
      (r in rows <==> x.claims[r].pass in c.passes
                      && Judge(c.passes, x.pass.value, plate, from, end, x.claims[r]) == Verdict.TurnOver)
  }

  /** The stay's rows ending that day, one at every garage of the pass. */
  predicate AreTheStays(c: Committed, x: Txn, rows: seq<RowId>, day: Day)
    requires x.pass.Some? && x.pass.value in c.passes && HasRead(c, x, rows)
  {
    var p := x.pass.value;
    && (forall i :: 0 <= i < |rows| ==>
          var r := x.claims[rows[i]];
          r.pass == p && r.end == Some(day) && r.why == Some(AfterLastDay) && r.from < day)
    && (forall g :: g in c.passes[p].garages ==> exists i :: 0 <= i < |rows| && x.claims[rows[i]].garage == g)
  }

  /** Every row of the latest registration of a plate, the first of them judged. */
  predicate AreTheLatest(c: Committed, x: Txn, rows: seq<RowId>, day: Day)
    requires x.pass.Some? && HasRead(c, x, rows)
  {
    rows != [] &&
    var first := x.claims[rows[0]];
    && first.pass == x.pass.value && EndRefusal(first, day).None?
    && (forall r :: r in x.claims && OfPass(x.claims[r], first.pass, first.plate) ==>
          x.claims[r].from < first.from || (x.claims[r].from == first.from && first.garage <= x.claims[r].garage))
    && (forall r :: r in x.claims ==> (r in rows <==> SameRegistration(x.claims[r], first)))
  }

  predicate InTheMiddle(c: Committed, x: Txn) {
    && x.pass.Some? && x.pass.value in c.passes && x.wants == Nothing && x.writing.Some?
    && x.writing.value.first <= |x.moves| <= x.writing.value.first + |x.writing.value.claims|
  }

  /** The claim to be written next. */
  function NextClaim(x: Txn): Claim
    requires x.writing.Some? && x.writing.value.first <= |x.moves| < x.writing.value.first + |x.writing.value.claims|
  {
    x.writing.value.claims[|x.moves| - x.writing.value.first]
  }

  function HowOf(to: Target): How {
    match to
    case TurnOverTo(_) => TurningOver
    case RunOnTo(_) => RunningOn
    case EndTo(_) => Ending
  }

  function Retarget(to: Target, row: Row): Row {
    match to
    case TurnOverTo(from) => TurnedOver(row, from)
    case RunOnTo(until) => row.(end := Some(until))
    case EndTo(day) => row.(end := Some(day), why := Some(EndedByOwner))
  }

  function Claiming(x: Txn, to: Target, rows: seq<RowId>): Txn
    requires forall i :: 0 <= i < |rows| ==> rows[i] in x.claims
  {
    var claims := seq(|rows|, i requires 0 <= i < |rows| => Claim(rows[i], x.claims[rows[i]].end));
    x.(writing := Some(AsReadWrite(to, claims, |x.moves|)))
  }

  /** The conditions on what the transaction itself sees. */
  predicate May(c: Committed, x: Txn, act: Act) {
    match act
    case AskPass(p) => x.pass.None? && x.wants == Nothing && p in c.passes && !x.refused
    case GetPass => x.wants.ThePass?
    case AskCred(k) => Ready(c, x) && k in Creds(c, x) && Creds(c, x)[k].pass == x.pass.value
    case GetCred => x.wants.TheCred?
    case Select => Ready(c, x)
    case Read(r) => Ready(c, x) && r in Rows(c, x)
    case Insert(r, garage, plate, from, end, why) =>
      && Ready(c, x) && x.op == Issues && r !in Rows(c, x)
      && garage in c.passes[x.pass.value].garages && RefusedOnPass(PassSeen(c, x), from, end).None?
    case TurnOver(rows, plate, from, end) =>
      && Ready(c, x) && x.op == Issues && Registrable(StateSeen(c, x)) && HasRead(c, x, rows)
      && AreTheTurnover(c, x, rows, plate, from, end)
    case Release(r, from) =>
      && Ready(c, x) && x.op == Issues && Registrable(StateSeen(c, x)) && r in Rows(c, x) && r in x.claims
      && x.claims[r].pass in c.passes && Lapsed(c.passes, x.claims[r], from)
      && Rows(c, x)[r].end.None?
    case RunOn(rows, day, until) =>
      && Ready(c, x) && x.op == Issues && Registrable(StateSeen(c, x)) && HasRead(c, x, rows)
      && AreTheStays(c, x, rows, day) && day < until
    case End(rows, day) => Ready(c, x) && x.op == Ends && HasRead(c, x, rows) && AreTheLatest(c, x, rows, day)
    case WriteNext =>
      && InTheMiddle(c, x) && |x.moves| < x.writing.value.first + |x.writing.value.claims|
      && NextClaim(x).row in Rows(c, x)
    case FinishWrite => InTheMiddle(c, x) && |x.moves| == x.writing.value.first + |x.writing.value.claims|
    case EndStay(r, day) =>
      && Ready(c, x) && x.op == EndsStay && r in Rows(c, x) && r in x.claims
      && InForceAfter(x.claims[r], x.pass.value, day)
    case Mint(k, kind, startsOn) =>
      && Ready(c, x) && x.op == Issues && k !in Creds(c, x) && RefusedOnPass(PassSeen(c, x), startsOn, None).None?
    case Spend(k) =>
      && Ready(c, x) && x.op == Issues && Registrable(StateSeen(c, x)) && k in x.creds
      && k in Creds(c, x) && Creds(c, x)[k].state == Issued
    case Cancel(k) =>
      && Ready(c, x) && (x.op == Cancels || x.op == Issues) && k in x.creds
      && k in Creds(c, x) && Creds(c, x)[k].state != Cancelled
    case ChangeState(to, days) =>
      && Ready(c, x) && (x.op == Changes || (x.op == Issues && to == Active)) && x.changes == []
      && to in Allowed(StateSeen(c, x))
      && (to == Revoked ==> forall g :: g in c.passes[x.pass.value].garages ==> g in days)
    case CancelAll => Ready(c, x) && x.revocation.Some? && !x.revocation.value.credsDone
    case StartGarage(g) =>
      && Ready(c, x) && x.revocation.Some? && x.revocation.value.credsDone
      && x.revocation.value.at == NoStatement && g in x.revocation.value.days
    case EndRow(r) =>
      && Ready(c, x) && x.revocation.Some? && x.revocation.value.at.At? && r in x.revocation.value.at.left
      && r in Rows(c, x) && x.revocation.value.at.garage in x.revocation.value.days
    case FinishGarage =>
      && Ready(c, x) && x.revocation.Some? && x.revocation.value.at.At? && x.revocation.value.at.left == {}
  }

  /** The row an act writes, or would if it still ends as it was read. */
  predicate WritesRow(x: Txn, act: Act, r: RowId) {
    || ((act.Insert? || act.Release? || act.EndStay? || act.EndRow?) && act.r == r)
    || (act.WriteNext? && x.writing.Some?
        && x.writing.value.first <= |x.moves| < x.writing.value.first + |x.writing.value.claims| && NextClaim(x).row == r)
  }

  predicate WritesCred(c: Committed, x: Txn, act: Act, k: CredId) {
    || ((act.Mint? || act.Spend? || act.Cancel?) && act.k == k)
    || (act.CancelAll? && x.pass.Some? && k in Creds(c, x) && Creds(c, x)[k].pass == x.pass.value)
  }

  /** No other transaction is in the way: it holds what this one asks for, or has written
      the same row and not committed. */
  predicate Unhindered(x: Txn, y: Txn, c: Committed, act: Act) {
    && (act.GetPass? && x.wants.ThePass? ==> y.pass != Some(x.wants.pass))
    && (act.GetCred? && x.wants.TheCred? ==> x.wants.cred !in y.creds && x.wants.cred !in y.newCreds)
    && (forall r :: r in y.newRows ==> !WritesRow(x, act, r))
    && (forall k :: k in y.newCreds ==> !WritesCred(c, x, act, k)) && (forall k :: k in y.creds ==> !WritesCred(c, x, act, k))
  }

  function Writing(c: Committed, x: Txn, r: RowId, row: Row, how: How, read: Option<Day>): Txn {
    x.(newRows := x.newRows[r := row], moves := x.moves + [Move(r, how, HeldIn(Rows(c, x), r), read, row.end)])
  }

  /** Every outstanding credential of the pass, cancelled. */
  function AllCancelled(c: Committed, x: Txn, p: PassId): map<CredId, Cred> {
    map k | k in Creds(c, x) && (k in x.newCreds || (Creds(c, x)[k].pass == p && !Dead(Creds(c, x)[k]))) ::
      if Creds(c, x)[k].pass == p && !Dead(Creds(c, x)[k]) then Creds(c, x)[k].(state := Cancelled) else Creds(c, x)[k]
  }

  predicate Runs(r: Row, p: PassId, g: GarageId, day: Day) {
    r.pass == p && r.garage == g && !EndedBy(r, day)
  }

  function After(c: Committed, x: Txn, act: Act): Txn
    requires May(c, x, act)
  {
    match act
    case AskPass(p) => x.(wants := ThePass(p))
    case GetPass => x.(wants := Nothing, pass := Some(x.wants.pass))
    case AskCred(k) => x.(wants := TheCred(k))
    case GetCred => x.(wants := Nothing, creds := x.creds + {x.wants.cred})
    case Select => x.(claims := map[])
    case Read(r) => x.(claims := x.claims[r := Rows(c, x)[r]])
    case Insert(r, garage, plate, from, end, why) =>
      Writing(c, x, r, NewRow(x.pass.value, plate, from, end, why, garage), Inserting, None)
    case TurnOver(rows, _, from, _) => Claiming(x, TurnOverTo(from), rows)
    case Release(r, from) =>
      Writing(c, x, r, Released(Rows(c, x)[r], c.passes[x.claims[r].pass].validTo.value), Releasing, x.claims[r].end)
    case RunOn(rows, _, until) => Claiming(x, RunOnTo(until), rows)
    case End(rows, day) => Claiming(x, EndTo(day), rows)
    case WriteNext =>
      var claim, to := NextClaim(x), x.writing.value.to;
      if Rows(c, x)[claim.row].end != claim.read then Refusing(x)
      else Writing(c, x, claim.row, Retarget(to, Rows(c, x)[claim.row]), HowOf(to), claim.read)
    case FinishWrite => x.(writing := None, asRead := x.asRead + [x.writing.value])
    case EndStay(r, day) =>
      Writing(c, x, r, Rows(c, x)[r].(end := Some(Max(day, Rows(c, x)[r].from)), why := Some(ByCheckout)), EndingStay,
              x.claims[r].end)
    case Mint(k, kind, _) => x.(newCreds := x.newCreds[k := Cred(x.pass.value, kind, Issued)])
    case Spend(k) => x.(newCreds := x.newCreds[k := Creds(c, x)[k].(state := Redeemed)])
    case Cancel(k) => x.(newCreds := x.newCreds[k := Creds(c, x)[k].(state := Cancelled)])
    case ChangeState(to, days) =>
      x.(changes := x.changes + [to],
         revocation := if to == Revoked then Some(Revocation(days, false, {}, NoStatement)) else x.revocation)
    case CancelAll =>
      x.(newCreds := AllCancelled(c, x, x.pass.value), revocation := Some(x.revocation.value.(credsDone := true)))
    case StartGarage(g) =>
      var left := set r | r in Rows(c, x) && Runs(Rows(c, x)[r], x.pass.value, g, x.revocation.value.days[g]);
      x.(revocation := Some(x.revocation.value.(at := At(g, left))))
    case EndRow(r) =>
      var rv := x.revocation.value;
      var row, day := Rows(c, x)[r], rv.days[rv.at.garage];
      var reached := x.(revocation := Some(rv.(at := rv.at.(left := rv.at.left - {r}))));
      if EndedBy(row, day) then reached
      else Writing(c, reached, r, row.(end := Some(Max(day, row.from)), why := Some(ByRevocation)), Revoking, row.end)
    case FinishGarage =>
      var rv := x.revocation.value;
      x.(revocation := Some(rv.(done := rv.done + {rv.at.garage}, at := NoStatement)))
  }

  /** It commits only when every statement of it has been carried out. */
  predicate Complete(c: Committed, x: Txn) {
    x.wants == Nothing && x.writing.None?
    && (x.pass.Some? ==> x.pass.value in c.passes)
    && (x.revocation.Some? ==>
          && x.pass.Some? && x.revocation.value.credsDone && x.revocation.value.at == NoStatement
          && forall g :: g in c.passes[x.pass.value].garages ==> g in x.revocation.value.done)
  }

  /** The same writes, placed after `n` moves. */
  function Shifted(asRead: seq<AsReadWrite>, n: nat): (out: seq<AsReadWrite>)
    ensures |out| == |asRead| && forall i :: 0 <= i < |out| ==> out[i] == asRead[i].(first := asRead[i].first + n)
  {
    seq(|asRead|, i requires 0 <= i < |asRead| => asRead[i].(first := asRead[i].first + n))
  }

  function Committing(c: Committed, x: Txn): Committed
    requires Complete(c, x) && c.passes.Keys <= c.history.Keys
  {
    var written := c.(creds := Creds(c, x), rows := Rows(c, x), log := c.log + x.moves,
                        asRead := c.asRead + Shifted(x.asRead, |c.log|));
    if x.pass.None? || x.changes == [] then written
    else
      var p := x.pass.value;
      written.(passes := c.passes[p := PassSeen(c, x)], history := c.history[p := c.history[p] + x.changes],
               revokedOn := if x.revocation.Some? then c.revokedOn[p := x.revocation.value.days] else c.revokedOn)
  }

  predicate Enabled(db: Db, step: Step) {
    match step
    case Begin(t, _) => t !in db.txns
    case Take(t, act) =>
      && t in db.txns && May(db.c, db.txns[t], act)
      && forall u :: u in db.txns && u != t ==> Unhindered(db.txns[t], db.txns[u], db.c, act)
    case Commit(t) => t in db.txns && Complete(db.c, db.txns[t]) && db.c.passes.Keys <= db.c.history.Keys
    case Abort(t) => t in db.txns
  }

  function Next(db: Db, step: Step): Db
    requires Enabled(db, step)
  {
    match step
    case Begin(t, op) => db.(txns := db.txns[t := Start(op)])
    case Take(t, act) => db.(txns := db.txns[t := After(db.c, db.txns[t], act)])
    case Commit(t) => Db(Committing(db.c, db.txns[t]), db.txns - {t})
    case Abort(t) => db.(txns := db.txns - {t})
  }

  ghost predicate Reaches(from: Db, steps: seq<Step>, to: Db)
    decreases |steps|
  {
    if steps == [] then to == from
    else exists next :: Enabled(from, steps[0]) && next == Next(from, steps[0]) && Reaches(next, steps[1..], to)
  }
}
