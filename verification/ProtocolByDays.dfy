/** What each write of a transaction does to a row, told in days; and which rows it may claim. */
module ProtocolByDays {
  import opened Basics
  import opened States
  import opened Register
  import opened RegisterProofs
  import opened RegisterByDays
  import opened Protocol
  import ProtocolProofs

  /** Row `r` alone is written: its days are as told, its reason is, the rest of it stands. */
  ghost predicate Writes(rows: map<RowId, Row>, out: map<RowId, Row>, r: RowId, until: Option<Day>, why: Option<Reason>) {
    && r in rows && r in out && out == rows[r := out[r]] && SameRow(out[r], rows[r]) && out[r].why == why
    && forall d :: On(out[r], d) <==> rows[r].from <= d && (until.None? || d < until.value)
  }

  /** A new row: the pass of the transaction, one of its garages, and exactly the days asked for. */
  lemma InsertByDays(c: Committed, x: Txn, r: RowId, garage: GarageId, plate: string, from: Day, end: Option<Day>, why: Reason)
    requires May(c, x, Insert(r, garage, plate, from, end, why))
    ensures var rows, out := Rows(c, x), Rows(c, After(c, x, Insert(r, garage, plate, from, end, why)));
            && r !in rows && out == rows[r := out[r]] && garage in c.passes[x.pass.value].garages
            && out[r].pass == x.pass.value && out[r].garage == garage && out[r].plate == plate
            && forall d :: On(out[r], d) <==> from <= d && (end.None? || d < end.value)
  {
  }

  /** A row left open on a pass that has run out ends after its last day, if it is open still. */
  lemma ReleaseByDays(c: Committed, x: Txn, r: RowId, from: Day)
    requires May(c, x, Act.Release(r, from))
    ensures var rows, out := Rows(c, x), Rows(c, After(c, x, Act.Release(r, from)));
            && r in x.claims && x.claims[r].pass in c.passes && RunOut(c.passes, from, x.claims[r]) && rows[r].end.None?
            && Writes(rows, out, r, Some(c.passes[x.claims[r].pass].validTo.value + 1), Some(ByExpiry))
  {
  }

  /** A checkout ends a row that was read in force, on its day, whatever it ends on by now. */
  lemma EndStayByDays(c: Committed, x: Txn, r: RowId, day: Day)
    requires May(c, x, EndStay(r, day))
    ensures var rows, out := Rows(c, x), Rows(c, After(c, x, EndStay(r, day)));
            && r in x.claims && x.claims[r].pass == x.pass.value && (exists d: Day :: day <= d && On(x.claims[r], d))
            && Writes(rows, out, r, Some(day), Some(ByCheckout))
  {
    var d := Max(day, x.claims[r].from);
    assert On(x.claims[r], d);
  }

  /** A revocation judges a row again as it reaches it: one that still holds a day of its garage's
      or a later one ends on that day, and any other stands. */
  lemma EndRowByDays(c: Committed, x: Txn, r: RowId)
    requires May(c, x, EndRow(r)) && (Rows(c, x)[r].end.Some? ==> Rows(c, x)[r].from <= Rows(c, x)[r].end.value)
    ensures var rows, out := Rows(c, x), Rows(c, After(c, x, EndRow(r)));
            var day := x.revocation.value.days[x.revocation.value.at.garage];
            if exists d: Day :: day <= d && On(rows[r], d) then Writes(rows, out, r, Some(day), Some(ByRevocation)) else out == rows
  {
    var row, day := Rows(c, x)[r], x.revocation.value.days[x.revocation.value.at.garage];
    HoldsLater(row, day);
    EndRowWrites(c, x, r);
  }

  lemma EndRowWrites(c: Committed, x: Txn, r: RowId)
    requires May(c, x, EndRow(r))
    ensures var row, day := Rows(c, x)[r], x.revocation.value.days[x.revocation.value.at.garage];
            Rows(c, After(c, x, EndRow(r)))
            == if EndedBy(row, day) then Rows(c, x)
               else Rows(c, x)[r := row.(end := Some(Max(day, row.from)), why := Some(ByRevocation))]
  {
  }

  lemma HoldsLater(row: Row, day: Day)
    requires row.end.Some? ==> row.from <= row.end.value
    ensures EndedBy(row, day) <==> !exists d: Day :: day <= d && On(row, d)
  {
    if !EndedBy(row, day) {
      assert On(row, Max(day, row.from));
    }
  }

  /** What a turnover, a run-on and an end make of a row. */
  ghost predicate Retargets(to: Target, row: Row, s: Row) {
    && SameRow(s, row)
    && match to
       case TurnOverTo(from) => s.why == Some(ByNextStay) && forall d :: On(s, d) <==> row.from <= d && d < from
       case RunOnTo(until) => s.why == row.why && forall d :: On(s, d) <==> row.from <= d && d < until
       case EndTo(day) => s.why == Some(EndedByOwner) && forall d :: On(s, d) <==> row.from <= d && d < day
  }

  lemma RetargetByDays(to: Target, row: Row)
    ensures Retargets(to, row, Retarget(to, row))
  {
  }

  /** A claimed row that still ends as it was read is turned over, run on or ended to the day;
      one that does not takes back all that was written. */
  lemma WriteNextByDays(c: Committed, x: Txn)
    requires May(c, x, WriteNext)
    ensures var rows, out := Rows(c, x), After(c, x, WriteNext);
            var k, read := NextClaim(x).row, NextClaim(x).read;
            if rows[k].end != read then out.refused && out.newRows == map[] && out.newCreds == map[] && out.moves == []
            else
              && k in Rows(c, out) && Rows(c, out) == rows[k := Rows(c, out)[k]]
              && Retargets(x.writing.value.to, rows[k], Rows(c, out)[k])
  {
    RetargetByDays(x.writing.value.to, Rows(c, x)[NextClaim(x).row]);
  }

  // ----------------------------------------------------------------- what it may claim

  /** The rows a turnover claims: of those it read, the ones in the way and on their last day. */
  lemma TurnOverByDays(c: Committed, x: Txn, rows: seq<RowId>, plate: string, from: Day, end: Option<Day>)
    requires May(c, x, Act.TurnOver(rows, plate, from, end))
    ensures forall r :: r in x.claims && x.claims[r].pass in c.passes ==>
              (r in rows <==> InTheWay(c.passes[x.pass.value].garages, plate, from, end, x.claims[r])
                              && OnItsLastDay(c.passes, x.pass.value, from, x.claims[r]))
    ensures var out := After(c, x, Act.TurnOver(rows, plate, from, end));
            out.writing.Some? && out.writing.value.to == TurnOverTo(from) && ClaimsAsRead(x, rows, out.writing.value.claims)
  {
    forall r | r in x.claims && x.claims[r].pass in c.passes
      ensures r in rows <==> InTheWay(c.passes[x.pass.value].garages, plate, from, end, x.claims[r])
                             && OnItsLastDay(c.passes, x.pass.value, from, x.claims[r])
    {
      JudgedByDays(c.passes, x.pass.value, plate, from, end, x.claims[r]);
    }
  }

  /** Each row claimed, with the end it was read with. */
  ghost predicate ClaimsAsRead(x: Txn, rows: seq<RowId>, claims: seq<Claim>) {
    |claims| == |rows| && forall i :: 0 <= i < |rows| ==> rows[i] in x.claims && claims[i] == Claim(rows[i], x.claims[rows[i]].end)
  }

  /** The rows a run-on claims: its pass's own, planned to end that day, one at every garage. */
  lemma RunOnByDays(c: Committed, x: Txn, rows: seq<RowId>, day: Day, until: Day)
    requires May(c, x, RunOn(rows, day, until))
    ensures forall i :: 0 <= i < |rows| ==>
              && rows[i] in x.claims && x.claims[rows[i]].pass == x.pass.value && x.claims[rows[i]].why == Some(AfterLastDay)
              && x.claims[rows[i]].from < day && x.claims[rows[i]].end == Some(day) && day < until
    ensures forall g :: g in c.passes[x.pass.value].garages ==> exists i :: 0 <= i < |rows| && x.claims[rows[i]].garage == g
    ensures var out := After(c, x, RunOn(rows, day, until));
            out.writing.Some? && out.writing.value.to == RunOnTo(until) && ClaimsAsRead(x, rows, out.writing.value.claims)
  {
    StaysAreEverywhere(c, x, rows, day);
  }

  lemma StaysAreEverywhere(c: Committed, x: Txn, rows: seq<RowId>, day: Day)
    requires x.pass.Some? && x.pass.value in c.passes && HasRead(c, x, rows) && AreTheStays(c, x, rows, day)
    ensures forall g :: g in c.passes[x.pass.value].garages ==> exists i :: 0 <= i < |rows| && x.claims[rows[i]].garage == g
  {
    var p := x.pass.value;
    assert forall g :: g in c.passes[p].garages ==> exists i :: 0 <= i < |rows| && x.claims[rows[i]].garage == g;
  }

  /** The rows an end claims: all that begin and end as the latest does, which can end that day. */
  lemma EndByDays(c: Committed, x: Txn, rows: seq<RowId>, day: Day)
    requires May(c, x, End(rows, day))
    ensures rows != [] && rows[0] in x.claims
    ensures var latest := x.claims[rows[0]];
            && latest.pass == x.pass.value && CanEnd(latest, day)
            && forall r :: r in x.claims && x.claims[r].pass == latest.pass && x.claims[r].plate == latest.plate ==>
                 && x.claims[r].from <= latest.from
                 && (x.claims[r].from == latest.from ==> latest.garage <= x.claims[r].garage)
                 && (r in rows <==> x.claims[r].from == latest.from && x.claims[r].end == latest.end)
    ensures var out := After(c, x, End(rows, day));
            out.writing.Some? && out.writing.value.to == EndTo(day) && ClaimsAsRead(x, rows, out.writing.value.claims)
  {
  }

  // ------------------------------------------------------------------ the stored history

  /** IN EVERY STORED HISTORY nothing follows revoked, no pass becomes a draft again or awaits its
      enrolment from anything but a draft, and none is suspended but from active. */
  lemma HistoryByRule(start: Db, steps: seq<Step>, db: Db, p: PassId, i: nat)
    requires ProtocolProofs.Empty(start) && Reaches(start, steps, db) && p in db.c.passes
    ensures p in db.c.history && |db.c.history[p]| > 0
    ensures i + 1 < |db.c.history[p]| ==>
              var before, after := db.c.history[p][i], db.c.history[p][i + 1];
              && before != Revoked && after != before && after != Draft
              && (after == AwaitingEnrolment ==> before == Draft)
              && (after == Suspended ==> before == Active)
  {
    ProtocolProofs.HistoryIsAPath(start, steps, db, p);
    if i + 1 < |db.c.history[p]| {
      assert db.c.history[p][i + 1] in Allowed(db.c.history[p][i]);
    }
  }
}
