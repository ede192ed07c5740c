/** Which commits take a day from a row, in every interleaving of the operations: two passes
    hold one plate on one day only around one of them. */
module ProtocolDays {
  import opened Basics
  import opened Register
  import opened Protocol
  import opened ProtocolInv
  import opened ProtocolProofs

  // ------------------------------------------------------------------- one row's moves

  /** Runs past the day. */
  predicate Past(h: Held, d: Day) {
    h.RunsTo? && (h.end.None? || d < h.end.value)
  }

  /** The move cut the row off by the day, which it had run past. */
  predicate CutsOff(m: Move, k: RowId, d: Day) {
    m.row == k && Past(m.before, d) && !Past(RunsTo(m.wrote), d)
  }

  /** The move takes the day from the row, and none after it gives it back. */
  ghost predicate TakenAt(log: seq<Move>, i: nat, k: RowId, d: Day) {
    && i < |log| && CutsOff(log[i], k, d)
    && forall j :: i < j < |log| && log[j].row == k ==> !Past(RunsTo(log[j].wrote), d)
  }

  /** How a day is taken: a turnover takes only the last day of a stay that has one, a release
      only from a row that was still open; a registration and a run-on take none. */
  predicate GivesUp(m: Move, d: Day) {
    && m.how in {TurningOver, Releasing, Ending, EndingStay, Revoking}
    && (m.how == TurningOver && m.read.Some? ==> m.before == RunsTo(Some(d + 1)))
    && (m.how == Releasing ==> m.before == RunsTo(None))
  }

  lemma WhatIsTakenIsGivenUp(m: Move, k: RowId, d: Day)
    requires AsRead(m) && CutsOff(m, k, d)
    ensures GivesUp(m, d)
  {
  }

  lemma TakenSooner(log: seq<Move>, m: Move, k: RowId, d: Day, i: nat)
    ensures i < |log| && (m.row == k ==> !Past(RunsTo(m.wrote), d)) ==> (TakenAt(log + [m], i, k, d) <==> TakenAt(log, i, k, d))
    ensures i < |log| && m.row == k && Past(RunsTo(m.wrote), d) ==> !TakenAt(log + [m], i, k, d)
    ensures TakenAt(log + [m], |log|, k, d) <==> CutsOff(m, k, d)
  {
    var all := log + [m];
    assert all[|log|] == m && forall j :: 0 <= j < |log| ==> all[j] == log[j];
  }

  /** The row's moves link up, so a row that ran past the day no longer does exactly when one
      of them took it. */
  lemma {:induction false} PastUnlessTaken(log: seq<Move>, n: nat, k: RowId, d: Day)
    requires Linked(log, map[]) && n <= |log| && Past(EndBy(log[..n], k, NoRow), d)
    ensures !Past(EndBy(log, k, NoRow), d) <==> exists i: nat :: n <= i && TakenAt(log, i, k, d)
    decreases |log|
  {
    if n == |log| {
      assert log[..n] == log;
    } else {
      var before, m := log[..|log| - 1], log[|log| - 1];
      assert log == before + [m] && before[..n] == log[..n];
      LinkedBefore(log);
      PastUnlessTaken(before, n, k, d);
      forall i: nat ensures n <= i < |before| && (m.row == k ==> !Past(RunsTo(m.wrote), d)) ==>
                              (TakenAt(log, i, k, d) <==> TakenAt(before, i, k, d)) {
        TakenSooner(before, m, k, d, i);
      }
      OneMoveOn(before, m, n, k, d);
    }
  }

  lemma LinkedBefore(log: seq<Move>)
    requires Linked(log, map[]) && log != []
    ensures Linked(log[..|log| - 1], map[])
    ensures var before, m := log[..|log| - 1], log[|log| - 1];
            m.before == EndBy(before, m.row, NoRow) && AsRead(m)
  {
    var before := log[..|log| - 1];
    forall i | 0 <= i < |before|
      ensures AsRead(before[i]) && before[i].before == EndBy(before[..i], before[i].row, HeldIn(map[], before[i].row))
    {
      assert before[..i] == log[..i] && before[i] == log[i];
    }
  }

  lemma OneMoveOn(before: seq<Move>, m: Move, n: nat, k: RowId, d: Day)
    requires n <= |before| && m.before == EndBy(before, m.row, NoRow)
    requires !Past(EndBy(before, k, NoRow), d) <==> exists i: nat :: n <= i && TakenAt(before, i, k, d)
    ensures !Past(EndBy(before + [m], k, NoRow), d) <==> exists i: nat :: n <= i && TakenAt(before + [m], i, k, d)
  {
    var log := before + [m];
    assert log[..|log| - 1] == before;
    TakenSooner(before, m, k, d, |before|);
    if !Past(EndBy(log, k, NoRow), d) {
      if !Past(EndBy(before, k, NoRow), d) {
        var i: nat :| n <= i && TakenAt(before, i, k, d);
        TakenSooner(before, m, k, d, i);
      }
    } else if i: nat :| n <= i && TakenAt(log, i, k, d) {
      TakenSooner(before, m, k, d, i);
    }
  }

  // ----------------------------------------------------------------------- over a run

  /** What is committed stays: the log is only ever added to, and a row keeps everything
      but its end. */
  ghost predicate Since(from: Committed, to: Committed) {
    && from.log <= to.log
    && forall k :: k in from.rows ==> k in to.rows && SameRow(from.rows[k], to.rows[k])
  }

  lemma CommitSince(c: Committed, x: Txn)
    requires TxnOk(c, x) && Complete(c, x) && c.passes.Keys <= c.history.Keys
    ensures Since(c, Committing(c, x))
  {
    forall k | k in c.rows ensures k in Rows(c, x) && SameRow(c.rows[k], Rows(c, x)[k]) {
      assert k in x.newRows ==> WrittenOk(c, x, k, x.newRows[k]);
    }
  }

  lemma StepSince(db: Db, step: Step)
    requires Inv(db) && Enabled(db, step)
    ensures Since(db.c, Next(db, step).c)
  {
    if step.Commit? {
      CommitSince(db.c, db.txns[step.t]);
    }
  }

  lemma {:induction false} RunSince(from: Db, steps: seq<Step>, to: Db)
    requires Inv(from) && Reaches(from, steps, to)
    ensures Since(from.c, to.c)
    decreases |steps|
  {
    if steps != [] {
      var next :| Enabled(from, steps[0]) && next == Next(from, steps[0]) && Reaches(next, steps[1..], to);
      StepKeeps(from, steps[0]);
      StepSince(from, steps[0]);
      RunSince(next, steps[1..], to);
    }
  }

  /** WHAT TAKES A DAY, in every interleaving. A row that covers a day at one moment no longer
      does at a later one exactly when a commit in between moved it off that day for good: a
      turnover of the stay's last day, a release of an open row, an end, a stay's end or a
      revocation. */
  lemma ADayIsTakenIff(start: Db, before: seq<Step>, mid: Db, after: seq<Step>, db: Db, k: RowId, d: Day)
    requires Empty(start) && Reaches(start, before, mid) && Reaches(mid, after, db)
    requires k in mid.c.rows && Covers(mid.c.rows[k], d)
    ensures k in db.c.rows && SameRow(mid.c.rows[k], db.c.rows[k])
    ensures !Covers(db.c.rows[k], d) <==> exists i: nat :: |mid.c.log| <= i && TakenAt(db.c.log, i, k, d)
    ensures forall i: nat :: TakenAt(db.c.log, i, k, d) ==> GivesUp(db.c.log[i], d)
  {
    EmptyIsOk(start);
    RunKeeps(start, before, mid);
    RunKeeps(mid, after, db);
    RunSince(mid, after, db);
    TakenFrom(mid.c, db.c, k, d);
    forall i: nat | TakenAt(db.c.log, i, k, d) ensures GivesUp(db.c.log[i], d) {
      WhatIsTakenIsGivenUp(db.c.log[i], k, d);
    }
  }

  lemma TakenFrom(mid: Committed, c: Committed, k: RowId, d: Day)
    requires LogLinked(mid) && LogLinked(c) && Since(mid, c) && k in mid.rows && Covers(mid.rows[k], d)
    ensures !Covers(c.rows[k], d) <==> exists i: nat :: |mid.log| <= i && TakenAt(c.log, i, k, d)
  {
    assert c.log[..|mid.log|] == mid.log;
    assert EndBy(mid.log, k, NoRow) == HeldIn(mid.rows, k) && EndBy(c.log, k, NoRow) == HeldIn(c.rows, k);
    PastUnlessTaken(c.log, |mid.log|, k, d);
  }

  // ------------------------------------------------------------------- two holders

  /** What the database's constraint says of the committed rows. */
  ghost predicate OneHolder(c: Committed) {
    forall k, l :: k in c.rows && l in c.rows && k != l ==> Apart(c.rows[k], c.rows[l])
  }

  /** TWO ROWS, ONE PLATE, ONE GARAGE, ONE DAY, in every interleaving that the constraint lets
      commit: where one covers the day at one moment and the other at a later one, the first
      no longer does, and a commit in between gave the day up. */
  lemma TwoHoldersOneDay(start: Db, before: seq<Step>, mid: Db, after: seq<Step>, db: Db, k: RowId, l: RowId, d: Day)
    requires Empty(start) && Reaches(start, before, mid) && Reaches(mid, after, db) && OneHolder(db.c)
    requires k in mid.c.rows && Covers(mid.c.rows[k], d)
    requires l in db.c.rows && Covers(db.c.rows[l], d) && l != k
    requires db.c.rows[l].garage == mid.c.rows[k].garage && db.c.rows[l].plate == mid.c.rows[k].plate
    ensures k in db.c.rows && !Covers(db.c.rows[k], d)
    ensures exists i: nat :: |mid.c.log| <= i && TakenAt(db.c.log, i, k, d) && GivesUp(db.c.log[i], d)
  {
    ADayIsTakenIff(start, before, mid, after, db, k, d);
    var a, b := db.c.rows[k], db.c.rows[l];
    assert Apart(a, b);
    if Covers(a, d) {
      OverlapsIffADayIsShared(a, b.from, b.end);
    }
    var i: nat :| |mid.c.log| <= i && TakenAt(db.c.log, i, k, d);
    assert GivesUp(db.c.log[i], d);
  }
}
