/** A refusal of the protocol is what the store's named savepoints leave: an operation's acts,
    run under them, end where the protocol says the transaction ends. */
module TakenBack {
  import opened Basics
  import opened Protocol
  import opened Savepoints

  /** An act, and what was committed when it was carried out: others commit in between. */
  datatype Seen = Seen(c: Committed, act: Act)

  /** A row to be written as it was read, found moved. */
  predicate FoundMoved(x: Txn, s: Seen) {
    May(s.c, x, s.act) && s.act.WriteNext? && Rows(s.c, x)[NextClaim(x).row].end != NextClaim(x).read
  }

  /** Each act may be carried out, up to the one that refuses. */
  ghost predicate Possible(x: Txn, seen: seq<Seen>)
    decreases |seen|
  {
    seen == [] ||
    (May(seen[0].c, x, seen[0].act)
     && (FoundMoved(x, seen[0]) || Possible(After(seen[0].c, x, seen[0].act), seen[1..])))
  }

  ghost predicate Refuses(x: Txn, seen: seq<Seen>)
    requires Possible(x, seen)
    decreases |seen|
  {
    seen != [] && (FoundMoved(x, seen[0]) || Refuses(After(seen[0].c, x, seen[0].act), seen[1..]))
  }

  /** Where the protocol says the acts take the transaction. */
  ghost function Carried(x: Txn, seen: seq<Seen>): Txn
    requires Possible(x, seen)
    decreases |seen|
  {
    if seen == [] then x
    else if FoundMoved(x, seen[0]) then After(seen[0].c, x, seen[0].act)
    else Carried(After(seen[0].c, x, seen[0].act), seen[1..])
  }

  // --------------------------------------------------------- as the store runs them

  /** One statement: a row found moved is a refusal raised, with nothing of itself written. */
  function StepOf(s: Seen): Prog<Txn> {
    Write(x => if May(s.c, x, s.act) && !FoundMoved(x, s) then Some(After(s.c, x, s.act)) else None)
  }

  function Plain(seen: seq<Seen>): Prog<Txn> {
    if seen == [] then Write(x => Some(x)) else Then(StepOf(seen[0]), Plain(seen[1..]))
  }

  predicate WritesAsRead(act: Act) {
    act.TurnOver? || act.RunOn? || act.End?
  }

  /** How many acts the write as read is, the last of them its end. */
  function Length(seen: seq<Seen>): (n: nat)
    ensures n <= |seen| && (seen != [] ==> n > 0)
  {
    if seen == [] then 0 else if seen[0].act.FinishWrite? then 1 else 1 + Length(seen[1..])
  }

  /** The operation: every write as read is under the savepoint of its own. */
  function Body(seen: seq<Seen>): Prog<Txn>
    decreases |seen|
  {
    if seen == [] then Write(x => Some(x))
    else if WritesAsRead(seen[0].act) then
      Then(Under(AsRead, Plain(seen[..Length(seen)])), Body(seen[Length(seen)..]))
    else Then(StepOf(seen[0]), Body(seen[1..]))
  }

  lemma {:induction false} PlainNames(seen: seq<Seen>)
    ensures Names(Plain(seen)) == {} && NamesNestApart(Plain(seen))
    decreases |seen|
  {
    if seen != [] {
      PlainNames(seen[1..]);
    }
  }

  lemma {:induction false} BodyNames(seen: seq<Seen>)
    ensures Names(Body(seen)) <= {AsRead} && NamesNestApart(Body(seen))
    decreases |seen|
  {
    if seen != [] {
      if WritesAsRead(seen[0].act) {
        PlainNames(seen[..Length(seen)]);
        BodyNames(seen[Length(seen)..]);
      } else {
        BodyNames(seen[1..]);
      }
    }
  }

  // -------------------------------------------------------------------- they agree

  /** What the acts mean: refused, or done where the protocol says. */
  ghost predicate Agrees(p: Prog<Txn>, x: Txn, seen: seq<Seen>)
    requires Possible(x, seen)
  {
    if Refuses(x, seen) then Means(p, x).0 == Refused else Means(p, x) == (Done, Carried(x, seen))
  }

  lemma {:induction false} PlainAgrees(x: Txn, seen: seq<Seen>)
    requires Possible(x, seen)
    ensures Agrees(Plain(seen), x, seen)
    decreases |seen|
  {
    if seen != [] && !FoundMoved(x, seen[0]) {
      PlainAgrees(After(seen[0].c, x, seen[0].act), seen[1..]);
    }
  }

  /** The first acts, then the rest. */
  lemma {:induction false} InTwo(x: Txn, seen: seq<Seen>, n: nat)
    requires n <= |seen| && Possible(x, seen)
    ensures Possible(x, seen[..n])
    ensures Refuses(x, seen[..n]) ==> Refuses(x, seen)
    ensures !Refuses(x, seen[..n]) ==>
              var y := Carried(x, seen[..n]);
              && Possible(y, seen[n..]) && (Refuses(x, seen) <==> Refuses(y, seen[n..]))
              && Carried(x, seen) == Carried(y, seen[n..])
    decreases n
  {
    if n == 0 {
      assert seen[..0] == [] && seen[0..] == seen;
    } else {
      assert seen[..n][0] == seen[0] && seen[..n][1..] == seen[1..][..n - 1] && seen[1..][n - 1..] == seen[n..];
      if !FoundMoved(x, seen[0]) {
        InTwo(After(seen[0].c, x, seen[0].act), seen[1..], n - 1);
      }
    }
  }

  lemma {:induction false} BodyAgrees(x: Txn, seen: seq<Seen>)
    requires Possible(x, seen)
    ensures Agrees(Body(seen), x, seen)
    decreases |seen|
  {
    if seen != [] {
      if WritesAsRead(seen[0].act) {
        var n := Length(seen);
        InTwo(x, seen, n);
        PlainAgrees(x, seen[..n]);
        if !Refuses(x, seen[..n]) {
          BodyAgrees(Carried(x, seen[..n]), seen[n..]);
        }
      } else if !FoundMoved(x, seen[0]) {
        BodyAgrees(After(seen[0].c, x, seen[0].act), seen[1..]);
      }
    }
  }

  lemma RefusedByOneAct(c: Committed, x: Txn, act: Act)
    requires May(c, x, act) && !x.refused
    ensures After(c, x, act).op == x.op
    ensures if FoundMoved(x, Seen(c, act)) then After(c, x, act) == Refusing(After(c, x, act)) else !After(c, x, act).refused
  {
  }

  lemma {:induction false} RefusedIsStartedAgain(x: Txn, seen: seq<Seen>)
    requires Possible(x, seen) && !x.refused
    ensures Carried(x, seen).refused <==> Refuses(x, seen)
    ensures Refuses(x, seen) ==> Carried(x, seen) == Start(x.op).(refused := true)
    decreases |seen|
  {
    if seen != [] {
      RefusedByOneAct(seen[0].c, x, seen[0].act);
      if !FoundMoved(x, seen[0]) {
        RefusedIsStartedAgain(After(seen[0].c, x, seen[0].act), seen[1..]);
      }
    }
  }

  /** With no savepoint but its own (an end, a registration from the desk): refused, a write as
      read leaves the transaction as it was when the write began. */
  lemma OnItsOwn(x: Txn, seen: seq<Seen>, stack: seq<Saved<Txn>>)
    requires Possible(x, seen)
    ensures var ran := Run(Under(AsRead, Plain(seen)), Conn(x, stack));
            && ran.result != Broken && (ran.result == Refused <==> Refuses(x, seen))
            && ran.conn.store == if ran.result == Refused then x else Carried(x, seen)
  {
    PlainAgrees(x, seen);
    PlainNames(seen);
    NestedApartIsAtomic(Under(AsRead, Plain(seen)), Conn(x, stack));
  }

  // ------------------------------------------------------------------ over a run

  /** What one transaction did in a run, and over what. */
  ghost function SeenBy(db: Db, steps: seq<Step>, t: TxnId): seq<Seen>
    decreases |steps|
  {
    if steps == [] || !Enabled(db, steps[0]) then []
    else
      (if steps[0].Take? && steps[0].t == t then [Seen(db.c, steps[0].act)] else [])
      + SeenBy(Next(db, steps[0]), steps[1..], t)
  }

  /** It neither begins nor ends in the run. */
  predicate GoesOn(steps: seq<Step>, t: TxnId) {
    forall i :: 0 <= i < |steps| ==> steps[i].t != t || steps[i].Take?
  }

  lemma OneActCarried(x: Txn, s: Seen, rest: seq<Seen>, y: Txn)
    requires May(s.c, x, s.act)
    requires if FoundMoved(x, s) then y == After(s.c, x, s.act)
             else Possible(After(s.c, x, s.act), rest) && y == Carried(After(s.c, x, s.act), rest)
    ensures Possible(x, [s] + rest) && y == Carried(x, [s] + rest)
  {
    assert ([s] + rest)[0] == s && ([s] + rest)[1..] == rest;
  }

  lemma {:induction false} RunCarries(from: Db, steps: seq<Step>, to: Db, t: TxnId)
    requires Reaches(from, steps, to) && t in from.txns && !from.txns[t].refused && GoesOn(steps, t)
    ensures t in to.txns && Possible(from.txns[t], SeenBy(from, steps, t))
    ensures to.txns[t] == Carried(from.txns[t], SeenBy(from, steps, t))
    decreases |steps|
  {
    if steps != [] {
      var next :| Enabled(from, steps[0]) && next == Next(from, steps[0]) && Reaches(next, steps[1..], to);
      if steps[0].Take? && steps[0].t == t {
        var s := Seen(from.c, steps[0].act);
        assert SeenBy(from, steps, t) == [s] + SeenBy(next, steps[1..], t);
        RefusedByOneAct(s.c, from.txns[t], s.act);
        if FoundMoved(from.txns[t], s) {
          RefusedStands(next, steps[1..], to, t);
        } else {
          RunCarries(next, steps[1..], to, t);
        }
        OneActCarried(from.txns[t], s, SeenBy(next, steps[1..], t), to.txns[t]);
      } else {
        assert SeenBy(from, steps, t) == SeenBy(next, steps[1..], t);
        RunCarries(next, steps[1..], to, t);
      }
    }
  }

  /** A refused operation goes no further. */
  lemma {:induction false} RefusedStands(from: Db, steps: seq<Step>, to: Db, t: TxnId)
    requires Reaches(from, steps, to) && t in from.txns && from.txns[t] == Refusing(from.txns[t]) && GoesOn(steps, t)
    ensures t in to.txns && to.txns[t] == from.txns[t]
    decreases |steps|
  {
    if steps != [] {
      var next :| Enabled(from, steps[0]) && next == Next(from, steps[0]) && Reaches(next, steps[1..], to);
      NothingMoreOfIt(from, steps[0], t);
      RefusedStands(next, steps[1..], to, t);
    }
  }

  lemma NothingMoreOfIt(db: Db, step: Step, t: TxnId)
    requires Enabled(db, step) && t in db.txns && db.txns[t] == Refusing(db.txns[t]) && (step.t != t || step.Take?)
    ensures t in Next(db, step).txns && Next(db, step).txns[t] == db.txns[t]
  {
  }

  /** REFUSING IS ROLLING BACK. Whatever a transaction does in whatever run from its beginning,
      and whatever the others commit meanwhile: its acts run as the store runs them, each write
      as read under its savepoint inside the operation's own, with whatever savepoints the
      caller has set, are refused exactly when the protocol refuses it, and then leave exactly
      what it began with; otherwise they leave exactly what the protocol says it has written. */
  lemma RefusingIsRollingBack(from: Db, steps: seq<Step>, to: Db, t: TxnId, op: Op, name: Name, stack: seq<Saved<Txn>>)
    requires Reaches(from, steps, to) && t in from.txns && from.txns[t] == Start(op) && GoesOn(steps, t) && name != AsRead
    ensures t in to.txns
    ensures var ran := Run(Under(name, Body(SeenBy(from, steps, t))), Conn(Start(op), stack));
            && ran.result != Broken && (ran.result == Refused <==> to.txns[t].refused)
            && to.txns[t] == ran.conn.store.(refused := ran.result == Refused)
            && (ran.result == Refused ==> ran.conn.store == Start(op))
  {
    var seen := SeenBy(from, steps, t);
    var p := Under(name, Body(seen));
    RunCarries(from, steps, to, t);
    BodyAgrees(Start(op), seen);
    RefusedIsStartedAgain(Start(op), seen);
    BodyNames(seen);
    NestedApartIsAtomic(p, Conn(Start(op), stack));
  }
}
