/** Named savepoints, as the database keeps them: ROLLBACK TO returns to the most recent of
    a name and keeps it; RELEASE drops it and everything after it. All-or-nothing at every
    depth of the store's writes rests on no write being inside another of its own name. */
module Savepoints {
  import opened Basics
  import Plates
  import Text

  datatype Name = AsRead | Issue | Replace | Cancel | Match | FirstUse | Passed | Redemption

  datatype Saved<T> = Saved(name: Name, store: T)

  /** A connection in a transaction: what it has written so far, and the savepoints set. */
  datatype Conn<T> = Conn(store: T, stack: seq<Saved<T>>)

  /** `Broken`: a savepoint that does not exist; the database ends the transaction. */
  datatype Result = Done | Refused | Broken
  datatype Ran<T> = Ran(result: Result, conn: Conn<T>)

  /** What the store runs. `Write` writes, or refuses with nothing of itself written;
      `Under` is a write under a savepoint, whose refusal is raised again; `Answered` is the
      redemption, whose refusal is carried in its answer; `Released` releases early. */
  datatype Prog<!T> =
    | Write(f: T -> Option<T>)
    | Then(first: Prog<T>, second: Prog<T>)
    | If(test: T -> bool, yes: Prog<T>, no: Prog<T>)
    | Under(name: Name, body: Prog<T>)
    | Answered(name: Name, body: Prog<T>)

  // ------------------------------------------------------------- the three statements

  /** Where the most recent savepoint of the name is. */
  function MostRecent<T>(stack: seq<Saved<T>>, name: Name): (i: nat)
    ensures i <= |stack|
    ensures i < |stack| ==> stack[i].name == name && forall j :: i < j < |stack| ==> stack[j].name != name
    ensures i == |stack| ==> forall j :: 0 <= j < |stack| ==> stack[j].name != name
  {
    if stack == [] then 0
    else
      var n := |stack| - 1;
      if stack[n].name == name then n
      else
        var i := MostRecent(stack[..n], name);
        if i == n then n + 1 else i
  }

  function Savepoint<T>(c: Conn<T>, name: Name): Conn<T> {
    c.(stack := c.stack + [Saved(name, c.store)])
  }

  function RollbackTo<T>(c: Conn<T>, name: Name): Ran<T> {
    var i := MostRecent(c.stack, name);
    if i == |c.stack| then Ran(Broken, c) else Ran(Done, Conn(c.stack[i].store, c.stack[..i + 1]))
  }

  function Release<T>(c: Conn<T>, name: Name): Ran<T> {
    var i := MostRecent(c.stack, name);
    if i == |c.stack| then Ran(Broken, c) else Ran(Done, c.(stack := c.stack[..i]))
  }

  /** A write under a savepoint, once its body has run. */
  function Finish<T>(ran: Ran<T>, name: Name, raised: Result): Ran<T> {
    match ran.result
    case Done => Release(ran.conn, name)
    case Refused =>
      var back := RollbackTo(ran.conn, name);
      if back.result == Broken then back else back.(result := raised)
    case Broken => ran
  }

  function Run<T>(p: Prog<T>, c: Conn<T>): Ran<T> {
    match p
    case Write(f) =>
      var wrote := f(c.store);
      if wrote.Some? then Ran(Done, c.(store := wrote.value)) else Ran(Refused, c)
    case Then(first, second) =>
      var ran := Run(first, c);
      if ran.result == Done then Run(second, ran.conn) else ran
    case If(test, yes, no) => if test(c.store) then Run(yes, c) else Run(no, c)
    case Under(name, body) => Finish(Run(body, Savepoint(c, name)), name, Refused)
    case Answered(name, body) => Finish(Run(body, Savepoint(c, name)), name, Done)
  }

  // ------------------------------------------------------------------ what it should mean

  /** No savepoints at all: a refused write under one leaves what was there before it. */
  function Means<T>(p: Prog<T>, store: T): (Result, T) {
    match p
    case Write(f) =>
      var wrote := f(store);
      if wrote.Some? then (Done, wrote.value) else (Refused, store)
    case Then(first, second) =>
      var ran := Means(first, store);
      if ran.0 == Done then Means(second, ran.1) else ran
    case If(test, yes, no) => if test(store) then Means(yes, store) else Means(no, store)
    case Under(_, body) =>
      var ran := Means(body, store);
      if ran.0 == Done then ran else (Refused, store)
    case Answered(_, body) =>
      var ran := Means(body, store);
      if ran.0 == Done then ran else (Done, store)
  }

  function Names<T>(p: Prog<T>): set<Name> {
    match p
    case Write(_) => {}
    case Then(first, second) => Names(first) + Names(second)
    case If(_, yes, no) => Names(yes) + Names(no)
    case Under(name, body) => {name} + Names(body)
    case Answered(name, body) => {name} + Names(body)
  }

  /** No write is inside another of its own name. */
  predicate NamesNestApart<T>(p: Prog<T>) {
    match p
    case Write(_) => true
    case Then(first, second) => NamesNestApart(first) && NamesNestApart(second)
    case If(_, yes, no) => NamesNestApart(yes) && NamesNestApart(no)
    case Under(name, body) => name !in Names(body) && NamesNestApart(body)
    case Answered(name, body) => name !in Names(body) && NamesNestApart(body)
  }

  /** What a run leaves: the savepoints that were there, and above them only its own. */
  ghost predicate Keeps<T>(before: seq<Saved<T>>, after: seq<Saved<T>>, names: set<Name>) {
    && |before| <= |after| && after[..|before|] == before
    && forall i :: |before| <= i < |after| ==> after[i].name in names
  }

  lemma KeepsTwice<T>(a: seq<Saved<T>>, b: seq<Saved<T>>, c: seq<Saved<T>>, one: set<Name>, two: set<Name>)
    requires Keeps(a, b, one) && Keeps(b, c, two)
    ensures Keeps(a, c, one + two)
  {
    assert c[..|a|] == c[..|b|][..|a|];
    forall i | |a| <= i < |c| ensures c[i].name in one + two {
      assert i < |b| ==> c[i] == c[..|b|][i];
    }
  }

  /** Above a savepoint of the name there is no other: it is the most recent. */
  lemma ItsOwnIsMostRecent<T>(c: Conn<T>, name: Name, after: seq<Saved<T>>, names: set<Name>)
    requires Keeps(Savepoint(c, name).stack, after, names) && name !in names
    ensures MostRecent(after, name) == |c.stack|
    ensures after[|c.stack|] == Saved(name, c.store) && after[..|c.stack|] == c.stack
  {
    var stack := Savepoint(c, name).stack;
    assert after[|c.stack|] == after[..|stack|][|c.stack|];
    assert after[..|c.stack|] == after[..|stack|][..|c.stack|];
  }

  lemma Finished<T>(c: Conn<T>, name: Name, ran: Ran<T>, names: set<Name>, raised: Result)
    requires Keeps(Savepoint(c, name).stack, ran.conn.stack, names) && name !in names && ran.result != Broken
    requires raised != Broken
    ensures var out := Finish(ran, name, raised);
            && out.result == (if ran.result == Done then Done else raised)
            && out.conn.store == (if ran.result == Done then ran.conn.store else c.store)
            && Keeps(c.stack, out.conn.stack, {name} + names)
  {
    ItsOwnIsMostRecent(c, name, ran.conn.stack, names);
  }

  /** ALL OR NOTHING: when no name is nested in itself, running with named savepoints is
      exactly what it should mean, over whatever savepoints the caller has set; none of
      the caller's is touched, and none is ever missed. */
  lemma {:induction false} NestedApartIsAtomic<T>(p: Prog<T>, c: Conn<T>)
    requires NamesNestApart(p)
    ensures var ran := Run(p, c);
            && ran.result != Broken
            && (ran.result, ran.conn.store) == Means(p, c.store)
            && Keeps(c.stack, ran.conn.stack, Names(p))
  {
    match p
    case Write(f) =>
    case Then(first, second) =>
      NestedApartIsAtomic(first, c);
      var ran := Run(first, c);
      if ran.result == Done {
        NestedApartIsAtomic(second, ran.conn);
        KeepsTwice(c.stack, ran.conn.stack, Run(second, ran.conn).conn.stack, Names(first), Names(second));
      }
    case If(test, yes, no) =>
      NestedApartIsAtomic(yes, c);
      NestedApartIsAtomic(no, c);
    case Under(name, body) =>
      NestedApartIsAtomic(body, Savepoint(c, name));
      Finished(c, name, Run(body, Savepoint(c, name)), Names(body), Refused);
    case Answered(name, body) =>
      NestedApartIsAtomic(body, Savepoint(c, name));
      Finished(c, name, Run(body, Savepoint(c, name)), Names(body), Done);
  }

  // ------------------------------------------------------------------ the store's writes

  /** Leaves of the store's writes: reads, checks and single statements, with no savepoint. */
  predicate Flat<T>(p: Prog<T>) {
    Names(p) == {}
  }

  /** register_vehicle: checks, the turnover as read, releases and inserts. */
  function Register<T>(checks: Prog<T>, turnOver: Prog<T>, insert: Prog<T>): Prog<T> {
    Then(checks, Then(Under(AsRead, turnOver), insert))
  }

  /** issue_enrolment: the mint, then one registration for each span of days not held. */
  function Fill<T>(spans: seq<(Prog<T>, Prog<T>, Prog<T>)>, last: Prog<T>): Prog<T> {
    if spans == [] then last else Then(Register(spans[0].0, spans[0].1, spans[0].2), Fill(spans[1..], last))
  }

  function IssueEnrolment<T>(mint: Prog<T>, spans: seq<(Prog<T>, Prog<T>, Prog<T>)>, runOn: Prog<T>): Prog<T> {
    Under(Issue, Then(mint, Fill(spans, runOn)))
  }

  function ReplaceCar<T>(mark: Prog<T>, issue: Prog<T>): Prog<T> {
    Under(Replace, Then(mark, issue))
  }

  /** redeem_enrolment of a credential that binds: registered, made active, spent. */
  function Redeem<T>(checks: Prog<T>, register: Prog<T>, spend: Prog<T>): Prog<T> {
    Answered(Redemption, Then(checks, Then(register, spend)))
  }

  ghost predicate FlatSpans<T(!new)>(spans: seq<(Prog<T>, Prog<T>, Prog<T>)>) {
    forall i :: 0 <= i < |spans| ==> Flat(spans[i].0) && Flat(spans[i].1) && Flat(spans[i].2)
  }

  lemma {:induction false} FlatNests<T>(p: Prog<T>)
    requires Flat(p)
    ensures NamesNestApart(p)
  {
    match p
    case Write(f) =>
    case Then(first, second) =>
      assert Names(first) <= Names(p) && Names(second) <= Names(p);
      FlatNests(first);
      FlatNests(second);
    case If(test, yes, no) =>
      assert Names(yes) <= Names(p) && Names(no) <= Names(p);
      FlatNests(yes);
      FlatNests(no);
    case Under(name, body) =>
    case Answered(name, body) =>
  }

  lemma RegisterNests<T>(checks: Prog<T>, turnOver: Prog<T>, insert: Prog<T>)
    requires Flat(checks) && Flat(turnOver) && Flat(insert)
    ensures NamesNestApart(Register(checks, turnOver, insert)) && Names(Register(checks, turnOver, insert)) == {AsRead}
  {
    FlatNests(checks);
    FlatNests(turnOver);
    FlatNests(insert);
    var turned := Under(AsRead, turnOver);
    assert NamesNestApart(turned) && Names(turned) == {AsRead};
    assert NamesNestApart(Then(turned, insert)) && Names(Then(turned, insert)) == {AsRead};
  }

  lemma {:induction false} FillNests<T(!new)>(spans: seq<(Prog<T>, Prog<T>, Prog<T>)>, last: Prog<T>)
    requires FlatSpans(spans) && Flat(last)
    ensures NamesNestApart(Fill(spans, last)) && Names(Fill(spans, last)) <= {AsRead}
  {
    if spans == [] {
      FlatNests(last);
    } else {
      RegisterNests(spans[0].0, spans[0].1, spans[0].2);
      FillNests(spans[1..], last);
    }
  }

  lemma IssueNests<T(!new)>(mint: Prog<T>, spans: seq<(Prog<T>, Prog<T>, Prog<T>)>, runOn: Prog<T>)
    requires Flat(mint) && FlatSpans(spans) && Flat(runOn)
    ensures NamesNestApart(IssueEnrolment(mint, spans, runOn)) && Names(IssueEnrolment(mint, spans, runOn)) <= {Issue, AsRead}
  {
    FillNests(spans, runOn);
    FlatNests(mint);
    var body := Then(mint, Fill(spans, runOn));
    assert NamesNestApart(body) && Names(body) <= {AsRead};
  }

  /** ISSUING IS ALL OR NOTHING ... */
  lemma IssueIsAtomic<T(!new)>(mint: Prog<T>, spans: seq<(Prog<T>, Prog<T>, Prog<T>)>, runOn: Prog<T>, c: Conn<T>)
    requires Flat(mint) && FlatSpans(spans) && Flat(runOn)
    ensures var ran := Run(IssueEnrolment(mint, spans, runOn), c);
            && ran.result != Broken
            && (ran.result == Refused ==> ran.conn.store == c.store)
            && (ran.result == Done ==> (Done, ran.conn.store) == Means(Then(mint, Fill(spans, runOn)), c.store))
  {
    IssueNests(mint, spans, runOn);
    NestedApartIsAtomic(IssueEnrolment(mint, spans, runOn), c);
  }

  /** ... and so is replacing a car, whichever step of it refuses, at any depth: the mark on
      the old QR, the new one's mint, a checkout-day turnover inside any of its
      registrations, or the run-on. */
  lemma ReplaceIsAtomic<T(!new)>(mark: Prog<T>, mint: Prog<T>, spans: seq<(Prog<T>, Prog<T>, Prog<T>)>, runOn: Prog<T>,
                                 c: Conn<T>)
    requires Flat(mark) && Flat(mint) && FlatSpans(spans) && Flat(runOn)
    ensures var issue := IssueEnrolment(mint, spans, runOn);
            var ran := Run(ReplaceCar(mark, issue), c);
            && ran.result != Broken
            && (ran.result == Refused ==> ran.conn.store == c.store)
            && (ran.result == Done ==> (Done, ran.conn.store) == Means(Then(mark, issue), c.store))
  {
    var issue := IssueEnrolment(mint, spans, runOn);
    IssueNests(mint, spans, runOn);
    FlatNests(mark);
    assert NamesNestApart(Then(mark, issue)) && Names(Then(mark, issue)) <= {Issue, AsRead};
    NestedApartIsAtomic(ReplaceCar(mark, issue), c);
  }

  /** So is a redemption that binds: its refusal is carried in an answer, nothing written. */
  lemma RedemptionIsAtomic<T(!new)>(checks: Prog<T>, check: Prog<T>, turnOver: Prog<T>, insert: Prog<T>, spend: Prog<T>,
                                    c: Conn<T>)
    requires Flat(checks) && Flat(check) && Flat(turnOver) && Flat(insert) && Flat(spend)
    ensures var register := Register(check, turnOver, insert);
            var ran := Run(Redeem(checks, register, spend), c);
            var meant := Means(Then(checks, Then(register, spend)), c.store);
            ran.result == Done && ran.conn.store == if meant.0 == Done then meant.1 else c.store
  {
    var register := Register(check, turnOver, insert);
    RegisterNests(check, turnOver, insert);
    FlatNests(checks);
    FlatNests(spend);
    assert NamesNestApart(Then(register, spend)) && Names(Then(register, spend)) == {AsRead};
    assert NamesNestApart(Then(checks, Then(register, spend))) && Names(Then(checks, Then(register, spend))) == {AsRead};
    NestedApartIsAtomic(Redeem(checks, register, spend), c);
  }

  /** The names matter: a write inside another, the inner one refused after the outer wrote.
      Nothing is left exactly when the two names differ, or the outer wrote no change. */
  lemma OneNameLeavesTheOuterWrite<T>(outer: Name, inner: Name, mark: T -> T, mint: T -> T, c: Conn<T>)
    ensures var p := Under(outer, Then(Write(s => Some(mark(s))),
                                       Under(inner, Then(Write(s => Some(mint(s))), Write(s => None)))));
            var ran := Run(p, c);
            && ran.result == Refused
            && ran.conn.store == (if outer != inner then c.store else mark(c.store))
            && (ran.conn.store == c.store <==> outer != inner || mark(c.store) == c.store)
  {
    var writesMint, refuses: Prog<T> := Write(s => Some(mint(s))), Write(s => None);
    var first := Savepoint(c, outer);
    var marked := first.(store := mark(c.store));
    var second := Savepoint(marked, inner);
    var minted := second.(store := mint(mark(c.store)));
    var n := |c.stack|;
    assert Run(writesMint, second) == Ran(Done, minted);
    assert Run(Then(writesMint, refuses), second) == Ran(Refused, minted);
    assert minted.stack[n + 1] == Saved(inner, mark(c.store)) && minted.stack[n] == Saved(outer, c.store);
    assert minted.stack[..n + 2] == minted.stack;
    var inside := Under(inner, Then(writesMint, refuses));
    assert Run(inside, marked) == Ran(Refused, marked.(stack := minted.stack));
    assert Run(Write(s => Some(mark(s))), first) == Ran(Done, marked);
    assert Run(Then(Write(s => Some(mark(s))), inside), first) == Ran(Refused, marked.(stack := minted.stack));
    assert MostRecent(minted.stack, outer) == if outer == inner then n + 1 else n;
  }

  // ------------------------------------------- a recognised use, after its early release

  /** The statements after the release, and what they should mean. */
  function AfterRelease<T>(firstUse: Prog<T>, keep: Prog<T>): Prog<T> {
    Then(Under(FirstUse, firstUse), Under(Passed, keep))
  }

  /** A bound QR shown again: judged under the savepoint, which is released before the
      first use is recorded and the pass is kept; what refuses after that still rolls back
      to the name. */
  function Recognised<T>(judge: Prog<T>, firstUse: Prog<T>, keep: Prog<T>, c: Conn<T>): Ran<T> {
    var judged := Run(judge, Savepoint(c, Redemption));
    if judged.result == Refused then
      RollbackTo(judged.conn, Redemption)
    else if judged.result == Broken then judged
    else
      var released := Release(judged.conn, Redemption);
      if released.result == Broken then released
      else
        var used := Run(AfterRelease(firstUse, keep), released.conn);
        if used.result != Refused then used else RollbackTo(used.conn, Redemption)
  }

  /** What a recognised use comes to: refused with nothing written while it is judged; done;
      or, refused once it has released its savepoint, not answered at all -- broken when the
      caller's transaction has no earlier redemption to return to, and if it has one, all
      that was written since that one is taken back with it. */
  lemma RecognisedIs<T>(judge: Prog<T>, firstUse: Prog<T>, keep: Prog<T>, c: Conn<T>)
    requires Flat(judge) && Flat(firstUse) && Flat(keep)
    ensures var ran := Recognised(judge, firstUse, keep, c);
            var judged := Means(judge, c.store);
            var after := Means(AfterRelease(firstUse, keep), judged.1);
            var earlier := MostRecent(c.stack, Redemption);
            && (ran.result == Broken <==> judged.0 == Done && after.0 == Refused && earlier == |c.stack|)
            && (judged.0 == Refused ==> ran.result == Done && ran.conn.store == c.store)
            && (judged.0 == Done && after.0 == Done ==> ran.result == Done && ran.conn.store == after.1)
            && (judged.0 == Done && after.0 == Refused && earlier < |c.stack| ==>
                  ran.result == Done && ran.conn.store == c.stack[earlier].store)
  {
    FlatNests(judge);
    var start := Savepoint(c, Redemption);
    NestedApartIsAtomic(judge, start);
    var judged := Run(judge, start);
    ItsOwnIsMostRecent(c, Redemption, judged.conn.stack, Names(judge));
    if judged.result == Done {
      var released := Release(judged.conn, Redemption).conn;
      assert released.stack == c.stack;
      AfterReleaseNests(firstUse, keep);
      NestedApartIsAtomic(AfterRelease(firstUse, keep), released);
      var used := Run(AfterRelease(firstUse, keep), released);
      EarlierIsMostRecent(c.stack, used.conn.stack, {FirstUse, Passed});
    }
  }

  lemma AfterReleaseNests<T>(firstUse: Prog<T>, keep: Prog<T>)
    requires Flat(firstUse) && Flat(keep)
    ensures NamesNestApart(AfterRelease(firstUse, keep)) && Names(AfterRelease(firstUse, keep)) == {FirstUse, Passed}
  {
    FlatNests(firstUse);
    FlatNests(keep);
    assert NamesNestApart(Under(FirstUse, firstUse)) && NamesNestApart(Under(Passed, keep));
    assert Names(Under(FirstUse, firstUse)) == {FirstUse} && Names(Under(Passed, keep)) == {Passed};
  }

  lemma EarlierIsMostRecent<T>(before: seq<Saved<T>>, after: seq<Saved<T>>, names: set<Name>)
    requires Keeps(before, after, names) && Redemption !in names
    ensures MostRecent(before, Redemption) == |before| ==> MostRecent(after, Redemption) == |after|
    ensures MostRecent(before, Redemption) < |before| ==>
              MostRecent(after, Redemption) == MostRecent(before, Redemption)
              && after[MostRecent(before, Redemption)] == before[MostRecent(before, Redemption)]
  {
    var i, j := MostRecent(before, Redemption), MostRecent(after, Redemption);
    assert forall k :: 0 <= k < |before| ==> after[k] == after[..|before|][k];
  }

  /** A pass that is kept beside the QR's plate: one difference, or nothing usable read. */
  predicate IsKept(read: Option<string>, plate: string) {
    Plates.SimilarEnough(read, plate) in {Some(Plates.OneDifference), Some(Plates.NothingRead)}
  }

  /** What keeps it: the lane's name is required there, and only there, after the release. */
  function Keeping<T>(read: Option<string>, plate: string, lane: string, keep: T -> T): Prog<T> {
    Write(s => if !IsKept(read, plate) then Some(s) else if Text.Blank(lane) then None else Some(keep(s)))
  }

  lemma MeansDoneOrRefused<T>(p: Prog<T>, store: T)
    requires Flat(p)
    ensures Means(p, store).0 != Broken
  {
    FlatNests(p);
    NestedApartIsAtomic(p, Conn(store, []));
  }

  /** A RECOGNISED USE IS NOT ANSWERED AT ALL -- with no earlier redemption in the
      transaction to return to -- exactly when the judging passed and either the pass's
      first use is refused, or the read is one that is kept and the lane's name is blank. */
  lemma BlankLaneBreaksIff<T>(judge: Prog<T>, firstUse: Prog<T>, keep: T -> T, read: Option<string>, plate: string,
                              lane: string, c: Conn<T>)
    requires Flat(judge) && Flat(firstUse) && MostRecent(c.stack, Redemption) == |c.stack|
    ensures Recognised(judge, firstUse, Keeping(read, plate, lane, keep), c).result == Broken <==>
              && Means(judge, c.store).0 == Done
              && (Means(firstUse, Means(judge, c.store).1).0 == Refused || (IsKept(read, plate) && Text.Blank(lane)))
  {
    var record := Keeping(read, plate, lane, keep);
    assert Flat(record);
    RecognisedIs(judge, firstUse, record, c);
    var judged := Means(judge, c.store);
    MeansDoneOrRefused(firstUse, judged.1);
    var used := Means(firstUse, judged.1);
    assert Means(Under(FirstUse, firstUse), judged.1) == if used.0 == Done then used else (Refused, judged.1);
    var store := if used.0 == Done then used.1 else judged.1;
    assert Means(Under(Passed, record), store).0 == if IsKept(read, plate) && Text.Blank(lane) then Refused else Done;
  }

  /** A dash read for plate X at a lane named by a blank: judged, and never answered. */
  lemma ADashAtABlankLaneBreaks<T>(keep: T -> T, store: T)
    ensures Plates.SimilarEnough(Some("-"), "X") == Some(Plates.NothingRead) && Text.Blank(" ")
    ensures var passes: Prog<T> := Write(s => Some(s));
            Recognised(passes, passes, Keeping(Some("-"), "X", " ", keep), Conn(store, [])).result == Broken
  {
    var passes: Prog<T> := Write(s => Some(s));
    assert "-"[1..] == "" && Plates.Separator('-');
    assert Plates.PlateKey("-") == "";
    assert Flat(passes);
    BlankLaneBreaksIff(passes, passes, keep, Some("-"), "X", " ", Conn(store, []));
  }
}
