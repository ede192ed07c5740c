/** The redemption that binds: a QR made without a plate, bound to the car at its first use;
    and what the lane can still be told of that very movement. */
module Bind {
  import opened Basics
  import opened Text
  import opened States
  import opened Plates
  import opened Terms
  import opened Lists
  import opened Access
  import opened AccessProofs
  import opened Codes
  import opened Redemption
  import opened RedemptionProofs
  import Register
  import opened RegisterProofs
  import Sets

  datatype BindRefusal =
    | ClockUnreadable | WhereUnstated | WrongEnd | NotAtThisGarage | QrAlreadyUsed | CancelledQr | QrNotStarted | QrExpired
    | PassNotRegistrable | PassNotReadable | LaneIsBlank | LaneOffThePass | DirectionOffThePass | IdentityIsBlank
    | NotRegistered(why: Register.Refusal)
  datatype Bound = Bound | NotBound(refusal: BindRefusal)

  /** Which end a garage enrols at: the entry when it sells no transient parking. */
  function EnrolsAt(garage: Garage, stated: Option<Direction>): Option<Direction> {
    if garage.transient.None? then None else if garage.transient == Some(false) then Some(Entry) else stated
  }

  function QrRefusal(c: Code, today: Day): Option<BindRefusal> {
    if c.state == Redeemed then Some(QrAlreadyUsed)
    else if c.state == Cancelled then Some(CancelledQr)
    else if today < c.startsOn then Some(QrNotStarted)
    else if today >= c.startsOn + c.days then Some(QrExpired)
    else None
  }

  function PassRefusal(pass: Pass, today: Day): Option<BindRefusal>
    requires PassBuilt(pass)
  {
    if !Registrable(pass.state) then Some(PassNotRegistrable)
    else if pass.unreadable then Some(PassNotReadable)
    else if EffectiveState(pass.state, pass.terms.value.validTo, today) == Expired then Some(PassNotRegistrable)
    else None
  }

  predicate PassBuilt(pass: Pass) {
    !pass.unreadable ==> pass.terms.Some?
  }

  /** What can never be covered is not bound: the lane and the direction, but nothing temporal. */
  function MovementRefusal(terms: Terms, g: GarageId, lane: string, direction: Direction): Option<BindRefusal> {
    var lanes := LanesAt(terms.lanes, g);
    if Strip(lane) == "" then Some(LaneIsBlank)
    else if lanes.Some? && Strip(lane) !in lanes.value then Some(LaneOffThePass)
    else if direction !in terms.directions then Some(DirectionOffThePass)
    else None
  }

  /** The refusals in their order, before anything is written. */
  function RefusalBefore(garage: Garage, stated: Option<Direction>, c: Code, pass: Pass, identity: string, lane: string,
                         direction: Direction, today: Day): Option<BindRefusal>
    requires PassBuilt(pass)
  {
    if garage.unreadable then Some(ClockUnreadable)
    else if EnrolsAt(garage, stated).None? then Some(WhereUnstated)
    else if EnrolsAt(garage, stated) != Some(direction) then Some(WrongEnd)
    else if garage.id !in pass.garages then Some(NotAtThisGarage)
    else if QrRefusal(c, today).Some? then QrRefusal(c, today)
    else if PassRefusal(pass, today).Some? then PassRefusal(pass, today)
    else if MovementRefusal(pass.terms.value, garage.id, lane, direction).Some? then
      MovementRefusal(pass.terms.value, garage.id, lane, direction)
    else if Strip(identity) == "" then Some(IdentityIsBlank)
    else None
  }

  /** The pass as the answer reads it and as the register does: one stored row. */
  ghost predicate SamePass(pass: Pass, row: Register.PassRow) {
    && pass.state == row.state && row.readable == !pass.unreadable
    && pass.garages == Sets.Of(row.garages)
    && (row.readable ==> pass.terms.Some? && row.validTo == pass.terms.value.validTo)
  }

  /** Registered, the pass active, the QR spent: or nothing of it, whichever step refuses. */
  method Redeem(store: Register.Store, book: CodeBook, k: nat, garage: Garage, stated: Option<Direction>, pass: Pass,
                identity: string, lane: string, direction: Direction, today: Day) returns (out: Bound)
    requires store.Valid() && CodesOk(book.codes) && k < |book.codes| && BoundTo(book.codes[k]).None?
    requires book.codes[k].pass == pass.id && pass.id in store.passes && SamePass(pass, store.passes[pass.id])
    requires garage.id in store.unreadable <==> garage.unreadable
    modifies store`rows, store`passes, book
    ensures CodesOk(book.codes)
    ensures out.NotBound? ==> store.rows == old(store.rows) && store.passes == old(store.passes) && book.codes == old(book.codes)
    ensures PassBuilt(pass)
    ensures out == var before := RefusalBefore(garage, stated, old(book.codes)[k], pass, identity, lane, direction, today);
                   if before.Some? then NotBound(before.value)
                   else
                     var no := Register.RegisterRefusal(old(store.passes), store.unreadable, old(store.rows), garage.id, pass.id,
                                                        PlateKey(Strip(identity)), today, None);
                     if no.Some? then NotBound(NotRegistered(no.value)) else Bound.Bound
    ensures out.Bound? ==>
              && store.rows == Register.Registered(old(store.passes), old(store.rows), pass.id, PlateKey(Strip(identity)), today,
                                                   None, Register.EndedByOwner)
              && store.passes == old(store.passes)[pass.id := old(store.passes)[pass.id].(state := Active)]
              && book.codes == old(book.codes)[k := old(book.codes)[k].(state := Redeemed, identity := Some(Strip(identity)))]
  {
    var before := RefusalBefore(garage, stated, book.codes[k], pass, identity, lane, direction, today);
    if before.Some? { return NotBound(before.value); }
    KnownPasses(store.passes, store.rows);
    var registered := store.RegisterVehicle(garage.id, pass.id, PlateKey(Strip(identity)), today, None, Register.EndedByOwner);
    if registered.Refused? { return NotBound(NotRegistered(registered.refusal)); }
    ghost var read, passes := old(store.rows), old(store.passes);
    RegisterProofs.RegisteringKeepsGood(passes, store.unreadable, read, garage.id, pass.id, PlateKey(Strip(identity)), today, None,
                                        Register.EndedByOwner);
    Activate(store, garage.id, pass.id);
    var spent := book.Spend(k, Strip(identity));
    out := Bound.Bound;
  }

  /** The pass to active, unless it already is; its registrations are not touched. */
  method Activate(store: Register.Store, at: GarageId, p: PassId)
    requires store.Valid() && Register.RefusedAtGarage(store.passes, store.unreadable, at, p).None?
    requires p in store.passes && Registrable(store.passes[p].state)
    modifies store`rows, store`passes
    ensures store.rows == old(store.rows)
    ensures store.passes == old(store.passes)[p := old(store.passes)[p].(state := Active)]
  {
    if store.passes[p].state != Active {
      assert !Blank("qr") && !Blank("redeemed at lane") by {
        assert 'q' in "qr" && 'r' in "redeemed at lane";
      }
      var moved := store.ChangeState(at, p, Active, "qr", "redeemed at lane", g => 0);
    } else {
      assert store.passes[p := store.passes[p].(state := Active)] == store.passes;
    }
  }

  lemma KnownPasses(passes: map<PassId, Register.PassRow>, rows: seq<Register.Row>)
    requires Register.Good(passes, rows)
    ensures forall i :: 0 <= i < |rows| ==> rows[i].pass in passes
  {
    forall i | 0 <= i < |rows| ensures rows[i].pass in passes {
      assert Register.RowOk(passes, rows[i]);
    }
  }

  // -------------------------------------------------- what the lane can still be told

  /** Temporal reasons, and a clock that is not held: the ones a bind does not look at. */
  predicate OnlyTemporal(a: Answer) {
    || a.outcome == Covered
    || (a.outcome == NotCovered && a.reason in {Some(NotStarted), Some(OutsideWindow), Some(OutOfVisits), Some(OverMaxStay)})
    || (a.outcome == RefusedToAnswer
        && a.missing in {Some(MissingGarageHandedIn), Some(DuplicatedGarageId), Some(MissingTimezone)})
  }

  lemma TermsOnlyTemporal(w: World, m: Movement, r: Records, p: Pass, t: Terms)
    requires TermsOk(t) && m.direction in t.directions && LaneAllowed(t, m.garage.id, Strip(m.lane))
    ensures NotOnTerms(w, m, r, p, t).Some? ==> OnlyTemporal(NotOnTerms(w, m, r, p, t).value)
  {
    if t.allowance.Some? && VisitsUsed(w, m, r, p, t.allowance.value.per, WindowNow(w, m, t.windows)).NoClock? {
      FirstNoClockIs(m, r.garages, OnPass(r.visits, p.id));
    }
  }

  lemma EvaluatedOnlyTemporal(w: World, m: Movement, r: Records, effective: seq<Registration>, p: Pass)
    requires PassOk(p) && !p.unreadable && p.state == Active && !IsExitOnly(effective, p.id)
    requires p.terms.value.validTo.Some? ==> Now(w, m).day <= p.terms.value.validTo.value
    requires m.direction in p.terms.value.directions && LaneAllowed(p.terms.value, m.garage.id, Strip(m.lane))
    ensures OnlyTemporal(Evaluate(w, m, r, effective, p)) && Evaluate(w, m, r, effective, p).pass == Some(p.id)
  {
    TermsOnlyTemporal(w, m, r, p, p.terms.value);
    EvaluateCovers(w, m, r, effective, p);
  }

  // --------------------------------------------------------- one registration in force

  lemma {:induction false} AtMostOneOf<T(!new)>(s: seq<T>, x: T)
    requires forall i, j :: 0 <= i < j < |s| ==> !(s[i] == x && s[j] == x)
    ensures multiset(s)[x] <= 1
  {
    if s != [] {
      var n := |s| - 1;
      assert s == s[..n] + [s[n]];
      if s[n] == x {
        assert x !in s[..n];
      } else {
        AtMostOneOf(s[..n], x);
      }
    }
  }

  lemma TwoOf<T(!new)>(s: seq<T>, i: nat, j: nat)
    requires i < j < |s| && s[i] == s[j]
    ensures multiset(s)[s[i]] >= 2
  {
    assert s == s[..j] + s[j..];
    assert s[i] in s[..j] && s[j] in s[j..];
  }

  /** Rows that are apart: at most one of those read covers the day. */
  lemma OneRowCovers(b: Books, g: GarageId, key: string, d: Day, i: nat, j: nat)
    requires BooksOk(b) && i < j < |RowsOf(b, g, key)|
    ensures !(Register.Covers(RowsOf(b, g, key)[i], d) && Register.Covers(RowsOf(b, g, key)[j], d))
  {
    var rows := RowsOf(b, g, key);
    var f := (r: Register.Row) => OfCarAt(r, g, key);
    if Register.Covers(rows[i], d) && Register.Covers(rows[j], d) {
      assert rows[i] in rows && rows[j] in rows;
      SameCovering(b, g, key, d, rows[i], rows[j]);
      TwoOf(rows, i, j);
      assert multiset(rows) == multiset(Filter(b.rows, f));
      FilterCounts(b.rows, f, rows[i]);
      AtMostOneOf(b.rows, rows[i]);
    }
  }

  lemma OneIndexCovers(b: Books, g: GarageId, key: string, d: Day, i: nat, j: nat)
    requires BooksOk(b) && i < |b.rows| && j < |b.rows| && OfCarAt(b.rows[i], g, key) && OfCarAt(b.rows[j], g, key)
    requires Register.Covers(b.rows[i], d) && Register.Covers(b.rows[j], d)
    ensures i == j
  {
    Register.OverlapsIffADayIsShared(b.rows[i], b.rows[j].from, b.rows[j].end);
    Register.OverlapsIffADayIsShared(b.rows[j], b.rows[i].from, b.rows[i].end);
    assert i < j ==> Register.Apart(b.rows[i], b.rows[j]);
    assert j < i ==> Register.Apart(b.rows[j], b.rows[i]);
  }

  /** One row covers the day, in one place. */
  lemma SameCovering(b: Books, g: GarageId, key: string, d: Day, r: Register.Row, s: Register.Row)
    requires BooksOk(b) && r in b.rows && s in b.rows && OfCarAt(r, g, key) && OfCarAt(s, g, key)
    requires Register.Covers(r, d) && Register.Covers(s, d)
    ensures r == s
    ensures forall i, j :: 0 <= i < j < |b.rows| ==> !(b.rows[i] == r && b.rows[j] == r)
  {
    var i :| 0 <= i < |b.rows| && b.rows[i] == r;
    var j :| 0 <= j < |b.rows| && b.rows[j] == s;
    OneIndexCovers(b, g, key, d, i, j);
    forall k | 0 <= k < |b.rows| && b.rows[k] == r ensures k == i {
      OneIndexCovers(b, g, key, d, i, k);
    }
  }

  /** However they were read, at most one registration handed in covers the day. */
  lemma OneHandedCovers(w: World, b: Books, garage: Garage, identity: string, direction: Direction, at: Instant, p: PassId)
    requires BooksOk(b) && !garage.unreadable && PlateKey(identity) != ""
    requires HeldBy(b.rows, garage.id, PlateKey(identity), DayAt(w, garage, at), p)
    ensures var regs := Handed(w, b, garage, identity, direction, at);
            forall i, j :: 0 <= i < j < |regs| ==>
              !(CoversDay(regs[i], DayAt(w, garage, at)) && CoversDay(regs[j], DayAt(w, garage, at)))
  {
    var regs := Handed(w, b, garage, identity, direction, at);
    var d := DayAt(w, garage, at);
    InForceIsTheHolders(w, b, garage, identity, direction, at, p);
    forall i, j | 0 <= i < j < |regs| ensures !(CoversDay(regs[i], d) && CoversDay(regs[j], d)) {
      OneRowCovers(b, garage.id, PlateKey(identity), d, i, j);
    }
  }

  lemma OneOfHanded(w: World, m: Movement, rs: Records, p: PassId)
    requires forall i, j :: 0 <= i < j < |rs.registrations| ==>
               !(CoversDay(rs.registrations[i], Now(w, m).day) && CoversDay(rs.registrations[j], Now(w, m).day))
    requires exists r :: r in InForce(w, m, rs)
    requires forall r :: r in InForce(w, m, rs) ==> r.pass == p
    ensures |InForce(w, m, rs)| == 1 && InForce(w, m, rs)[0].pass == p
  {
    AtMostOneTwice(rs.registrations, (r: Registration) => IsHere(m, rs.passes, r),
                   (r: Registration) => CoversDay(r, Now(w, m).day));
    assert InForce(w, m, rs)[0] in InForce(w, m, rs);
  }

  lemma OneInForceToday(w: World, b: Books, garage: Garage, identity: string, lane: string, direction: Direction, at: Instant,
                        p: PassId)
    requires BooksOk(b) && !garage.unreadable && PlateKey(Strip(identity)) != ""
    requires HeldBy(b.rows, garage.id, PlateKey(Strip(identity)), DayAt(w, garage, at), p)
    ensures var m := Movement(garage, Strip(identity), lane, direction, at, None);
            var regs := Handed(w, b, garage, Strip(identity), direction, at);
            && (forall r :: r in regs ==> r.pass in b.passes)
            && |InForce(w, m, RecordsFor(b, regs, garage.id))| == 1
            && InForce(w, m, RecordsFor(b, regs, garage.id))[0].pass == p
  {
    var m := Movement(garage, Strip(identity), lane, direction, at, None);
    ByIdentity(w, b, garage, identity, lane, direction, at, None);
    InForceIsTheHolders(w, b, garage, Strip(identity), direction, at, p);
    OneHandedCovers(w, b, garage, Strip(identity), direction, at, p);
    OneOfHanded(w, m, RecordsFor(b, Handed(w, b, garage, Strip(identity), direction, at), garage.id), p);
  }

  lemma {:induction false} AtMostOneTwice<T(!new)>(s: seq<T>, f: T -> bool, g: T -> bool)
    requires forall i, j :: 0 <= i < j < |s| ==> !(g(s[i]) && g(s[j]))
    ensures |Filter(Filter(s, f), g)| <= 1
  {
    if s != [] {
      var n := |s| - 1;
      if f(s[n]) {
        FilterSnoc(Filter(s[..n], f), s[n], g);
        if g(s[n]) {
          forall x | x in Filter(s[..n], f) ensures !g(x) {
            var i :| 0 <= i < n && s[i] == x;
          }
          NoneKept(Filter(s[..n], f), g);
        } else {
          AtMostOneTwice(s[..n], f, g);
        }
      } else {
        assert Filter(s, f) == Filter(s[..n], f);
        AtMostOneTwice(s[..n], f, g);
      }
    }
  }

  // ----------------------------------------------------------------- the whole of it

  /** The tables after a bind, as the answer to the same movement reads them. */
  ghost predicate AfterBind(b: Books, passes: map<PassId, Register.PassRow>, unreadable: set<GarageId>, rows: seq<Register.Row>,
                            codes: seq<Code>, k: nat, garage: Garage, pass: Pass, identity: string, today: Day)
  {
    && RegisterProofs.Registers(passes, unreadable, rows, garage.id, pass.id, PlateKey(Strip(identity)), today, None)
    && CodesOk(codes) && k < |codes| && codes[k].pass == pass.id && BoundTo(codes[k]).None?
    && pass.id in passes && SamePass(pass, passes[pass.id])
    && b.rows == Register.Registered(passes, rows, pass.id, PlateKey(Strip(identity)), today, None, Register.EndedByOwner)
    && b.codes == codes[k := codes[k].(state := Redeemed, identity := Some(Strip(identity)))]
    && pass.id in b.passes && b.passes[pass.id] == pass.(state := Active)
  }

  lemma BoundIsHeld(b: Books, passes: map<PassId, Register.PassRow>, unreadable: set<GarageId>, rows: seq<Register.Row>,
                    codes: seq<Code>, k: nat, garage: Garage, pass: Pass, identity: string, today: Day)
    requires AfterBind(b, passes, unreadable, rows, codes, k, garage, pass, identity, today)
    ensures PlateKey(Strip(identity)) != "" && garage.id in pass.garages
    ensures HeldBy(b.rows, garage.id, PlateKey(Strip(identity)), today, pass.id)
    ensures forall d: Day :: !Gone(b.codes, pass.id, PlateKey(Strip(identity)), Some(d))
  {
    var key := PlateKey(Strip(identity));
    RegisterProofs.RegisteredShape(passes, unreadable, rows, garage.id, pass.id, key, today, None, Register.EndedByOwner);
    var g :| 0 <= g < |passes[pass.id].garages| && passes[pass.id].garages[g] == garage.id;
    RegisterProofs.RegisteringHolds(passes, unreadable, rows, garage.id, pass.id, key, today, None, Register.EndedByOwner, g, today);
    assert Holds(b.rows, |rows| + g, garage.id, key, today);
    assert OfCar(b.codes[k], pass.id, key) && b.codes[k].exitOnlyAt.None?;
  }

  /** A BIND IS NEVER WASTED: when nothing refused it, the answer for that same movement is
      about the QR's pass, and is covered but for the times the terms state -- a range that
      has not begun, a window, an allowance, a maximum stay -- or a clock that is not held. */
  lemma ABindIsNeverWasted(w: World, b: Books, passes: map<PassId, Register.PassRow>, unreadable: set<GarageId>,
                           rows: seq<Register.Row>, codes: seq<Code>, k: nat, garage: Garage, stated: Option<Direction>,
                           pass: Pass, identity: string, lane: string, direction: Direction, at: Instant)
    requires BooksOk(b) && PassOk(pass)
    requires AfterBind(b, passes, unreadable, rows, codes, k, garage, pass, identity, DayAt(w, garage, at))
    requires RefusalBefore(garage, stated, codes[k], pass, identity, lane, direction, DayAt(w, garage, at)).None?
    ensures var a := AnswerInTransaction(w, b, garage, identity, lane, direction, at, None);
            OnlyTemporal(a) && a.pass == Some(pass.id)
  {
    BoundIsHeld(b, passes, unreadable, rows, codes, k, garage, pass, identity, DayAt(w, garage, at));
    var m := Movement(garage, Strip(identity), lane, direction, at, None);
    NothingRefused(garage, stated, codes[k], pass, identity, lane, direction, DayAt(w, garage, at), at);
    HeldAnswer(w, b, garage, identity, lane, direction, at, pass.id);
    var rs := RecordsFor(b, Handed(w, b, garage, Strip(identity), direction, at), garage.id);
    EvaluatedOnlyTemporal(w, m, rs, InForce(w, m, rs), pass.(state := Active));
  }

  /** What a bind that nothing refused has been checked for. */
  lemma NothingRefused(garage: Garage, stated: Option<Direction>, c: Code, pass: Pass, identity: string, lane: string,
                       direction: Direction, today: Day, at: Instant)
    requires PassBuilt(pass) && RefusalBefore(garage, stated, c, pass, identity, lane, direction, today).None?
    ensures !garage.unreadable && Unanswerable(Movement(garage, Strip(identity), lane, direction, at, None)).None?
    ensures !pass.unreadable && (pass.terms.value.validTo.Some? ==> today <= pass.terms.value.validTo.value)
    ensures direction in pass.terms.value.directions && LaneAllowed(pass.terms.value, garage.id, Strip(lane))
  {
    StripTrims(identity);
    StripTrims(Strip(identity));
  }

  /** A car one pass holds today, and that was not replaced on it, is answered on that pass. */
  lemma HeldAnswer(w: World, b: Books, garage: Garage, identity: string, lane: string, direction: Direction, at: Instant, p: PassId)
    requires BooksOk(b) && !garage.unreadable && PlateKey(Strip(identity)) != "" && p in b.passes
    requires HeldBy(b.rows, garage.id, PlateKey(Strip(identity)), DayAt(w, garage, at), p)
    requires !Gone(b.codes, p, PlateKey(Strip(identity)), Today(w, garage, at))
    requires Unanswerable(Movement(garage, Strip(identity), lane, direction, at, None)).None?
    ensures var m := Movement(garage, Strip(identity), lane, direction, at, None);
            var regs := Handed(w, b, garage, Strip(identity), direction, at);
            && (forall r :: r in regs ==> r.pass in b.passes)
            && var rs := RecordsFor(b, regs, garage.id);
            && !IsExitOnly(InForce(w, m, rs), p) && PassOk(b.passes[p])
            && AnswerInTransaction(w, b, garage, identity, lane, direction, at, None)
               == Evaluate(w, m, rs, InForce(w, m, rs), b.passes[p])
  {
    var m := Movement(garage, Strip(identity), lane, direction, at, None);
    ByIdentity(w, b, garage, identity, lane, direction, at, None);
    OneInForceToday(w, b, garage, identity, lane, direction, at, p);
    NotGoneInForce(w, b, garage, identity, direction, at, p);
    var rs := RecordsFor(b, Handed(w, b, garage, Strip(identity), direction, at), garage.id);
    HeldById(w, b, garage, identity, lane, direction, at, p);
    TheOneAnswer(w, m, rs, b.passes[p]);
  }

  lemma HeldById(w: World, b: Books, garage: Garage, identity: string, lane: string, direction: Direction, at: Instant, p: PassId)
    requires BooksOk(b) && p in b.passes
    requires forall r :: r in Handed(w, b, garage, Strip(identity), direction, at) ==> r.pass in b.passes
    requires var m := Movement(garage, Strip(identity), lane, direction, at, None);
             var rs := RecordsFor(b, Handed(w, b, garage, Strip(identity), direction, at), garage.id);
             exists r :: r in InForce(w, m, rs) && r.pass == p
    ensures var rs := RecordsFor(b, Handed(w, b, garage, Strip(identity), direction, at), garage.id);
            ById(rs.passes, garage.id, p) == Some(b.passes[p])
  {
    var regs := Handed(w, b, garage, Strip(identity), direction, at);
    HandedKnown(w, b, garage, Strip(identity), direction, at);
    HandedPasses(b, regs, garage.id);
    ByIdentity(w, b, garage, identity, lane, direction, at, None);
  }

  lemma NotGoneInForce(w: World, b: Books, garage: Garage, identity: string, direction: Direction, at: Instant, p: PassId)
    requires BooksOk(b) && !Gone(b.codes, p, PlateKey(Strip(identity)), Today(w, garage, at))
    ensures forall r :: r in Handed(w, b, garage, Strip(identity), direction, at) && r.pass == p ==> !r.exitOnly
  {
    HandedKnown(w, b, garage, Strip(identity), direction, at);
    forall r | r in Handed(w, b, garage, Strip(identity), direction, at) && r.pass == p ensures !r.exitOnly {
      var row :| ReadFrom(w, b, garage, PlateKey(Strip(identity)), direction, at, r, row);
    }
  }

  lemma TheOneAnswer(w: World, m: Movement, rs: Records, p: Pass)
    requires RecordsOk(rs) && Unanswerable(m).None? && Dangling(w, m, rs) == []
    requires |InForce(w, m, rs)| == 1 && !AnyDuplicated(m, rs.passes, InForce(w, m, rs))
    requires ById(rs.passes, m.garage.id, InForce(w, m, rs)[0].pass) == Some(p)
    ensures AccessAnswer(w, m, rs) == Evaluate(w, m, rs, InForce(w, m, rs), p)
  {
  }
}
