/** What a lane is told, from the tables themselves: the register, the QRs, the passes, the
    garages and the recorded entries, with nothing in between. */
module FromTheStore {
  import opened Basics
  import opened Text
  import opened States
  import opened Plates
  import opened Terms
  import opened Lists
  import opened Codes
  import opened Access
  import opened AccessProofs
  import opened Redemption
  import opened RedemptionProofs
  import opened Allowance
  import opened Admission
  import opened RegisterByDays
  import RegisterProofs
  import Register
  import Bind
  import ShownByRead
  import Sets

  // -------------------------------------------------------------- the QRs of a car

  /** A QR of the car on the pass: made for its plate, or bound to it at its first use. */
  ghost predicate QrOf(c: Code, p: PassId, key: string) {
    c.pass == p && if c.plate.Some? then PlateKey(c.plate.value) == key
                   else c.identity.Some? && PlateKey(c.identity.value) == key
  }

  /** Spent, or issued and within its own days. */
  predicate Stands(c: Code, d: Day) {
    c.state == Redeemed || (c.state == Issued && c.startsOn <= d && d < c.startsOn + c.days)
  }

  /** The car was replaced on the pass, and no QR of it that was not replaced stands that day. */
  ghost predicate NoLongerEnters(codes: seq<Code>, p: PassId, key: string, d: Day) {
    && (exists i :: 0 <= i < |codes| && QrOf(codes[i], p, key) && codes[i].exitOnlyAt.Some?)
    && forall i :: 0 <= i < |codes| && QrOf(codes[i], p, key) && codes[i].exitOnlyAt.None? ==> !Stands(codes[i], d)
  }

  lemma GoneIs(codes: seq<Code>, p: PassId, key: string, d: Day)
    ensures Gone(codes, p, key, Some(d)) <==> NoLongerEnters(codes, p, key, d)
  {
    forall i | 0 <= i < |codes| ensures OfCar(codes[i], p, key) <==> QrOf(codes[i], p, key) {
    }
  }

  /** Where the garage's day cannot be read, any QR of it that was neither replaced nor cancelled
      may still be live. */
  lemma GoneWithNoDay(codes: seq<Code>, p: PassId, key: string)
    ensures Gone(codes, p, key, None) <==>
              && (exists i :: 0 <= i < |codes| && QrOf(codes[i], p, key) && codes[i].exitOnlyAt.Some?)
              && forall i :: 0 <= i < |codes| && QrOf(codes[i], p, key) && codes[i].exitOnlyAt.None? ==> codes[i].state == Cancelled
  {
    forall i | 0 <= i < |codes| ensures OfCar(codes[i], p, key) <==> QrOf(codes[i], p, key) {
    }
  }

  /** The stated entry was before some replacement of the car. */
  ghost predicate EnteredBeforeOne(codes: seq<Code>, p: PassId, key: string, enteredAt: Option<Instant>) {
    enteredAt.Some? ==>
      exists i :: 0 <= i < |codes| && QrOf(codes[i], p, key) && codes[i].exitOnlyAt.Some? && enteredAt.value < codes[i].exitOnlyAt.value
  }

  lemma LatestIs(codes: seq<Code>, p: PassId, key: string, d: Day, enteredAt: Option<Instant>)
    requires NoLongerEnters(codes, p, key, d)
    ensures var latest := LatestReplacement(codes, p, key);
            latest.Some? && (EnteredBeforeOne(codes, p, key, enteredAt) <==> (enteredAt.Some? ==> enteredAt.value < latest.value))
  {
    forall i | 0 <= i < |codes| ensures OfCar(codes[i], p, key) <==> QrOf(codes[i], p, key) {
    }
  }

  // ------------------------------------------------------------- what is handed in

  /** The visits handed in are those on a selected pass. */
  lemma SelectedVisits(b: Books, regs: seq<Registration>, g: GarageId)
    requires BooksOk(b) && forall r :: r in regs ==> r.pass in b.passes
    ensures forall v :: v in RecordsFor(b, regs, g).visits <==> v in b.visits && exists r :: r in regs && r.pass == v.pass
  {
    forall v | v in RecordsFor(b, regs, g).visits ensures v in b.visits && exists r :: r in regs && r.pass == v.pass {
      var x :| x in PassesFor(b, regs) && x.id == v.pass;
      var r :| r in regs && x == b.passes[r.pass];
    }
    forall v, r | v in b.visits && r in regs && r.pass == v.pass ensures v in RecordsFor(b, regs, g).visits {
      ItsVisitIsHandedIn(b, regs, g, r, v);
    }
  }

  lemma ItsVisitIsHandedIn(b: Books, regs: seq<Registration>, g: GarageId, r: Registration, v: Visit)
    requires BooksOk(b) && (forall x :: x in regs ==> x.pass in b.passes) && r in regs && v in b.visits && r.pass == v.pass
    ensures v in RecordsFor(b, regs, g).visits
  {
    assert b.passes[r.pass] in PassesFor(b, regs) && b.passes[r.pass].id == r.pass;
  }

  /** The visits of a selected pass, all of them, once each, and no others. */
  lemma VisitsHandedIn(b: Books, regs: seq<Registration>, g: GarageId, p: PassId, f: Visit -> bool)
    requires BooksOk(b) && (forall r :: r in regs ==> r.pass in b.passes) && exists r :: r in regs && r.pass == p
    ensures var rs := RecordsFor(b, regs, g);
            && HowMany(rs.visits, (v: Visit) => v.pass == p && f(v)) == HowMany(b.visits, (v: Visit) => v.pass == p && f(v))
            && OnPass(rs.visits, p) == OnPass(b.visits, p)
            && (forall v :: v in rs.visits && v.pass == p <==> v in b.visits && v.pass == p)
            && forall v :: v in rs.visits ==> v in b.visits && exists r :: r in regs && r.pass == v.pass
  {
    var ps := PassesFor(b, regs);
    var ids := set x | x in ps :: x.id;
    var r :| r in regs && r.pass == p;
    assert b.passes[p] in ps && b.passes[p].id == p;
    var selected, mine, both := (v: Visit) => v.pass in ids, (v: Visit) => v.pass == p, (v: Visit) => v.pass == p && f(v);
    FilterTwice(b.visits, selected, both);
    FilterTwice(b.visits, selected, mine);
    FilterSize(Filter(b.visits, selected), both);
    FilterSize(b.visits, both);
    SelectedVisits(b, regs, g);
  }

  /** A garage other than this one, named by a selected pass and known to the store. */
  ghost predicate Beside(b: Books, regs: seq<Registration>, g: GarageId, h: GarageId)
    requires forall r :: r in regs ==> r.pass in b.passes
  {
    h != g && h in b.garages && exists r :: r in regs && h in b.passes[r.pass].garages
  }

  /** Each such garage once, and no other. */
  lemma GaragesHandedIn(b: Books, regs: seq<Registration>, g: GarageId, h: GarageId)
    requires BooksOk(b) && forall r :: r in regs ==> r.pass in b.passes
    ensures Filter(RecordsFor(b, regs, g).garages, (x: Garage) => x.id == h) == if Beside(b, regs, g, h) then [b.garages[h]] else []
  {
    var rs, others := RecordsFor(b, regs, g), Sets.Sorted(GaragesBeside(b, PassesFor(b, regs), g));
    forall i | 0 <= i < |others| ensures others[i] in b.garages && rs.garages[i] == b.garages[others[i]] {
      assert others[i] in others;
    }
    BesideIsListed(b, regs, g, h);
    OnceInTheList(b, rs.garages, others, h);
  }

  lemma OnceInTheList(b: Books, list: seq<Garage>, ids: seq<GarageId>, h: GarageId)
    requires BooksOk(b) && |list| == |ids| && forall i :: 0 <= i < |ids| ==> ids[i] in b.garages && list[i] == b.garages[ids[i]]
    requires forall i, j :: 0 <= i < j < |ids| ==> ids[i] < ids[j]
    ensures Filter(list, (x: Garage) => x.id == h) == if h in ids then [b.garages[h]] else []
  {
    var ofIt := (x: Garage) => x.id == h;
    assert forall i :: 0 <= i < |list| ==> list[i].id == ids[i];
    if h in ids {
      var i :| 0 <= i < |ids| && ids[i] == h;
      assert Alone(list, ofIt, i);
      OneIsLeft(list, ofIt);
    } else {
      NoneKeptAt(list, ofIt);
    }
  }

  lemma BesideIsListed(b: Books, regs: seq<Registration>, g: GarageId, h: GarageId)
    requires BooksOk(b) && forall r :: r in regs ==> r.pass in b.passes
    ensures Beside(b, regs, g, h) <==> h in GaragesBeside(b, PassesFor(b, regs), g)
  {
    var ps := PassesFor(b, regs);
    if Beside(b, regs, g, h) {
      var r :| r in regs && h in b.passes[r.pass].garages;
      assert b.passes[r.pass] in ps;
    }
    if p :| p in ps && h in p.garages && h != g && h in b.garages {
      var r :| r in regs && p == b.passes[r.pass];
    }
  }

  /** THE STORE IS HONEST: what it hands in is what is recorded, so nothing an allowance
      counts is lost between the tables and the answer. */
  lemma TheStoreIsHonest(here: Place, book: Book, b: Books, regs: seq<Registration>, m: Movement)
    requires BooksOk(b) && m.direction == Entry && m.garage.timezone == here.zone(m.garage.id)
    requires forall r :: r in regs ==> r.pass in b.passes && m.garage.id in b.passes[r.pass].garages
    requires Permuted(b.visits, VisitsOf(book))
    requires forall g :: g in b.garages && !b.garages[g].unreadable ==> b.garages[g].timezone == here.zone(g)
    requires forall p :: p in b.passes && !b.passes[p].unreadable ==> b.passes[p].terms == Some(here.terms(p))
    ensures Honest(here, book, m, RecordsFor(b, regs, m.garage.id))
  {
    var rs := RecordsFor(b, regs, m.garage.id);
    HandedPasses(b, regs, m.garage.id);
    forall x | x in rs.garages ensures x.id in b.garages && x == b.garages[x.id] {
      GaragesHandedIn(b, regs, m.garage.id, x.id);
      assert x in Filter(rs.garages, (y: Garage) => y.id == x.id);
    }
    forall p | p in rs.passes
      ensures p.id in b.passes && p == b.passes[p.id] && Permuted(OnPass(rs.visits, p.id), OnPass(VisitsOf(book), p.id))
    {
      var r :| r in regs && p == b.passes[r.pass];
      VisitsHandedIn(b, regs, m.garage.id, p.id, v => true);
      FilterPermuted(b.visits, VisitsOf(book), (v: Visit) => v.pass == p.id);
    }
  }

  // --------------------------------------------------------------- who is in force

  /** The car left on the pass today: its stay was checked out of, on this very day. */
  ghost predicate LeftToday(rows: seq<Register.Row>, g: GarageId, key: string, d: Day, p: PassId) {
    exists i :: 0 <= i < |rows| && rows[i].garage == g && rows[i].plate == key && rows[i].pass == p
      && rows[i].why == Some(Register.ByCheckout) && rows[i].from < d && rows[i].end == Some(d)
  }

  /** What a movement is answered on: the pass that holds the car today; at an exit, where none
      does, those it left today. */
  ghost predicate Answerable(b: Books, g: GarageId, key: string, d: Day, direction: Direction, p: PassId) {
    || Has(b.rows, g, key, d, p)
    || (direction == Exit && (forall q :: !Has(b.rows, g, key, d, q)) && LeftToday(b.rows, g, key, d, p))
  }

  /** The question and the records it is put with. */
  ghost function Asked(garage: Garage, identity: string, lane: string, direction: Direction, at: Instant,
                       enteredAt: Option<Instant>): Movement
  {
    Movement(garage, Strip(identity), lane, direction, at, enteredAt)
  }

  lemma RowsAreRegistered(w: World, b: Books, garage: Garage, identity: string, i: nat, today: Option<Day>)
    requires PlateKey(identity) != "" && i < |b.rows| && b.rows[i].garage == garage.id && b.rows[i].plate == PlateKey(identity)
    ensures exists k :: 0 <= k < |RegistrationsOf(b, garage.id, identity, today)|
              && RegistrationsOf(b, garage.id, identity, today)[k] == RegistrationOf(b.codes, PlateKey(identity), today, b.rows[i])
  {
    var rows := RowsOf(b, garage.id, PlateKey(identity));
    assert b.rows[i] in b.rows && OfCarAt(b.rows[i], garage.id, PlateKey(identity));
    var k :| 0 <= k < |rows| && rows[k] == b.rows[i];
    assert RegistrationsOf(b, garage.id, identity, today)[k] == RegistrationOf(b.codes, PlateKey(identity), today, rows[k]);
  }

  lemma CheckedOutIs(b: Books, g: GarageId, key: string, d: Day, p: PassId)
    ensures CheckedOut(b, g, key, d, p) <==> LeftToday(b.rows, g, key, d, p)
  {
    if LeftToday(b.rows, g, key, d, p) {
      var i :| 0 <= i < |b.rows| && b.rows[i].garage == g && b.rows[i].plate == key && b.rows[i].pass == p
        && b.rows[i].why == Some(Register.ByCheckout) && b.rows[i].from < d && b.rows[i].end == Some(d);
      assert OfCarAt(b.rows[i], g, key);
    }
  }

  /** A registration of the list, on the pass, covers the day. */
  ghost predicate SomeCovers(regs: seq<Registration>, d: Day, p: PassId) {
    exists r :: r in regs && CoversDay(r, d) && r.pass == p
  }

  lemma FoundCovers(b: Books, g: GarageId, identity: string, today: Option<Day>, d: Day, p: PassId)
    requires PlateKey(identity) != ""
    ensures SomeCovers(RegistrationsOf(b, g, identity, today), d, p) <==> Has(b.rows, g, PlateKey(identity), d, p)
  {
    HasIsHeldBy(b.rows, g, PlateKey(identity), d, p);
    if Has(b.rows, g, PlateKey(identity), d, p) {
      HeldIsFound(b, g, identity, today, d, p);
    }
    if r :| r in RegistrationsOf(b, g, identity, today) && CoversDay(r, d) && r.pass == p {
      FoundIsRow(b, g, identity, today, r);
      var row :| row in b.rows && OfCarAt(row, g, PlateKey(identity)) && r == RegistrationOf(b.codes, PlateKey(identity), today, row);
      var i :| 0 <= i < |b.rows| && b.rows[i] == row;
      assert On(b.rows[i], d);
    }
  }

  /** Some registration handed in for the pass covers today exactly when the tables say so. */
  lemma HandedCovers(w: World, b: Books, garage: Garage, identity: string, direction: Direction, at: Instant, p: PassId)
    requires BooksOk(b) && !garage.unreadable && PlateKey(identity) != ""
    ensures SomeCovers(Handed(w, b, garage, identity, direction, at), DayAt(w, garage, at), p)
            <==> Answerable(b, garage.id, PlateKey(identity), DayAt(w, garage, at), direction, p)
  {
    var d, found := DayAt(w, garage, at), RegistrationsOf(b, garage.id, identity, Today(w, garage, at));
    FoundCovers(b, garage.id, identity, Today(w, garage, at), d, p);
    if r :| r in found && CoversDay(r, d) {
      FoundCovers(b, garage.id, identity, Today(w, garage, at), d, r.pass);
      assert SomeCovers(found, d, r.pass);
    } else if direction == Exit {
      forall q ensures !Has(b.rows, garage.id, PlateKey(identity), d, q) {
        FoundCovers(b, garage.id, identity, Today(w, garage, at), d, q);
      }
      HandedLonger(w, b, garage, identity, at, p);
    }
  }

  /** Where none covers today, the one checked out today is handed in a day longer. */
  lemma HandedLonger(w: World, b: Books, garage: Garage, identity: string, at: Instant, p: PassId)
    requires BooksOk(b) && !garage.unreadable && PlateKey(identity) != ""
    requires !exists r :: r in RegistrationsOf(b, garage.id, identity, Today(w, garage, at)) && CoversDay(r, DayAt(w, garage, at))
    ensures SomeCovers(Handed(w, b, garage, identity, Exit, at), DayAt(w, garage, at), p)
            <==> LeftToday(b.rows, garage.id, PlateKey(identity), DayAt(w, garage, at), p)
  {
    var d, key, today := DayAt(w, garage, at), PlateKey(identity), Today(w, garage, at);
    var found, handed := RegistrationsOf(b, garage.id, identity, today), Handed(w, b, garage, identity, Exit, at);
    assert forall k :: 0 <= k < |found| ==> handed[k] == ADayLonger(b, garage.id, key, d, found[k]);
    CheckedOutIs(b, garage.id, key, d, p);
    if LeftToday(b.rows, garage.id, key, d, p) {
      LeftIsHanded(w, b, garage, identity, at, p, found, handed);
    }
    if SomeCovers(handed, d, p) {
      HandedIsLeft(w, b, garage, identity, at, p, found, handed);
    }
  }

  lemma HandedIsLeft(w: World, b: Books, garage: Garage, identity: string, at: Instant, p: PassId, found: seq<Registration>,
                     handed: seq<Registration>)
    requires |handed| == |found| && !exists r :: r in found && CoversDay(r, DayAt(w, garage, at))
    requires forall k :: 0 <= k < |found| ==>
               handed[k] == ADayLonger(b, garage.id, PlateKey(identity), DayAt(w, garage, at), found[k])
    requires SomeCovers(handed, DayAt(w, garage, at), p)
    ensures LeftToday(b.rows, garage.id, PlateKey(identity), DayAt(w, garage, at), p)
  {
    CheckedOutIs(b, garage.id, PlateKey(identity), DayAt(w, garage, at), p);
    var r :| r in handed && CoversDay(r, DayAt(w, garage, at)) && r.pass == p;
    var k :| 0 <= k < |handed| && handed[k] == r;
    assert found[k] in found;
  }

  lemma LeftIsHanded(w: World, b: Books, garage: Garage, identity: string, at: Instant, p: PassId, found: seq<Registration>,
                     handed: seq<Registration>)
    requires PlateKey(identity) != "" && found == RegistrationsOf(b, garage.id, identity, Today(w, garage, at))
    requires |handed| == |found|
    requires forall k :: 0 <= k < |found| ==>
               handed[k] == ADayLonger(b, garage.id, PlateKey(identity), DayAt(w, garage, at), found[k])
    requires LeftToday(b.rows, garage.id, PlateKey(identity), DayAt(w, garage, at), p)
    ensures SomeCovers(handed, DayAt(w, garage, at), p)
  {
    var d, key := DayAt(w, garage, at), PlateKey(identity);
    CheckedOutIs(b, garage.id, key, d, p);
    var i: nat :| i < |b.rows| && b.rows[i].garage == garage.id && b.rows[i].plate == key && b.rows[i].pass == p
      && b.rows[i].why == Some(Register.ByCheckout) && b.rows[i].from < d && b.rows[i].end == Some(d);
    RowsAreRegistered(w, b, garage, identity, i, Today(w, garage, at));
    var k :| 0 <= k < |found| && found[k] == RegistrationOf(b.codes, key, Today(w, garage, at), b.rows[i]);
    assert handed[k] in handed && CoversDay(handed[k], d) && handed[k].pass == p;
  }

  // ------------------------------------------------------------------ the records

  ghost function Handing(w: World, b: Books, garage: Garage, identity: string, direction: Direction, at: Instant): Records
    requires BooksOk(b)
  {
    HandedOnPasses(w, b, garage, Strip(identity), direction, at);
    RecordsFor(b, Handed(w, b, garage, Strip(identity), direction, at), garage.id)
  }

  /** The records the store answers on: consistent, of its own passes, and a registration of
      each pass is current among them exactly when the tables say so. */
  lemma TheRecords(w: World, b: Books, garage: Garage, identity: string, lane: string, direction: Direction, at: Instant,
                   enteredAt: Option<Instant>)
    requires BooksOk(b)
    ensures var m, rs := Asked(garage, identity, lane, direction, at, enteredAt), Handing(w, b, garage, identity, direction, at);
            && RecordsOk(rs) && NothingDangles(w, m, rs)
            && AnswerInTransaction(w, b, garage, identity, lane, direction, at, enteredAt) == AccessAnswer(w, m, rs)
            && (forall p :: p in rs.passes ==> p.id in b.passes && p == b.passes[p.id] && HandedInOnce(rs, p))
            && forall r :: r in rs.registrations ==> r.pass in b.passes && b.passes[r.pass] in rs.passes
  {
    var m, rs := Asked(garage, identity, lane, direction, at, enteredAt), Handing(w, b, garage, identity, direction, at);
    var regs := Handed(w, b, garage, Strip(identity), direction, at);
    ByIdentity(w, b, garage, identity, lane, direction, at, enteredAt);
    DanglingIs(w, m, rs);
    ItsOwnPasses(b, regs, garage.id);
  }

  lemma ItsOwnPasses(b: Books, regs: seq<Registration>, g: GarageId)
    requires BooksOk(b) && forall r :: r in regs ==> r.pass in b.passes
    ensures forall p :: p in RecordsFor(b, regs, g).passes ==>
              p.id in b.passes && p == b.passes[p.id] && HandedInOnce(RecordsFor(b, regs, g), p)
    ensures forall r :: r in regs ==> b.passes[r.pass] in RecordsFor(b, regs, g).passes
  {
    EachPassOnce(b, regs);
    forall p | p in RecordsFor(b, regs, g).passes
      ensures p.id in b.passes && p == b.passes[p.id] && HandedInOnce(RecordsFor(b, regs, g), p)
    {
      var r :| r in regs && p == b.passes[r.pass];
    }
  }

  lemma CurrentCovers(w: World, b: Books, garage: Garage, identity: string, lane: string, direction: Direction, at: Instant,
                      enteredAt: Option<Instant>, r: Registration)
    requires BooksOk(b) && r in Handing(w, b, garage, identity, direction, at).registrations
    ensures var m, rs := Asked(garage, identity, lane, direction, at, enteredAt), Handing(w, b, garage, identity, direction, at);
            CurrentHere(w, m, rs, r) <==> CoversDay(r, DayAt(w, garage, at))
  {
    MovementOfCar(garage, identity, lane, direction, at, enteredAt);
    HandedKnown(w, b, garage, Strip(identity), direction, at);
    TheRecords(w, b, garage, identity, lane, direction, at, enteredAt);
    assert b.passes[r.pass] in Handing(w, b, garage, identity, direction, at).passes;
  }

  /** Some registration handed in, on the pass, is in force there. */
  ghost predicate CurrentOn(w: World, m: Movement, rs: Records, p: PassId) {
    exists r :: r in rs.registrations && CurrentHere(w, m, rs, r) && r.pass == p
  }

  /** The pass holds the car today, or it left on it today: its registration is in force. */
  lemma RegisteredIs(w: World, b: Books, garage: Garage, identity: string, lane: string, direction: Direction, at: Instant,
                     enteredAt: Option<Instant>, p: PassId)
    requires BooksOk(b) && !garage.unreadable
    ensures CurrentOn(w, Asked(garage, identity, lane, direction, at, enteredAt), Handing(w, b, garage, identity, direction, at), p)
            <==> PlateKey(identity) != "" && Answerable(b, garage.id, PlateKey(identity), DayAt(w, garage, at), direction, p)
  {
    var m, rs := Asked(garage, identity, lane, direction, at, enteredAt), Handing(w, b, garage, identity, direction, at);
    CurrentOnIs(w, b, garage, identity, lane, direction, at, enteredAt, p);
    StripKeepsKey(identity);
    if PlateKey(identity) != "" {
      HandedCovers(w, b, garage, Strip(identity), direction, at, p);
    } else {
      assert Handed(w, b, garage, Strip(identity), direction, at) == [];
    }
  }

  lemma CurrentOnIs(w: World, b: Books, garage: Garage, identity: string, lane: string, direction: Direction, at: Instant,
                    enteredAt: Option<Instant>, p: PassId)
    requires BooksOk(b)
    ensures CurrentOn(w, Asked(garage, identity, lane, direction, at, enteredAt), Handing(w, b, garage, identity, direction, at), p)
            <==> SomeCovers(Handed(w, b, garage, Strip(identity), direction, at), DayAt(w, garage, at), p)
  {
    var m, rs := Asked(garage, identity, lane, direction, at, enteredAt), Handing(w, b, garage, identity, direction, at);
    forall r | r in rs.registrations ensures CurrentHere(w, m, rs, r) <==> CoversDay(r, DayAt(w, garage, at)) {
      CurrentCovers(w, b, garage, identity, lane, direction, at, enteredAt, r);
    }
  }

  /** What every registration of the pass says of the car's replacement is what the QRs say. */
  lemma HandedSays(w: World, b: Books, garage: Garage, identity: string, direction: Direction, at: Instant, r: Registration)
    requires BooksOk(b) && !garage.unreadable && r in Handed(w, b, garage, Strip(identity), direction, at)
    ensures var key, d := PlateKey(identity), DayAt(w, garage, at);
            && r.exitOnly == NoLongerEnters(b.codes, r.pass, key, d)
            && r.exitOnlyAt == if NoLongerEnters(b.codes, r.pass, key, d) then LatestReplacement(b.codes, r.pass, key) else None
  {
    StripKeepsKey(identity);
    HandedKnown(w, b, garage, Strip(identity), direction, at);
    GoneIs(b.codes, r.pass, PlateKey(identity), DayAt(w, garage, at));
    var row :| ReadFrom(w, b, garage, PlateKey(identity), direction, at, r, row);
  }

  lemma AllSayAlike(w: World, m: Movement, rs: Records, p: PassId, gone: bool, latest: Option<Instant>, before: bool)
    requires forall r :: r in rs.registrations && r.pass == p ==> r.exitOnly == gone && r.exitOnlyAt == if gone then latest else None
    requires CurrentOn(w, m, rs, p)
    requires gone ==> latest.Some? && (before <==> (m.enteredAt.Some? ==> m.enteredAt.value < latest.value))
    ensures Admission.ReplacedOn(w, m, rs, p) <==> gone
    ensures gone ==> (EnteredBefore(w, m, rs, p) <==> before)
  {
  }

  /** Every registration handed in on the pass says alike of the car's replacement. */
  lemma SaysOfReplacement(w: World, b: Books, garage: Garage, identity: string, direction: Direction, at: Instant, p: PassId)
    requires BooksOk(b) && !garage.unreadable
    ensures var key, d := PlateKey(identity), DayAt(w, garage, at);
            forall r :: r in Handing(w, b, garage, identity, direction, at).registrations && r.pass == p ==>
              && r.exitOnly == NoLongerEnters(b.codes, p, key, d)
              && r.exitOnlyAt == if NoLongerEnters(b.codes, p, key, d) then LatestReplacement(b.codes, p, key) else None
  {
    forall r | r in Handing(w, b, garage, identity, direction, at).registrations && r.pass == p
      ensures var key, d := PlateKey(identity), DayAt(w, garage, at);
              && r.exitOnly == NoLongerEnters(b.codes, p, key, d)
              && r.exitOnlyAt == if NoLongerEnters(b.codes, p, key, d) then LatestReplacement(b.codes, p, key) else None
    {
      HandedSays(w, b, garage, identity, direction, at, r);
    }
  }

  lemma ReplacementIs(w: World, b: Books, garage: Garage, identity: string, lane: string, direction: Direction, at: Instant,
                      enteredAt: Option<Instant>, p: PassId)
    requires BooksOk(b) && !garage.unreadable
    requires CurrentOn(w, Asked(garage, identity, lane, direction, at, enteredAt), Handing(w, b, garage, identity, direction, at), p)
    ensures var m, rs := Asked(garage, identity, lane, direction, at, enteredAt), Handing(w, b, garage, identity, direction, at);
            var key, d := PlateKey(identity), DayAt(w, garage, at);
            && (Admission.ReplacedOn(w, m, rs, p) <==> NoLongerEnters(b.codes, p, key, d))
            && (NoLongerEnters(b.codes, p, key, d) ==> (EnteredBefore(w, m, rs, p) <==> EnteredBeforeOne(b.codes, p, key, enteredAt)))
  {
    var m, rs := Asked(garage, identity, lane, direction, at, enteredAt), Handing(w, b, garage, identity, direction, at);
    var gone, latest := NoLongerEnters(b.codes, p, PlateKey(identity), DayAt(w, garage, at)), LatestReplacement(b.codes, p, PlateKey(identity));
    SaysOfReplacement(w, b, garage, identity, direction, at, p);
    if gone {
      LatestIs(b.codes, p, PlateKey(identity), DayAt(w, garage, at), enteredAt);
    }
    AllSayAlike(w, m, rs, p, gone, latest, EnteredBeforeOne(b.codes, p, PlateKey(identity), enteredAt));
  }

  // ---------------------------------------------------------- the allowance, recorded

  /** The clock a garage's entries are read on: known to the store and readable, and this
      garage or one that a pass the car is registered on here names. */
  ghost predicate ClockHeld(b: Books, garage: Garage, key: string, h: GarageId, zone: string) {
    if h == garage.id then zone == garage.timezone
    else h in b.garages && !b.garages[h].unreadable && b.garages[h].timezone == zone
         && NamedByARow(b, garage.id, key, h)
  }

  /** A pass that one of the car's rows here is on names the garage. */
  ghost predicate NamedByARow(b: Books, g: GarageId, key: string, h: GarageId) {
    exists i :: 0 <= i < |b.rows| && b.rows[i].garage == g && b.rows[i].plate == key
      && b.rows[i].pass in b.passes && h in b.passes[b.rows[i].pass].garages
  }

  ghost predicate RecordedInside(w: World, b: Books, garage: Garage, key: string, d: Day, window: Window, v: Visit) {
    exists zone :: ClockHeld(b, garage, key, v.garage, zone) && ReadsInside(w.clock(zone, v.enteredAt), d, window)
  }

  /** Fewer entries are recorded on the pass than it allows, ever or under the first window
      open now, every one of them with a clock to read it on. */
  ghost predicate AllowanceStands(w: World, b: Books, m: Movement, key: string, p: PassId, t: Terms) {
    t.allowance.Some? ==>
      if t.allowance.value.per == Life then HowMany(b.visits, (v: Visit) => v.pass == p) < t.allowance.value.count
      else
        && (forall v :: v in b.visits && v.pass == p ==> exists zone :: ClockHeld(b, m.garage, key, v.garage, zone))
        && exists i :: OpensFirst(w, m, t, i)
             && RecordedUnder(w, b, m, key, p, t.windows[i]) < t.allowance.value.count
  }

  /** How many entries of the pass are recorded in the window today. */
  ghost function RecordedUnder(w: World, b: Books, m: Movement, key: string, p: PassId, window: Window): nat {
    HowMany(b.visits, (v: Visit) => v.pass == p && RecordedInside(w, b, m.garage, key, TodayAt(w, m), window, v))
  }

  lemma ClockHeldIs(w: World, b: Books, garage: Garage, identity: string, lane: string, direction: Direction, at: Instant,
                    enteredAt: Option<Instant>, h: GarageId, zone: string)
    requires BooksOk(b) && PlateKey(identity) != ""
    ensures InZone(Asked(garage, identity, lane, direction, at, enteredAt), Handing(w, b, garage, identity, direction, at), h, zone)
            <==> ClockHeld(b, garage, PlateKey(identity), h, zone)
  {
    var m, rs := Asked(garage, identity, lane, direction, at, enteredAt), Handing(w, b, garage, identity, direction, at);
    var regs := Handed(w, b, garage, Strip(identity), direction, at);
    HandedKnown(w, b, garage, Strip(identity), direction, at);
    GaragesHandedIn(b, regs, garage.id, h);
    BesideARow(w, b, garage, identity, direction, at, h);
    ClockIs(m, rs, h, zone);
  }

  /** A garage is beside the selected passes exactly when a pass of one of the car's rows names it. */
  lemma BesideARow(w: World, b: Books, garage: Garage, identity: string, direction: Direction, at: Instant, h: GarageId)
    requires BooksOk(b) && PlateKey(identity) != ""
    requires forall r :: r in Handed(w, b, garage, Strip(identity), direction, at) ==> r.pass in b.passes
    ensures Beside(b, Handed(w, b, garage, Strip(identity), direction, at), garage.id, h) <==>
              h != garage.id && h in b.garages && NamedByARow(b, garage.id, PlateKey(identity), h)
  {
    var regs := Handed(w, b, garage, Strip(identity), direction, at);
    if r :| r in regs && h in b.passes[r.pass].garages {
      StripKeepsKey(identity);
      HandedKnown(w, b, garage, Strip(identity), direction, at);
      var row :| ReadFrom(w, b, garage, PlateKey(identity), direction, at, r, row);
      var i :| 0 <= i < |b.rows| && b.rows[i] == row;
    }
    if NamedByARow(b, garage.id, PlateKey(identity), h) {
      ARowIsHandedIn(w, b, garage, identity, direction, at, h);
    }
  }

  lemma HandedRow(w: World, b: Books, garage: Garage, identity: string, direction: Direction, at: Instant, k: nat)
    requires k < |RegistrationsOf(b, garage.id, identity, Today(w, garage, at))|
    ensures k < |Handed(w, b, garage, identity, direction, at)|
    ensures var r := Handed(w, b, garage, identity, direction, at)[k];
            && r in Handed(w, b, garage, identity, direction, at)
            && r.pass == RegistrationsOf(b, garage.id, identity, Today(w, garage, at))[k].pass
  {
  }

  lemma ARowIsHandedIn(w: World, b: Books, garage: Garage, identity: string, direction: Direction, at: Instant, h: GarageId)
    requires BooksOk(b) && PlateKey(identity) != "" && NamedByARow(b, garage.id, PlateKey(identity), h)
    requires forall r :: r in Handed(w, b, garage, Strip(identity), direction, at) ==> r.pass in b.passes
    ensures exists r :: r in Handed(w, b, garage, Strip(identity), direction, at) && h in b.passes[r.pass].garages
  {
    var i: nat :| i < |b.rows| && b.rows[i].garage == garage.id && b.rows[i].plate == PlateKey(identity)
      && b.rows[i].pass in b.passes && h in b.passes[b.rows[i].pass].garages;
    StripKeepsKey(identity);
    RowsAreRegistered(w, b, garage, Strip(identity), i, Today(w, garage, at));
    var regs, found := Handed(w, b, garage, Strip(identity), direction, at),
                       RegistrationsOf(b, garage.id, Strip(identity), Today(w, garage, at));
    var k :| 0 <= k < |found| && found[k] == RegistrationOf(b.codes, PlateKey(identity), Today(w, garage, at), b.rows[i]);
    HandedRow(w, b, garage, Strip(identity), direction, at, k);
  }

  lemma AllowanceStandsIs(w: World, b: Books, garage: Garage, identity: string, lane: string, direction: Direction, at: Instant,
                          enteredAt: Option<Instant>, p: PassId, t: Terms)
    requires BooksOk(b) && PlateKey(identity) != ""
    requires exists r :: r in Handing(w, b, garage, identity, direction, at).registrations && r.pass == p
    ensures var m, rs := Asked(garage, identity, lane, direction, at, enteredAt), Handing(w, b, garage, identity, direction, at);
            UnderItsAllowance(w, m, rs, p, t) <==> AllowanceStands(w, b, m, PlateKey(identity), p, t)
  {
    var m, rs := Asked(garage, identity, lane, direction, at, enteredAt), Handing(w, b, garage, identity, direction, at);
    var key, regs := PlateKey(identity), Handed(w, b, garage, Strip(identity), direction, at);
    HandedKnown(w, b, garage, Strip(identity), direction, at);
    forall h, zone ensures InZone(m, rs, h, zone) <==> ClockHeld(b, garage, key, h, zone) {
      ClockHeldIs(w, b, garage, identity, lane, direction, at, enteredAt, h, zone);
    }
    LifeCountsAlike(b, regs, garage.id, p);
    VisitsHandedIn(b, regs, garage.id, p, v => true);
    forall i | 0 <= i < |t.windows|
      ensures EnteredUnder(w, m, rs, p, t.windows[i]) == RecordedUnder(w, b, m, key, p, t.windows[i])
    {
      WindowCountsAlike(w, b, m, key, regs, p, t.windows[i]);
    }
    AllowanceAlike(w, b, m, rs, key, p, t);
  }

  lemma LifeCountsAlike(b: Books, regs: seq<Registration>, g: GarageId, p: PassId)
    requires BooksOk(b) && (forall r :: r in regs ==> r.pass in b.passes) && exists r :: r in regs && r.pass == p
    ensures HowMany(RecordsFor(b, regs, g).visits, (v: Visit) => v.pass == p) == HowMany(b.visits, (v: Visit) => v.pass == p)
  {
    VisitsHandedIn(b, regs, g, p, v => true);
    FilterSize(b.visits, (v: Visit) => v.pass == p);
    FilterSize(RecordsFor(b, regs, g).visits, (v: Visit) => v.pass == p);
  }

  lemma WindowCountsAlike(w: World, b: Books, m: Movement, key: string, regs: seq<Registration>, p: PassId, window: Window)
    requires BooksOk(b) && (forall r :: r in regs ==> r.pass in b.passes) && exists r :: r in regs && r.pass == p
    requires forall h, zone :: InZone(m, RecordsFor(b, regs, m.garage.id), h, zone) <==> ClockHeld(b, m.garage, key, h, zone)
    ensures EnteredUnder(w, m, RecordsFor(b, regs, m.garage.id), p, window) == RecordedUnder(w, b, m, key, p, window)
  {
    var rs := RecordsFor(b, regs, m.garage.id);
    var inside := (v: Visit) => EnteredInside(w, m, rs, window, v);
    forall v ensures EnteredInside(w, m, rs, window, v) <==> RecordedInside(w, b, m.garage, key, TodayAt(w, m), window, v) {
    }
    VisitsHandedIn(b, regs, m.garage.id, p, inside);
    HowManyAlike(rs.visits, (v: Visit) => v.pass == p && EnteredInside(w, m, rs, window, v), (v: Visit) => v.pass == p && inside(v));
    HowManyAlike(b.visits, (v: Visit) => v.pass == p && inside(v),
                 (v: Visit) => v.pass == p && RecordedInside(w, b, m.garage, key, TodayAt(w, m), window, v));
  }

  lemma AllowanceAlike(w: World, b: Books, m: Movement, rs: Records, key: string, p: PassId, t: Terms)
    requires forall h, zone :: InZone(m, rs, h, zone) <==> ClockHeld(b, m.garage, key, h, zone)
    requires HowMany(rs.visits, (v: Visit) => v.pass == p) == HowMany(b.visits, (v: Visit) => v.pass == p)
    requires forall v :: v in rs.visits && v.pass == p <==> v in b.visits && v.pass == p
    requires forall i :: 0 <= i < |t.windows| ==>
               EnteredUnder(w, m, rs, p, t.windows[i]) == RecordedUnder(w, b, m, key, p, t.windows[i])
    ensures UnderItsAllowance(w, m, rs, p, t) <==> AllowanceStands(w, b, m, key, p, t)
  {
  }

  // ------------------------------------------------------------------ the two theorems

  /** AN ENTRY FROM THE STORE is covered exactly when it can be read and the garage states its
      transient mode, some pass holds the car there today, that pass admits the movement, the
      car was not replaced on it with no other QR standing, and fewer entries are recorded on it
      than it allows. */
  lemma EntryFromTheStore(w: World, b: Books, garage: Garage, identity: string, lane: string, at: Instant,
                          enteredAt: Option<Instant>)
    requires BooksOk(b)
    ensures var m, key := Asked(garage, identity, lane, Entry, at, enteredAt), PlateKey(identity);
            AnswerInTransaction(w, b, garage, identity, lane, Entry, at, enteredAt).outcome == Covered <==>
              CanBeRead(m) && garage.transient.Some? && key != "" && exists p :: p in b.passes && EntersByTheStore(w, b, m, key, p)
  {
    var m, rs := Asked(garage, identity, lane, Entry, at, enteredAt), Handing(w, b, garage, identity, Entry, at);
    TheRecords(w, b, garage, identity, lane, Entry, at, enteredAt);
    EntryIsCovered(w, m, rs);
    if CanBeRead(m) {
      forall p | p in b.passes
        ensures (exists i: int, q: Pass :: TheOnePass(w, m, rs, i, q) && q.id == p && AdmitsEntry(w, m, rs, q))
                <==> PlateKey(identity) != "" && EntersByTheStore(w, b, m, PlateKey(identity), p)
      {
        EntersOnIs(w, b, garage, identity, lane, at, enteredAt, p);
      }
    }
  }

  ghost predicate EntersByTheStore(w: World, b: Books, m: Movement, key: string, p: PassId)
    requires p in b.passes
  {
    && Has(b.rows, m.garage.id, key, TodayAt(w, m), p)
    && Admission.Admits(w, m, b.passes[p])
    && !NoLongerEnters(b.codes, p, key, TodayAt(w, m))
    && AllowanceStands(w, b, m, key, p, b.passes[p].terms.value)
  }

  lemma EntersOnIs(w: World, b: Books, garage: Garage, identity: string, lane: string, at: Instant, enteredAt: Option<Instant>,
                   p: PassId)
    requires BooksOk(b) && p in b.passes && !garage.unreadable
    ensures var m, rs := Asked(garage, identity, lane, Entry, at, enteredAt), Handing(w, b, garage, identity, Entry, at);
            (exists i: int, q: Pass :: TheOnePass(w, m, rs, i, q) && q.id == p && AdmitsEntry(w, m, rs, q))
            <==> PlateKey(identity) != "" && EntersByTheStore(w, b, m, PlateKey(identity), p)
  {
    var m, rs := Asked(garage, identity, lane, Entry, at, enteredAt), Handing(w, b, garage, identity, Entry, at);
    TheRecords(w, b, garage, identity, lane, Entry, at, enteredAt);
    RegisteredIs(w, b, garage, identity, lane, Entry, at, enteredAt, p);
    OnlyOneIs(w, b, garage, identity, lane, at, enteredAt, p);
    if CurrentOn(w, m, rs, p) {
      ReplacementIs(w, b, garage, identity, lane, Entry, at, enteredAt, p);
      if b.passes[p].terms.Some? {
        AllowanceStandsIs(w, b, garage, identity, lane, Entry, at, enteredAt, p, b.passes[p].terms.value);
      }
    }
  }

  /** Some registration of the pass is in force, so it is the one, and its pass the one. */
  lemma OnlyOneIs(w: World, b: Books, garage: Garage, identity: string, lane: string, at: Instant, enteredAt: Option<Instant>,
                  p: PassId)
    requires BooksOk(b) && p in b.passes && !garage.unreadable
    ensures var m, rs := Asked(garage, identity, lane, Entry, at, enteredAt), Handing(w, b, garage, identity, Entry, at);
            && (forall i: int, q: Pass :: TheOnePass(w, m, rs, i, q) && q.id == p ==> q == b.passes[p] && CurrentOn(w, m, rs, p))
            && (CurrentOn(w, m, rs, p) ==> exists i: int :: TheOnePass(w, m, rs, i, b.passes[p]))
  {
    var m, rs := Asked(garage, identity, lane, Entry, at, enteredAt), Handing(w, b, garage, identity, Entry, at);
    TheRecords(w, b, garage, identity, lane, Entry, at, enteredAt);
    RegisteredIs(w, b, garage, identity, lane, Entry, at, enteredAt, p);
    if CurrentOn(w, m, rs, p) {
      StripKeepsKey(identity);
      HasIsHeldBy(b.rows, garage.id, PlateKey(identity), DayAt(w, garage, at), p);
      OneCurrent(w, b, garage, identity, lane, at, enteredAt, p);
      ItsPassIsTheOne(w, m, rs, b.passes[p]);
    }
  }

  lemma ItsPassIsTheOne(w: World, m: Movement, rs: Records, p: Pass)
    requires |InForce(w, m, rs)| == 1 && CurrentOn(w, m, rs, p.id)
    requires forall q :: q in rs.passes && q.id == p.id ==> q == p && HandedInOnce(rs, q)
    ensures exists i: int :: TheOnePass(w, m, rs, i, p)
  {
    InForceHere(w, m, rs);
    var i :| OnlyCurrent(w, m, rs, i);
    assert TheOnePass(w, m, rs, i, p);
  }

  lemma OneCurrent(w: World, b: Books, garage: Garage, identity: string, lane: string, at: Instant, enteredAt: Option<Instant>,
                   p: PassId)
    requires BooksOk(b) && !garage.unreadable && PlateKey(Strip(identity)) != ""
    requires RegisterProofs.HeldBy(b.rows, garage.id, PlateKey(Strip(identity)), DayAt(w, garage, at), p)
    ensures |InForce(w, Asked(garage, identity, lane, Entry, at, enteredAt), Handing(w, b, garage, identity, Entry, at))| == 1
  {
    var m, rs := Asked(garage, identity, lane, Entry, at, enteredAt), Handing(w, b, garage, identity, Entry, at);
    var unstated := m.(enteredAt := None);
    Bind.OneInForceToday(w, b, garage, identity, lane, Entry, at, p);
    InForceHere(w, unstated, rs);
    var i :| OnlyCurrent(w, unstated, rs, i);
    EntryStatedOrNot(w, m, rs, i);
    InForceHere(w, m, rs);
  }

  lemma EntryStatedOrNot(w: World, m: Movement, rs: Records, i: int)
    ensures OnlyCurrent(w, m, rs, i) <==> OnlyCurrent(w, m.(enteredAt := None), rs, i)
  {
    forall r ensures CurrentHere(w, m, rs, r) <==> CurrentHere(w, m.(enteredAt := None), rs, r) {
    }
  }

  /** AN EXIT FROM THE STORE is covered exactly when it can be read and some pass that holds the
      car there today, or that it left on today where none does, admits the movement; entered,
      if that is stated, before a replacement of the car that no other QR makes up for; and its
      last recorded entry, if it is still inside, no longer ago than the longest stay. */
  lemma ExitFromTheStore(w: World, b: Books, garage: Garage, identity: string, lane: string, at: Instant,
                         enteredAt: Option<Instant>)
    requires BooksOk(b)
    ensures var m, key := Asked(garage, identity, lane, Exit, at, enteredAt), PlateKey(identity);
            AnswerInTransaction(w, b, garage, identity, lane, Exit, at, enteredAt).outcome == Covered <==>
              CanBeRead(m) && key != "" && exists p :: p in b.passes && LeavesByTheStore(w, b, m, key, p)
  {
    var m, rs := Asked(garage, identity, lane, Exit, at, enteredAt), Handing(w, b, garage, identity, Exit, at);
    TheRecords(w, b, garage, identity, lane, Exit, at, enteredAt);
    ExitIsCovered(w, m, rs);
    if CanBeRead(m) {
      forall p | p in b.passes
        ensures (exists q :: RegisteredOn(w, m, rs, q) && q.id == p && LetsOut(w, m, rs, q))
                <==> PlateKey(identity) != "" && LeavesByTheStore(w, b, m, PlateKey(identity), p)
      {
        LeavesIs(w, b, garage, identity, lane, at, enteredAt, p);
      }
    }
  }

  ghost predicate LeavesByTheStore(w: World, b: Books, m: Movement, key: string, p: PassId)
    requires p in b.passes
  {
    && Answerable(b, m.garage.id, key, TodayAt(w, m), Exit, p)
    && Admission.Admits(w, m, b.passes[p])
    && (NoLongerEnters(b.codes, p, key, TodayAt(w, m)) ==> EnteredBeforeOne(b.codes, p, key, m.enteredAt))
    && WithinItsStay(m, b.visits, p, b.passes[p].terms.value)
  }

  lemma LeavesIs(w: World, b: Books, garage: Garage, identity: string, lane: string, at: Instant, enteredAt: Option<Instant>,
                 p: PassId)
    requires BooksOk(b) && p in b.passes && !garage.unreadable
    ensures var m, rs := Asked(garage, identity, lane, Exit, at, enteredAt), Handing(w, b, garage, identity, Exit, at);
            (exists q :: RegisteredOn(w, m, rs, q) && q.id == p && LetsOut(w, m, rs, q))
            <==> PlateKey(identity) != "" && LeavesByTheStore(w, b, m, PlateKey(identity), p)
  {
    var m, rs := Asked(garage, identity, lane, Exit, at, enteredAt), Handing(w, b, garage, identity, Exit, at);
    TheRecords(w, b, garage, identity, lane, Exit, at, enteredAt);
    RegisteredIs(w, b, garage, identity, lane, Exit, at, enteredAt, p);
    assert forall q :: RegisteredOn(w, m, rs, q) && q.id == p ==> q == b.passes[p] && CurrentOn(w, m, rs, p);
    if CurrentOn(w, m, rs, p) {
      assert RegisteredOn(w, m, rs, b.passes[p]);
      LetsOutIs(w, b, garage, identity, lane, at, enteredAt, p);
    }
  }

  lemma LetsOutIs(w: World, b: Books, garage: Garage, identity: string, lane: string, at: Instant, enteredAt: Option<Instant>,
                  p: PassId)
    requires BooksOk(b) && p in b.passes && !garage.unreadable
    requires CurrentOn(w, Asked(garage, identity, lane, Exit, at, enteredAt), Handing(w, b, garage, identity, Exit, at), p)
    ensures var m, rs := Asked(garage, identity, lane, Exit, at, enteredAt), Handing(w, b, garage, identity, Exit, at);
            LetsOut(w, m, rs, b.passes[p]) <==>
              && Admission.Admits(w, m, b.passes[p])
              && (NoLongerEnters(b.codes, p, PlateKey(identity), TodayAt(w, m)) ==>
                    EnteredBeforeOne(b.codes, p, PlateKey(identity), m.enteredAt))
              && WithinItsStay(m, b.visits, p, b.passes[p].terms.value)
  {
    HandedKnown(w, b, garage, Strip(identity), Exit, at);
    ReplacementIs(w, b, garage, identity, lane, Exit, at, enteredAt, p);
    VisitsHandedIn(b, Handed(w, b, garage, Strip(identity), Exit, at), garage.id, p, v => true);
    if b.passes[p].terms.Some? {
      StaysAlike(Asked(garage, identity, lane, Exit, at, enteredAt), Handing(w, b, garage, identity, Exit, at).visits, b.visits, p,
                 b.passes[p].terms.value);
    }
  }

  lemma StaysAlike(m: Movement, some: seq<Visit>, all: seq<Visit>, p: PassId, t: Terms)
    requires forall v :: v in some && v.pass == p <==> v in all && v.pass == p
    ensures WithinItsStay(m, some, p, t) <==> WithinItsStay(m, all, p, t)
  {
    assert forall v :: v in some && StillInside(m, p, v) <==> v in all && StillInside(m, p, v);
  }

  /** An entry is covered on the pass that holds the car. */
  lemma CoveredOnItsHolder(w: World, b: Books, garage: Garage, identity: string, lane: string, at: Instant,
                           enteredAt: Option<Instant>, p: PassId)
    requires BooksOk(b) && p in b.passes && Has(b.rows, garage.id, PlateKey(identity), DayAt(w, garage, at), p)
    requires AnswerInTransaction(w, b, garage, identity, lane, Entry, at, enteredAt).outcome == Covered
    ensures EntersByTheStore(w, b, Asked(garage, identity, lane, Entry, at, enteredAt), PlateKey(identity), p)
  {
    EntryFromTheStore(w, b, garage, identity, lane, at, enteredAt);
    var m, key := Asked(garage, identity, lane, Entry, at, enteredAt), PlateKey(identity);
    var q :| q in b.passes && EntersByTheStore(w, b, m, key, q);
    HeldByOne(b, garage.id, key, DayAt(w, garage, at), p, q);
  }

  lemma HeldByOne(b: Books, g: GarageId, key: string, d: Day, p: PassId, q: PassId)
    requires BooksOk(b) && Has(b.rows, g, key, d, p) && Has(b.rows, g, key, d, q)
    ensures p == q
  {
    HasIsHeldBy(b.rows, g, key, d, p);
    HasIsHeldBy(b.rows, g, key, d, q);
    OneHolder(b, g, key, d, p, q);
  }

  lemma Recorded(b: Books, p: PassId)
    ensures HowMany(b.visits, (v: Visit) => v.pass == p) == |set i | 0 <= i < |b.visits| && b.visits[i].pass == p|
  {
    assert Places(b.visits, (v: Visit) => v.pass == p) == set i | 0 <= i < |b.visits| && b.visits[i].pass == p;
  }

  /** SO WITH A LIFE ALLOWANCE OF N an entry is covered only while fewer than N entries of its
      pass are recorded, whichever garages they were made at. */
  lemma LifeAllowanceFromTheStore(w: World, b: Books, garage: Garage, identity: string, lane: string, at: Instant,
                                  enteredAt: Option<Instant>, p: PassId, n: int)
    requires BooksOk(b) && p in b.passes && b.passes[p].terms.Some?
    requires var allowance := b.passes[p].terms.value.allowance;
             allowance.Some? && allowance.value.per == Life && allowance.value.count == n
    requires Has(b.rows, garage.id, PlateKey(identity), DayAt(w, garage, at), p)
    requires AnswerInTransaction(w, b, garage, identity, lane, Entry, at, enteredAt).outcome == Covered
    ensures |set i | 0 <= i < |b.visits| && b.visits[i].pass == p| < n
  {
    CoveredOnItsHolder(w, b, garage, identity, lane, at, enteredAt, p);
    Recorded(b, p);
  }

  // ------------------------------------------------------------- the last day's answer

  /** AN EXIT ON THE DAY ITS STAY ENDED: a bound QR's car is covered exactly when the movement can
      be read and the QR's own pass names the garage, admits it, and its recorded entry, if the
      car is still inside, is no longer ago than the longest stay. */
  lemma LeavesOnItsLastDay(w: World, b: Books, garage: Garage, c: Code, lane: string, at: Instant)
    requires BooksOk(b) && BoundTo(c).Some? && c.pass in b.passes && !garage.unreadable
    ensures var m, pass := Movement(garage, PlateKey(BoundTo(c).value), lane, Exit, at, None), b.passes[c.pass];
            RecognisedAnswer(w, b, garage, c, Runs.LastDay, lane, Exit, at).outcome == Covered <==>
              CanBeRead(m) && garage.id in pass.garages && Admission.Admits(w, m, pass)
              && WithinItsStay(m, b.visits, c.pass, pass.terms.value)
  {
    var key := PlateKey(BoundTo(c).value);
    var from := LastDayFrom(b.rows, garage.id, c.pass, key, DayAt(w, garage, at));
    ShownByRead.BeganWithTheEarliest(b.rows, garage.id, c.pass, key, DayAt(w, garage, at));
    OneStayIsHandedIn(w, b, garage, key, c.pass, from, lane, at);
  }

  /** The answer for one stay of the pass, handed in as running to the end of today. */
  lemma OneStayIsHandedIn(w: World, b: Books, garage: Garage, key: string, p: PassId, from: Day, lane: string, at: Instant)
    requires BooksOk(b) && p in b.passes && !garage.unreadable && from <= DayAt(w, garage, at)
    ensures var m := Movement(garage, key, lane, Exit, at, None);
            AnswerOnTheStaysLastDay(w, b, garage, key, p, from, lane, Exit, at).outcome == Covered <==>
              CanBeRead(m) && garage.id in b.passes[p].garages && Admission.Admits(w, m, b.passes[p])
              && WithinItsStay(m, b.visits, p, b.passes[p].terms.value)
  {
    var m, stay := Movement(garage, key, lane, Exit, at, None), TheStay(w, garage, key, p, from, at);
    var rs := RecordsFor(b, [stay], garage.id);
    ItsOwnPasses(b, [stay], garage.id);
    ExitIsCovered(w, m, rs);
    OnlyThatStay(w, b, m, rs, stay);
    VisitsHandedIn(b, [stay], garage.id, p, v => true);
    if b.passes[p].terms.Some? {
      StaysAlike(m, rs.visits, b.visits, p, b.passes[p].terms.value);
    }
    assert LetsOut(w, m, rs, b.passes[p]) <==>
        Admission.Admits(w, m, b.passes[p]) && WithinItsStay(m, rs.visits, p, b.passes[p].terms.value);
  }

  lemma OnlyThatStay(w: World, b: Books, m: Movement, rs: Records, stay: Registration)
    requires BooksOk(b) && stay.pass in b.passes && rs.registrations == [stay] && b.passes[stay.pass] in rs.passes
    requires forall q :: q in rs.passes ==> q.id in b.passes && q == b.passes[q.id]
    requires Current(w, m, stay) && !stay.exitOnly
    ensures forall q :: RegisteredOn(w, m, rs, q) <==> q == b.passes[stay.pass] && m.garage.id in q.garages
    ensures forall q :: !Admission.ReplacedOn(w, m, rs, q)
  {
    assert CurrentHere(w, m, rs, stay) <==> m.garage.id in b.passes[stay.pass].garages;
    assert stay in rs.registrations;
  }

  // ---------------------------------------------------------- while the stay lives

  /** WHILE ITS STAY LIVES a bound QR's car enters exactly as any car of its pass does: the pass
      admits the movement, the car was not replaced with no other QR standing, and an entry of
      the allowance is left. */
  lemma EntersWhileItLives(w: World, b: Books, garage: Garage, c: Code, lane: string, at: Instant)
    requires BooksOk(b) && BoundTo(c).Some? && c.pass in b.passes && !garage.unreadable
    requires Has(b.rows, garage.id, PlateKey(BoundTo(c).value), DayAt(w, garage, at), c.pass)
    ensures var m, key := Asked(garage, BoundTo(c).value, lane, Entry, at, None), PlateKey(BoundTo(c).value);
            RecognisedAnswer(w, b, garage, c, Runs.Live, lane, Entry, at).outcome == Covered <==>
              CanBeRead(m) && garage.transient.Some? && key != "" && EntersByTheStore(w, b, m, key, c.pass)
  {
    var m, key := Asked(garage, BoundTo(c).value, lane, Entry, at, None), PlateKey(BoundTo(c).value);
    EntryFromTheStore(w, b, garage, BoundTo(c).value, lane, at, None);
    forall p | p in b.passes && EntersByTheStore(w, b, m, key, p) ensures p == c.pass {
      HeldByOne(b, garage.id, key, DayAt(w, garage, at), p, c.pass);
    }
  }

  /** ... and leaves as any does: entered before a replacement no other QR makes up for, if that
      is stated, and no longer ago than the longest stay. */
  lemma LeavesWhileItLives(w: World, b: Books, garage: Garage, c: Code, lane: string, at: Instant)
    requires BooksOk(b) && BoundTo(c).Some? && c.pass in b.passes && !garage.unreadable
    requires Has(b.rows, garage.id, PlateKey(BoundTo(c).value), DayAt(w, garage, at), c.pass)
    ensures var m, key := Asked(garage, BoundTo(c).value, lane, Exit, at, None), PlateKey(BoundTo(c).value);
            RecognisedAnswer(w, b, garage, c, Runs.Live, lane, Exit, at).outcome == Covered <==>
              CanBeRead(m) && key != "" && LeavesByTheStore(w, b, m, key, c.pass)
  {
    var m, key := Asked(garage, BoundTo(c).value, lane, Exit, at, None), PlateKey(BoundTo(c).value);
    ExitFromTheStore(w, b, garage, BoundTo(c).value, lane, at, None);
    forall p | p in b.passes && LeavesByTheStore(w, b, m, key, p) ensures p == c.pass {
      HeldByOne(b, garage.id, key, DayAt(w, garage, at), p, c.pass);
    }
  }
}
