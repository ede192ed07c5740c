/** The allowance over whole runs: how many covered entries a pass can ever have. */
module Allowance {
  import opened Basics
  import opened Text
  import opened Plates
  import opened Terms
  import opened Lists
  import opened Access
  import opened AccessProofs

  /** A recorded entry, and whether the lane was told that it is covered. */
  datatype Entered = Entered(visit: Visit, covered: bool)
  type Book = seq<Entered>

  function VisitsOf(book: Book): (vs: seq<Visit>)
    ensures |vs| == |book| && forall i :: 0 <= i < |book| ==> vs[i] == book[i].visit
  {
    seq(|book|, i requires 0 <= i < |book| => book[i].visit)
  }

  /** What does not change in a run: the clock, the zone of each garage, the terms of each pass. */
  datatype Place = Place(world: World, zone: GarageId -> string, terms: PassId -> Terms)

  /** An entry is asked about and, when covered, recorded; one is recorded on no covered
      answer; an open one is closed. */
  datatype Event =
    | Asked(movement: Movement, records: Records)
    | Noted(visit: Visit)
    | Left(k: nat, at: Instant)

  /** The question was put with the register's own data: the terms and the zones are the
      registered ones, and the visits of each pass are those in the book, in any order. */
  ghost predicate Honest(here: Place, book: Book, m: Movement, r: Records) {
    && RecordsOk(r) && m.direction == Entry
    && m.garage.timezone == here.zone(m.garage.id)
    && (forall g :: g in r.garages && !g.unreadable ==> g.timezone == here.zone(g.id))
    && (forall p :: p in r.passes ==>
          && (!p.unreadable ==> p.terms == Some(here.terms(p.id)))
          && Permuted(OnPass(r.visits, p.id), OnPass(VisitsOf(book), p.id)))
  }

  ghost predicate CanHappen(here: Place, book: Book, e: Event) {
    match e
    case Asked(m, r) => Honest(here, book, m, r)
    case Noted(_) => true
    case Left(k, _) => k < |book|
  }

  ghost function After(here: Place, book: Book, e: Event): Book
    requires CanHappen(here, book, e)
  {
    match e
    case Asked(m, r) =>
      var a := AccessAnswer(here.world, m, r);
      if a.outcome == Covered && a.pass.Some? then
        book + [Entered(Visit(a.pass.value, m.garage.id, PlateKey(Strip(m.identity)), m.at, None), true)]
      else book
    case Noted(v) => book + [Entered(v, false)]
    case Left(k, at) => book[k := book[k].(visit := book[k].visit.(exitedAt := Some(at)))]
  }

  /** Every book there can be: each covered entry recorded before the next is asked about. */
  ghost predicate Reaches(here: Place, events: seq<Event>, book: Book) {
    if events == [] then book == []
    else
      var n := |events| - 1;
      exists before: Book ::
        && Reaches(here, events[..n], before)
        && CanHappen(here, before, events[n]) && book == After(here, before, events[n])
  }

  // -------------------------------------------------------------------- counting

  /** What is counted: entries on a pass, or those of them under one window on one local
      day, each on the clock of the garage it was made at. */
  datatype Count = OverLife(pass: PassId) | UnderWindow(pass: PassId, window: nat, day: Day)

  ghost predicate Counts(here: Place, what: Count, v: Visit) {
    v.pass == what.pass
    && (what.UnderWindow? ==>
          var windows := here.terms(what.pass).windows;
          && what.window < |windows|
          && var wall := here.world.clock(here.zone(v.garage), v.enteredAt);
             wall.day == what.day && windows[what.window].start <= wall.minute < windows[what.window].end)
  }

  /** The entry was made under the first window open at its instant, on that local day. */
  ghost predicate CountedUnder(here: Place, what: Count, v: Visit) {
    Counts(here, what, v)
    && (what.UnderWindow? ==>
          var windows := here.terms(what.pass).windows;
          && Weekday(what.day) in windows[what.window].days
          && forall j :: 0 <= j < what.window ==>
               !(Weekday(what.day) in windows[j].days
                 && windows[j].start <= here.world.clock(here.zone(v.garage), v.enteredAt).minute < windows[j].end))
  }

  ghost function Recorded(here: Place, what: Count, book: Book): nat {
    if book == [] then 0
    else Recorded(here, what, book[..|book| - 1]) + (if Counts(here, what, book[|book| - 1].visit) then 1 else 0)
  }

  /** The covered entries among them. */
  ghost function CoveredEntries(here: Place, what: Count, book: Book): nat {
    if book == [] then 0
    else
      var last := book[|book| - 1];
      CoveredEntries(here, what, book[..|book| - 1])
      + (if last.covered && CountedUnder(here, what, last.visit) then 1 else 0)
  }

  lemma {:induction false} CoveredAreRecorded(here: Place, what: Count, book: Book)
    ensures CoveredEntries(here, what, book) <= Recorded(here, what, book)
  {
    if book != [] {
      CoveredAreRecorded(here, what, book[..|book| - 1]);
    }
  }

  /** The allowance a count stands under. */
  ghost function Limit(here: Place, what: Count): Option<int> {
    var allowance := here.terms(what.pass).allowance;
    if allowance.Some? && (what.OverLife? <==> allowance.value.per == Life) then Some(allowance.value.count) else None
  }

  lemma {:induction false} ClosingCountsAlike(here: Place, what: Count, book: Book, k: nat, at: Instant)
    requires k < |book|
    ensures var closed := book[k := book[k].(visit := book[k].visit.(exitedAt := Some(at)))];
            Recorded(here, what, closed) == Recorded(here, what, book)
            && CoveredEntries(here, what, closed) == CoveredEntries(here, what, book)
  {
    var closed := book[k := book[k].(visit := book[k].visit.(exitedAt := Some(at)))];
    var n := |book| - 1;
    if k < n {
      ClosingCountsAlike(here, what, book[..n], k, at);
      assert closed[..n] == book[..n][k := closed[k]];
    } else {
      assert closed[..n] == book[..n];
    }
  }

  // --------------------------------------------- what the access call counts is the book

  lemma {:induction false} RecordedIsFiltered(here: Place, what: Count, book: Book)
    ensures Recorded(here, what, book) == |Filter(VisitsOf(book), (v: Visit) => Counts(here, what, v))|
  {
    if book != [] {
      var n := |book| - 1;
      RecordedIsFiltered(here, what, book[..n]);
      assert VisitsOf(book)[..n] == VisitsOf(book[..n]);
    }
  }

  lemma {:induction false} FilterTwice<T(!new)>(s: seq<T>, f: T -> bool, g: T -> bool)
    requires forall x :: x in s && g(x) ==> f(x)
    ensures Filter(Filter(s, f), g) == Filter(s, g)
  {
    if s != [] {
      var n := |s| - 1;
      assert s[n] in s && forall x :: x in s[..n] ==> x in s;
      FilterTwice(s[..n], f, g);
      var before := Filter(s[..n], f);
      if f(s[n]) {
        assert Filter(s, f) == before + [s[n]];
        FilterSnoc(before, s[n], g);
      } else {
        assert Filter(s, f) == before;
        assert Filter(s, g) == Filter(s[..n], g);
      }
    }
  }

  /** The clock an entry is read on is its own garage's. */
  lemma ClockIsTheGarages(here: Place, book: Book, m: Movement, r: Records, g: GarageId)
    requires Honest(here, book, m, r) && ClockOf(m, r.garages, g).ZoneAt?
    ensures ClockOf(m, r.garages, g).timezone == here.zone(g)
  {
    var copies := Filter(r.garages, (x: Garage) => x.id == g);
    if g != m.garage.id {
      assert copies[0] in copies;
    }
  }

  /** A covered entry was under the count's limit, so far. */
  lemma CoveredWasUnder(here: Place, book: Book, m: Movement, r: Records, what: Count)
    requires Honest(here, book, m, r)
    requires AccessAnswer(here.world, m, r).outcome == Covered
    requires AccessAnswer(here.world, m, r).pass == Some(what.pass)
    requires Limit(here, what).Some?
    requires CountedUnder(here, what, Visit(what.pass, m.garage.id, PlateKey(Strip(m.identity)), m.at, None))
    ensures Recorded(here, what, book) < Limit(here, what).value
  {
    EntryCoveredIff(here.world, m, r);
    var effective := InForce(here.world, m, r);
    var p :| p in r.passes && p.id == what.pass && Satisfies(here.world, m, r, effective, p);
    var t := p.terms.value;
    assert t == here.terms(what.pass);
    if what.OverLife? {
      LifeIsCounted(here, book, what);
      PermutedFacts(OnPass(r.visits, p.id), OnPass(VisitsOf(book), p.id));
    } else {
      ItsWindowIsFirst(here, m, what);
      WindowIsCounted(here, book, m, r, what);
    }
  }

  /** The window an entry counts under is the first open at it, and no other is. */
  lemma ItsWindowIsFirst(here: Place, m: Movement, what: Count)
    requires what.UnderWindow? && m.garage.timezone == here.zone(m.garage.id)
    requires CountedUnder(here, what, Visit(what.pass, m.garage.id, PlateKey(Strip(m.identity)), m.at, None))
    ensures var windows := here.terms(what.pass).windows;
            what.window < |windows| && what.day == Now(here.world, m).day
            && FirstOpen(here.world, m, windows, what.window)
            && forall i: nat :: FirstOpen(here.world, m, windows, i) ==> i == what.window
  {
    var windows := here.terms(what.pass).windows;
    assert FirstOpen(here.world, m, windows, what.window);
  }

  lemma LifeIsCounted(here: Place, book: Book, what: Count)
    requires what.OverLife?
    ensures Recorded(here, what, book) == |OnPass(VisitsOf(book), what.pass)|
  {
    RecordedIsFiltered(here, what, book);
    FilterAgrees(VisitsOf(book), (v: Visit) => Counts(here, what, v), (v: Visit) => v.pass == what.pass);
  }

  lemma WindowIsCounted(here: Place, book: Book, m: Movement, r: Records, what: Count)
    requires Honest(here, book, m, r) && what.UnderWindow?
    requires exists p :: p in r.passes && p.id == what.pass
    requires what.window < |here.terms(what.pass).windows|
    requires what.day == Now(here.world, m).day
    requires ClocksKnown(m, r, what.pass)
    ensures EntriesCounted(here.world, m, r, what.pass, PerWindow, here.terms(what.pass).windows[what.window])
            == Recorded(here, what, book)
  {
    var window := here.terms(what.pass).windows[what.window];
    var mine, all := OnPass(r.visits, what.pass), OnPass(VisitsOf(book), what.pass);
    var f := (v: Visit) => InWindowToday(here.world, m, r.garages, window, v);
    var g := (v: Visit) => Counts(here, what, v);
    forall v | v in mine ensures f(v) == g(v) {
      ClockIsTheGarages(here, book, m, r, v.garage);
    }
    FilterAcross(mine, all, f, g);
    PermutedFacts(Filter(mine, f), Filter(all, g));
    CountsArePerPass(here, book, what);
  }

  lemma CountsArePerPass(here: Place, book: Book, what: Count)
    ensures |Filter(OnPass(VisitsOf(book), what.pass), (v: Visit) => Counts(here, what, v))| == Recorded(here, what, book)
  {
    var g := (v: Visit) => Counts(here, what, v);
    FilterTwice(VisitsOf(book), (v: Visit) => v.pass == what.pass, g);
    RecordedIsFiltered(here, what, book);
  }

  // ------------------------------------------------------------------- every run

  lemma StepKeepsTheLimit(here: Place, book: Book, e: Event, what: Count)
    requires CanHappen(here, book, e) && Limit(here, what).Some?
    requires CoveredEntries(here, what, book) <= Limit(here, what).value
    ensures CoveredEntries(here, what, After(here, book, e)) <= Limit(here, what).value
  {
    var next := After(here, book, e);
    match e
    case Noted(v) => assert next[..|book|] == book;
    case Left(k, at) => ClosingCountsAlike(here, what, book, k, at);
    case Asked(m, r) =>
      if next != book {
        assert next[..|book|] == book;
        var last := next[|book|];
        if CountedUnder(here, what, last.visit) {
          CoveredWasUnder(here, book, m, r, what);
          CoveredAreRecorded(here, what, book);
        }
      }
  }

  /** IN EVERY RUN a life allowance of N admits at most N covered entries, over all the
      garages of the pass; a window allowance at most N under any one window, first open
      at their instants, on any one local day, whatever zones its garages are in. */
  lemma {:induction false} AllowanceIsNeverExceeded(here: Place, events: seq<Event>, book: Book, what: Count)
    requires Reaches(here, events, book)
    requires Limit(here, what).Some? && Limit(here, what).value > 0
    ensures CoveredEntries(here, what, book) <= Limit(here, what).value
  {
    if events != [] {
      var n := |events| - 1;
      var before: Book :|
        && Reaches(here, events[..n], before)
        && CanHappen(here, before, events[n]) && book == After(here, before, events[n]);
      AllowanceIsNeverExceeded(here, events[..n], before, what);
      StepKeepsTheLimit(here, before, events[n], what);
    }
  }
}
