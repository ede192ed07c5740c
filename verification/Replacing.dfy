/** Replacing the car on a pass: the old QR marked and the new car's whole stay held, or
    neither. */
module Replacing {
  import opened Basics
  import opened Plates
  import opened Codes
  import opened IssueByDays
  import opened RegisterByDays
  import States
  import Register
  import Runs

  datatype Replaced = Replaced(end: Day) | NotReplaced(refusal: ReplaceRefusal)
  datatype ReplaceRefusal =
    | GarageNotFound | GarageUnreadable | GarageMismatch | Qr(refusal: CodeRefusal) | Stay(why: Runs.IssueRefusal)

  /** What refuses before anything is written, in order: the new plate, the garage, the old
      QR by its id, its pass at that garage, its state. `garages`: those there are. */
  function RefusedBefore(passes: map<PassId, Register.PassRow>, unreadable: set<GarageId>, garages: set<GarageId>,
                         codes: seq<Code>, k: nat, garage: GarageId, plate: string): Option<ReplaceRefusal>
  {
    if PlateKey(plate) == "" then Some(Qr(PlateNotStated))
    else if garage !in garages then Some(GarageNotFound)
    else if garage in unreadable then Some(GarageUnreadable)
    else if k >= |codes| then Some(Qr(CodeUnknown))
    else if codes[k].pass !in passes || garage !in passes[codes[k].pass].garages then Some(GarageMismatch)
    else if codes[k].state == States.Cancelled then Some(Qr(CodeCancelled))
    else if codes[k].exitOnlyAt.Some? then Some(Qr(AlreadyReplaced))
    else None
  }

  /** A garage that is there, read and one of the QR's pass. */
  predicate AtIts(passes: map<PassId, Register.PassRow>, unreadable: set<GarageId>, garages: set<GarageId>, c: Code,
                  garage: GarageId)
  {
    garage in garages && garage !in unreadable && c.pass in passes && garage in passes[c.pass].garages
  }

  /** THE FIRST THING WRONG IS NAMED: a plate of no letters; a garage unknown, or unread; a QR
      unknown; one of a pass that is not at the garage; one cancelled, whatever became of its
      car; or one whose car was replaced before. */
  lemma FirstWrongIsNamed(passes: map<PassId, Register.PassRow>, unreadable: set<GarageId>, garages: set<GarageId>,
                          codes: seq<Code>, k: nat, garage: GarageId, plate: string)
    ensures var no, stated := RefusedBefore(passes, unreadable, garages, codes, k, garage, plate), PlateKey(plate) != "";
            && (no == Some(Qr(PlateNotStated)) <==> !stated)
            && (no == Some(GarageNotFound) <==> stated && garage !in garages)
            && (no == Some(GarageUnreadable) <==> stated && garage in garages && garage in unreadable)
            && (no == Some(Qr(CodeUnknown)) <==> stated && garage in garages && garage !in unreadable && |codes| <= k)
            && (no == Some(GarageMismatch) <==>
                  stated && garage in garages && garage !in unreadable && k < |codes|
                  && !AtIts(passes, unreadable, garages, codes[k], garage))
            && (no == Some(Qr(CodeCancelled)) <==>
                  stated && k < |codes| && AtIts(passes, unreadable, garages, codes[k], garage) && codes[k].state == States.Cancelled)
            && (no == Some(Qr(AlreadyReplaced)) <==>
                  stated && k < |codes| && AtIts(passes, unreadable, garages, codes[k], garage)
                  && codes[k].state != States.Cancelled && codes[k].exitOnlyAt.Some?)
            && (no.None? <==>
                  stated && k < |codes| && AtIts(passes, unreadable, garages, codes[k], garage)
                  && codes[k].state != States.Cancelled && codes[k].exitOnlyAt.None?)
  {
  }

  /** What an issue says of a garage: settled before a replacement reaches its issue. */
  function AtTheGarage(): set<Runs.IssueRefusal> {
    {Runs.OnPass(Register.GarageUnreadable), Runs.OnPass(Register.PassNotFound)}
  }

  method ReplaceCar(store: Register.Store, book: CodeBook, garages: set<GarageId>, k: nat, garage: GarageId, plate: string,
                    startsOn: Day, days: Option<int>, at: Instant) returns (out: Replaced)
    requires store.Valid() && CodesOk(book.codes)
    modifies store`rows, book
    ensures store.Valid() && CodesOk(book.codes) && Moves(old(book.codes), book.codes)
    ensures var no := RefusedBefore(store.passes, store.unreadable, garages, old(book.codes), k, garage, plate);
            if no.Some? then out == NotReplaced(no.value)
            else
              && (out.NotReplaced? ==> out.refusal.Stay?)
              && var stay := Runs.IssueRefusalBefore(store.passes, store.unreadable, garage, old(book.codes)[k].pass,
                                                     PlateKey(plate), startsOn, days);
                 if stay.Some? then out == NotReplaced(Stay(stay.value)) && stay.value !in AtTheGarage()
                 else out.NotReplaced? ==> out.refusal.why.Hold?
    ensures out.NotReplaced? ==> store.rows == old(store.rows) && book.codes == old(book.codes)
    ensures out.Replaced? ==>
              && k < |old(book.codes)| && days.Some?
              && var was := old(book.codes)[k];
              && was.pass in store.passes
              && OfTheQr(store.passes[was.pass], startsOn, days.value, out.end - 1)
              && !OfTheQr(store.passes[was.pass], startsOn, days.value, out.end)
              && (forall g, d :: g in store.passes[was.pass].garages ==>
                    (Has(store.rows, g, PlateKey(plate), d, was.pass) <==>
                       Has(old(store.rows), g, PlateKey(plate), d, was.pass) || OfTheQr(store.passes[was.pass], startsOn, days.value, d)))
              && book.codes == old(book.codes)[k := if BoundTo(was).Some? then was.(exitOnlyAt := Some(at))
                                                    else was.(state := States.Cancelled)]
                               + [Code(was.pass, Some(PlateKey(plate)), None, States.Issued, startsOn, days.value, None)]
              && (BoundTo(was).Some? ==> WasReplaced(book.codes, was.pass, PlateKey(BoundTo(was).value)))
  {
    var no := RefusedBefore(store.passes, store.unreadable, garages, book.codes, k, garage, plate);
    if no.Some? { return NotReplaced(no.value); }
    Runs.KnownPasses(store.passes, store.rows);
    ghost var before := Runs.Snapshot(store.passes, store.unreadable, store.rows);
    var issued := Runs.IssueStay(store, garage, book.codes[k].pass, PlateKey(plate), startsOn, days);
    if issued.NotMade? { return NotReplaced(Stay(issued.refusal)); }
    ghost var now := Runs.Snapshot(store.passes, store.unreadable, store.rows);
    forall g, d
      ensures OfTheQr(store.passes[book.codes[k].pass], startsOn, days.value, issued.end - 1)
      ensures !OfTheQr(store.passes[book.codes[k].pass], startsOn, days.value, issued.end)
      ensures g in store.passes[book.codes[k].pass].garages ==>
                (Has(now.rows, g, PlateKey(plate), d, book.codes[k].pass) <==>
                   Has(before.rows, g, PlateKey(plate), d, book.codes[k].pass)
                   || OfTheQr(store.passes[book.codes[k].pass], startsOn, days.value, d))
    {
      IssuedByDays(before, now, garage, book.codes[k].pass, PlateKey(plate), startsOn, days.value, issued, g, d);
    }
    var wrote := book.ReplaceCar(k, plate, startsOn, days.value, at, true);
    out := Replaced(issued.end);
  }
}
