/** The recorded visits: one open entry for a car on a pass at a garage, and its exit. */
module Visits {
  import opened Basics
  import opened Text
  import opened Plates
  import opened Lists
  import opened Access

  datatype LedgerRefusal =
    | IdentityBlank | GarageNotFound | GarageClockUnreadable | PassNotHere | VisitAlreadyOpen | LaneBlank
    | NoOpenVisit | ExitBeforeEntry
  datatype Noted = Noted(visit: Visit) | NotNoted(refusal: LedgerRefusal)

  predicate OpenFor(v: Visit, p: PassId, g: GarageId, key: string) {
    v.pass == p && v.garage == g && v.identity == key && v.exitedAt.None?
  }

  /** No car has two open entries on one pass at one garage, under its normal form, and
      nothing left before it came. */
  ghost predicate Consistent(visits: seq<Visit>) {
    && (forall i, j :: 0 <= i < j < |visits| && visits[i].exitedAt.None? && visits[j].exitedAt.None? ==>
          !(visits[i].pass == visits[j].pass && visits[i].garage == visits[j].garage
            && visits[i].identity == visits[j].identity))
    && (forall i :: 0 <= i < |visits| ==>
          PlateKey(visits[i].identity) == visits[i].identity
          && (visits[i].exitedAt.Some? ==> visits[i].enteredAt <= visits[i].exitedAt.value))
  }

  function RequestRefusal(garage: Option<Garage>, passHere: bool, identity: string): Option<LedgerRefusal> {
    if Blank(identity) || PlateKey(identity) == "" then Some(IdentityBlank)
    else if garage.None? then Some(GarageNotFound)
    else if garage.value.unreadable then Some(GarageClockUnreadable)
    else if !passHere then Some(PassNotHere)
    else None
  }

  class Ledger {
    var visits: seq<Visit>

    constructor ()
      ensures visits == []
    {
      visits := [];
    }

    /** The row of the one open entry, or the number of rows. */
    method OpenVisit(p: PassId, g: GarageId, key: string) returns (k: nat)
      ensures k <= |visits|
      ensures k < |visits| <==> exists i :: 0 <= i < |visits| && OpenFor(visits[i], p, g, key)
      ensures k < |visits| ==> OpenFor(visits[k], p, g, key)
    {
      k := 0;
      while k < |visits| && !OpenFor(visits[k], p, g, key)
        invariant k <= |visits|
        invariant forall i :: 0 <= i < k ==> !OpenFor(visits[i], p, g, key)
      {
        k := k + 1;
      }
    }

    method RecordEntry(garage: Option<Garage>, passHere: bool, p: PassId, identity: string, lane: string, at: Instant)
      returns (out: Noted)
      requires Consistent(visits)
      modifies this
      ensures Consistent(visits)
      ensures out.Noted? <==>
                && PlateKey(identity) != "" && !Blank(identity) && garage.Some? && !garage.value.unreadable && passHere && !Blank(lane)
                && forall v :: v in old(visits) ==> !OpenFor(v, p, garage.value.id, PlateKey(identity))
      ensures out.NotNoted? ==>
                out.refusal == if Blank(identity) || PlateKey(identity) == "" then IdentityBlank
                               else if garage.None? then GarageNotFound
                               else if garage.value.unreadable then GarageClockUnreadable
                               else if !passHere then PassNotHere
                               else if exists v :: v in old(visits) && OpenFor(v, p, garage.value.id, PlateKey(identity))
                               then VisitAlreadyOpen
                               else LaneBlank
      ensures out.Noted? ==>
                && out.visit == Visit(p, garage.value.id, PlateKey(identity), at, None)
                && visits == old(visits) + [out.visit]
      ensures out.NotNoted? ==> visits == old(visits)
    {
      var no := RequestRefusal(garage, passHere, identity);
      if no.Some? { return NotNoted(no.value); }
      var k := OpenVisit(p, garage.value.id, PlateKey(identity));
      if k < |visits| {
        assert visits[k] in visits;
        return NotNoted(VisitAlreadyOpen);
      }
      if Blank(lane) { return NotNoted(LaneBlank); }
      PlateKeyIsIdempotent(identity);
      var visit := Visit(p, garage.value.id, PlateKey(identity), at, None);
      visits := visits + [visit];
      out := Noted(visit);
    }

    /** The exit closes the one open entry at the garage the car leaves, and no other row. */
    method RecordExit(garage: Option<Garage>, passHere: bool, p: PassId, identity: string, lane: string, at: Instant)
      returns (out: Noted)
      requires Consistent(visits)
      modifies this
      ensures Consistent(visits)
      ensures out.Noted? <==>
                && PlateKey(identity) != "" && !Blank(identity) && garage.Some? && !garage.value.unreadable && passHere && !Blank(lane)
                && exists v :: v in old(visits) && OpenFor(v, p, garage.value.id, PlateKey(identity)) && v.enteredAt <= at
      ensures out.NotNoted? ==>
                out.refusal == if Blank(identity) || PlateKey(identity) == "" then IdentityBlank
                               else if garage.None? then GarageNotFound
                               else if garage.value.unreadable then GarageClockUnreadable
                               else if !passHere then PassNotHere
                               else if forall v :: v in old(visits) ==> !OpenFor(v, p, garage.value.id, PlateKey(identity))
                               then NoOpenVisit
                               else if forall v :: v in old(visits) && OpenFor(v, p, garage.value.id, PlateKey(identity)) ==> at < v.enteredAt
                               then ExitBeforeEntry
                               else LaneBlank
      ensures out.Noted? ==>
                exists k :: 0 <= k < |old(visits)| && OpenFor(old(visits)[k], p, garage.value.id, PlateKey(identity))
                  && visits == old(visits)[k := old(visits)[k].(exitedAt := Some(at))]
                  && out.visit == visits[k]
      ensures out.Noted? ==> forall v :: v in visits ==> !OpenFor(v, p, garage.value.id, PlateKey(identity))
      ensures out.NotNoted? ==> visits == old(visits)
    {
      var no := RequestRefusal(garage, passHere, identity);
      if no.Some? { return NotNoted(no.value); }
      var k := OpenVisit(p, garage.value.id, PlateKey(identity));
      if k == |visits| { return NotNoted(NoOpenVisit); }
      OnlyOneOpen(visits, k, p, garage.value.id, PlateKey(identity));
      if at < visits[k].enteredAt { return NotNoted(ExitBeforeEntry); }
      if Blank(lane) { return NotNoted(LaneBlank); }
      assert visits[k] in visits;
      visits := visits[k := visits[k].(exitedAt := Some(at))];
      out := Noted(visits[k]);
    }
  }

  lemma OnlyOneOpen(visits: seq<Visit>, k: nat, p: PassId, g: GarageId, key: string)
    requires Consistent(visits) && k < |visits| && OpenFor(visits[k], p, g, key)
    ensures forall i :: 0 <= i < |visits| && OpenFor(visits[i], p, g, key) ==> i == k
  {
  }

  /** What the access call measures a stay from: at most one recorded entry of the car is
      open on the pass at the garage, so "the latest" never chooses. */
  lemma OneOpenEntry(m: Movement, visits: seq<Visit>, p: PassId)
    requires Consistent(visits)
    ensures |OpenVisits(m, visits, p)| <= 1
  {
    AtMostOneKept(visits, (v: Visit) =>
      v.pass == p && v.garage == m.garage.id && PlateKey(v.identity) == PlateKey(Strip(m.identity)) && v.exitedAt.None?);
  }
}
