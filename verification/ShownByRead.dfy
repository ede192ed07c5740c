/** A bound QR at a lane, told by what was read, whose car it is and the days of its stay. */
module ShownByRead {
  import opened Basics
  import opened Text
  import opened States
  import opened Plates
  import opened Codes
  import opened Access
  import opened Terms
  import opened Redemption
  import opened RegisterByDays
  import Register
  import Runs

  // ------------------------------------------------------------------- the QR's stay

  /** A row of the QR's car on the QR's pass at this garage. */
  predicate OfTheStay(r: Register.Row, g: GarageId, p: PassId, plate: string) {
    r.garage == g && r.pass == p && r.plate == plate
  }

  /** No row in force; one that was checked out, or gave way to the next stay, that very day. */
  ghost predicate EndedOn(rows: seq<Register.Row>, g: GarageId, p: PassId, plate: string, d: Day) {
    && !Has(rows, g, plate, d, p)
    && exists i :: 0 <= i < |rows| && OfTheStay(rows[i], g, p, plate) && rows[i].end == Some(d)
         && (rows[i].why == Some(Register.ByCheckout) || rows[i].why == Some(Register.ByNextStay))
  }

  /** There are rows, and every one of them begins later. */
  ghost predicate StillToCome(rows: seq<Register.Row>, g: GarageId, p: PassId, plate: string, d: Day) {
    && (exists i :: 0 <= i < |rows| && OfTheStay(rows[i], g, p, plate))
    && forall i :: 0 <= i < |rows| && OfTheStay(rows[i], g, p, plate) ==> d < rows[i].from
  }

  /** WHAT A STAY READS ON A DAY: live while a row is in force; its last day when one was ended
      early that day and none is; not started while all are to come; else over. */
  lemma StayByDays(rows: seq<Register.Row>, g: GarageId, p: PassId, plate: string, d: Day)
    ensures Runs.StayOf(rows, g, p, plate, d)
            == if Has(rows, g, plate, d, p) then Runs.Live
               else if EndedOn(rows, g, p, plate, d) then Runs.LastDay
               else if StillToCome(rows, g, p, plate, d) then Runs.NotStarted
               else Runs.Over
  {
    forall i | 0 <= i < |rows| ensures Runs.OfStay(rows[i], g, p, plate) <==> OfTheStay(rows[i], g, p, plate) {
    }
    HasIsHeldBy(rows, g, plate, d, p);
    Runs.LiveIffHeld(rows, g, p, plate, d);
    if EndedOn(rows, g, p, plate, d) {
      var i :| 0 <= i < |rows| && OfTheStay(rows[i], g, p, plate) && rows[i].end == Some(d)
        && (rows[i].why == Some(Register.ByCheckout) || rows[i].why == Some(Register.ByNextStay));
      assert Runs.OfStay(rows[i], g, p, plate) && Runs.EndsAStay(rows[i].why);
    }
  }

  // ------------------------------------------------------------------ what was read

  /** A QR has a car: the plate it was made for, or the identity of its first use. */
  predicate HasACar(c: Code) {
    c.plate.Some? || c.identity.Some?
  }

  function CarOf(c: Code): string
    requires HasACar(c)
  {
    PlateKey(if c.plate.Some? then c.plate.value else c.identity.value)
  }

  /** The read is of the QR's car: made for a plate, nothing usable was read, or what was read
      is the plate up to look-alikes, or one character away from one of five or more; made
      without one, it is the identity it was bound to. */
  ghost predicate ReadPasses(c: Code, read: string) {
    if c.plate.Some? then
      var d := Distance(LookAlikeKey(read), LookAlikeKey(c.plate.value));
      PlateKey(read) == "" || d == 0 || (d == 1 && |LookAlikeKey(c.plate.value)| >= 5)
    else Strip(read) != "" && c.identity == Some(Strip(read))
  }

  /** The read can be nobody's but another car's. */
  predicate ReadIsAnother(c: Code, read: string) {
    c.plate.None? && Strip(read) != "" && c.identity != Some(Strip(read))
  }

  /** Its stay is live, or ended today and the car is leaving. */
  ghost predicate StayAdmits(rows: seq<Register.Row>, g: GarageId, c: Code, d: Day, direction: Direction)
    requires HasACar(c)
  {
    Has(rows, g, CarOf(c), d, c.pass) || (direction == Exit && EndedOn(rows, g, c.pass, CarOf(c), d))
  }

  /** A QR that stands, at an end it may still be used at. */
  predicate Usable(c: Code, direction: Direction) {
    c.state != Cancelled && !(direction == Entry && c.exitOnlyAt.Some?)
  }

  lemma SimilarByRead(c: Code, read: string)
    requires c.plate.Some?
    ensures SimilarEnough(if Strip(read) == "" then None else Some(Strip(read)), c.plate.value).Some? <==> ReadPasses(c, read)
  {
    StripKeepsKey(read);
    assert LookAlikeKey(Strip(read)) == LookAlikeKey(read);
    SimilarEnoughByDistance(Strip(read), c.plate.value);
  }

  lemma PresentedByRead(c: Code, read: string, direction: Direction)
    requires HasACar(c)
    ensures var shown := Presented(c, read, direction);
            && (shown.0 == Some(CancelledCode) <==> c.state == Cancelled)
            && (shown.0 == Some(WrongCar) <==> c.state != Cancelled && ReadIsAnother(c, read))
            && (shown.0 == Some(ExitOnlyCode) <==>
                  c.state != Cancelled && !ReadIsAnother(c, read) && direction == Entry && c.exitOnlyAt.Some?)
            && (shown.0.None? <==> Usable(c, direction) && !ReadIsAnother(c, read))
            && (shown.0.None? ==> (shown.1.Some? <==> ReadPasses(c, read)))
  {
    if c.plate.Some? {
      SimilarByRead(c, read);
    }
  }

  /** What is presented is refused for the QR or the car; the days refuse for the stay. */
  lemma UsedAsPresented(w: World, b: Books, garage: Garage, c: Code, read: string, direction: Direction, at: Instant)
    requires HasACar(c)
    ensures var shown, use := Presented(c, read, direction), UseOf(w, b, garage, c, read, direction, at);
            var admits := StayAdmits(b.rows, garage.id, c, w.clock(garage.timezone, at).day, direction);
            && (shown.0.Some? ==> use == NoUse(shown.0.value))
            && (shown.0.None? && !admits ==> use.NoUse? && use.why in {StayNotStarted, StayEnded, ExitOnlyToday})
            && (shown.0.None? && admits ==> (use == MatchRequired <==> shown.1.None?) && (use.Recognised? <==> shown.1.Some?))
  {
    StayByDays(b.rows, garage.id, c.pass, CarOf(c), w.clock(garage.timezone, at).day);
  }

  // ---------------------------------------------------------------- shown at a lane

  /** WHAT A SHOWN QR COMES TO, in order: cancelled; another car's; a replaced car's at an
      entry; outside its stay; a picture to decide, when the read does not; and recognised,
      exactly when the QR is usable, its stay admits and the read passes. */
  lemma UsedByRead(w: World, b: Books, garage: Garage, c: Code, read: string, direction: Direction, at: Instant)
    requires HasACar(c)
    ensures var d, use := w.clock(garage.timezone, at).day, UseOf(w, b, garage, c, read, direction, at);
            && (use == NoUse(CancelledCode) <==> c.state == Cancelled)
            && (use == NoUse(WrongCar) <==> c.state != Cancelled && ReadIsAnother(c, read))
            && (use == NoUse(ExitOnlyCode) <==>
                  c.state != Cancelled && !ReadIsAnother(c, read) && direction == Entry && c.exitOnlyAt.Some?)
            && (use == MatchRequired <==> Usable(c, direction) && !ReadIsAnother(c, read) && !ReadPasses(c, read)
                                          && StayAdmits(b.rows, garage.id, c, d, direction))
            && (use.Recognised? <==> Usable(c, direction) && ReadPasses(c, read)
                                     && StayAdmits(b.rows, garage.id, c, d, direction))
  {
    PresentedByRead(c, read, direction);
    UsedAsPresented(w, b, garage, c, read, direction, at);
  }

  /** A usable QR, its read not another's, on a day its stay does not admit. */
  ghost predicate StayRefuses(rows: seq<Register.Row>, g: GarageId, c: Code, read: string, d: Day, direction: Direction)
    requires HasACar(c)
  {
    Usable(c, direction) && !ReadIsAnother(c, read) && !StayAdmits(rows, g, c, d, direction)
  }

  /** WHICH REFUSAL ITS STAY GIVES: none of it begun; ended today, at an entry; or over. */
  lemma RefusedByStay(w: World, b: Books, garage: Garage, c: Code, read: string, direction: Direction, at: Instant)
    requires HasACar(c)
    ensures var d, use := w.clock(garage.timezone, at).day, UseOf(w, b, garage, c, read, direction, at);
            var refuses := StayRefuses(b.rows, garage.id, c, read, d, direction);
            && (use == NoUse(ExitOnlyToday) <==> refuses && EndedOn(b.rows, garage.id, c.pass, CarOf(c), d))
            && (use == NoUse(StayNotStarted) <==>
                  refuses && !EndedOn(b.rows, garage.id, c.pass, CarOf(c), d) && StillToCome(b.rows, garage.id, c.pass, CarOf(c), d))
            && (use == NoUse(StayEnded) <==>
                  refuses && !EndedOn(b.rows, garage.id, c.pass, CarOf(c), d) && !StillToCome(b.rows, garage.id, c.pass, CarOf(c), d))
  {
    StayByDays(b.rows, garage.id, c.pass, CarOf(c), w.clock(garage.timezone, at).day);
  }

  /** WHAT A RECOGNISED USE SAYS: of its stay, that it is live or ended today; of the read, that
      it was the plate, its look-alike, one character away, or nothing. */
  lemma RecognisedSays(w: World, b: Books, garage: Garage, c: Code, read: string, direction: Direction, at: Instant)
    requires HasACar(c) && UseOf(w, b, garage, c, read, direction, at).Recognised?
    ensures var d, use := w.clock(garage.timezone, at).day, UseOf(w, b, garage, c, read, direction, at);
            && use.stay == (if Has(b.rows, garage.id, CarOf(c), d, c.pass) then Runs.Live else Runs.LastDay)
            && use.passedBy == if c.plate.None? then SamePlate
                               else if PlateKey(read) == "" then NothingRead
                               else if PlateKey(read) == CarOf(c) then SamePlate
                               else if Distance(LookAlikeKey(read), LookAlikeKey(c.plate.value)) == 0 then LookAlikePlate
                               else OneDifference
  {
    StayByDays(b.rows, garage.id, c.pass, CarOf(c), w.clock(garage.timezone, at).day);
    StripKeepsKey(read);
    assert LookAlikeKey(Strip(read)) == LookAlikeKey(read);
    if c.plate.Some? {
      SimilarEnoughByDistance(Strip(read), c.plate.value);
    }
  }

  /** AFTER A PICTURE: a match recognises the car whatever was read, but an identity bound
      without a plate and read as another; no match never does. The stay, a cancellation and
      a replacement bind as they did. */
  lemma MatchedByPicture(w: World, b: Books, garage: Garage, c: Code, matching: bool, read: string, direction: Direction,
                         at: Instant)
    requires HasACar(c)
    ensures var d, use := w.clock(garage.timezone, at).day, MatchedUse(w, b, garage, c, matching, read, direction, at);
            && (use.Recognised? <==> matching && Usable(c, direction) && !ReadIsAnother(c, read)
                                     && StayAdmits(b.rows, garage.id, c, d, direction))
            && (use == NoUse(CancelledCode) <==> c.state == Cancelled)
            && (use == NoUse(WrongCar) <==> c.state != Cancelled && (!matching || ReadIsAnother(c, read)))
            && (use == NoUse(ExitOnlyCode) <==> c.state != Cancelled && matching && !ReadIsAnother(c, read)
                                                && direction == Entry && c.exitOnlyAt.Some?)
            && use != MatchRequired
  {
    StayByDays(b.rows, garage.id, c.pass, CarOf(c), w.clock(garage.timezone, at).day);
  }

  // --------------------------------------------------- the day a stay that ended began

  /** A row of the stay that was turned over or checked out of on the day. */
  predicate EndedRow(r: Register.Row, g: GarageId, p: PassId, plate: string, d: Day) {
    OfTheStay(r, g, p, plate) && r.end == Some(d) && (r.why == Some(Register.ByNextStay) || r.why == Some(Register.ByCheckout))
  }

  /** ITS LAST DAY'S ANSWER is for the stay from the earliest of those rows. */
  lemma {:induction false} BeganWithTheEarliest(rows: seq<Register.Row>, g: GarageId, p: PassId, plate: string, d: Day)
    ensures var began := LastDayFrom(rows, g, p, plate, d);
            && began <= d
            && (forall i :: 0 <= i < |rows| && EndedRow(rows[i], g, p, plate, d) ==> began <= rows[i].from)
            && (began < d ==> exists i :: 0 <= i < |rows| && EndedRow(rows[i], g, p, plate, d) && rows[i].from == began)
  {
    if rows != [] {
      BeganWithTheEarliest(rows[1..], g, p, plate, d);
      assert forall i :: 1 <= i < |rows| ==> rows[i] == rows[1..][i - 1];
      if LastDayFrom(rows[1..], g, p, plate, d) < d {
        var i :| 0 <= i < |rows[1..]| && EndedRow(rows[1..][i], g, p, plate, d) && rows[1..][i].from == LastDayFrom(rows[1..], g, p, plate, d);
        assert rows[i + 1] == rows[1..][i];
      }
      assert Runs.OfStay(rows[0], g, p, plate) <==> OfTheStay(rows[0], g, p, plate);
    }
  }
}
