/** What refuses the redemption that binds, from the QR, the pass and the movement alone. */
module BoundByRule {
  import opened Basics
  import opened Text
  import opened States
  import opened Terms
  import opened Codes
  import opened Access
  import opened AccessProofs
  import opened Admission
  import opened Bind

  /** The end a garage that sells no transient stays enrols at is the entry; one that sells
      them states its own; with neither known there is none. */
  predicate EnrolsThere(garage: Garage, stated: Option<Direction>, direction: Direction) {
    garage.transient.Some? && if garage.transient.value then stated == Some(direction) else direction == Entry
  }

  predicate EnrolsSomewhere(garage: Garage, stated: Option<Direction>) {
    garage.transient.Some? && (garage.transient.value ==> stated.Some?)
  }

  /** Issued, and the day is one of its own: not before it starts and not after as many days. */
  predicate QrOpens(c: Code, today: Day) {
    c.state == Issued && c.startsOn <= today && today < c.startsOn + c.days
  }

  /** A pass that takes registrations today, and says how long. */
  ghost predicate PassOpens(pass: Pass, today: Day) {
    && pass.state in {Draft, AwaitingEnrolment, Active} && !pass.unreadable && pass.terms.Some?
    && (pass.terms.value.validTo.Some? ==> today <= pass.terms.value.validTo.value)
  }

  /** NOTHING REFUSES A BIND exactly when the garage has a clock and enrols at this end, its pass
      names it, the QR opens today, the pass does, the lane is named and on the pass, so is the
      direction, and the car has a plate. */
  lemma BindsIff(garage: Garage, stated: Option<Direction>, c: Code, pass: Pass, identity: string, lane: string,
                 direction: Direction, today: Day)
    requires PassBuilt(pass)
    ensures RefusalBefore(garage, stated, c, pass, identity, lane, direction, today).None? <==>
              && !garage.unreadable && EnrolsThere(garage, stated, direction) && garage.id in pass.garages
              && QrOpens(c, today) && PassOpens(pass, today)
              && !Blank(lane) && OnItsLanes(pass.terms.value, garage.id, Strip(lane)) && direction in pass.terms.value.directions
              && !Blank(identity)
  {
    BlankIsStripped(lane);
    BlankIsStripped(identity);
    if !pass.unreadable {
      LanesAre(pass.terms.value, garage.id, Strip(lane));
    }
  }

  /** AND WHAT IS SAID of it is the first of these, in this order. */
  lemma RefusedByRule(garage: Garage, stated: Option<Direction>, c: Code, pass: Pass, identity: string, lane: string,
                      direction: Direction, today: Day)
    requires PassBuilt(pass)
    ensures RefusalBefore(garage, stated, c, pass, identity, lane, direction, today)
            == if garage.unreadable then Some(ClockUnreadable)
               else if !EnrolsSomewhere(garage, stated) then Some(WhereUnstated)
               else if !EnrolsThere(garage, stated, direction) then Some(WrongEnd)
               else if garage.id !in pass.garages then Some(NotAtThisGarage)
               else if c.state == Redeemed then Some(QrAlreadyUsed)
               else if c.state == Cancelled then Some(CancelledQr)
               else if today < c.startsOn then Some(QrNotStarted)
               else if c.startsOn + c.days <= today then Some(QrExpired)
               else if pass.state in {Suspended, Revoked} then Some(PassNotRegistrable)
               else if pass.unreadable then Some(PassNotReadable)
               else if !PassOpens(pass, today) then Some(PassNotRegistrable)
               else if Blank(lane) then Some(LaneIsBlank)
               else if !OnItsLanes(pass.terms.value, garage.id, Strip(lane)) then Some(LaneOffThePass)
               else if direction !in pass.terms.value.directions then Some(DirectionOffThePass)
               else if Blank(identity) then Some(IdentityIsBlank)
               else None
  {
    BlankIsStripped(lane);
    BlankIsStripped(identity);
    if !pass.unreadable {
      LanesAre(pass.terms.value, garage.id, Strip(lane));
    }
  }
}
