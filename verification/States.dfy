/** The typed states of a pass, the transitions between them and the one state
    nobody types. */
module States {
  import opened Basics
  import opened Text

  datatype State = Draft | AwaitingEnrolment | Active | Suspended | Revoked

  /** The state a decision reads: the typed one, or `Expired`, which is derived. */
  datatype Effective = Typed(state: State) | Expired

  /** What a QR or a holder's link is typed as. */
  datatype CredentialState = Issued | Redeemed | Cancelled

  function Allowed(from: State): set<State> {
    match from
    case Draft => {AwaitingEnrolment, Active, Revoked}
    case AwaitingEnrolment => {Active, Revoked}
    case Active => {Suspended, Revoked}
    case Suspended => {Active, Revoked}
    case Revoked => {}
  }

  predicate Registrable(s: State) {
    s == Draft || s == AwaitingEnrolment || s == Active
  }

  function EffectiveState(state: State, validTo: Option<Day>, today: Day): Effective {
    if state == Revoked then Typed(Revoked)
    else if validTo.Some? && today > validTo.value then Expired
    else Typed(state)
  }

  datatype TransitionError = WhoOrWhyBlank | RevokedIsTerminal | NotAllowed
  datatype Moved = Moved(state: State) | NotMoved(error: TransitionError)

  function Transition(from: State, to: State, who: string, why: string): Moved {
    if Blank(who) || Blank(why) then NotMoved(WhoOrWhyBlank)
    else if from == Revoked then NotMoved(RevokedIsTerminal)
    else if to !in Allowed(from) then NotMoved(NotAllowed)
    else Moved(to)
  }

  /** A stored history: it starts where the pass was created, every step is allowed. */
  ghost predicate History(h: seq<State>) {
    |h| > 0 && forall i :: 0 < i < |h| ==> h[i] in Allowed(h[i - 1])
  }
}
