/** The QRs of a garage's passes: issued for a plate or bound at first use, replaced,
    cancelled. What replacing a car leaves for ever. */
module Codes {
  import opened Basics
  import opened Text
  import opened States
  import opened Plates

  /** `plate`: the QR was made for it. `identity`: what a QR made without one was bound to
      at its first use. `exitOnlyAt`: its car was replaced then. */
  datatype Code = Code(pass: PassId, plate: Option<string>, identity: Option<string>, state: CredentialState,
                       startsOn: Day, days: int, exitOnlyAt: Option<Instant>)

  function BoundTo(c: Code): Option<string> {
    if c.plate.Some? then c.plate else c.identity
  }

  predicate OfCar(c: Code, p: PassId, key: string) {
    c.pass == p && BoundTo(c).Some? && PlateKey(BoundTo(c).value) == key
  }

  /** Live on a day: redeemed, or issued within its own days. With no day to read: not cancelled. */
  predicate LiveOn(c: Code, today: Option<Day>) {
    if today.None? then c.state != Cancelled
    else c.state == Redeemed || (c.state == Issued && c.startsOn <= today.value < c.startsOn + c.days)
  }

  predicate WasReplaced(codes: seq<Code>, p: PassId, key: string) {
    exists i :: 0 <= i < |codes| && OfCar(codes[i], p, key) && codes[i].exitOnlyAt.Some?
  }

  /** Another QR of the car on the pass, live that day and not itself replaced. */
  predicate StillLive(codes: seq<Code>, p: PassId, key: string, today: Option<Day>) {
    exists i :: 0 <= i < |codes| && OfCar(codes[i], p, key) && codes[i].exitOnlyAt.None? && LiveOn(codes[i], today)
  }

  /** The car leaves on the pass and enters on it no more. */
  predicate Gone(codes: seq<Code>, p: PassId, key: string, today: Option<Day>) {
    WasReplaced(codes, p, key) && !StillLive(codes, p, key, today)
  }

  /** The latest of its replacements. */
  function LatestReplacement(codes: seq<Code>, p: PassId, key: string): (at: Option<Instant>)
    ensures at.Some? <==> WasReplaced(codes, p, key)
    ensures at.Some? ==>
              && (exists i :: 0 <= i < |codes| && OfCar(codes[i], p, key) && codes[i].exitOnlyAt == at)
              && forall i :: 0 <= i < |codes| && OfCar(codes[i], p, key) && codes[i].exitOnlyAt.Some? ==>
                   codes[i].exitOnlyAt.value <= at.value
  {
    if codes == [] then None
    else
      var n := |codes| - 1;
      var before := LatestReplacement(codes[..n], p, key);
      var c := codes[n];
      if OfCar(c, p, key) && c.exitOnlyAt.Some? && (before.None? || before.value < c.exitOnlyAt.value) then
        c.exitOnlyAt
      else before
  }

  // ------------------------------------------------------------------- the writes

  datatype CodeRefusal = CodeUnknown | CodeCancelled | AlreadyReplaced | AlreadyUsed | PlateNotStated | Issue
  datatype Wrote = Wrote | NotWritten(refusal: CodeRefusal)

  /** What any write may do to a QR: it keeps its pass, its plate, its car once it has one,
      and the instant its car was replaced; cancelled is the last of its states. */
  ghost predicate CodeMoves(a: Code, b: Code) {
    && b.pass == a.pass && b.plate == a.plate && b.startsOn == a.startsOn && b.days == a.days
    && (BoundTo(a).Some? ==> BoundTo(b) == BoundTo(a))
    && (a.exitOnlyAt.Some? ==> b.exitOnlyAt == a.exitOnlyAt)
    && (a.state == Cancelled ==> b == a)
    && (a.state == Redeemed ==> b.state != Issued)
  }

  /** No QR is ever taken away, none is moved but as above; new ones come after. */
  ghost predicate Moves(before: seq<Code>, after: seq<Code>) {
    |before| <= |after| && forall i :: 0 <= i < |before| ==> CodeMoves(before[i], after[i])
  }

  /** A QR that is replaced is bound. */
  ghost predicate CodesOk(codes: seq<Code>) {
    forall i :: 0 <= i < |codes| ==> codes[i].exitOnlyAt.Some? ==> BoundTo(codes[i]).Some?
  }

  class CodeBook {
    var codes: seq<Code>

    constructor ()
      ensures codes == []
    {
      codes := [];
    }

    /** A QR made for one car's plate, kept in its normal form. */
    method Mint(p: PassId, plate: string, startsOn: Day, days: int) returns (out: Wrote)
      requires CodesOk(codes)
      modifies this
      ensures CodesOk(codes) && Moves(old(codes), codes)
      ensures out.Wrote? <==> PlateKey(plate) != ""
      ensures codes == if out.Wrote? then old(codes) + [Code(p, Some(PlateKey(plate)), None, Issued, startsOn, days, None)]
                       else old(codes)
    {
      if PlateKey(plate) == "" { return NotWritten(PlateNotStated); }
      codes := codes + [Code(p, Some(PlateKey(plate)), None, Issued, startsOn, days, None)];
      out := Wrote.Wrote;
    }

    /** The spend of a QR made without a plate: bound to the car at its first use. */
    method Spend(k: nat, identity: string) returns (out: Wrote)
      requires CodesOk(codes)
      modifies this
      ensures CodesOk(codes) && Moves(old(codes), codes)
      ensures out.Wrote? <==> k < |old(codes)| && BoundTo(old(codes)[k]).None? && old(codes)[k].state == Issued
      ensures codes == if out.Wrote? then old(codes)[k := old(codes)[k].(state := Redeemed, identity := Some(identity))]
                       else old(codes)
    {
      if k >= |codes| { return NotWritten(CodeUnknown); }
      if BoundTo(codes[k]).Some? || codes[k].state != Issued { return NotWritten(AlreadyUsed); }
      codes := codes[k := codes[k].(state := Redeemed, identity := Some(identity))];
      out := Wrote.Wrote;
    }

    /** The old QR of a replacement: a bound one answers at an exit only from now on, one
        that never bound is cancelled; the new QR is minted on the same pass, or nothing is. */
    method ReplaceCar(k: nat, plate: string, startsOn: Day, days: int, at: Instant, holds: bool) returns (out: Wrote)
      requires CodesOk(codes)
      modifies this
      ensures CodesOk(codes) && Moves(old(codes), codes)
      ensures out.Wrote? <==>
                && PlateKey(plate) != "" && k < |old(codes)| && old(codes)[k].state != Cancelled
                && old(codes)[k].exitOnlyAt.None? && holds
      ensures out.NotWritten? ==> codes == old(codes)
      ensures out.Wrote? ==>
                var replaced := old(codes)[k];
                && codes == old(codes)[k := if BoundTo(replaced).Some? then replaced.(exitOnlyAt := Some(at))
                                            else replaced.(state := Cancelled)]
                            + [Code(replaced.pass, Some(PlateKey(plate)), None, Issued, startsOn, days, None)]
                && (BoundTo(replaced).Some? ==> WasReplaced(codes, replaced.pass, PlateKey(BoundTo(replaced).value)))
    {
      if PlateKey(plate) == "" { return NotWritten(PlateNotStated); }
      if k >= |codes| { return NotWritten(CodeUnknown); }
      if codes[k].state == Cancelled { return NotWritten(CodeCancelled); }
      if codes[k].exitOnlyAt.Some? { return NotWritten(AlreadyReplaced); }
      if !holds { return NotWritten(Issue); }
      var replaced := codes[k];
      if BoundTo(replaced).Some? {
        codes := codes[k := replaced.(exitOnlyAt := Some(at))];
      } else {
        codes := codes[k := replaced.(state := Cancelled)];
      }
      ghost var marked := codes;
      codes := codes + [Code(replaced.pass, Some(PlateKey(plate)), None, Issued, startsOn, days, None)];
      assert codes[k] == marked[k];
      out := Wrote.Wrote;
    }

    /** One QR, and only it. */
    method CancelCode(k: nat) returns (out: Wrote)
      requires CodesOk(codes)
      modifies this
      ensures CodesOk(codes) && Moves(old(codes), codes)
      ensures out.Wrote? <==> k < |old(codes)| && old(codes)[k].state != Cancelled
      ensures codes == if out.Wrote? then old(codes)[k := old(codes)[k].(state := Cancelled)] else old(codes)
    {
      if k >= |codes| { return NotWritten(CodeUnknown); }
      if codes[k].state == Cancelled { return NotWritten(CodeCancelled); }
      codes := codes[k := codes[k].(state := Cancelled)];
      out := Wrote.Wrote;
    }

    /** A revocation cancels every QR of the pass, its bind kept on the row. */
    method CancelAll(p: PassId)
      requires CodesOk(codes)
      modifies this
      ensures CodesOk(codes) && Moves(old(codes), codes)
      ensures |codes| == |old(codes)|
      ensures forall i :: 0 <= i < |codes| ==>
                codes[i] == if old(codes)[i].pass == p then old(codes)[i].(state := Cancelled) else old(codes)[i]
    {
      for k := 0 to |codes|
        invariant |codes| == |old(codes)|
        invariant forall i :: k <= i < |codes| ==> codes[i] == old(codes)[i]
        invariant forall i :: 0 <= i < k ==>
                    codes[i] == if old(codes)[i].pass == p then old(codes)[i].(state := Cancelled) else old(codes)[i]
      {
        if codes[k].pass == p && codes[k].state != Cancelled {
          codes := codes[k := codes[k].(state := Cancelled)];
        }
      }
    }
  }

  // ------------------------------------------------------------------- every run

  /** States the register of QRs goes through, whatever is written. */
  ghost predicate RunOfMoves(states: seq<seq<Code>>) {
    |states| > 0 && forall i :: 0 <= i < |states| - 1 ==> Moves(states[i], states[i + 1])
  }

  lemma MovesTwice(a: seq<Code>, b: seq<Code>, c: seq<Code>)
    requires Moves(a, b) && Moves(b, c)
    ensures Moves(a, c)
  {
    forall i | 0 <= i < |a| ensures CodeMoves(a[i], c[i]) {
      assert CodeMoves(a[i], b[i]) && CodeMoves(b[i], c[i]);
    }
  }

  lemma {:induction false} EveryRunMoves(states: seq<seq<Code>>)
    requires RunOfMoves(states)
    ensures Moves(states[0], states[|states| - 1])
  {
    var n := |states| - 1;
    if n > 0 {
      assert RunOfMoves(states[..n]);
      EveryRunMoves(states[..n]);
      MovesTwice(states[0], states[n - 1], states[n]);
    }
  }

  /** FROM A REPLACEMENT ON, in every run, the car stays replaced on the pass, and never
      from an earlier instant. */
  lemma ReplacedStaysReplaced(states: seq<seq<Code>>, p: PassId, key: string)
    requires RunOfMoves(states) && WasReplaced(states[0], p, key)
    ensures var now := states[|states| - 1];
            WasReplaced(now, p, key)
            && LatestReplacement(states[0], p, key).value <= LatestReplacement(now, p, key).value
  {
    EveryRunMoves(states);
    var now := states[|states| - 1];
    var i :| 0 <= i < |states[0]| && OfCar(states[0][i], p, key)
             && states[0][i].exitOnlyAt == LatestReplacement(states[0], p, key);
    assert CodeMoves(states[0][i], now[i]);
  }

  /** A car enters again on a pass it was replaced on only under another QR. */
  lemma GoneUntilAnotherQr(states: seq<seq<Code>>, p: PassId, key: string, today: Option<Day>)
    requires RunOfMoves(states) && WasReplaced(states[0], p, key)
    ensures var now := states[|states| - 1];
            !Gone(now, p, key, today) <==>
              exists i :: 0 <= i < |now| && OfCar(now[i], p, key) && now[i].exitOnlyAt.None? && LiveOn(now[i], today)
                && (i < |states[0]| ==> states[0][i].exitOnlyAt.None?)
  {
    ReplacedStaysReplaced(states, p, key);
    EveryRunMoves(states);
    var now := states[|states| - 1];
    if StillLive(now, p, key, today) {
      var i :| 0 <= i < |now| && OfCar(now[i], p, key) && now[i].exitOnlyAt.None? && LiveOn(now[i], today);
      assert i < |states[0]| ==> CodeMoves(states[0][i], now[i]);
    }
  }
}
