/**
 * The runaway button of src/components/RunawayButton.jsx: every hover moves
 * it to a random spot in its parent and counts an attempt, and the taunt,
 * transition speed and font size follow the attempt count. `Math.random`
 * draws are parameters; speed and font size are computed on exact reals.
 */
module Runaway {
  import opened Wrappers

  const Taunts: seq<string> := [
    "no",
    "please?",
    "come on...",
    "I'll buy you Thai food",
    "Biggie says you have to",
    "...",
    "fine, be that way"
  ]

  /** `Math.min(attempts, TAUNTS.length - 1)`: always a valid index into the taunts. */
  function TauntIndex(attempts: nat): (i: nat)
    ensures i < |Taunts|
    ensures i <= attempts
    ensures attempts < |Taunts| ==> i == attempts
  {
    if attempts < |Taunts| - 1 then attempts else |Taunts| - 1
  }

  /**
   * The taunt under the button: always one of the taunts, the one numbered by
   * the attempts while they last, and the last one from then on.
   */
  function Taunt(attempts: nat): (r: string)
    ensures r in Taunts
    ensures attempts < |Taunts| ==> r == Taunts[attempts]
    ensures attempts >= |Taunts| - 1 ==> r == Taunts[|Taunts| - 1]
  {
    Taunts[TauntIndex(attempts)]
  }

  /** The first taunt is "no"; from six attempts on the last one stays. */
  lemma TauntStages(attempts: nat)
    ensures Taunt(0) == "no"
    ensures attempts >= 6 ==> Taunt(attempts) == "fine, be that way"
  {
  }

  /** `Math.max(0.1, 0.3 - attempts * 0.02)` seconds. */
  function Speed(attempts: nat): (s: real)
    ensures s >= 0.1
    ensures attempts <= 10 ==> s == 0.3 - attempts as real * 0.02
  {
    var raw := 0.3 - attempts as real * 0.02;
    if raw > 0.1 then raw else 0.1
  }

  /** `Math.max(8, 14 - attempts * 0.5)` pixels. */
  function FontSize(attempts: nat): (f: real)
    ensures f >= 8.0
    ensures attempts <= 12 ==> f == 14.0 - attempts as real * 0.5
  {
    var raw := 14.0 - attempts as real * 0.5;
    if raw > 8.0 then raw else 8.0
  }

  /** More attempts never make the button slower or its text larger. */
  lemma SpeedAndFontNeverGrow(a: nat, b: nat)
    requires a <= b
    ensures Speed(b) <= Speed(a) && FontSize(b) <= FontSize(a)
  {
  }

  /** The sizes `handleMouseEnter` reads: the parent's box and the button's own. */
  datatype Geometry = Geometry(parentWidth: real, parentHeight: real, buttonWidth: real, buttonHeight: real)

  class RunawayButton {
    var attempts: nat
    var x: real
    var y: real

    constructor ()
      ensures attempts == 0 && x == 0.0 && y == 0.0
    {
      attempts, x, y := 0, 0.0, 0.0;
    }

    /**
     * `handleMouseEnter`. Without a mounted button and parent (`geometry` is
     * `None`) nothing changes; otherwise the button moves to the draws' share of
     * the free room and one attempt is counted.
     */
    method MouseEnter(geometry: Option<Geometry>, drawX: real, drawY: real)
      requires 0.0 <= drawX < 1.0 && 0.0 <= drawY < 1.0
      modifies this
      ensures geometry.None? ==> attempts == old(attempts) && x == old(x) && y == old(y)
      ensures geometry.Some? ==>
        attempts == old(attempts) + 1
        && x == drawX * (geometry.value.parentWidth - geometry.value.buttonWidth)
        && y == drawY * (geometry.value.parentHeight - geometry.value.buttonHeight)
      ensures attempts >= old(attempts)
    {
      if geometry.None? {
        return;
      }
      var g := geometry.value;
      x := drawX * (g.parentWidth - g.buttonWidth);
      y := drawY * (g.parentHeight - g.buttonHeight);
      attempts := attempts + 1;
    }

    /** `handleClick`: `onCatch` is called once when given (the returned count); no state changes. */
    method Click(hasOnCatch: bool) returns (catches: nat)
      ensures catches == if hasOnCatch then 1 else 0
    {
      catches := if hasOnCatch then 1 else 0;
    }
  }
}
