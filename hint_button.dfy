/**
 * The progressive hint button of src/components/HintButton.jsx: a level from
 * 0 (nothing shown) to 3 (all hints shown), raised by one per click.
 */
module Hints {
  const MaxLevel := 3

  /** The button is disabled once every hint is shown. */
  predicate Disabled(level: nat) {
    level >= MaxLevel
  }

  /**
   * The button label: "No more hints" exactly when disabled, otherwise
   * "Hint (n/3 used)" with the level as its digit.
   */
  function Label(level: nat): (r: string)
    ensures r == "No more hints" <==> Disabled(level)
    ensures !Disabled(level) ==> |r| == 15 && r[..6] == "Hint (" && r[6] == "012"[level] && r[7..] == "/3 used)"
  {
    if Disabled(level) then "No more hints"
    else "Hint (" + [('0' as int + level) as char] + "/3 used)"
  }

  /** `hints.slice(0, hintLevel)`: the slice stops at the end of a shorter list. */
  function Revealed(hints: seq<string>, level: nat): (r: seq<string>)
    ensures |r| == if level <= |hints| then level else |hints|
    ensures forall i :: 0 <= i < |r| ==> r[i] == hints[i]
  {
    if level <= |hints| then hints[..level] else hints
  }

  /** Nothing is shown at level 0, and every shown hint stays shown at a higher level. */
  lemma RevealedGrows(hints: seq<string>, level: nat, higher: nat)
    requires level <= higher
    ensures Revealed(hints, 0) == []
    ensures Revealed(hints, level) <= Revealed(hints, higher)
  {
  }

  /**
   * `k` clicks starting from `level`: the final level and the levels reported
   * to `onHintUsed`. Below the cap the clicks end at min(level + k, 3) and
   * report each level in between exactly once, in order; a disabled button
   * reports nothing.
   */
  function Clicks(level: nat, k: nat): (r: (nat, seq<nat>))
    ensures r.0 == if Disabled(level) then level else if level + k < MaxLevel then level + k else MaxLevel
    ensures |r.1| == r.0 - level
    ensures forall i :: 0 <= i < |r.1| ==> r.1[i] == level + i + 1
    decreases k
  {
    if k == 0 || Disabled(level) then (level, [])
    else
      var (last, reported) := Clicks(level + 1, k - 1);
      (last, [level + 1] + reported)
  }

  /** Three clicks report levels 1, 2 and 3 and leave the button disabled; more clicks change nothing. */
  lemma ThreeClicksExhaust(k: nat)
    requires k >= 3
    ensures Clicks(0, k) == (3, [1, 2, 3])
    ensures Disabled(Clicks(0, k).0) && Label(Clicks(0, k).0) == "No more hints"
  {
    var reported := Clicks(0, k).1;
    assert reported[0] == 1 && reported[1] == 2 && reported[2] == 3;
    assert reported == [1, 2, 3];
  }

  class HintButton {
    const roomId: int
    var hintLevel: nat

    ghost predicate Valid()
      reads this
    {
      hintLevel <= MaxLevel
    }

    constructor (roomId: int)
      ensures Valid() && this.roomId == roomId && hintLevel == 0
    {
      this.roomId := roomId;
      hintLevel := 0;
    }

    /**
     * `handleClick`. A click on a disabled button does nothing; otherwise the
     * level rises by one and, when `onHintUsed` is given, it is called once with
     * the room and the new level (returned in `reported`).
     */
    method Click(hasCallback: bool) returns (reported: seq<(int, nat)>)
      requires Valid()
      modifies this
      ensures Valid()
      ensures Disabled(old(hintLevel)) ==> hintLevel == old(hintLevel) && reported == []
      ensures !Disabled(old(hintLevel)) ==>
        hintLevel == old(hintLevel) + 1
        && reported == (if hasCallback then [(roomId, hintLevel)] else [])
      ensures hintLevel == Clicks(old(hintLevel), 1).0
      ensures |reported| == if hasCallback then |Clicks(old(hintLevel), 1).1| else 0
      ensures forall i :: 0 <= i < |reported| ==> reported[i] == (roomId, Clicks(old(hintLevel), 1).1[i])
    {
      if Disabled(hintLevel) {
        return [];
      }
      hintLevel := hintLevel + 1;
      reported := if hasCallback then [(roomId, hintLevel)] else [];
    }
  }
}
