/**
 * The typewriter hook of src/hooks/useTypewriter.js. An effect starts an
 * interval for each non-empty text; every tick of the interval shows one more
 * character, and the tick after the whole text is shown marks it complete and
 * clears the interval. Time is not modelled: each interval firing is one call
 * of `Tick`.
 */
module Typewriter {
  import opened Wrappers

  /** What the hook returns: `{ displayText, isComplete }`. */
  datatype Shown = Shown(displayText: string, isComplete: bool)

  /** JavaScript falsiness of the `text` argument: `null`/`undefined` (`None`) and `''`. */
  predicate Falsy(text: Option<string>) {
    text.None? || text.value == []
  }

  /**
   * What the hook shows `k` ticks after an effect started typing `text`: a
   * prefix of the text, one character per tick and never more than the text,
   * complete only once the ticks have passed its length.
   */
  function Typed(text: string, k: nat): (r: Shown)
    ensures |r.displayText| == if k <= |text| then k else |text|
    ensures r.displayText <= text
    ensures r.isComplete <==> k > |text|
  {
    if k <= |text| then Shown(text[..k], false) else Shown(text, true)
  }

  /**
   * One tick before the end shows exactly one more character; the tick after
   * the full text only sets `isComplete`.
   */
  lemma TickStep(text: string, k: nat)
    requires k <= |text|
    ensures k < |text| ==> Typed(text, k + 1) == Shown(Typed(text, k).displayText + [text[k]], false)
    ensures k == |text| ==> Typed(text, k + 1) == Shown(Typed(text, k).displayText, true)
  {
    if k < |text| {
      assert text[..k + 1] == text[..k] + [text[k]];
    } else {
      assert text[..k] == text;
    }
  }

  /** `isComplete` is set exactly on tick |text| + 1: the tick that shows the whole text leaves it false. */
  lemma CompleteExactlyAfterLastCharacter(text: string, k: nat)
    requires k <= |text| + 1
    ensures Typed(text, k).isComplete <==> k == |text| + 1
    ensures k >= |text| ==> Typed(text, k).displayText == text
  {
    assert text[..|text|] == text;
  }

  /** The hook's state together with the running effect's local `charIndex` and interval. */
  class TypewriterHook {
    var displayText: string
    var isComplete: bool
    /** The text of the effect that last started typing. */
    var text: string
    var charIndex: nat
    /** Whether that effect's interval is still scheduled. */
    var running: bool
    /** Ticks since that effect started. */
    ghost var ticks: nat

    /** While the interval runs, the display is the text typed so far. */
    ghost predicate Valid()
      reads this
    {
      running ==> ticks == charIndex <= |text| && Shown(displayText, isComplete) == Typed(text, ticks)
    }

    constructor ()
      ensures Valid() && displayText == [] && !isComplete && !running
    {
      displayText, isComplete := [], false;
      text, charIndex, running := [], 0, false;
      ticks := 0;
    }

    /**
     * The effect for a new `text` (or `speed`): the previous interval is
     * cleared first; a falsy text starts nothing and leaves what is shown alone.
     */
    method Effect(newText: Option<string>)
      requires Valid()
      modifies this
      ensures Valid()
      ensures Falsy(newText) ==>
        !running && displayText == old(displayText) && isComplete == old(isComplete)
      ensures !Falsy(newText) ==>
        running && text == newText.value && charIndex == 0 && ticks == 0
        && displayText == [] && !isComplete
    {
      running := false;
      if Falsy(newText) {
        return;
      }
      text := newText.value;
      charIndex := 0;
      displayText := [];
      isComplete := false;
      running := true;
      ticks := 0;
    }

    /** One firing of the interval. */
    method Tick()
      requires Valid() && running
      modifies this
      ensures Valid() && text == old(text) && ticks == old(ticks) + 1
      ensures Shown(displayText, isComplete) == Typed(text, ticks)
      ensures running <==> ticks <= |text|
    {
      TickStep(text, ticks);
      if charIndex < |text| {
        displayText := text[..charIndex + 1];
        charIndex := charIndex + 1;
      } else {
        isComplete := true;
        running := false;
      }
      ticks := ticks + 1;
    }

    /** The cleanup on unmount: the interval is cleared, nothing shown changes. */
    method Unmount()
      modifies this
      ensures !running && displayText == old(displayText) && isComplete == old(isComplete)
    {
      running := false;
    }
  }
}
