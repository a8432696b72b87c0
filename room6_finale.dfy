/**
 * The finale of src/rooms/Room6Finale.jsx: intro lines that advance one at a
 * time, then the question with a YES button and a NO button that escapes each
 * hover, changes its text with the attempt count and shrinks away, and a NO
 * click that ends exactly as YES does. Timers are modelled as the events they
 * schedule (`Timer`), fired by the caller; `Math.random`'s angle enters as its
 * cosine and sine.
 */
module Finale {
  import opened Wrappers

  const IntroLines: seq<string> := [
    "You escaped.",
    "Through the market where we met. Through the home we've built. Through the dinner that started everything. Through our song. Past the guardian of my heart.",
    "You remembered. You always do.",
    "Riya..."
  ]

  /** `NO_BUTTON_TEXTS`: the NO button's text from each attempt threshold on. */
  const NoButtonTexts: map<nat, string> := map[
    0 := "no",
    3 := "please?",
    5 := "come on...",
    7 := "I'll buy you Thai food",
    10 := "Biggie says you have to"
  ]

  /** The keys of `NO_BUTTON_TEXTS` as `getNoButtonText` visits them: sorted largest first. */
  const Thresholds: seq<nat> := [10, 7, 5, 3, 0]

  /** The thresholds are exactly the table's keys, in strictly decreasing order. */
  lemma ThresholdsAreSortedKeys()
    ensures forall t :: t in Thresholds <==> t in NoButtonTexts
    ensures forall i, j :: 0 <= i < j < |Thresholds| ==> Thresholds[i] > Thresholds[j]
  {
  }

  /** The stage a number of attempts has reached: the largest threshold not above it. */
  function Stage(attempts: nat): (t: nat)
    ensures t in NoButtonTexts && t <= attempts
    ensures forall k :: k in NoButtonTexts && k <= attempts ==> k <= t
  {
    if attempts >= 10 then 10
    else if attempts >= 7 then 7
    else if attempts >= 5 then 5
    else if attempts >= 3 then 3
    else 0
  }

  /**
   * The text of the stage `attempts` has reached: always one of the table's
   * texts, and at each threshold exactly that threshold's text.
   */
  function NoButtonText(attempts: nat): (r: string)
    ensures r in NoButtonTexts.Values
    ensures attempts in NoButtonTexts ==> r == NoButtonTexts[attempts]
  {
    NoButtonTexts[Stage(attempts)]
  }

  /**
   * `getNoButtonText`: the first threshold, largest first, that the attempts
   * reach gives the text. The fallback `'no'` is never reached, since the
   * smallest threshold is 0.
   */
  method GetNoButtonText(attempts: nat) returns (text: string)
    ensures text == NoButtonText(attempts)
  {
    ThresholdsAreSortedKeys();
    assert Thresholds[|Thresholds| - 1] == 0;
    for i := 0 to |Thresholds|
      invariant forall j :: 0 <= j < i ==> attempts < Thresholds[j]
    {
      if attempts >= Thresholds[i] {
        return NoButtonTexts[Thresholds[i]];
      }
    }
    assert false;
    text := "no";
  }

  /** The five stages and their texts. */
  lemma NoButtonTextStages(attempts: nat)
    ensures attempts < 3 ==> NoButtonText(attempts) == "no"
    ensures 3 <= attempts < 5 ==> NoButtonText(attempts) == "please?"
    ensures 5 <= attempts < 7 ==> NoButtonText(attempts) == "come on..."
    ensures 7 <= attempts < 10 ==> NoButtonText(attempts) == "I'll buy you Thai food"
    ensures attempts >= 10 ==> NoButtonText(attempts) == "Biggie says you have to"
  {
  }

  /** Every stage has its own text. */
  lemma StageTextsDistinct(s: nat, t: nat)
    requires s in NoButtonTexts && t in NoButtonTexts && s != t
    ensures NoButtonTexts[s] != NoButtonTexts[t]
  {
    var texts := NoButtonTexts;
    if s == 0 || t == 0 {
      assert |texts[0]| == 2 && (s == 0 ==> |texts[t]| > 2) && (t == 0 ==> |texts[s]| > 2);
    } else if s == 3 || t == 3 {
      assert |texts[3]| == 7 && (s == 3 ==> |texts[t]| > 7) && (t == 3 ==> |texts[s]| > 7);
    } else if s == 5 || t == 5 {
      assert |texts[5]| == 10 && (s == 5 ==> |texts[t]| > 10) && (t == 5 ==> |texts[s]| > 10);
    } else {
      assert texts[7][0] == 'I' && texts[10][0] == 'B';
    }
  }

  /**
   * More attempts never go back to an earlier stage: the stage only grows, and
   * no later text is the text of a stage before the current one.
   */
  lemma {:induction false} TextNeverGoesBack(a: nat, b: nat)
    requires a <= b
    ensures Stage(a) <= Stage(b)
    ensures forall k :: k in NoButtonTexts && k < Stage(a) ==> NoButtonText(b) != NoButtonTexts[k]
  {
    forall k | k in NoButtonTexts && k < Stage(a)
      ensures NoButtonText(b) != NoButtonTexts[k]
    {
      StageTextsDistinct(Stage(b), k);
    }
  }

  /** The state `handleNoButtonHover` changes: attempts, position and scale. */
  datatype NoButton = NoButton(attempts: nat, x: real, y: real, size: real)

  /** The two bounding boxes the hover reads: the container's and the button's. */
  datatype Rects = Rects(containerWidth: real, containerHeight: real, buttonWidth: real, buttonHeight: real)

  /** `Math.min(50 + attempts * 15, 200)` pixels per escape. */
  function EscapeSpeed(attempts: nat): (s: nat)
    ensures 50 <= s <= 200
    ensures attempts < 10 ==> s == 50 + 15 * attempts
    ensures attempts >= 10 ==> s == 200
  {
    if 50 + attempts * 15 < 200 then 50 + attempts * 15 else 200
  }

  /** `Math.max(-bound, Math.min(bound, v))`. */
  function Clamp(v: real, bound: real): (r: real)
    ensures bound >= 0.0 ==> -bound <= r <= bound
    ensures -bound <= v <= bound ==> r == v
    ensures bound < 0.0 ==> r == -bound
  {
    var capped := if v < bound then v else bound;
    if capped > -bound then capped else -bound
  }

  const AttemptCap: nat := 15
  const ShrunkSize: real := 0.01

  /**
   * `handleNoButtonHover` on the button's state. At the cap nothing changes.
   * Below it the attempt is counted first; without both elements mounted
   * (`rects` is `None`) nothing else happens; otherwise the button moves by
   * the escape speed along the drawn angle, kept inside the container, and
   * shrinks to 0.01 when the attempts it started from were 14 or more. So a
   * hover at the cap is a no-op, one below it counts exactly one attempt
   * (even when the elements are not mounted, and then moves nothing), and
   * the attempts never pass the cap.
   */
  function Hovered(b: NoButton, rects: Option<Rects>, cosAngle: real, sinAngle: real): (r: NoButton)
    ensures b.attempts >= AttemptCap ==> r == b
    ensures b.attempts < AttemptCap ==> r.attempts == b.attempts + 1
    ensures b.attempts <= AttemptCap ==> r.attempts <= AttemptCap
    ensures rects.None? ==> r.x == b.x && r.y == b.y && r.size == b.size
  {
    if b.attempts >= AttemptCap then b
    else if rects.None? then b.(attempts := b.attempts + 1)
    else
      var speed := EscapeSpeed(b.attempts) as real;
      var r := rects.value;
      NoButton(
        b.attempts + 1,
        Escape(b.x, cosAngle, speed, Bound(r.containerWidth, r.buttonWidth, 20.0)),
        Escape(b.y, sinAngle, speed, Bound(r.containerHeight, r.buttonHeight, 100.0)),
        if b.attempts >= AttemptCap - 1 then ShrunkSize else b.size)
  }

  /** How far from the centre the button may go along one axis: `container / 2 - button / 2 - margin`. */
  function Bound(container: real, button: real, margin: real): real
  {
    container / 2.0 - button / 2.0 - margin
  }

  /** One coordinate of an escape: `speed` along the drawn direction, clamped to the bound. */
  function Escape(position: real, direction: real, speed: real, bound: real): real
  {
    Clamp(position + direction * speed, bound)
  }

  /** `noButtonSize > 0.01`: whether the NO button is rendered at all. */
  predicate Shown(b: NoButton) {
    b.size > ShrunkSize
  }

  /**
   * The hover starting from 14 attempts with the elements mounted shrinks the
   * button to 0.01, which hides it; earlier hovers keep its size.
   */
  lemma HoverShrinks(b: NoButton, rects: Option<Rects>, cosAngle: real, sinAngle: real)
    ensures var r := Hovered(b, rects, cosAngle, sinAngle);
      && (b.attempts == AttemptCap - 1 && rects.Some? ==> r.size == ShrunkSize && !Shown(r))
      && (b.attempts < AttemptCap - 1 ==> r.size == b.size)
  {
  }

  /** With a container large enough for the button, every escape stays inside its bounds. */
  lemma HoverStaysInside(b: NoButton, r: Rects, cosAngle: real, sinAngle: real)
    requires b.attempts < AttemptCap
    requires Bound(r.containerWidth, r.buttonWidth, 20.0) >= 0.0
    requires Bound(r.containerHeight, r.buttonHeight, 100.0) >= 0.0
    ensures var h := Hovered(b, Some(r), cosAngle, sinAngle);
      var maxX, maxY := Bound(r.containerWidth, r.buttonWidth, 20.0), Bound(r.containerHeight, r.buttonHeight, 100.0);
      -maxX <= h.x <= maxX && -maxY <= h.y <= maxY
  {
  }

  /** One hover's inputs: the two boxes, when mounted, and the drawn angle's cosine and sine. */
  datatype HoverInput = HoverInput(rects: Option<Rects>, cosAngle: real, sinAngle: real)

  function HoveredAll(b: NoButton, inputs: seq<HoverInput>): NoButton
    decreases |inputs|
  {
    if inputs == [] then b
    else HoveredAll(Hovered(b, inputs[0].rects, inputs[0].cosAngle, inputs[0].sinAngle), inputs[1..])
  }

  /** However many hovers follow, the attempts reach `min(attempts + hovers, 15)` and stop there. */
  lemma {:induction false} HoveredAllCapped(b: NoButton, inputs: seq<HoverInput>)
    requires b.attempts <= AttemptCap
    ensures HoveredAll(b, inputs).attempts ==
      if b.attempts + |inputs| < AttemptCap then b.attempts + |inputs| else AttemptCap
    decreases |inputs|
  {
    if inputs != [] {
      var i := inputs[0];
      HoveredAllCapped(Hovered(b, i.rects, i.cosAngle, i.sinAngle), inputs[1..]);
    }
  }

  /**
   * The intro effect as one step: advance to the next line, or show the
   * question after the last. The index stays on a line, moves by at most one,
   * only once the current line is typed out; the question appears only after
   * the last line and never goes away.
   */
  function IntroStep(lineIndex: nat, showQuestion: bool, isComplete: bool): (r: (nat, bool))
    ensures lineIndex < |IntroLines| ==> r.0 < |IntroLines|
    ensures r.0 == lineIndex || (isComplete && r.0 == lineIndex + 1)
    ensures r.1 && !showQuestion ==> isComplete && lineIndex == |IntroLines| - 1
    ensures showQuestion ==> r.1
  {
    if isComplete && lineIndex < |IntroLines| - 1 then (lineIndex + 1, showQuestion)
    else if isComplete && lineIndex == |IntroLines| - 1 then (lineIndex, true)
    else (lineIndex, showQuestion)
  }

  function IntroAfter(lineIndex: nat, showQuestion: bool, completions: nat): (nat, bool)
    decreases completions
  {
    if completions == 0 then (lineIndex, showQuestion)
    else
      var r := IntroStep(lineIndex, showQuestion, true);
      IntroAfter(r.0, r.1, completions - 1)
  }

  /** From line k, each line typed out in turn reaches the last line and then the question. */
  lemma {:induction false} IntroReachesQuestion(lineIndex: nat, completions: nat)
    requires lineIndex < |IntroLines|
    ensures var r := IntroAfter(lineIndex, false, completions);
      && (lineIndex + completions < |IntroLines| ==> r == (lineIndex + completions, false))
      && (lineIndex + completions >= |IntroLines| ==> r == (|IntroLines| - 1, true))
    decreases completions
  {
    if completions > 0 {
      if lineIndex < |IntroLines| - 1 {
        IntroReachesQuestion(lineIndex + 1, completions - 1);
      } else {
        QuestionStays(lineIndex, completions - 1);
      }
    }
  }

  lemma {:induction false} QuestionStays(lineIndex: nat, completions: nat)
    requires lineIndex == |IntroLines| - 1
    ensures IntroAfter(lineIndex, true, completions) == (lineIndex, true)
  {
    if completions > 0 {
      QuestionStays(lineIndex, completions - 1);
    }
  }

  /** The flags the answer buttons set. */
  datatype Question = Question(showConfetti: bool, showFinalMessage: bool, keyboardNo: bool)

  /** The callbacks the buttons schedule with `setTimeout`: the final message, and the NO redirect. */
  datatype Timer = FinalMessage | NoRedirect

  /** `handleYesClick`: confetti now, the final message one second later; nothing else changes yet. */
  function YesClicked(q: Question): (r: (Question, Timer))
    ensures r.0.showConfetti && r.1 == FinalMessage
    ensures r.0.showFinalMessage == q.showFinalMessage && r.0.keyboardNo == q.keyboardNo
  {
    (q.(showConfetti := true), FinalMessage)
  }

  /** `handleNoClick`: the easter egg now, the redirect two seconds later; no confetti yet. */
  function NoClicked(q: Question): (r: (Question, Timer))
    ensures r.0.keyboardNo && r.1 == NoRedirect
    ensures r.0.showConfetti == q.showConfetti && r.0.showFinalMessage == q.showFinalMessage
  {
    (q.(keyboardNo := true), NoRedirect)
  }

  /**
   * A timer firing: the final message shows and nothing is scheduled, or the
   * easter egg hides and YES is clicked, which shows the confetti and
   * schedules the final message. Confetti, once shown, stays.
   */
  function Fired(q: Question, t: Timer): (r: (Question, Option<Timer>))
    ensures t == FinalMessage ==> r.0.showFinalMessage && r.1 == None && r.0.keyboardNo == q.keyboardNo
    ensures t == NoRedirect ==>
      r.0.showConfetti && !r.0.keyboardNo && r.1 == Some(FinalMessage) && r.0.showFinalMessage == q.showFinalMessage
    ensures q.showConfetti ==> r.0.showConfetti
  {
    match t
    case FinalMessage => (q.(showFinalMessage := true), None)
    case NoRedirect =>
      var (r, next) := YesClicked(q.(keyboardNo := false));
      (r, Some(next))
  }

  /**
   * Clicking NO ends where clicking YES does: once its timers have fired,
   * confetti and the final message show, and the only difference from the
   * YES path is that the easter egg is hidden again.
   */
  lemma NoEndsAsYes(q: Question)
    ensures var (afterNo, t1) := NoClicked(q);
      var (redirected, t2) := Fired(afterNo, t1);
      var (afterYes, t3) := YesClicked(q);
      && afterNo.keyboardNo
      && t2 == Some(t3)
      && Fired(redirected, t2.value).0 == Fired(afterYes, t3).0.(keyboardNo := false)
      && Fired(redirected, t2.value).0.showConfetti
      && Fired(redirected, t2.value).0.showFinalMessage
      && Fired(redirected, t2.value).1 == None
  {
  }

  class FinaleRoom {
    var currentLineIndex: nat
    var showQuestion: bool
    var showConfetti: bool
    var showFinalMessage: bool
    var noButtonAttempts: nat
    var noButtonX: real
    var noButtonY: real
    var noButtonSize: real
    var keyboardNo: bool

    /** The line index is a line of the intro, and the attempts stay within the cap. */
    predicate Valid()
      reads this
    {
      currentLineIndex < |IntroLines| && noButtonAttempts <= AttemptCap
    }

    function NoButtonState(): NoButton
      reads this
    {
      NoButton(noButtonAttempts, noButtonX, noButtonY, noButtonSize)
    }

    function QuestionState(): Question
      reads this
    {
      Question(showConfetti, showFinalMessage, keyboardNo)
    }

    /** The NO button is on screen: the question is up, and the button has not shrunk away. */
    predicate NoButtonRendered()
      reads this
    {
      showQuestion && !showFinalMessage && Shown(NoButtonState())
    }

    constructor ()
      ensures Valid()
      ensures currentLineIndex == 0 && !showQuestion
      ensures QuestionState() == Question(false, false, false)
      ensures NoButtonState() == NoButton(0, 0.0, 0.0, 1.0)
    {
      currentLineIndex, showQuestion := 0, false;
      showConfetti, showFinalMessage, keyboardNo := false, false, false;
      noButtonAttempts, noButtonX, noButtonY, noButtonSize := 0, 0.0, 0.0, 1.0;
    }

    /** The line-progress effect once its timer has fired. */
    method AdvanceIntro(isComplete: bool)
      requires Valid()
      modifies this
      ensures Valid()
      ensures (currentLineIndex, showQuestion) == IntroStep(old(currentLineIndex), old(showQuestion), isComplete)
      ensures NoButtonState() == old(NoButtonState()) && QuestionState() == old(QuestionState())
    {
      if isComplete && currentLineIndex < |IntroLines| - 1 {
        currentLineIndex := currentLineIndex + 1;
      } else if isComplete && currentLineIndex == |IntroLines| - 1 {
        showQuestion := true;
      }
    }

    /** `handleNoButtonHover`. */
    method HoverNo(rects: Option<Rects>, cosAngle: real, sinAngle: real)
      requires Valid()
      modifies this
      ensures Valid()
      ensures NoButtonState() == Hovered(old(NoButtonState()), rects, cosAngle, sinAngle)
      ensures currentLineIndex == old(currentLineIndex) && showQuestion == old(showQuestion)
      ensures QuestionState() == old(QuestionState())
    {
      var b := NoButtonState();
      if b.attempts >= AttemptCap {
        return;
      }
      noButtonAttempts := b.attempts + 1;
      if rects.None? {
        assert NoButtonState() == b.(attempts := b.attempts + 1);
        return;
      }
      var r := rects.value;
      var speed := EscapeSpeed(b.attempts) as real;
      var maxX := Bound(r.containerWidth, r.buttonWidth, 20.0);
      var maxY := Bound(r.containerHeight, r.buttonHeight, 100.0);
      noButtonX := Escape(b.x, cosAngle, speed, maxX);
      noButtonY := Escape(b.y, sinAngle, speed, maxY);
      if b.attempts >= AttemptCap - 1 {
        noButtonSize := ShrunkSize;
      }
    }

    /** `handleYesClick`; the returned timer is the final message's. */
    method YesClick() returns (scheduled: Timer)
      modifies this
      ensures (QuestionState(), scheduled) == YesClicked(old(QuestionState()))
      ensures currentLineIndex == old(currentLineIndex) && showQuestion == old(showQuestion)
      ensures NoButtonState() == old(NoButtonState())
    {
      showConfetti := true;
      scheduled := FinalMessage;
    }

    /** `handleNoClick`; the returned timer is the redirect. */
    method NoClick() returns (scheduled: Timer)
      modifies this
      ensures (QuestionState(), scheduled) == NoClicked(old(QuestionState()))
      ensures currentLineIndex == old(currentLineIndex) && showQuestion == old(showQuestion)
      ensures NoButtonState() == old(NoButtonState())
    {
      keyboardNo := true;
      scheduled := NoRedirect;
    }

    /** A scheduled timer fires; the redirect clicks YES and so schedules the final message. */
    method Fire(t: Timer) returns (next: Option<Timer>)
      modifies this
      ensures (QuestionState(), next) == Fired(old(QuestionState()), t)
      ensures currentLineIndex == old(currentLineIndex) && showQuestion == old(showQuestion)
      ensures NoButtonState() == old(NoButtonState())
    {
      match t
      case FinalMessage =>
        showFinalMessage := true;
        next := None;
      case NoRedirect =>
        keyboardNo := false;
        var scheduled := YesClick();
        next := Some(scheduled);
    }
  }
}
