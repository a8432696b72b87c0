/**
 * The apartment room of src/rooms/Room2Apartment.jsx: a seven-dial window lock
 * spelling ILLANDO, and the Nash photos whose seven real copies unlock the mirror.
 * Every `Math.random` draw is a parameter constrained only by its range.
 */
module Apartment {
  import opened Wrappers

  const Target: seq<char> := ['I', 'L', 'L', 'A', 'N', 'D', 'O']
  const DialCount := 7
  const OptionCount := 5
  const Alphabet := "ABCDEFGHIJKLMNOPQRSTUVWXYZ"

  /** The id of the mirror photo, which needs all seven real photos first. */
  const MirrorId := 8

  /** Occurrences of `c` in `s`. */
  function Count(s: seq<char>, c: char): nat
  {
    if s == [] then 0 else (if s[0] == c then 1 else 0) + Count(s[1..], c)
  }

  /** `Array.prototype.indexOf`: the first index holding `c`, or -1. */
  function IndexOf(s: seq<char>, c: char): (i: int)
    ensures -1 <= i < |s|
    ensures i >= 0 ==> s[i] == c && forall k :: 0 <= k < i ==> s[k] != c
    ensures i == -1 ==> forall k :: 0 <= k < |s| ==> s[k] != c
  {
    if s == [] then -1
    else if s[0] == c then 0
    else var j := IndexOf(s[1..], c); if j == -1 then -1 else j + 1
  }

  /** A position holding the only occurrence of `c` is what `indexOf` finds, and no other position holds `c`. */
  lemma {:induction false} OnlyOccurrence(s: seq<char>, c: char, p: nat)
    requires p < |s| && s[p] == c && Count(s, c) == 1
    ensures IndexOf(s, c) == p
    ensures forall k :: 0 <= k < |s| && k != p ==> s[k] != c
  {
    if p == 0 {
      NoOccurrence(s[1..], c);
    } else {
      CountAtLeastOne(s[1..], p - 1);
      OnlyOccurrence(s[1..], c, p - 1);
    }
  }

  lemma {:induction false} CountAtLeastOne(s: seq<char>, k: nat)
    requires k < |s|
    ensures Count(s, s[k]) >= 1
  {
    if k > 0 {
      CountAtLeastOne(s[1..], k - 1);
    }
  }

  lemma {:induction false} NoOccurrence(s: seq<char>, c: char)
    requires Count(s, c) == 0
    ensures forall k :: 0 <= k < |s| ==> s[k] != c
  {
    if s != [] {
      NoOccurrence(s[1..], c);
    }
  }

  /** The four letters the shuffle of `alphabet.filter(l => l !== correct)` keeps: distinct letters other than `correct`. */
  predicate IsDecoyDraw(correct: char, picked: seq<char>) {
    |picked| == OptionCount - 1
    && (forall k :: 0 <= k < |picked| ==> picked[k] in Alphabet && picked[k] != correct)
    && (forall j, k :: 0 <= j < k < |picked| ==> picked[j] != picked[k])
  }

  /**
   * `generateDialOptions(correct)`: the correct letter and the four drawn
   * letters, shuffled; the shuffle puts the correct letter at `at`.
   */
  function DialOptions(correct: char, picked: seq<char>, at: nat): (r: seq<char>)
    requires IsDecoyDraw(correct, picked) && at < OptionCount
    ensures |r| == OptionCount && r[at] == correct
    ensures Count(r, correct) == 1
    ensures forall k :: 0 <= k < |r| && k != at ==> r[k] in picked
  {
    InsertedOnce(correct, picked, at);
    picked[..at] + [correct] + picked[at..]
  }

  lemma InsertedOnce(correct: char, picked: seq<char>, at: nat)
    requires IsDecoyDraw(correct, picked) && at < OptionCount
    ensures Count(picked[..at] + [correct] + picked[at..], correct) == 1
    ensures forall k :: 0 <= k < OptionCount && k != at ==> (picked[..at] + [correct] + picked[at..])[k] in picked
  {
    var r := picked[..at] + [correct] + picked[at..];
    CountAbsent(picked[..at], correct);
    CountAbsent(picked[at..], correct);
    assert r == picked[..at] + ([correct] + picked[at..]);
    CountConcat(picked[..at], [correct] + picked[at..], correct);
    CountConcat([correct], picked[at..], correct);
    forall k | 0 <= k < OptionCount && k != at ensures r[k] in picked {
      if k < at {
        assert r[k] == picked[k];
      } else {
        assert r[k] == picked[k - 1];
      }
    }
  }

  lemma {:induction false} CountAbsent(s: seq<char>, c: char)
    requires forall k :: 0 <= k < |s| ==> s[k] != c
    ensures Count(s, c) == 0
  {
    if s != [] {
      CountAbsent(s[1..], c);
    }
  }

  lemma {:induction false} CountConcat(s: seq<char>, t: seq<char>, c: char)
    ensures Count(s + t, c) == Count(s, c) + Count(t, c)
  {
    if s == [] {
      assert s + t == t;
    } else {
      assert (s + t)[1..] == s[1..] + t;
      CountConcat(s[1..], t, c);
    }
  }

  /** `DIAL_OPTIONS`: five letters per dial, holding that dial's target letter exactly once. */
  predicate WellFormedOptions(options: seq<seq<char>>) {
    |options| == DialCount
    && forall i :: 0 <= i < DialCount ==> |options[i]| == OptionCount && Count(options[i], Target[i]) == 1
  }

  /**
   * `DIAL_OPTIONS = TARGET_WORD.map(generateDialOptions)`: dial `i` gets the
   * letters `picks[i]` with its target letter shuffled to `ats[i]`.
   */
  function AllDialOptions(picks: seq<seq<char>>, ats: seq<nat>): (r: seq<seq<char>>)
    requires |picks| == DialCount && |ats| == DialCount
    requires forall i :: 0 <= i < DialCount ==> IsDecoyDraw(Target[i], picks[i]) && ats[i] < OptionCount
    ensures WellFormedOptions(r)
    ensures forall i :: 0 <= i < DialCount ==> CorrectPosition(r, i) == ats[i]
  {
    var r := seq(DialCount, i requires 0 <= i < DialCount => DialOptions(Target[i], picks[i], ats[i]));
    assert WellFormedOptions(r);
    forall i | 0 <= i < DialCount ensures CorrectPosition(r, i) == ats[i] {
      OnlyOccurrence(r[i], Target[i], ats[i]);
    }
    r
  }

  /** Where the target letter sits on dial `i`. */
  function CorrectPosition(options: seq<seq<char>>, i: nat): (p: nat)
    requires WellFormedOptions(options) && i < DialCount
    ensures p < OptionCount && options[i][p] == Target[i]
  {
    CountPositive(options[i], Target[i]);
    IndexOf(options[i], Target[i])
  }

  lemma {:induction false} CountPositive(s: seq<char>, c: char)
    requires Count(s, c) > 0
    ensures IndexOf(s, c) >= 0
  {
    if s != [] && s[0] != c {
      CountPositive(s[1..], c);
    }
  }

  /**
   * `(v + direction + 5) % 5` with JavaScript's `%`, which keeps the
   * dividend's sign: the result is congruent to `v + direction` modulo 5,
   * strictly between -5 and 5, and negative only for a negative dividend.
   */
  function Rotate(v: int, direction: int): (r: int)
    ensures -5 < r < 5
    ensures (r - (v + direction)) % 5 == 0
    ensures v + direction + 5 >= 0 ==> r >= 0
    ensures v + direction + 5 < 0 ==> r <= 0
  {
    var n := v + direction + 5;
    if n >= 0 then n % 5 else -((-n) % 5)
  }

  /** A rotation by one step keeps a dial on 0..4, and a step up undoes a step down. */
  lemma RotateStaysOnDial(v: int, direction: int)
    requires 0 <= v < OptionCount && (direction == 1 || direction == -1)
    ensures 0 <= Rotate(v, direction) < OptionCount
    ensures Rotate(Rotate(v, direction), -direction) == v
    ensures Rotate(v, direction) == if direction == 1 then (if v == 4 then 0 else v + 1)
                                     else (if v == 0 then 4 else v - 1)
  {
  }

  /**
   * `checkDialSolution`: every dial shows its letter of ILLANDO. With
   * well-formed options the lock opens exactly when every dial sits on the
   * one position of its letter.
   */
  predicate DialSolved(options: seq<seq<char>>, values: seq<int>)
    requires |options| == DialCount
    ensures WellFormedOptions(options) ==>
      (DialSolved(options, values) <==>
        |values| == DialCount && forall i :: 0 <= i < DialCount ==> values[i] == CorrectPosition(options, i))
  {
    DialPositions(options, values);
    |values| == DialCount
    && forall i :: 0 <= i < DialCount ==>
         0 <= values[i] < |options[i]| && options[i][values[i]] == Target[i]
  }

  /** A dial shows its letter exactly when it sits on the one position of that letter. */
  lemma DialPositions(options: seq<seq<char>>, values: seq<int>)
    ensures WellFormedOptions(options) ==>
      forall i :: 0 <= i < DialCount && i < |values| ==>
        ((0 <= values[i] < |options[i]| && options[i][values[i]] == Target[i])
          <==> values[i] == CorrectPosition(options, i))
  {
    if WellFormedOptions(options) {
      forall i | 0 <= i < DialCount && i < |values|
        ensures (0 <= values[i] < |options[i]| && options[i][values[i]] == Target[i])
            <==> values[i] == CorrectPosition(options, i)
      {
        OnlyOccurrence(options[i], Target[i], CorrectPosition(options, i));
      }
    }
  }

  /**
   * The do-while of `generateInitialDialValues` for one dial: draw
   * `Math.floor(Math.random() * 5)` until it differs from the correct position.
   * `draws` are those draws; the loop ends because one of them differs.
   */
  method PickInitialPosition(correct: nat, draws: seq<nat>) returns (pos: nat)
    requires forall k :: 0 <= k < |draws| ==> draws[k] < OptionCount
    requires exists k :: 0 <= k < |draws| && draws[k] != correct
    ensures pos < OptionCount && pos != correct
    ensures exists k :: 0 <= k < |draws| && pos == draws[k] && (forall j :: 0 <= j < k ==> draws[j] == correct)
  {
    ghost var w :| 0 <= w < |draws| && draws[w] != correct;
    var i := 0;
    pos := draws[0];
    while pos == correct
      invariant 0 <= i <= w && pos == draws[i]
      invariant forall j :: 0 <= j < i ==> draws[j] == correct
      decreases w - i
    {
      i := i + 1;
      pos := draws[i];
    }
    assert pos == draws[i] && forall j :: 0 <= j < i ==> draws[j] == correct;
  }

  /**
   * The `Math.floor(Math.random() * 5)` draws of every dial, each on 0..4 and
   * each dial's containing one that is not its correct position (otherwise its
   * do-while would not end).
   */
  predicate UsableDraws(options: seq<seq<char>>, draws: seq<seq<nat>>)
    requires WellFormedOptions(options)
  {
    |draws| == DialCount
    && forall i :: 0 <= i < DialCount ==>
      (forall k :: 0 <= k < |draws[i]| ==> draws[i][k] < OptionCount)
      && (exists k :: 0 <= k < |draws[i]| && draws[i][k] != CorrectPosition(options, i))
  }

  /** `generateInitialDialValues`: one position per dial, never that dial's correct one. */
  method InitialDialValues(options: seq<seq<char>>, draws: seq<seq<nat>>) returns (values: seq<int>)
    requires WellFormedOptions(options)
    requires UsableDraws(options, draws)
    ensures |values| == DialCount
    ensures forall i :: 0 <= i < DialCount ==>
      0 <= values[i] < OptionCount && values[i] != CorrectPosition(options, i)
    ensures !DialSolved(options, values)
  {
    values := [];
    var i := 0;
    while i < DialCount
      invariant 0 <= i <= DialCount && |values| == i
      invariant forall j :: 0 <= j < i ==>
        0 <= values[j] < OptionCount && values[j] != CorrectPosition(options, j)
    {
      var pos := PickInitialPosition(CorrectPosition(options, i), draws[i]);
      values := values + [pos];
      i := i + 1;
    }
    assert values[0] != CorrectPosition(options, 0);
  }

  /** The ids of the seven real photos; the mirror (8) is excluded. */
  predicate IsRealPhoto(id: int) {
    1 <= id <= 7
  }

  /**
   * `realPhotosFound`: how many found ids are real photos, at most seven, and
   * seven exactly when every real photo has been found.
   */
  function RealPhotosFound(found: set<int>): (r: nat)
    ensures r <= 7
    ensures r == 7 <==> forall id :: IsRealPhoto(id) ==> id in found
  {
    RealPhotoCount(found);
    |set id | id in found && IsRealPhoto(id)|
  }

  /** `mirrorUnlocked`. */
  predicate MirrorUnlocked(found: set<int>) {
    RealPhotosFound(found) >= 7
  }

  /** How many of `ids` have been found. */
  function CountFound(ids: seq<int>, found: set<int>): nat
  {
    if ids == [] then 0 else (if ids[0] in found then 1 else 0) + CountFound(ids[1..], found)
  }

  /** Counting a list of distinct ids counts the found set restricted to them. */
  lemma {:induction false} CountFoundIsCardinality(ids: seq<int>, found: set<int>)
    requires forall j, k :: 0 <= j < k < |ids| ==> ids[j] != ids[k]
    ensures CountFound(ids, found) == |set id | id in found && id in ids|
  {
    if ids != [] {
      CountFoundIsCardinality(ids[1..], found);
      var rest := set id | id in found && id in ids[1..];
      var all := set id | id in found && id in ids;
      assert ids[0] !in ids[1..];
      if ids[0] in found {
        assert all == rest + {ids[0]};
      } else {
        assert all == rest;
      }
    }
  }

  /** The count never exceeds the list, and reaches it exactly when every listed id is found. */
  lemma {:induction false} CountFoundFull(ids: seq<int>, found: set<int>)
    ensures CountFound(ids, found) <= |ids|
    ensures CountFound(ids, found) == |ids| <==> forall k :: 0 <= k < |ids| ==> ids[k] in found
  {
    if ids != [] {
      CountFoundFull(ids[1..], found);
      assert forall k :: 1 <= k < |ids| ==> ids[k] == ids[1..][k - 1];
    }
  }

  /** The list 1..7 holds exactly the real photo ids, each at index id - 1. */
  lemma RealPhotoIds(ids: seq<int>)
    requires ids == [1, 2, 3, 4, 5, 6, 7]
    ensures forall j, k :: 0 <= j < k < |ids| ==> ids[j] != ids[k]
    ensures forall id :: id in ids <==> IsRealPhoto(id)
    ensures forall id :: IsRealPhoto(id) ==> ids[id - 1] == id
  {
  }

  /** At most seven found ids are real photos, and seven exactly when all of them are found. */
  lemma RealPhotoCount(found: set<int>)
    ensures |set id | id in found && IsRealPhoto(id)| <= 7
    ensures |set id | id in found && IsRealPhoto(id)| == 7 <==> forall id :: IsRealPhoto(id) ==> id in found
  {
    var ids := [1, 2, 3, 4, 5, 6, 7];
    RealPhotoIds(ids);
    CountFoundIsCardinality(ids, found);
    CountFoundFull(ids, found);
    assert (set id | id in found && id in ids) == (set id | id in found && IsRealPhoto(id));
  }

  /**
   * `handleNashClick` on the found set: a click on the locked mirror does
   * nothing (`None`); any other click adds the id and reports whether it is new.
   */
  function NashClick(found: set<int>, id: int): (r: (set<int>, Option<bool>))
    ensures r.1.None? <==> id == MirrorId && !MirrorUnlocked(found)
    ensures r.1.None? ==> r.0 == found
    ensures r.1.Some? ==> r.0 == found + {id} && (r.1.value <==> id !in found)
  {
    if id == MirrorId && !MirrorUnlocked(found) then (found, None)
    else (found + {id}, Some(id !in found))
  }

  /** Clicking a photo again changes nothing and no longer reports it as new. */
  lemma NashClickIdempotent(found: set<int>, id: int)
    requires NashClick(found, id).1.Some?
    ensures var after := NashClick(found, id).0;
      NashClick(after, id) == (after, Some(false))
  {
    var after := NashClick(found, id).0;
  }

  /** The mirror can only be found after all seven real photos. */
  lemma MirrorNeedsAllSeven(found: set<int>)
    requires NashClick(found, MirrorId).1.Some?
    ensures forall id :: IsRealPhoto(id) ==> id in found
  {
  }

  class ApartmentRoom {
    /** `DIAL_OPTIONS`, fixed for the session. */
    const options: seq<seq<char>>
    var dialValues: seq<int>
    var foundNashes: set<int>
    var showWrongAnswer: bool
    /** The two-second timeouts a wrong Unlock has scheduled and that have not fired yet. */
    var wrongAnswerTimers: nat

    /**
     * The dials stay on the wheel, and the wrong-answer message is never on
     * screen without a pending timeout that will take it down.
     */
    ghost predicate Valid()
      reads this
    {
      WellFormedOptions(options)
      && |dialValues| == DialCount
      && (forall i :: 0 <= i < DialCount ==> 0 <= dialValues[i] < OptionCount)
      && (showWrongAnswer ==> wrongAnswerTimers > 0)
    }

    /** Mounting: the lock starts on positions drawn by `generateInitialDialValues`. */
    constructor (options: seq<seq<char>>, draws: seq<seq<nat>>)
      requires WellFormedOptions(options)
      requires UsableDraws(options, draws)
      ensures Valid() && this.options == options && foundNashes == {} && !showWrongAnswer
      ensures wrongAnswerTimers == 0
      ensures !DialSolved(options, dialValues)
    {
      this.options := options;
      var values := InitialDialValues(options, draws);
      dialValues := values;
      foundNashes := {};
      showWrongAnswer := false;
      wrongAnswerTimers := 0;
    }

    /** `handleDialRotate`: only the rotated dial moves, by one step, staying on 0..4. */
    method DialRotate(dial: nat, direction: int)
      requires Valid() && dial < DialCount && (direction == 1 || direction == -1)
      modifies this
      ensures Valid()
      ensures dialValues == old(dialValues)[dial := Rotate(old(dialValues)[dial], direction)]
      ensures foundNashes == old(foundNashes) && showWrongAnswer == old(showWrongAnswer)
      ensures wrongAnswerTimers == old(wrongAnswerTimers)
    {
      RotateStaysOnDial(dialValues[dial], direction);
      dialValues := dialValues[dial := Rotate(dialValues[dial], direction)];
    }

    /**
     * The Unlock button: `onComplete` fires (`completed`) exactly when the dials
     * are solved; otherwise the wrong-answer message shows and a timeout to
     * hide it is scheduled.
     */
    method Unlock() returns (completed: bool)
      requires Valid()
      modifies this
      ensures Valid() && dialValues == old(dialValues) && foundNashes == old(foundNashes)
      ensures completed <==> forall i :: 0 <= i < DialCount ==> dialValues[i] == CorrectPosition(options, i)
      ensures showWrongAnswer == (old(showWrongAnswer) || !completed)
      ensures wrongAnswerTimers == if completed then old(wrongAnswerTimers) else old(wrongAnswerTimers) + 1
    {
      completed := DialSolved(options, dialValues);
      if !completed {
        showWrongAnswer := true;
        wrongAnswerTimers := wrongAnswerTimers + 1;
      }
    }

    /**
     * One of the pending two-second timeouts fires and hides the wrong-answer
     * message, even when a later wrong Unlock showed it again.
     */
    method WrongAnswerTimeout()
      requires Valid() && wrongAnswerTimers > 0
      modifies this
      ensures Valid() && !showWrongAnswer && wrongAnswerTimers == old(wrongAnswerTimers) - 1
      ensures dialValues == old(dialValues) && foundNashes == old(foundNashes)
    {
      showWrongAnswer := false;
      wrongAnswerTimers := wrongAnswerTimers - 1;
    }

    /** `handleNashClick` for one of the eight photos; `isNew` is `None` when the locked mirror ignores the click. */
    method ClickNash(id: int) returns (isNew: Option<bool>)
      requires Valid() && 1 <= id <= MirrorId
      modifies this
      ensures Valid() && dialValues == old(dialValues)
      ensures showWrongAnswer == old(showWrongAnswer) && wrongAnswerTimers == old(wrongAnswerTimers)
      ensures (foundNashes, isNew) == NashClick(old(foundNashes), id)
    {
      if id == MirrorId && !MirrorUnlocked(foundNashes) {
        return None;
      }
      isNew := Some(id !in foundNashes);
      foundNashes := foundNashes + {id};
    }
  }
}
