# The Great Escape — a verified model of the game core

"The Great Escape" is a React escape-room game of seven rooms. This project
models the logic behind it in Dafny and proves what that logic promises. The
model covers:

- **Answer checking** (`src/utils/solutions.js`), in modules `Solutions` and `Base64`.
  - `validate(room, answer)` lower-cases the typed answer and deletes every whitespace character, `-`, `/` and `.`. Whitespace is JavaScript's `\s`: the ASCII spaces and controls, U+00A0, U+1680, U+2000–U+200A, U+2028, U+2029, U+202F, U+205F, U+3000 and U+FEFF.
  - It then compares the result with a table of base64-encoded solutions.
  - `btoa` is modelled concretely as the standard base64 encoding over Latin-1 characters (section 4 of RFC 4648), with a decoder and a round-trip proof, which makes it injective.
- **Game progress** (`src/hooks/useRoom.js`), in module `GameProgress`.
  - `RoomStore` is a class holding the persisted `gameState`.
  - Each command replaces it with a pure update function of the previous state.
  - The invariant `totalHintsUsed == Σ rooms[i].hintsUsed` is kept by every command.
- **Shared widgets**:
  - the typewriter hook (`Typewriter`);
  - the progressive hint button (`Hints`);
  - the validating text input (`Input`);
  - the runaway "no" button (`Runaway`).
- **Room 2, the apartment** (`Apartment`):
  - the seven-dial window lock: option generation, the random initial positions chosen by a retry loop, rotation and the unlock check;
  - the Nash-photo hunt, whose mirror photo unlocks after all seven real photos are found.
- **Room 3, the restaurant** (`Restaurant`):
  - three sub-puzzles unlock letter groups;
  - the letters become tiles that are swapped and slotted;
  - the slotted tiles, sorted by slot, form the answer passed to `validate(3, ·)`.
- **Room 6, the finale** (`Finale`):
  - the intro lines advance one by one;
  - the NO button flees, counts hover attempts, changes its text by thresholds and finally shrinks away;
  - YES and NO both end with confetti and the final message.

Each source object that updates its fields in place is a `class`: the store, the hook, the widgets and the room components. Every method is specified by a pure function of the old state, and lemmas state the properties of those functions. Timers are explicit events: a typewriter `Tick`, `AdvanceIntro` for the intro-line timeout, `Fire` for the finale's timeouts, and `WrongAnswerTimeout`, `ShakeTimeout` and `SubmitTimeout` for the feedback timeouts of rooms 2 and 3, whose pending counts the rooms keep. Draws from `Math.random` are parameters.

Two points where the game's design notes and its code disagree; the model follows the code:

- **`useHint` does not cap hints.** The design says `hintsUsed` is capped at 3, but `useHint` increments it without limit (`GameProgress.HintsUncapped`). Only the hint button stops at three.
- **Out-of-range ids are not always silent no-ops.** The design says they are.
  - `completeRoom` on an id that has no entry adds `{completed: true}` for that id.
  - `useHint`, `recordAttempt` and `findNash` read a field of `prev.rooms[roomId]`, which throws for a missing entry. These are modelled with a `requires id in rooms`.

The room-2 dial spells ILLANDO, while `SOLUTIONS[2]` stores the encoding of `ilando`. Room 2 never calls `validate(2, ·)`, so this is no defect of the lock. It does mean that typing the dial word would not pass `validate(2, ·)`.

## Model

| member | source | states |
|---|---|---|
| Solutions.LowerChar | src/utils/solutions.js:17 | lower-casing one character maps `A`–`Z` to `a`–`z`, leaves no upper-case ASCII letter, never turns a separator into a non-separator or back, keeps Latin-1 characters Latin-1, and yields a Latin-1 character from a wider one only for U+0178, U+1E9E, U+212A and U+212B |
| Solutions.Lower | src/utils/solutions.js:17 | `toLowerCase` keeps the length and lowers character by character |
| Solutions.Strip | src/utils/solutions.js:4 | the regex replace leaves no character of the removed class and never lengthens the string |
| Solutions.NormalizeIsLowerThenReplace | src/utils/solutions.js:17 | the normal form is exactly lower-casing followed by deleting every `\s`, `-`, `/` and `.` |
| Solutions.Normalize | src/utils/solutions.js:17 | the normal form holds no whitespace, `-`, `/` or `.` and nothing left to lower-case, is no longer than the answer, and is Latin-1 whenever the answer is |
| Solutions.NormalizeKeepsNormal | src/utils/solutions.js:17 | normalising a string that is already normal changes nothing |
| Solutions.NormalizeIdempotent | src/utils/solutions.js:17 | normalisation is idempotent |
| Solutions.NormalizeBlank | src/utils/solutions.js:17 | an answer made only of whitespace and separators normalises to the empty string |
| Solutions.NormalizeConcat | src/utils/solutions.js:17 | normalisation distributes over concatenation |
| Solutions.NormalizeCountsO | src/utils/solutions.js:17 | every `o` in the normal form comes from an `O` or `o` of the answer |
| Solutions.LatinPreserved | src/utils/solutions.js:2-5 | the string `hash` hands to `btoa` is Latin-1 whenever its input is, so `btoa` does not throw |
| Solutions.StripKeepsLatin | src/utils/solutions.js:4 | deleting characters keeps a Latin-1 string Latin-1 |
| Solutions.HashOfNormal | src/utils/solutions.js:2-5 | on a normal Latin-1 string, `hash`'s own lower-casing and whitespace removal change nothing, so it is just the encoding |
| Solutions.Hash | src/utils/solutions.js:2-5 | `hash` is defined exactly when the lower-cased, whitespace-free text is Latin-1 (`btoa` throws otherwise), and decoding the hash gives that text back |
| Solutions.PlainIsNormal | src/utils/solutions.js:7-13 | each typed room's plain answer is normal and Latin-1, and `SOLUTIONS[room]` is its encoding |
| Solutions.PlainAnswer | src/utils/solutions.js:8-13 | rooms 0, 1, 2, 3 and 5, and only they, have a typed plain answer, each already normal and Latin-1 |
| Solutions.Stored | src/utils/solutions.js:7-14 | `SOLUTIONS` has an entry exactly for rooms 0–5, and for every room with a plain answer the entry decodes to that answer |
| Solutions.StoredFromPlain | src/utils/solutions.js:7-13 | an entry built by `hash` from a plain answer is that answer's `btoa` encoding |
| Solutions.EncodedRoom0 | src/utils/solutions.js:8 | `btoa('10052024')` is `MTAwNTIwMjQ=` |
| Solutions.StoredRoom0 | src/utils/solutions.js:8 | `SOLUTIONS[0]` is `MTAwNTIwMjQ=` |
| Solutions.EncodedRoom1 | src/utils/solutions.js:9 | `btoa('ristora')` is `cmlzdG9yYQ==` |
| Solutions.StoredRoom1 | src/utils/solutions.js:9 | `SOLUTIONS[1]` is `cmlzdG9yYQ==` |
| Solutions.EncodedRoom2 | src/utils/solutions.js:10 | `btoa('ilando')` is `aWxhbmRv` |
| Solutions.StoredRoom2 | src/utils/solutions.js:10 | `SOLUTIONS[2]` is `aWxhbmRv` |
| Solutions.EncodedRoom3 | src/utils/solutions.js:11 | `btoa('octoberfifth')` is `b2N0b2JlcmZpZnRo` |
| Solutions.StoredRoom3 | src/utils/solutions.js:11 | `SOLUTIONS[3]` is `b2N0b2JlcmZpZnRo` |
| Solutions.EncodedRoom5 | src/utils/solutions.js:13 | `btoa('02142025')` is `MDIxNDIwMjU=` |
| Solutions.StoredRoom5 | src/utils/solutions.js:13 | `SOLUTIONS[5]` is `MDIxNDIwMjU=` |
| Solutions.StoredTable | src/utils/solutions.js:7-14 | the whole table: five encoded answers, the raw selection id of room 4, and no entry for any other room |
| Solutions.StoredNeverEmpty | src/utils/solutions.js:7-14 | no entry of the table is the empty string |
| Solutions.StoredHasUpperCase | src/utils/solutions.js:7-14 | every encoded entry holds an upper-case letter, so the raw `SOLUTIONS[room] === normalized` branch can never fire for it |
| Solutions.Matches | src/utils/solutions.js:18-20 | the comparison holds iff there is an entry and it is the encoding of the normal form or the normal form itself |
| Solutions.MatchesEncoded | src/utils/solutions.js:16-21 | against the encoding of a normal plain answer, the comparison holds iff the normal form equals that plain answer |
| Solutions.Validate | src/utils/solutions.js:16-21 | for a normal form `btoa` accepts, rooms 0, 1, 2, 3 and 5 accept exactly the answers whose normal form is the plain answer, and every other room, 4 included, rejects every answer |
| Solutions.EncodedEntryIff | src/utils/solutions.js:16-21 | against a room's encoded entry the comparison holds exactly for the answers whose normal form is the plain answer: no prefix, extension or other text |
| Solutions.SameNormalFormSameVerdict | src/utils/solutions.js:16-21 | `validate` depends on the answer only through its normal form |
| Solutions.SeparatorIgnored | src/utils/solutions.js:17 | inserting or deleting one whitespace character, `-`, `/` or `.` anywhere changes neither the normal form nor the verdict |
| Solutions.CaseIgnored | src/utils/solutions.js:17 | replacing any one character by its lower case anywhere changes neither the normal form nor the verdict |
| Solutions.MatchesNoHyphenated | src/utils/solutions.js:12-19 | an entry that holds a `-` matches no answer: neither the encoding nor a normal form contains `-` |
| Solutions.NoEncodedEntryRejects | src/utils/solutions.js:12-21 | room 4's hyphenated id and a missing entry match no answer |
| Solutions.BlankRejected | src/utils/solutions.js:16-21 | empty and whitespace- or separator-only answers normalise to the empty string and are rejected in every room |
| Solutions.PaddedNormalize | src/utils/solutions.js:17 | padding a separator-free word with separators on both sides normalises to the lower-cased word |
| Solutions.PaddedSpellingAccepted | src/utils/solutions.js:16-21 | any capitalisation of a plain solution, padded with whitespace or separators, normalises to the plain solution and is accepted |
| Solutions.UnpaddedNormalize | src/utils/solutions.js:17 | a separator-free word normalises to its lower-cased form |
| Solutions.NormalizeSeparatorsRight | src/utils/solutions.js:17 | trailing separators do not change the normal form |
| Solutions.NormalizeNormalRight | src/utils/solutions.js:17 | appending a normal string appends it to the normal form |
| Solutions.SeparatedNormalize | src/utils/solutions.js:17 | three normal parts joined and padded by separators normalise to their concatenation |
| Solutions.Room0DateFormatsAccepted | src/utils/solutions.js:16-21 | `10052024`, `10/05/2024`, `10.05.2024`, `10-05-2024`, `10 05 2024`, `10-05/2024` and every other separator mix are accepted for room 0 |
| Solutions.OtherSpellingRejected | src/utils/solutions.js:16-21 | a separator-free answer whose lower-case form is not the plain solution is rejected, special characters included |
| Solutions.Room1PrefixAndExtensionRejected | src/utils/solutions.js:16-21 | `RIST` (a prefix) and `RISTORAX` (an extension) can be checked without a throw, and room 1 rejects both |
| Solutions.Room0WrongAnswersRejected | src/utils/solutions.js:16-21 | `WRONG` and the wrong date `12252024` can be checked without a throw, and room 0 rejects both |
| Solutions.WrongRoom0Spelling | src/utils/solutions.js:8 | `WRONG` and `12252024` are separator-free and do not lower-case to `10052024` |
| Solutions.Room1SpellingsAccepted | src/utils/solutions.js:16-21 | `RISTORA`, `ristora` and `RiStOrA`, bare or padded with spaces, normalise to `ristora` and are accepted for room 1 |
| Solutions.RistoraSpelling | src/utils/solutions.js:9 | those three spellings lower-case to `ristora` |
| Solutions.Room3PlainTwoOs | src/utils/solutions.js:11 | the plain room-3 answer contains at least two `o` |
| Solutions.Room3NeedsTwoOs | src/utils/solutions.js:11-21 | an answer with at most one `O` or `o` can never pass room 3 as written |
| Solutions.ValidateCorrected | src/utils/solutions.js:7-14 | the corrected table accepts exactly what the written one does in every room but 3 |
| Solutions.EncodedCorrectedStartsUpper | src/rooms/Room3Restaurant.jsx:8-9 | the encoding of `februaryeighth` starts with the upper-case `Z`, so the raw comparison branch cannot fire for the corrected entry either |
| Solutions.CorrectedRoom3Iff | src/utils/solutions.js:11 | with the corrected entry, room 3 accepts exactly the answers whose normal form is `februaryeighth` |
| Base64.Encode | src/utils/solutions.js:4 | `btoa` output has length 4·⌈n/3⌉ |
| Base64.EncodeAlphabet | src/utils/solutions.js:4 | `btoa` outputs only `A`–`Z`, `a`–`z`, `0`–`9`, `+`, `/` and `=` |
| Base64.SextetRoundTrip | src/utils/solutions.js:4 | each 6-bit value maps to an alphabet character (never `=`) that maps back to it |
| Base64.GroupRoundTrip | src/utils/solutions.js:4 | decoding inverts the encoding of a full three-character group |
| Base64.OneRoundTrip | src/utils/solutions.js:4 | decoding inverts the `==`-padded final group |
| Base64.TwoRoundTrip | src/utils/solutions.js:4 | decoding inverts the `=`-padded final group |
| Base64.DecodeEncode | src/utils/solutions.js:4 | decoding inverts `btoa` on every Latin-1 string |
| Base64.EncodeInjective | src/utils/solutions.js:4 | two Latin-1 strings have the same `btoa` iff they are equal |
| GameProgress.NextRoomUpdate | src/hooks/useRoom.js:26-32 | `nextRoom` sets the room to min(room + 1, 6), keeps a truthy start time or sets it to now, and keeps every other field |
| GameProgress.CompleteRoomUpdate | src/hooks/useRoom.js:34-43 | `completeRoom` marks that room completed (adding an entry when missing), keeps every other room and field, and sets the end time iff the id is 6 |
| GameProgress.UseHintUpdate | src/hooks/useRoom.js:45-57 | `useHint` raises that room's and the total hint count by exactly one and changes nothing else |
| GameProgress.RecordAttemptUpdate | src/hooks/useRoom.js:59-70 | `recordAttempt` raises only that room's attempt count, by one |
| GameProgress.FindNashUpdate | src/hooks/useRoom.js:72-83 | `findNash` appends the id to that room's found list (missing counts as empty) and changes nothing else |
| GameProgress.SumHintsRemove | src/hooks/useRoom.js:48 | the room hint sum splits off any one room |
| GameProgress.SumHintsUpdate | src/hooks/useRoom.js:48-55 | replacing one room entry changes the hint sum by the difference of its hint counts |
| GameProgress.SumHints | src/hooks/useRoom.js:45-57 | the hint sum over the rooms is at least each room's count, and zero when no room has used a hint |
| GameProgress.Valid | src/hooks/useRoom.js:4-18 | in a valid state the total hint count is at least each room's own count |
| GameProgress.InitialValid | src/hooks/useRoom.js:4-18 | the initial state satisfies the invariant: room in 0..6 and total hints equal to the sum over rooms |
| GameProgress.NextRoomValid | src/hooks/useRoom.js:26-32 | `nextRoom` keeps the invariant |
| GameProgress.CompleteRoomValid | src/hooks/useRoom.js:34-43 | `completeRoom` keeps the invariant |
| GameProgress.UseHintValid | src/hooks/useRoom.js:45-57 | `useHint` keeps the invariant |
| GameProgress.RecordAttemptValid | src/hooks/useRoom.js:59-70 | `recordAttempt` keeps the invariant |
| GameProgress.FindNashValid | src/hooks/useRoom.js:72-83 | `findNash` keeps the invariant |
| GameProgress.NextRoomSaturates | src/hooks/useRoom.js:29 | k calls of `nextRoom` reach room min(room + k, 6) and never touch the rooms |
| GameProgress.StartTimeKept | src/hooks/useRoom.js:30 | once the start time is set, `nextRoom` never changes it |
| GameProgress.CompleteRoomIdempotent | src/hooks/useRoom.js:34-43 | completing a room twice with the same timestamp equals completing it once |
| GameProgress.UseHintTimes | src/hooks/useRoom.js:45-57 | repeated `useHint` keeps the set of rooms |
| GameProgress.HintsUncapped | src/hooks/useRoom.js:45-57 | k calls of `useHint` raise both counts by exactly k, with no cap at 3 |
| GameProgress.FindNashKeepsDuplicates | src/hooks/useRoom.js:79 | finding the same Nash twice grows the list by two and keeps both copies |
| GameProgress.CompletedNeverReverts | src/hooks/useRoom.js:26-83 | no command un-completes a completed room |
| GameProgress.RoomStore.constructor | src/hooks/useRoom.js:4-24 | the store starts at the initial state |
| GameProgress.RoomStore.NextRoom | src/hooks/useRoom.js:26-32 | the new state is `NextRoomUpdate` of the old, and the invariant holds |
| GameProgress.RoomStore.CompleteRoom | src/hooks/useRoom.js:34-43 | the new state is `CompleteRoomUpdate` of the old, and the invariant holds |
| GameProgress.RoomStore.UseHint | src/hooks/useRoom.js:45-57 | the new state is `UseHintUpdate` of the old, and the invariant holds |
| GameProgress.RoomStore.RecordAttempt | src/hooks/useRoom.js:59-70 | the new state is `RecordAttemptUpdate` of the old, and the invariant holds |
| GameProgress.RoomStore.FindNash | src/hooks/useRoom.js:72-83 | the new state is `FindNashUpdate` of the old, and the invariant holds |
| GameProgress.RoomStore.ResetGame | src/hooks/useRoom.js:85-87 | reset restores the initial state |
| Typewriter.Typed | src/hooks/useTypewriter.js:14-22 | after k ticks the shown text is a prefix of the text of length min(k, length), and completion holds exactly once k passes the length |
| Typewriter.TickStep | src/hooks/useTypewriter.js:15-21 | each tick before the end adds exactly the next character; the tick after the last one only sets completion |
| Typewriter.CompleteExactlyAfterLastCharacter | src/hooks/useTypewriter.js:15-21 | `isComplete` holds exactly from tick length + 1, not on the tick that shows the full text |
| Typewriter.TypewriterHook.constructor | src/hooks/useTypewriter.js:4-5 | starts with empty text, not complete and with no interval |
| Typewriter.TypewriterHook.Effect | src/hooks/useTypewriter.js:7-25 | falsy text starts no interval and keeps what is shown; other text clears the old interval, resets the shown text, completion and index, and starts typing |
| Typewriter.TypewriterHook.Tick | src/hooks/useTypewriter.js:14-22 | after each tick the shown state is the k-tick state, and the interval stops itself exactly after the completing tick |
| Typewriter.TypewriterHook.Unmount | src/hooks/useTypewriter.js:24 | cleanup stops the interval and changes nothing shown |
| Hints.Revealed | src/components/HintButton.jsx:51-57 | the shown hints are the first `hintLevel` hints, in order, or all of them when fewer |
| Hints.RevealedGrows | src/components/HintButton.jsx:51-57 | nothing is shown at level 0, and a higher level shows a longer prefix |
| Hints.Clicks | src/components/HintButton.jsx:21-27 | k clicks from a level below 3 end at min(level + k, 3) and report each level in between exactly once, in order; a disabled button reports nothing and stays |
| Hints.Label | src/components/HintButton.jsx:48 | the label is "No more hints" exactly when disabled, and otherwise "Hint (n/3 used)" with the level as the digit n |
| Hints.ThreeClicksExhaust | src/components/HintButton.jsx:21-48 | three or more clicks from 0 report levels 1, 2 and 3 and leave the button disabled, labelled "No more hints" |
| Hints.HintButton.constructor | src/components/HintButton.jsx:19 | the level starts at 0 |
| Hints.HintButton.Click | src/components/HintButton.jsx:21-27 | a click at level 3 does nothing; otherwise the level rises by one and the callback, if given, gets the room and the new level once; the level stays in 0..3 |
| Input.StatusClasses | src/components/TextInput.jsx:37-44 | the error class is applied iff the status is error, the success class iff success, never both |
| Input.AfterKey | src/components/TextInput.jsx:24-29 | Enter with a validator leaves a non-idle status, success exactly when the validator accepts the value; any other key, or no validator, leaves the status unchanged |
| Input.ChangeThenEnter | src/components/TextInput.jsx:24-35 | Enter with a validator always leaves a non-idle status that does not depend on the old one; any other key leaves the status unchanged |
| Input.TextInput.constructor | src/components/TextInput.jsx:22 | the status starts idle |
| Input.TextInput.KeyDown | src/components/TextInput.jsx:24-29 | Enter with a validator calls it once with the value and sets success or error from its verdict; anything else calls nothing and changes nothing |
| Input.TextInput.Change | src/components/TextInput.jsx:31-35 | typing resets the status and forwards the value once to `onChange` when given, never to the validator |
| Runaway.TauntIndex | src/components/RunawayButton.jsx:76 | the taunt index is always valid and equals the attempts while they are in range |
| Runaway.Taunt | src/components/RunawayButton.jsx:76 | the taunt is always one of the seven taunts, the one numbered by the attempts while they last, and the last one from then on |
| Runaway.TauntStages | src/components/RunawayButton.jsx:15-23 | the first taunt is "no"; from six attempts on it is always "fine, be that way" |
| Runaway.Speed | src/components/RunawayButton.jsx:55-56 | the transition speed is never below 0.1 s and follows 0.3 − 0.02·attempts until it reaches that floor |
| Runaway.FontSize | src/components/RunawayButton.jsx:58-59 | the font size is never below 8 px and follows 14 − 0.5·attempts until it reaches that floor |
| Runaway.SpeedAndFontNeverGrow | src/components/RunawayButton.jsx:55-59 | more attempts never make the button slower or its text larger |
| Runaway.RunawayButton.constructor | src/components/RunawayButton.jsx:26-27 | no attempts, at the origin |
| Runaway.RunawayButton.MouseEnter | src/components/RunawayButton.jsx:30-49 | without a mounted button and parent nothing changes; otherwise the button moves to the drawn share of the free room and the attempts rise by exactly one |
| Runaway.RunawayButton.Click | src/components/RunawayButton.jsx:51-53 | a click calls `onCatch` once when given and changes no state |
| Apartment.IndexOf | src/rooms/Room2Apartment.jsx:121 | `indexOf` returns the first position of the letter, or −1 when it is absent |
| Apartment.OnlyOccurrence | src/rooms/Room2Apartment.jsx:121 | for a letter that occurs once, `indexOf` finds its only position |
| Apartment.DialOptions | src/rooms/Room2Apartment.jsx:106-112 | each dial offers five letters holding the correct letter exactly once; the other four come from the alphabet without it |
| Apartment.InsertedOnce | src/rooms/Room2Apartment.jsx:106-112 | inserting the correct letter among four decoys leaves exactly one copy, and every other option is a decoy |
| Apartment.AllDialOptions | src/rooms/Room2Apartment.jsx:103-115 | the seven dials for ILLANDO are well formed, with each correct letter where it was inserted |
| Apartment.CorrectPosition | src/rooms/Room2Apartment.jsx:121 | the correct position is an index 0..4 that shows the target letter |
| Apartment.Rotate | src/rooms/Room2Apartment.jsx:227 | with JavaScript's sign-keeping `%`, the new value lies strictly between −5 and 5, is congruent to value + direction modulo 5, and is negative only for a negative dividend |
| Apartment.RotateStaysOnDial | src/rooms/Room2Apartment.jsx:224-230 | a rotation by ±1 stays in 0..4, wraps at both ends, and the opposite rotation undoes it |
| Apartment.DialSolved | src/rooms/Room2Apartment.jsx:232-234 | with well-formed options the lock is solved iff there are seven values and every dial shows its correct position |
| Apartment.DialPositions | src/rooms/Room2Apartment.jsx:233 | a dial shows its target letter iff it sits on the one position holding that letter |
| Apartment.PickInitialPosition | src/rooms/Room2Apartment.jsx:122-127 | the do-while loop returns the first draw that is not the correct position, so it is in 0..4 and never correct |
| Apartment.InitialDialValues | src/rooms/Room2Apartment.jsx:118-129 | every initial dial is in 0..4 and off its correct position, so the starting lock is never solved |
| Apartment.CountFoundIsCardinality | src/rooms/Room2Apartment.jsx:170-173 | counting the found ids of a duplicate-free list equals the size of their intersection |
| Apartment.CountFoundFull | src/rooms/Room2Apartment.jsx:170-176 | the count is at most the list length, and equals it iff every listed id is found |
| Apartment.RealPhotoIds | src/rooms/Room2Apartment.jsx:8-82 | the real photos are ids 1..7, each listed once, and the mirror is not among them |
| Apartment.RealPhotosFound | src/rooms/Room2Apartment.jsx:170-173 | at most seven real photos count, and seven exactly when every real photo has been found, so the mirror unlocks iff all seven are found |
| Apartment.RealPhotoCount | src/rooms/Room2Apartment.jsx:170-173 | the found real-photo set has at most seven ids, and seven exactly when it holds all of them |
| Apartment.NashClick | src/rooms/Room2Apartment.jsx:182-196 | clicking the locked mirror does nothing; any other click adds the id and reports it new iff it was not yet found |
| Apartment.NashClickIdempotent | src/rooms/Room2Apartment.jsx:182-196 | clicking the same photo again changes nothing and reports it as not new |
| Apartment.MirrorNeedsAllSeven | src/rooms/Room2Apartment.jsx:176-186 | a mirror click can only take effect once all seven real photos are found |
| Apartment.ApartmentRoom.constructor | src/rooms/Room2Apartment.jsx:149-158 | the room starts with no photos found, a lock that is not solved, no wrong-answer message and no pending timeout |
| Apartment.ApartmentRoom.DialRotate | src/rooms/Room2Apartment.jsx:224-230 | only the rotated dial changes, by one step with wrap-around |
| Apartment.ApartmentRoom.Unlock | src/rooms/Room2Apartment.jsx:420-427 | completion is reported iff every dial shows its correct letter; otherwise the wrong-answer message shows and one more two-second timeout is pending |
| Apartment.ApartmentRoom.WrongAnswerTimeout | src/rooms/Room2Apartment.jsx:425 | a pending timeout fires: the wrong-answer message hides, one fewer timeout is pending, and the dials and photos stay |
| Apartment.ApartmentRoom.ClickNash | src/rooms/Room2Apartment.jsx:182-196 | the found set and the reported novelty are those of `NashClick` |
| Restaurant.AllUnlockedLetters | src/rooms/Room3Restaurant.jsx:65-74 | with all three groups unlocked the table holds FEBRUARYEIGHTH followed by the decoys O, C, N |
| Restaurant.TableLetters | src/rooms/Room3Restaurant.jsx:65-74 | no group unlocked gives an empty table; before all three are unlocked there are fewer letters than the fourteen slots; with all three there are fourteen letters and the three decoys |
| Restaurant.BuildTiles | src/rooms/Room3Restaurant.jsx:76-80 | one tile per table letter, in order, none in a slot |
| Restaurant.LettersOf | src/rooms/Room3Restaurant.jsx:133 | the letters of the tiles, in order |
| Restaurant.Find | src/rooms/Room3Restaurant.jsx:91-92 | a tile is found by id iff its index exists and holds that letter |
| Restaurant.FindInSlot | src/rooms/Room3Restaurant.jsx:106-111 | the slot search finds a tile in that slot, or reports that none is there |
| Restaurant.SwapSlots | src/rooms/Room3Restaurant.jsx:93-97 | swapping exchanges the two tiles' slots and changes nothing else, letters included |
| Restaurant.SwapKeepsDistinct | src/rooms/Room3Restaurant.jsx:93-97 | a swap keeps every slot held by at most one tile |
| Restaurant.SwapTwiceRestores | src/rooms/Room3Restaurant.jsx:93-97 | swapping twice restores the tiles |
| Restaurant.TileClickUpdate | src/rooms/Room3Restaurant.jsx:83-102 | with nothing selected a click selects; clicking the selected tile deselects; another tile swaps slots with it and clears the selection; letters never change |
| Restaurant.TileClickKeepsDistinct | src/rooms/Room3Restaurant.jsx:83-102 | tile clicks keep every slot held by at most one tile |
| Restaurant.PlaceKeepsDistinct | src/rooms/Room3Restaurant.jsx:120-124 | placing a tile in an empty slot keeps slots distinct |
| Restaurant.SlotClickUpdate | src/rooms/Room3Restaurant.jsx:104-127 | with nothing selected a slot click does nothing; otherwise the selection clears |
| Restaurant.SlotClickMoves | src/rooms/Room3Restaurant.jsx:104-127 | the selected tile takes the slot, a previous occupant takes its old slot, and every other tile and every letter stay |
| Restaurant.SlotClickKeepsDistinct | src/rooms/Room3Restaurant.jsx:104-127 | slot clicks keep every slot held by at most one tile |
| Restaurant.Slotted | src/rooms/Room3Restaurant.jsx:131 | the filter keeps only tiles that are in a slot |
| Restaurant.SlottedSubset | src/rooms/Room3Restaurant.jsx:130-131 | the filtered tiles are drawn from the table |
| Restaurant.SlottedAllPlaced | src/rooms/Room3Restaurant.jsx:131 | when every tile is slotted the filter keeps them all |
| Restaurant.SlottedNonePlaced | src/rooms/Room3Restaurant.jsx:131 | when no tile is slotted the filter keeps none |
| Restaurant.SlottedConcat | src/rooms/Room3Restaurant.jsx:131 | filtering distributes over concatenation |
| Restaurant.InsertBySlot | src/rooms/Room3Restaurant.jsx:132 | inserting a slotted tile adds one slotted element |
| Restaurant.InsertIsPermutation | src/rooms/Room3Restaurant.jsx:132 | insertion adds exactly that tile |
| Restaurant.InsertKeepsSorted | src/rooms/Room3Restaurant.jsx:132 | insertion keeps the sequence sorted by slot |
| Restaurant.SortBySlot | src/rooms/Room3Restaurant.jsx:132 | sorting by slot keeps the length and all tiles slotted |
| Restaurant.SortIsPermutation | src/rooms/Room3Restaurant.jsx:132 | sorting by slot is a permutation |
| Restaurant.SortIsSorted | src/rooms/Room3Restaurant.jsx:132 | sorting by slot yields ascending slots |
| Restaurant.SortedIsKept | src/rooms/Room3Restaurant.jsx:132 | a sequence already in strictly ascending slot order is left as it is |
| Restaurant.AnswerTilesFromTable | src/rooms/Room3Restaurant.jsx:130-133 | the answer is built from tiles on the table, each used at most once |
| Restaurant.AnswerLettersOnTable | src/rooms/Room3Restaurant.jsx:130-133 | every letter of the answer is a table letter |
| Restaurant.CountLetter | src/rooms/Room3Restaurant.jsx:133 | counting a letter over the tiles is its multiplicity among their letters |
| Restaurant.Answer | src/rooms/Room3Restaurant.jsx:130-133 | the answer is no longer than the table and uses each letter no more often than the table holds it |
| Restaurant.SlottedLetters | src/rooms/Room3Restaurant.jsx:130-133 | the sorted slotted tiles are no more than the table's tiles, letter by letter |
| Restaurant.TableFacts | src/rooms/Room3Restaurant.jsx:65-74 | every table is upper-case and holds at most one O |
| Restaurant.AnswerIsLatin1 | src/rooms/Room3Restaurant.jsx:129-135 | the submitted answer is Latin-1, holds at most one `O` and no `o` |
| Restaurant.NoArrangementAccepted | src/rooms/Room3Restaurant.jsx:129-135 | with the table as written, no arrangement of the tiles passes `validate(3, ·)` |
| Restaurant.IntendedArrangement | src/rooms/Room3Restaurant.jsx:9 | a full table with FEBRUARYEIGHTH in slots 0–13 exists |
| Restaurant.IntendedSlotsDistinct | src/rooms/Room3Restaurant.jsx:257-268 | that arrangement puts at most one tile in each slot |
| Restaurant.PrefixInSlotsAnswer | src/rooms/Room3Restaurant.jsx:130-133 | tiles whose first n sit in slots 0..n−1 spell their first n letters |
| Restaurant.SlottedPrefix | src/rooms/Room3Restaurant.jsx:131 | with exactly the first n tiles slotted, the filter keeps those n |
| Restaurant.IntendedAnswer | src/rooms/Room3Restaurant.jsx:130-133 | the intended arrangement submits FEBRUARYEIGHTH |
| Restaurant.IntendedNormalizes | src/rooms/Room3Restaurant.jsx:9 | FEBRUARYEIGHTH is Latin-1 and normalises to `februaryeighth` |
| Restaurant.IntendedArrangementAccepted | src/rooms/Room3Restaurant.jsx:129-135 | with the corrected table the intended arrangement is accepted |
| Restaurant.CheckPuzzleUpdate | src/rooms/Room3Restaurant.jsx:148-176 | each sub-puzzle unlocks its group exactly on `21`, `10` or `4` and never re-locks a group |
| Restaurant.RestaurantRoom.constructor | src/rooms/Room3Restaurant.jsx:35-42 | nothing unlocked, no tiles, nothing selected, no message, no shake and no pending timeout |
| Restaurant.RestaurantRoom.CheckPuzzle | src/rooms/Room3Restaurant.jsx:148-176 | a correct input unlocks the group and rebuilds the tiles from the unlocked groups; a wrong one starts the shake and schedules one more half-second timeout, changing nothing else |
| Restaurant.RestaurantRoom.ShakeTimeout | src/rooms/Room3Restaurant.jsx:153-154 | a pending half-second timeout fires: the shake stops, the message stays, one fewer such timeout is pending |
| Restaurant.RestaurantRoom.TileClick | src/rooms/Room3Restaurant.jsx:83-102 | tiles and selection become `TileClickUpdate` of the old ones |
| Restaurant.RestaurantRoom.SlotClick | src/rooms/Room3Restaurant.jsx:104-127 | tiles and selection become `SlotClickUpdate` of the old ones |
| Restaurant.SubmitVerdict | src/rooms/Room3Restaurant.jsx:129-135 | on any table the answer is Latin-1, and `validate(3, ·)` over the corrected table accepts it iff it normalises to `februaryeighth` |
| Restaurant.RestaurantRoom.Verdict | src/rooms/Room3Restaurant.jsx:129-135 | the submitted answer is Latin-1 and accepted iff it normalises to `februaryeighth` (corrected table); nothing changes |
| Restaurant.RestaurantRoom.Submit | src/rooms/Room3Restaurant.jsx:129-145 | completion is reported iff the answer normalises to `februaryeighth` (corrected table); otherwise the message shows, the tiles shake and one more two-second timeout is pending; tiles and selection stay |
| Restaurant.RestaurantRoom.SubmitTimeout | src/rooms/Room3Restaurant.jsx:140-143 | a pending two-second timeout fires: the message hides and the shake stops, one fewer such timeout is pending |
| Finale.ThresholdsAreSortedKeys | src/rooms/Room6Finale.jsx:14-20 | the thresholds are exactly the keys of the text table, in strictly descending order |
| Finale.Stage | src/rooms/Room6Finale.jsx:68-75 | the stage is the largest threshold not above the attempts |
| Finale.NoButtonText | src/rooms/Room6Finale.jsx:67-77 | the NO text is always one of the table's texts, and at each threshold exactly that threshold's text |
| Finale.GetNoButtonText | src/rooms/Room6Finale.jsx:67-77 | the loop returns the text of the largest threshold not above the attempts |
| Finale.NoButtonTextStages | src/rooms/Room6Finale.jsx:67-77 | "no" below 3, then "please?", "come on...", "I'll buy you Thai food", and from 10 on "Biggie says you have to" |
| Finale.StageTextsDistinct | src/rooms/Room6Finale.jsx:14-20 | different stages show different texts |
| Finale.TextNeverGoesBack | src/rooms/Room6Finale.jsx:67-77 | more attempts never lower the stage, and never show an earlier stage's text again |
| Finale.EscapeSpeed | src/rooms/Room6Finale.jsx:94 | the escape speed is 50 + 15·attempts, capped at 200 |
| Finale.Clamp | src/rooms/Room6Finale.jsx:102-103 | clamping keeps a value within ±bound and leaves values already inside unchanged |
| Finale.Hovered | src/rooms/Room6Finale.jsx:80-111 | at 15 attempts a hover does nothing; below, it counts exactly one attempt even when the refs are missing, and then leaves position and size alone; attempts never pass 15 |
| Finale.HoverShrinks | src/rooms/Room6Finale.jsx:107-110 | the hover that starts at 14 attempts shrinks the button to 0.01, which hides it; earlier hovers keep the size |
| Finale.HoverStaysInside | src/rooms/Room6Finale.jsx:93-105 | after a hover the button lies within the container's bounds |
| Finale.HoveredAllCapped | src/rooms/Room6Finale.jsx:81-83 | any sequence of hovers ends at min(attempts + hovers, 15) attempts |
| Finale.IntroStep | src/rooms/Room6Finale.jsx:52-64 | the index stays on a line and moves by at most one, only once the line is typed out; the question appears only after the last line and never goes away |
| Finale.IntroReachesQuestion | src/rooms/Room6Finale.jsx:52-64 | finishing the remaining lines walks the index to the last line and then shows the question |
| Finale.QuestionStays | src/rooms/Room6Finale.jsx:58-62 | once the question shows, further completions change nothing |
| Finale.YesClicked | src/rooms/Room6Finale.jsx:114-120 | YES shows the confetti and schedules the final message, leaving the other flags alone |
| Finale.NoClicked | src/rooms/Room6Finale.jsx:123-129 | NO shows the easter egg and schedules the redirect, without confetti or final message |
| Finale.Fired | src/rooms/Room6Finale.jsx:117-128 | the final-message timer shows the message and schedules nothing; the redirect hides the easter egg, shows the confetti and schedules the final message; confetti never disappears |
| Finale.NoEndsAsYes | src/rooms/Room6Finale.jsx:113-129 | clicking NO shows the easter egg, then after its timers ends in the same state as YES: confetti and final message, no timer left |
| Finale.FinaleRoom.constructor | src/rooms/Room6Finale.jsx:23-31 | first line, no question, no confetti, NO button at the origin with full size and no attempts |
| Finale.FinaleRoom.AdvanceIntro | src/rooms/Room6Finale.jsx:52-64 | the line index and question flag become `IntroStep` of the old ones; nothing else changes |
| Finale.FinaleRoom.HoverNo | src/rooms/Room6Finale.jsx:80-111 | the NO button's attempts, position and size become `Hovered` of the old ones; nothing else changes |
| Finale.FinaleRoom.YesClick | src/rooms/Room6Finale.jsx:113-120 | confetti shows and the final-message timer is scheduled |
| Finale.FinaleRoom.NoClick | src/rooms/Room6Finale.jsx:122-129 | the easter egg shows and the redirect timer is scheduled |
| Finale.FinaleRoom.Fire | src/rooms/Room6Finale.jsx:117-128 | a firing timer shows the final message, or hides the easter egg and runs the YES handler |

## Left out

- Rendering, CSS classes, hotspot positions, audio (`useAudio`), the confetti pieces and the `Transition` component are not modelled.
- Rooms 0, 1, 4 and 5 and `App.jsx` are not part of this model; their answer checks are covered through `validate`.
- Persistence through `usePersistedState`/localStorage is not modelled: the store lives in memory.
- Timers are events without delays: each pending timeout or interval is fired by an explicit call (`Tick`, `AdvanceIntro`, `Fire`, `WrongAnswerTimeout`, `ShakeTimeout`, `SubmitTimeout`). Rooms 2 and 3 count their pending feedback timeouts, and a call fires one of them; which one fires first, the delays themselves, and the clearing of timeouts on unmount are not modelled (only the typewriter's `Unmount` is).
- `Math.random` draws are parameters. The shuffle of the dial options is modelled as four decoy letters without the correct one, plus an insertion position. The escape angle is given by its cosine and sine.
- Pixel geometry is computed on exact reals, not IEEE floating point.
- Runaway.Speed and Runaway.FontSize use exact reals, not IEEE doubles: in JavaScript `0.3 - 5 * 0.02` is 0.19999999999999998, so the source's transition times can differ from the stated ones in the last digits.
- Typewriter.Typed counts characters (Unicode scalar values), while `text.length` and `text.slice` count UTF-16 code units: for text with characters above U+FFFF the source takes two ticks per such character and can show half a surrogate pair, which the model does not.
- Tile ids `tile-<letter>-<index>` are modelled as the pair of letter and index.
- React's double invocation of state updaters in development mode is not modelled. (`handleTileClick` and `handleSlotClick` mutate the copied tiles in place, so a double call would swap twice.)
- `Base64.Encode`: only the length is stated in its own contract; its meaning is given by `DecodeEncode`, `EncodeInjective` and `EncodeAlphabet`.
- Solutions.Validate and Solutions.Matches require the normal form of the answer to be Latin-1, because `btoa` throws on a character above U+00FF; the throw is not modelled as a value. Solutions.LowerChar lower-cases ASCII, Latin-1 and the four wider characters whose lower case is Latin-1 (U+0178, U+1E9E, U+212A, U+212B) and leaves every other character as it is, so the model's normal form is Latin-1 exactly when the source's is (the lower case of U+0130 ends in U+0307, so the source throws on it too); which non-Latin character a wider letter lower-cases to is not modelled.
- GameProgress.UseHintUpdate, GameProgress.RecordAttemptUpdate and GameProgress.FindNashUpdate require the room id to have an entry, because the source throws a TypeError otherwise; that exception is not modelled as a value.
- Restaurant.RestaurantRoom.Submit and Restaurant.RestaurantRoom.Verdict use the corrected room-3 entry (see Findings); the as-written behaviour is stated by `Restaurant.NoArrangementAccepted`.
- The finale's DOM refs are reduced to an optional pair of measured rectangles, container and NO button; `None` stands for an unmounted ref.

## Findings

| source | as written | input that shows it | evidently intended | confidence | as-written member | corrected member |
|---|---|---|---|---|---|---|
| src/utils/solutions.js:11 | room 3 stores `hash('octoberfifth')` | any arrangement of the full room-3 table, e.g. FEBRUARYEIGHTH in slots 0–13: the table holds one O, one T and one F, while `octoberfifth` needs two of each, so the puzzle cannot be solved | `hash('februaryeighth')`, the word the tiles spell (src/rooms/Room3Restaurant.jsx:8-9) and the third hint names (src/rooms/Room3Restaurant.jsx:31) | not executed | Restaurant.NoArrangementAccepted | Solutions.CorrectedRoom3Iff |
