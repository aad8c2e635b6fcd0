# CyberLove, verified model of the game logic

CyberLove is a visual-novel style browser game about information security.
The player meets three heroines, one per stage: Cryptography (Cipher),
Authentication (Vera) and Authorization (Aria). Each stage is a run of
dialog lines. Some lines offer choices and some hold small puzzles. Every
answer raises or lowers the heroine's affection. Finishing all three stages
leads to a victory screen, which grades the average affection S, A, B or C.

This project models that logic in Dafny, one module per source file:

- `GameTypes` and `Characters` hold the game's record types and the character table.
- Four modules are the answer evaluators:
  - `CaesarCipher`: the shift decryptor and its exact-match check.
  - `FillInTheBlank`: the `|`-separated alternatives. Case and surrounding whitespace are ignored.
  - `MultiSelectChallenge`: the toggle list and the order-independent comparison.
  - `ScytaleCipher`: the pick-a-cylinder confirm and reshuffle machine, and where the answer's letters sit on the target cylinder.
- `DialogBox` covers the typewriter reveal, the click that reveals all, and when a click may advance.
- `GameStage` is the per-stage cursor. It keeps the line index, an affection score floored at 0, the shown response and the failed-challenge flag.
- `StageSelect` holds the unlock rule and the click guard.
- `VictoryScreen` covers the total, the rounded average and the rank.
- `Index` is the screen controller: title, select, playing, victory.

Three helper modules model the JavaScript library behaviour the game relies on:

- `JsString`: `split` and its inverse `join`, `trim` over the full ECMAScript whitespace set, and ASCII `toLowerCase`.
- `JsSort`: the default `sort`, with its sorted output proved to be the unique sorted permutation.
- `Wrappers`: an `Option` type.

Stateful parts of the source are Dafny classes. Their methods state the whole new state:

- `ScytaleCipher.Scytale`
- `DialogBox.Typewriter`
- `GameStage.Cursor`
- `Index.Game`
- `MultiSelectChallenge.Selection`

Timers are events. A reveal tick is `Typewriter.Tick`. The end of the reshuffle delay is `Scytale.FinishReshuffle`. Random draws are parameters. The dialog content is a parameter too: a non-empty sequence of levels, each a sequence of lines.

Two behaviours of the code differ from what a player would expect. The model keeps them as the code has them:

- The fill-in-the-blank check accepts an empty answer when some alternative is blank after trimming, for example `"a||b"` (`FillInTheBlank.EmptyAnswer`).
- The authorization stage is locked on the selection screen in every state (`StageSelect.UnlockRule`). The only way in is the start-up probe answering `"authorization"` (`Index.Game.ProbeAnswered`).

## Model

| member | source | states |
|---|---|---|
| GameTypes.StagesAreClosed | src/types/game.ts:1 | There are exactly three stages, all distinct, and every stage value is one of them |
| GameTypes.StageNameInjective | src/types/game.ts:1 | Distinct stages have distinct string names |
| Characters.Find | src/data/characters.ts:33-35 | `find` returns the first element satisfying the predicate; it returns none exactly when no element does |
| Characters.TableShape | src/data/characters.ts:6-31 | The table has three characters with ids cipher, vera and aria, all starting at affection 0 |
| Characters.StageOwnedOnce | src/data/characters.ts:10-26 | Each stage belongs to exactly one character of the table |
| Characters.CharacterByStage | src/data/characters.ts:33-35 | A found character is in the table and owns a stage with the given name; nothing is found exactly when no table character's stage has that name |
| Characters.CharacterByStageFinds | src/data/characters.ts:33-35 | Lookup by a stage's name always finds a table character, and it is the one owning that stage |
| Characters.CharacterByStageMisses | src/data/characters.ts:33-35 | Lookup by a string that names no stage finds nothing |
| CaesarCipher.JsRem | src/components/game/CaesarCipher.tsx:19-21 | JavaScript `%` agrees with the mathematical remainder on the non-negative arguments the decryptor produces |
| CaesarCipher.Decrypt | src/components/game/CaesarCipher.tsx:14-26 | Decryption keeps the length and maps each character on its own |
| CaesarCipher.DecryptCharMeaning | src/components/game/CaesarCipher.tsx:18-23 | Upper case stays upper case and lower case stays lower case, each shifted back by `shift` modulo 26; other characters pass through |
| CaesarCipher.RotateBack | src/components/game/CaesarCipher.tsx:19-21 | Within the slider range 1..25 the rotated letter index stays in 0..25, and rotating forward again restores it |
| CaesarCipher.DecryptCharRoundTrip | src/components/game/CaesarCipher.tsx:18-23 | Decrypting a character by s and then by 26-s returns it |
| CaesarCipher.DecryptRoundTrip | src/components/game/CaesarCipher.tsx:14-26 | Decrypting a text by s and then by 26-s returns the original text |
| CaesarCipher.HandleSubmit | src/components/game/CaesarCipher.tsx:28-32 | Submit reports correct exactly when the ciphertext is the expected answer shifted forward by the slider value |
| CaesarCipher.SubmitAcceptsExactlyTheEncryption | src/components/game/CaesarCipher.tsx:28-32 | The exact-match submit accepts the answer exactly when the ciphertext is the answer shifted forward by s |
| CaesarCipher.ShiftDeterminedByLetter | src/components/game/CaesarCipher.tsx:12-21 | A ciphertext with at least one letter decrypts differently under any two different slider values |
| CaesarCipher.HelloExample | src/components/game/CaesarCipher.tsx:14-26 | "Khoor" decrypted by 3 is "Hello" |
| JsString.Split | src/components/game/FillInTheBlank.tsx:20 | `split` on one character yields at least one part and no part contains the separator |
| JsString.JoinSplit | src/components/game/FillInTheBlank.tsx:20 | Joining the parts of a split with the separator gives back the string |
| JsString.SplitJoin | src/components/game/MultiSelectChallenge.tsx:26 | Splitting a join of separator-free parts gives back the parts |
| JsString.ToLower | src/components/game/FillInTheBlank.tsx:20-21 | Lowercasing keeps the length and maps each character on its own |
| JsString.TrimShape | src/components/game/FillInTheBlank.tsx:20-21 | `trim` returns a slice of the input with whitespace around it and none at either of its ends |
| JsString.TrimStartShape | src/components/game/FillInTheBlank.tsx:20-21 | Trimming the start drops exactly a whitespace prefix and leaves a non-whitespace first character |
| JsString.TrimEndShape | src/components/game/FillInTheBlank.tsx:20-21 | Trimming the end drops exactly a whitespace suffix and leaves a non-whitespace last character |
| JsString.TrimStartPadding | src/components/game/FillInTheBlank.tsx:21 | Leading whitespace added to a string does not survive trimming the start |
| JsString.TrimEndPadding | src/components/game/FillInTheBlank.tsx:21 | Trailing whitespace added to a string does not survive trimming the end |
| JsString.TrimStartAppend | src/components/game/FillInTheBlank.tsx:21 | Once a string has content, trimming its start is unaffected by what follows it |
| JsString.TrimStartAllWhitespace | src/components/game/FillInTheBlank.tsx:21 | A string that trims to nothing at its start is all whitespace |
| JsString.TrimPadding | src/components/game/FillInTheBlank.tsx:21 | Whitespace on both sides of an answer never survives `trim` |
| JsString.TrimStartLower | src/components/game/FillInTheBlank.tsx:20-21 | Trimming the start commutes with lowercasing |
| JsString.TrimEndLower | src/components/game/FillInTheBlank.tsx:20-21 | Trimming the end commutes with lowercasing |
| JsString.TrimLowerCommute | src/components/game/FillInTheBlank.tsx:20-21 | `trim` and `toLowerCase` commute, so the order in which the matcher applies them is immaterial |
| FillInTheBlank.HandleSubmit | src/components/game/FillInTheBlank.tsx:19-28 | The verdict is true exactly when some pipe-separated alternative equals the answer after trimming and lowercasing both |
| FillInTheBlank.HandleKeyDown | src/components/game/FillInTheBlank.tsx:46 | The Enter key, and only the Enter key, submits, with the same verdict as the button |
| FillInTheBlank.VerdictIgnoresPadding | src/components/game/FillInTheBlank.tsx:21 | Surrounding whitespace on the answer never changes the verdict |
| FillInTheBlank.VerdictIgnoresCase | src/components/game/FillInTheBlank.tsx:21 | Answers that agree after lowercasing get the same verdict |
| FillInTheBlank.EmptyAnswer | src/components/game/FillInTheBlank.tsx:20-23 | An empty answer is accepted exactly when some alternative is blank after trimming |
| FillInTheBlank.NormalizeWord | src/components/game/FillInTheBlank.tsx:20-21 | A word without whitespace at its ends is only lowercased by the normalisation |
| FillInTheBlank.CatDogAlternatives | src/components/game/FillInTheBlank.tsx:20 | "cat\|dog" has the alternatives "cat" and "dog" |
| FillInTheBlank.CatDogNormalized | src/components/game/FillInTheBlank.tsx:20-21 | " Dog " and "dog" both normalise to "dog" |
| FillInTheBlank.CatBirdNormalized | src/components/game/FillInTheBlank.tsx:20-21 | "cat" and "bird" keep their first letters when normalised |
| FillInTheBlank.CatDogExample | src/components/game/FillInTheBlank.tsx:19-28 | With "cat\|dog", " Dog " is accepted and "bird" is rejected |
| JsSort.LexLeTotal | src/components/game/MultiSelectChallenge.tsx:26-27 | The order used by the default sort is total |
| JsSort.LexLeAntisymmetric | src/components/game/MultiSelectChallenge.tsx:26-27 | The order is antisymmetric |
| JsSort.LexLeTransitive | src/components/game/MultiSelectChallenge.tsx:26-27 | The order is transitive |
| JsSort.LexLeReflexive | src/components/game/MultiSelectChallenge.tsx:26-27 | The order is reflexive |
| JsSort.Insert | src/components/game/MultiSelectChallenge.tsx:26-27 | Inserting into a sorted list keeps it sorted and adds exactly the new element |
| JsSort.Sort | src/components/game/MultiSelectChallenge.tsx:26-27 | The sort's output is sorted and a permutation of its input |
| JsSort.SortedHeadLe | src/components/game/MultiSelectChallenge.tsx:26-27 | The first element of a sorted list is at most every element of it |
| JsSort.MultisetTail | src/components/game/MultiSelectChallenge.tsx:26-27 | Two permutations of each other that start with the same element are permutations after it |
| JsSort.SortedUnique | src/components/game/MultiSelectChallenge.tsx:26-31 | Two sorted permutations of the same elements are equal, so comparing sorted lists compares multisets |
| MultiSelectChallenge.Without | src/components/game/MultiSelectChallenge.tsx:21 | The filter removes every copy of the id, keeps all other elements with their counts, and keeps a list free of duplicates |
| MultiSelectChallenge.Toggle | src/components/game/MultiSelectChallenge.tsx:19-23 | The toggle flips the id's membership, leaves every other id's membership alone and keeps the list free of duplicates |
| MultiSelectChallenge.Selection.constructor | src/components/game/MultiSelectChallenge.tsx:16 | The selection starts empty |
| MultiSelectChallenge.Selection.HandleSelect | src/components/game/MultiSelectChallenge.tsx:19-23 | A click replaces the selection with its toggle and keeps it free of duplicates |
| MultiSelectChallenge.Selection.HandleSubmit | src/components/game/MultiSelectChallenge.tsx:25-34 | Submit is correct exactly when the selection and the split answer are equal as multisets |
| MultiSelectChallenge.Verdict | src/components/game/MultiSelectChallenge.tsx:25-34 | The length-and-index comparison holds exactly when the two sorted lists are equal, so a right selection has as many ids as the answer lists |
| MultiSelectChallenge.VerdictIsMultisetEquality | src/components/game/MultiSelectChallenge.tsx:26-31 | Sort-then-compare by length and index is multiset equality |
| MultiSelectChallenge.WrongCountFails | src/components/game/MultiSelectChallenge.tsx:30 | Selecting a different number of ids than the answer lists is always wrong |
| MultiSelectChallenge.ToggleTwice | src/components/game/MultiSelectChallenge.tsx:20-22 | Toggling an id twice restores the set of selected ids; for an absent id it restores the exact list |
| MultiSelectChallenge.WithoutAbsentAppended | src/components/game/MultiSelectChallenge.tsx:21 | Filtering out an id that was just appended gives back the list before |
| MultiSelectChallenge.CountOne | src/components/game/MultiSelectChallenge.tsx:21 | In a list without duplicates every element occurs once |
| MultiSelectChallenge.AbcSplit | src/components/game/MultiSelectChallenge.tsx:26 | "a\|b\|c" lists the ids a, b and c |
| MultiSelectChallenge.AbcAnyOrder | src/components/game/MultiSelectChallenge.tsx:25-34 | With "a\|b\|c", ticking c, a, b in that order is right |
| MultiSelectChallenge.AbcWrongCount | src/components/game/MultiSelectChallenge.tsx:30 | With "a\|b\|c", ticking a, b or a, b, c, d is wrong |
| ScytaleCipher.Texture | src/components/game/ScytaleCipher.tsx:231-260 | On a 10x10 face, the target cylinder shows `word[r]` at column (r+1) mod 10 for each row r below the word's length; every other cell shows filler |
| ScytaleCipher.TargetSpellsWord | src/components/game/ScytaleCipher.tsx:255-257 | The answer cells of the target cylinder spell the word, one per row, in distinct columns |
| ScytaleCipher.DecoyShowsOnlyFiller | src/components/game/ScytaleCipher.tsx:255-260 | A decoy cylinder shows only filler letters |
| ScytaleCipher.Scytale.constructor | src/components/game/ScytaleCipher.tsx:26-33 | The puzzle starts with nothing selected, not confirming, not submitted, not reshuffling, and a target in 0..4 |
| ScytaleCipher.Scytale.SelectCylinder | src/components/game/ScytaleCipher.tsx:384-389 | Selecting a cylinder clears `confirming`, and it is ignored while submitted or reshuffling |
| ScytaleCipher.Scytale.HandleButtonClick | src/components/game/ScytaleCipher.tsx:304-331 | With no selection or while reshuffling nothing happens. The first press only arms confirming. A confirmed right pick submits and reports success. A confirmed wrong pick clears the selection, shows the message and starts a reshuffle. A failure is never reported |
| ScytaleCipher.Scytale.PressButton | src/components/game/ScytaleCipher.tsx:304-331 | The disabled button ignores presses with no selection, after submission or while reshuffling, so success is reported at most once. An enabled press has `handleButtonClick`'s effect: the first press arms confirming, a confirmed right pick submits and reports success, a confirmed wrong pick clears the selection, shows the message and starts a reshuffle; the target never changes |
| ScytaleCipher.Scytale.FinishReshuffle | src/components/game/ScytaleCipher.tsx:320-328 | The new target is the first draw that differs from the old one; the reshuffle ends and the message clears |
| DialogBox.TextToDisplay | src/components/game/DialogBox.tsx:28 | The response is shown when it is non-empty, otherwise the line's text |
| DialogBox.SpeakerName | src/components/game/DialogBox.tsx:24-26 | The name shown is that of the table character whose id the line names; it is hidden while a response shows |
| DialogBox.ChoicesExcludeAdvance | src/components/game/DialogBox.tsx:48-85 | While choice buttons show, a click never advances; on a line that is not a choice, no buttons show and a finished click advances |
| DialogBox.Typewriter.constructor | src/components/game/DialogBox.tsx:30-33 | A new text starts empty, typing, at index 0, with the reveal timer running |
| DialogBox.Typewriter.ShowText | src/components/game/DialogBox.tsx:30-46 | The effect depends only on the text to display: the same text again changes nothing, and a new text resets the shown text to empty and restarts typing with its own timer |
| DialogBox.Typewriter.Tick | src/components/game/DialogBox.tsx:35-43 | A tick shows the prefix one character longer, or, once all is shown, stops typing and the timer; the shown text stays a prefix of the target |
| DialogBox.Typewriter.RunTimer | src/components/game/DialogBox.tsx:35-43 | Left to run, a running reveal ends with the whole text shown, the index at its end and typing stopped; with the timer already stopped nothing changes |
| DialogBox.Typewriter.ClickAsWritten | src/components/game/DialogBox.tsx:48-55 | A click while typing shows the whole text and stops typing but leaves the reveal timer running. After typing, a click advances exactly when the line is not a choice or a response shows |
| DialogBox.Typewriter.Click | src/components/game/DialogBox.tsx:48-55 | The same click with the timer stopped as well, the index kept: once typing ends the whole text stays shown |
| DialogBox.RevealAllThenTickAsWritten | src/components/game/DialogBox.tsx:35-51 | On "Hey", a tick, a reveal-all click and another tick leave "He" shown with typing over |
| DialogBox.RevealAllThenTick | src/components/game/DialogBox.tsx:35-51 | With the corrected click the same events leave "Hey" shown |
| GameStage.LevelLines | src/components/game/GameStage.tsx:40-41 | The requested level's lines are used when that level exists, otherwise level 0's |
| GameStage.ApplyDelta | src/components/game/GameStage.tsx:76 | The new score is affection plus delta, floored at 0 |
| GameStage.ApplyAllBounds | src/components/game/GameStage.tsx:75-93 | After any run of deltas the score is at least the plain sum, and it is never negative once a delta was applied or the start was non-negative |
| GameStage.ApplyAllGains | src/components/game/GameStage.tsx:75-93 | With only gains from a non-negative start, the floor never applies; there is no upper bound |
| GameStage.ChallengeOutcome | src/components/game/GameStage.tsx:83-84 | A right answer brings the success delta and response, a wrong one the failure delta and response |
| GameStage.Cursor.CurrentLine | src/components/game/GameStage.tsx:43 | The line on screen is the one at the index; the stage renders nothing only when it has no lines |
| GameStage.Cursor.constructor | src/components/game/GameStage.tsx:33-53 | Entering a stage starts at line 0 with the given affection, no response, a neutral expression and no failure |
| GameStage.Cursor.Next | src/components/game/GameStage.tsx:55-73 | A shown response is dismissed first. After a failed challenge that also clears the flag and holds the index. Otherwise the index moves on while below the last line, and the last line completes the stage with the current affection |
| GameStage.Cursor.HandleChoice | src/components/game/GameStage.tsx:75-80 | A choice applies its delta with the floor at 0, shows its response and sets the expression without moving the index |
| GameStage.Cursor.HandleChallengeComplete | src/components/game/GameStage.tsx:82-93 | A challenge result applies its delta with the floor at 0 and shows its response; only a wrong answer raises the failure flag; the index stays |
| GameStage.FailedChallengeHolds | src/components/game/GameStage.tsx:56-64 | After a failed challenge with a failure response, the next click leaves the cursor on the challenge and clears the flag |
| GameStage.EmptyFailureResponseAdvances | src/components/game/GameStage.tsx:55-93 | A failed challenge whose failure response is empty does not hold the cursor, and its flag stays raised |
| GameStage.ChoiceThenComplete | src/components/game/GameStage.tsx:55-80 | On a one-line stage, the click that dismisses a choice's response also completes the stage with the earned score |
| StageSelect.FindIndex | src/components/game/StageSelect.tsx:41 | `findIndex` gives the first card with the stage, or -1 exactly when none has it |
| StageSelect.IsStageUnlocked | src/components/game/StageSelect.tsx:38-46 | A stage is open exactly when it is not authorization and it is either the first card or the card before it is completed |
| StageSelect.UnlockRule | src/components/game/StageSelect.tsx:38-46 | Cryptography is always open, authentication is open exactly when cryptography is completed, and authorization is never open |
| StageSelect.IsStageCompleted | src/components/game/StageSelect.tsx:48-50 | A stage is completed exactly when it is in the completed list |
| StageSelect.HandleCardClick | src/components/game/StageSelect.tsx:94 | A card click selects its stage exactly when the card is unlocked |
| StageSelect.SkipButtonVisible | src/components/game/StageSelect.tsx:168 | The skip button shows only with a skip handler, on an unlocked card not yet completed, and so never on authorization |
| StageSelect.BarWidth | src/components/game/StageSelect.tsx:159 | The bar width is the score capped at 100 |
| StageSelect.CardAffectionOfStage | src/components/game/StageSelect.tsx:73-76 | Each card shows the stored score of its own stage's character, 0 when missing |
| VictoryScreen.Total | src/components/game/VictoryScreen.tsx:11 | The sum of an empty record is 0, and the sum of non-negative scores is non-negative |
| VictoryScreen.TotalRemove | src/components/game/VictoryScreen.tsx:11 | The sum of the record's values may be taken starting from any key |
| VictoryScreen.TotalOfThree | src/components/game/VictoryScreen.tsx:11 | For a record keyed by the three ids, the total is their sum |
| VictoryScreen.Average | src/components/game/VictoryScreen.tsx:12 | The average is the whole number nearest to a third of the total, halves rounded up |
| VictoryScreen.AverageClosedForm | src/components/game/VictoryScreen.tsx:12 | That rounded third equals (total+1) div 3 |
| VictoryScreen.GetRank | src/components/game/VictoryScreen.tsx:14-19 | The rank is S from 80, A in [60,80), B in [40,60) and C below 40 |
| VictoryScreen.RankMonotone | src/components/game/VictoryScreen.tsx:14-19 | A higher average never gets a worse rank |
| VictoryScreen.DisplayedAffection | src/components/game/VictoryScreen.tsx:119 | A character's shown score is the stored value, or 0 when missing |
| VictoryScreen.RankMonotoneInAffection | src/components/game/VictoryScreen.tsx:11-19 | Raising one character's score never lowers the rank |
| Index.CharacterIdOf | src/pages/Index.tsx:42-48 | Each stage's result is stored under one of the three ids |
| Index.CharacterIdOfAgrees | src/pages/Index.tsx:42-46 | The controller's stage-to-id mapping agrees with the character table |
| Index.CharacterIdOfInjective | src/pages/Index.tsx:42-46 | Different stages are stored under different ids |
| Index.AddCompleted | src/pages/Index.tsx:55-57 | A stage is appended to the completed list only when it is not already there, so the list stays free of repeats |
| Index.DistinctLength | src/pages/Index.tsx:55-57 | A completed list without repeats has one entry per stage it mentions |
| Index.CompletedBounds | src/pages/Index.tsx:55-60 | The completed list has at most three entries, has three exactly when every stage is in it, and stops at two without authorization |
| Index.Game.constructor | src/pages/Index.tsx:11-18 | A game starts on the title screen, at cryptography, with nothing completed and all three scores 0 |
| Index.Game.GetInitialAffection | src/pages/Index.tsx:85-92 | A stage starts from its character's stored score, or 0 |
| Index.Game.HandleStart | src/pages/Index.tsx:32-34 | Start shows the selection screen and changes nothing else |
| Index.Game.HandleSelectStage | src/pages/Index.tsx:36-39 | Selecting a stage makes it current and plays it |
| Index.Game.ClickStageCard | src/pages/Index.tsx:98-103 | From the selection screen only an unlocked stage is played, so authorization is never reached that way |
| Index.Game.ProbeAnswered | src/pages/Index.tsx:20-30 | A probe answer naming authorization jumps into that stage; any other answer, or none, changes nothing |
| Index.Game.HandleStageComplete | src/pages/Index.tsx:41-68 | Completion overwrites only the current character's score, so the next start of that stage begins from the final score. The stage is added once. Victory comes exactly when a new stage makes three, otherwise the selection screen. The keys stay the three ids and scores stay non-negative |
| Index.Game.HandleBack | src/pages/Index.tsx:70-72 | Back shows the selection screen and changes nothing else |
| Index.Game.HandleRestart | src/pages/Index.tsx:74-83 | Restart empties the completed list, zeroes all three scores, goes back to cryptography and shows the title |
| Index.VictoryNeedsAuthorization | src/pages/Index.tsx:55-60 | A full completed list contains authorization, which the selection screen never unlocks |
| Index.VictoryTotal | src/pages/Index.tsx:50-53 | The total on the victory screen is the sum of the three stored scores |
| Index.FirstStage | src/pages/Index.tsx:11-68 | From a new game, completing cryptography with score a stores a under cipher, lists cryptography and returns to the selection screen |
| Index.FirstTwoStages | src/pages/Index.tsx:36-68 | Completing authentication next stores b under vera and lists both stages |
| Index.PlayThrough | src/pages/Index.tsx:20-68 | Completing cryptography, authentication and then the probed authorization ends in victory with the three scores stored |
| Index.RepeatCompletion | src/pages/Index.tsx:50-67 | Completing a stage a second time only updates its score and returns to the selection screen |

## Findings

| source | as written | input that shows it | evidently intended | confidence | as-written member | corrected member |
|---|---|---|---|---|---|---|
| src/components/game/DialogBox.tsx:35-51 | The reveal-all click sets the whole text and clears `isTyping`, but it does not stop the interval. The next tick sets the shown text back to a prefix one character past the timer's index | Text "Hey": one tick shows "H", a click shows "Hey", and the next tick shows "He" with typing marked over | The click ends the reveal, so the whole text stays shown | not executed | DialogBox.RevealAllThenTickAsWritten | DialogBox.RevealAllThenTick |

`DialogBox.Typewriter.ClickAsWritten` models the click as written. `DialogBox.Typewriter.Click` is the corrected click. It also stops the timer and keeps the `Settled` invariant: once typing is over, the whole text is shown and no timer runs.

## Left out

- The Three.js scene of the Scytale puzzle is left out. That covers the camera, raycasting, animation and canvas drawing. It is rendering and floating point. Only the letter placement rule is kept.
- Random filler letters are a function parameter of `ScytaleCipher.Texture`.
- The random draws of the reshuffle are a parameter of `FinishReshuffle`.
- Timers are events, not timing. The 30 ms reveal interval is one `Tick` per firing. The 1.5 s reshuffle delay is one `FinishReshuffle` call.
- The start-up `fetch` of the next-stage file is network I/O. Only its effect is modelled, as `Index.Game.ProbeAnswered`.
- The dialog content file is not part of this model. Its levels and lines are parameters.
- Toast hints, animations, particles and the progress-bar percentage are presentation and are left out.
- The title screen and the character sprite are presentation and are left out.
- `GameStage` never receives a stage level, so it always uses level 0. `LevelLines` models the fallback for any level.
- The selection screen never receives a skip handler. `SkipButtonVisible` takes its presence as a flag.
- Persistence, completion counters and replay levels do not exist in the code and are not modelled.
- `DialogBox` never renders challenges. `GameStage.Cursor.HandleChallengeComplete` is modelled as an event on the cursor.
- `DialogBox.Typewriter`: the reveal timer is one interval per text. The cleanup when the text changes is folded into `ShowText`.
- JsString.ToLower: lowercases ASCII letters only. Full Unicode case mapping is left out, so the model rejects answers the game accepts when they differ from an alternative only in the case of a non-ASCII letter. For example, the game accepts "É" against "é" and the model does not.
- DialogBox.Typewriter.Tick: reveals one Unicode code point per tick. JavaScript's `length` and `slice` count UTF-16 code units, so a character outside the Basic Multilingual Plane, such as an emoji, takes two ticks in the game and shows half a surrogate pair for one tick. The model does not capture that.
- JsSort.Sort: orders by code points rather than UTF-16 code units. The two orders differ only for characters outside the Basic Multilingual Plane, and they cannot change the multiset verdict.
- CaesarCipher.HandleSubmit: requires the challenge to carry `encryptedText`. The component reads that field unconditionally and is only used for Caesar challenges.
- ScytaleCipher.Scytale.FinishReshuffle: requires at least one draw that differs from the old target. Termination of the random retry loop depends on the random source and is not modelled.
- VictoryScreen.Total is a mathematical sum over the record. The order of JavaScript's `reduce` does not matter for integer addition. Floating-point numbers are not modelled.
