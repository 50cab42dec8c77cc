# Flashcard study scheduler — a Dafny model

This project models the study logic of a browser flashcard application. It covers
the spaced-repetition scheduler and the study session of the `StudyDeck` component.
It also covers the collection operations of the `FlashCardApp` component that feed
the session. Time is integer milliseconds, and every step receives a single `now`.

Modules:

- `Cards`: the card record (`src/types.ts` is not part of this model; the fields follow their use in the two components), `MsPerDay`, the well-formedness invariant (`interval >= 1`, `repetitions >= 0`), ids.
- `Text`: JavaScript's `trim` (ECMAScript white space and line terminators) and `toLowerCase`, with their characterisation lemmas.
- `Scheduler`: the answer check, the three-tier interval curve `CalculateNewInterval`, and the rescheduling of one graded card. `Rescheduled` is the specification. `GradeCard` is the handler's step-by-step update of a copied card, proved equal to it.
- `Collection`: the pure sequence operations behind add, update, reset, remove and import.
- `Session`: the due filter, the current card, the cursor rules, and class `StudySession` with state (`cards`, `index`). Its transitions are mount, collection change (reset to 0), clamp, and submit (grade, then advance with wrap-around).
- `App`: class `FlashCardApp`, which holds the collection, the two creator input fields, and the deck. Every operation that calls `setCards` builds a new array, and the model then passes that array to the deck with `CollectionChanged`. This is why the cursor is 0 after every grade. Without that reset, the advance alone would skip the card that slides into the graded card's place (`Session.AdvanceAloneSkipsSuccessor`).

Two behaviours of the answer check worth knowing:

- The answer is trimmed and lower-cased, but the back of the card is only lower-cased, not trimmed. So a card whose back starts or ends with whitespace can never be answered correctly (`Scheduler.UntrimmedBackNeverMatches`).
- An empty or all-whitespace answer is ignored: the submission changes nothing and is not a lapse (`Session.StudySession.Submit`, `App.FlashCardApp.Submit`).

`Math.round(i * 2.5)` is computed as `(5 * i + 1) / 2`. Dafny's `/` rounds toward minus infinity for a positive divisor, so this equals `Math.round` for every integer `i`, negative ones included. The contract of `CalculateNewInterval` states the rounding over the reals.

## Model

| member | source | states |
|---|---|---|
| `Text.TrimStart` | src/components/StudyDeck.tsx:34 | the leading-whitespace cut of `trim`: no longer than the input, and the result does not start with whitespace |
| `Text.TrimStartSplits` | src/components/StudyDeck.tsx:34 | what `TrimStart` removes is a whitespace prefix, and the rest is the remaining suffix |
| `Text.TrimEnd` | src/components/StudyDeck.tsx:34 | the trailing-whitespace cut of `trim`: no longer than the input, and the result does not end with whitespace |
| `Text.TrimEndSplits` | src/components/StudyDeck.tsx:34 | what `TrimEnd` removes is a whitespace suffix, and the rest is the remaining prefix |
| `Text.Trim` | src/components/StudyDeck.tsx:34 | `trim` returns a string with no whitespace at either end, no longer than the input |
| `Text.TrimSplits` | src/components/StudyDeck.tsx:34 | the input is a whitespace prefix, then `Trim` of it, then a whitespace suffix |
| `Text.TrimUnique` | src/components/StudyDeck.tsx:34 | for every split of a string into whitespace, a trimmed middle and whitespace, `trim` returns that middle |
| `Text.TrimOfTrimmed` | src/components/StudyDeck.tsx:34 | a string with no whitespace at either end is left unchanged by `trim` |
| `Text.TrimAbsorbsWhitespace` | src/components/StudyDeck.tsx:34 | surrounding an answer with whitespace does not change its trimmed form |
| `Text.TrimEmptyIff` | src/components/StudyDeck.tsx:32 | `trim` yields the empty string exactly when the string is all whitespace |
| `Text.LowerChar` | src/components/StudyDeck.tsx:34 | lower-casing maps the capitals A-Z 32 code points up, to a-z, leaves every other character unchanged, and never turns whitespace into non-whitespace or back |
| `Text.ToLower` | src/components/StudyDeck.tsx:34 | `toLowerCase` keeps the length and lower-cases each character in place |
| `Text.ToLowerIdempotent` | src/components/StudyDeck.tsx:34 | lower-casing twice is lower-casing once |
| `Text.ToLowerTrimCommute` | src/components/StudyDeck.tsx:34 | lower-casing then trimming equals trimming then lower-casing |
| `Scheduler.CalculateNewInterval` | src/components/StudyDeck.tsx:96-100 | interval 1 for the first repetition and 6 for the second; otherwise the nearest integer to 2.5 times the old interval, halves rounded up; at least 1, and more than double, when the old interval is at least 1 |
| `Scheduler.RoundIsUnique` | src/components/StudyDeck.tsx:99 | the rounding relation used for `Math.round` determines one integer |
| `Scheduler.ThirdTierExamples` | src/components/StudyDeck.tsx:99 | 6 days grow to 15, and 15 grow to 38 |
| `Scheduler.IsBlank` | src/components/StudyDeck.tsx:32 | an answer is blank, and the submission ignored, exactly when it is all whitespace |
| `Scheduler.IsCorrect` | src/components/StudyDeck.tsx:34 | the trimmed, lower-cased answer equals the lower-cased back; a correct answer trims to the back's length, and a blank answer never matches a non-empty back |
| `Scheduler.IsBlankIff` | src/components/StudyDeck.tsx:32 | an answer is ignored as blank exactly when it is all whitespace |
| `Scheduler.IsCorrectIgnoresSurroundingWhitespace` | src/components/StudyDeck.tsx:34 | whitespace around the answer never changes whether it is correct |
| `Scheduler.IsCorrectIgnoresCase` | src/components/StudyDeck.tsx:34 | lower-casing the answer or the back never changes whether the answer is correct |
| `Scheduler.PaddedAnswerMatches` | src/components/StudyDeck.tsx:34 | " paris " is a correct answer for the back "paris" |
| `Scheduler.CapitalisedAnswerMatches` | src/components/StudyDeck.tsx:34 | "PARIS" is correct for "paris", and "Paris" is correct for "PARIS" |
| `Scheduler.OtherAnswerFails` | src/components/StudyDeck.tsx:34 | "London" is not a correct answer for "paris" |
| `Scheduler.UntrimmedBackNeverMatches` | src/components/StudyDeck.tsx:34 | a back that starts or ends with whitespace is matched by no answer at all |
| `Scheduler.Rescheduled` | src/components/StudyDeck.tsx:35-48 | grading keeps id, front and back, and sets the next review to now plus the interval in days; a card with interval at least 1 keeps interval at least 1 and is scheduled strictly after now; well-formed cards stay well formed |
| `Scheduler.CorrectAnswerSchedule` | src/components/StudyDeck.tsx:38-43 | a correct answer adds one repetition, takes the interval from the curve, and schedules the card that many days after now |
| `Scheduler.LapseSchedule` | src/components/StudyDeck.tsx:44-48 | a wrong answer sets repetitions to 0 and the interval to 1, and schedules the card exactly one day after now |
| `Scheduler.GradeCard` | src/components/StudyDeck.tsx:34-48 | the step-by-step update of the copied card returns the verdict of the answer check and the card `Rescheduled` gives |
| `Scheduler.CorrectStreak` | src/components/StudyDeck.tsx:38-43 | a run of correct answers keeps the card's id, front and back |
| `Scheduler.StreakGrows` | src/components/StudyDeck.tsx:38-43 | along correct answers from a new card, repetitions count the answers, the interval is 1, then 6, then more than doubles at each answer |
| `Scheduler.StreakIntervals` | src/components/StudyDeck.tsx:96-100 | consecutive correct answers from a new card give intervals 1, 6, 15, 38 |
| `Scheduler.EndToEndScenario` | src/components/StudyDeck.tsx:38-48 | correct at t1 gives (1, 1, t1 + 1 day), correct at t2 gives (2, 6, t2 + 6 days), wrong at t3 gives (0, 1, t3 + 1 day) |
| `Collection.NewCard` | src/components/FlashCardApp.tsx:29-36 | a new card carries the given id and texts, is due at now, and is well formed |
| `Collection.ReplaceById` | src/components/FlashCardApp.tsx:46 | same length; each card with the updated card's id becomes the updated card, and every other card is kept in place |
| `Collection.ReplaceByIdKeepsIds` | src/components/FlashCardApp.tsx:46 | writing a card back never changes the ids or their order |
| `Collection.ReplaceByIdAbsent` | src/components/FlashCardApp.tsx:46 | an update whose id is not in the collection changes nothing |
| `Collection.ReplaceByIdIdempotent` | src/components/FlashCardApp.tsx:46 | writing the same card back twice is writing it once |
| `Collection.ResetCard` | src/components/FlashCardApp.tsx:54-59 | a reset card keeps id, front and back, is due at now, and is well formed |
| `Collection.ResetAll` | src/components/FlashCardApp.tsx:54-61 | same length and order, each card reset in place |
| `Collection.ResetAllProperties` | src/components/FlashCardApp.tsx:54-61 | after a reset the ids are unchanged and every card is well formed and due at now |
| `Collection.AddKeepsIdsUnique` | src/components/FlashCardApp.tsx:29-39 | appending a card under an unused id keeps ids unique |
| `Collection.IsValidCard` | src/components/FlashCardApp.tsx:105-113 | an imported element is valid exactly when all six fields have the card's types |
| `Collection.IsValidImport` | src/components/FlashCardApp.tsx:89 | a file is importable exactly when it is a JSON array every element of which is a valid card |
| `Collection.CardsOf` | src/components/FlashCardApp.tsx:88-95 | the cards of valid imported records, one per record, in order |
| `Collection.ImportResult` | src/components/FlashCardApp.tsx:88-98 | the collection is replaced by the imported cards exactly when every element is a valid card and the user confirms; an invalid file reports an error; otherwise the collection is unchanged |
| `Collection.ImportKeepsRecords` | src/components/FlashCardApp.tsx:88-95 | every sequence of cards can be imported and comes back unchanged |
| `Session.IsDue` | src/components/StudyDeck.tsx:12 | a card is due once its review instant is at or before now |
| `Session.DueCards` | src/components/StudyDeck.tsx:12 | the due list is no longer than the collection, and every card on it is due |
| `Session.DueCardsMembers` | src/components/StudyDeck.tsx:12 | a card is on the due list exactly when it is in the collection and due; the list is empty exactly when no card is due |
| `Session.DueCardsAppend` | src/components/StudyDeck.tsx:12 | the filter distributes over concatenation, so it keeps the due cards in collection order |
| `Session.DueCardsIdempotent` | src/components/StudyDeck.tsx:12 | filtering the due list again changes nothing |
| `Session.AddedCardIsDue` | src/components/FlashCardApp.tsx:33-39 | a card added at now is due at once, after the cards already due |
| `Session.ResetMakesAllDue` | src/components/FlashCardApp.tsx:54-61 | after a reset at now every card is due |
| `Session.CurrentCard` | src/components/StudyDeck.tsx:13 | there is a current card exactly when the cursor is inside the due list; it is the due card at the cursor, a due card of the collection |
| `Session.NewDueCards` | src/components/StudyDeck.tsx:55-59 | the handler's recomputed list keeps cards of the collection only |
| `Session.NewDueCardsMatchUpdatedCollection` | src/components/StudyDeck.tsx:55-59 | with the graded card substituted, the recomputed list is the due list of the updated collection, and it has the same length |
| `Session.GradedCardLeavesDueList` | src/components/StudyDeck.tsx:55-59 | once written back with a review after now, the graded card's id leaves the due list and the other due cards keep their order |
| `Session.DueCardsKeepIdsUnique` | src/components/StudyDeck.tsx:12 | the due list of a collection with unique ids has unique ids |
| `Session.WithoutIdRemovesOne` | src/components/StudyDeck.tsx:55-59 | with unique ids, dropping the graded card's id removes exactly its position |
| `Session.AdvancedIndex` | src/components/StudyDeck.tsx:61-64 | the cursor moves one further, or to 0 exactly when that would pass the end of the recomputed due list; it is then inside a non-empty list |
| `Session.WrapExample` | src/components/StudyDeck.tsx:61-64 | with three due cards, grading at 2 moves the cursor to 0 whether the recomputed list has 3 or 2 cards; from 0 it moves to 1 |
| `Session.AdvanceAloneSkipsSuccessor` | src/components/StudyDeck.tsx:55-64 | with unique ids, the advance alone lands one card past the successor of the graded card, which slid into its place |
| `Session.ClampedIndex` | src/components/StudyDeck.tsx:23-28 | with a non-empty due list a cursor past its end becomes 0; with an empty list, or when already inside, the cursor is unchanged |
| `Session.StudySession.constructor` | src/components/StudyDeck.tsx:10 | the deck starts on its collection with the cursor at 0 |
| `Session.StudySession.CollectionChanged` | src/components/StudyDeck.tsx:16-20 | a new collection resets the cursor to 0 |
| `Session.StudySession.Clamp` | src/components/StudyDeck.tsx:23-28 | the cursor becomes its clamped value, so a non-empty due list always has a current card |
| `Session.StudySession.Submit` | src/components/StudyDeck.tsx:30-64 | no current card or a blank answer changes nothing; otherwise the current card is graded and handed back, and the cursor advances against the recomputed due list |
| `App.FlashCardApp.constructor` | src/components/FlashCardApp.tsx:10-16 | the application starts on the saved collection with empty input fields and the deck at 0 |
| `App.FlashCardApp.SetCards` | src/components/FlashCardApp.tsx:167 | a new collection reaches the deck, which resets its cursor |
| `App.FlashCardApp.EditFront` | src/components/FlashCardApp.tsx:156 | typing sets the front input field |
| `App.FlashCardApp.EditBack` | src/components/FlashCardApp.tsx:161 | typing sets the back input field |
| `App.FlashCardApp.AddCard` | src/components/FlashCardApp.tsx:25-42 | with either text empty nothing changes; otherwise exactly one new card is appended, the fields are cleared, the card is due at once, and unique ids stay unique under a fresh id |
| `App.FlashCardApp.UpdateCard` | src/components/FlashCardApp.tsx:45-47 | every card with the updated id is replaced, the ids and order are kept, and the deck restarts |
| `App.FlashCardApp.ResetProgress` | src/components/FlashCardApp.tsx:50-63 | unconfirmed, nothing changes; confirmed, every card is reset in place and all are due at now |
| `App.FlashCardApp.RemoveAllCards` | src/components/FlashCardApp.tsx:117-121 | unconfirmed, nothing changes; confirmed, the collection is empty |
| `App.FlashCardApp.Import` | src/components/FlashCardApp.tsx:81-99 | the new collection and the outcome are those of `ImportResult`; only an actual import restarts the deck |
| `App.FlashCardApp.Render` | src/components/StudyDeck.tsx:22-28 | the deck's cursor becomes its clamped value, so after a render a non-empty due list has a current card |
| `App.FlashCardApp.Submit` | src/components/StudyDeck.tsx:30-65 | no current card or a blank answer changes nothing; otherwise the verdict is returned, the graded card is written back, and the cursor is 0; a card with interval at least 1 is no longer due |

## Left out

- Loading from and saving to local storage (src/components/FlashCardApp.tsx:10-22): persistence I/O. The constructor receives the saved collection.
- Export through a Blob, an object URL and a link click (src/components/FlashCardApp.tsx:66-78): browser I/O.
- Reading the import file and parsing its JSON (src/components/FlashCardApp.tsx:81-102). The model receives the parse outcome, `ImportFile`. The field-type checks of `isValidCard` become the `WellTyped` case of a record. Numbers that are not integers are not modelled.
- An imported `nextReview` may be any string (src/components/FlashCardApp.tsx:110). A string that is not a date gives an Invalid Date, and the `<=` test at src/components/StudyDeck.tsx:12 never finds such a card due. Integer timestamps cannot express such a card, so the model has no never-due card.
- The confirmation dialogs are a boolean argument. `uuidv4` is a `freshId` argument. Its freshness is a premise of the uniqueness property, not a requirement.
- The feedback strings, the `userAnswer` and `operationFeedback` fields, the clearing of the answer and feedback by the reset effect, and all rendering: user interface.
- ISO-8601 timestamps are integer milliseconds. The clock is the `now` argument, one per step. The code reads the clock several times within one step, including once per card in the reset.
- Scheduler.Rescheduled: does not model the RangeError that `toISOString` throws for instants beyond 8.64e15 ms. That happens only after intervals beyond about 10^8 days.
- Text.LowerChar: lower-cases only the ASCII capitals. The full Unicode case mapping of `toLowerCase` is not modelled. Other characters are left unchanged.
- React's effect scheduling and batched state updates. They are modelled as explicit sequential transitions: `Submit`, then `UpdateCard`, then the deck's `CollectionChanged`, with `Clamp` on each `Render`.
