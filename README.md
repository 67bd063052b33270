# Anagram study: a Dafny model

The system is a web application used in a research study on word games. A
participant goes through a fixed sequence of screens:

1. registration with a participant id;
2. a practice anagram round;
3. the main game: several anagrams, the first of them shown after an
   anti-cheating message that must be read first;
4. an external survey, unlocked by a completion code;
5. a check that asks what each word found means;
6. a debrief that shows the rewards and asks whether outside help was used.

The front end is React. The back end is FastAPI with MongoDB. The back end
creates sessions, picks the message to show (always one of those shown least
often), validates words against per-length solution lists and stores events
and answers.

This project models that core in Dafny:

- Components whose state changes step by step become classes. Each React
  handler is a `method` that states the whole new state.
- Pure rules are functions with lemmas. These cover word validity, rewards,
  reward caps, drag-and-drop edits, de-duplication, the step table, sorting
  and the help answer.
- The database is a class whose collections are fields. The service methods
  and helpers modify it.

Network calls, clocks and random choices are parameters. The response
outcome, the current time in milliseconds, the random shuffle and the fresh
object id are all passed in.

Modules:

- `Wrappers`: `Option` and `Result`.
- `Text`: ASCII whitespace trimming and case mapping.
- `Sequences`: `splice` and `filter` on sequences.
- `Ledger`: the word-validity and reward rules shared by both games.
- `Workspace`: the game board.
- `MainGame`: `AnagramGame/index.jsx`.
- `Tutorial`: `AnagramGame/TutorialGame.jsx`.
- `MessageDisplay`: the message screen.
- `EventTrack`: the shared activity tracker.
- `InlineTracker`: the tracker copied into the tutorial and the meaning check.
- `WordMeaning`: the meaning check.
- `Survey`: the survey page.
- `Debrief`: the debrief page.
- `StudyFlow`: `App.jsx`.
- `Helpers`: `utils/helpers.py`.
- `GameService`: `services/logic.py`.

## Model

| member | source | states |
|---|---|---|
| Text.TrimStart | frontend_game_UI/src/components/SurveyPage.jsx:16 | the result is a suffix of the input, what was cut off is all whitespace, and the result does not start with whitespace |
| Text.TrimEnd | frontend_game_UI/src/components/SurveyPage.jsx:148 | the result is a prefix of the input, what was cut off is all whitespace, and the result does not end with whitespace |
| Text.TrimEmptyIffBlank | frontend_game_UI/src/components/SurveyPage.jsx:148 | `trim()` gives the empty string exactly when the input is all whitespace |
| Text.TrimEndsSolid | frontend_game_UI/src/components/SurveyPage.jsx:148 | a non-empty trimmed text starts and ends with a non-space character |
| Text.NatToString | frontend_game_UI/src/components/AnagramGame/MessageDisplay.jsx:73 | the decimal spelling of a number is non-empty, all digits, and has no leading zero |
| Text.ParseNatToString | frontend_game_UI/src/components/AnagramGame/MessageDisplay.jsx:73 | reading the decimal spelling back gives the number: the spelling loses nothing |
| Text.ToUpper | frontend_game_UI/src/components/AnagramGame/index.jsx:212 | same length; every character is the upper-case form of the input character at the same index |
| Text.ToLower | frontend_game_UI/src/components/SurveyPage.jsx:16 | same length; every character is the lower-case form of the input character at the same index |
| Text.LowerEqualsCaseless | frontend_game_UI/src/components/SurveyPage.jsx:16 | against a target without letters, lower-casing before comparing changes nothing: equal after lower-casing iff equal |
| Sequences.InsertAt | frontend_game_UI/src/components/AnagramGame/GameBoard.jsx:43-49 | `splice(i, 0, x)`: one element longer, `x` at the clamped index, the elements before and after it shifted in order, and the same multiset plus `x` |
| Sequences.DropIndex | frontend_game_UI/src/components/AnagramGame/GameBoard.jsx:42-48 | `filter` by index: one element shorter when the index is in range, the later elements shifted down, and the multiset loses exactly that element; an index out of range changes nothing |
| Sequences.DropInserted | frontend_game_UI/src/components/AnagramGame/GameBoard.jsx:42-43 | removing what was just inserted, at its clamped index, gives back the original sequence |
| Ledger.ValidityIgnoresCase | frontend_game_UI/src/components/AnagramGame/index.jsx:207-215 | a word and its upper-case spelling are judged alike, because the lookup upper-cases the word |
| Ledger.ToUpperIdempotent | frontend_game_UI/src/components/AnagramGame/index.jsx:212 | upper-casing twice is the same as upper-casing once |
| Ledger.IsValidWord | frontend_game_UI/src/components/AnagramGame/index.jsx:207-215 | a valid word has solutions whose list under its length holds its upper-case spelling |
| Ledger.CalculateReward | frontend_game_UI/src/components/AnagramGame/index.jsx:66-72 | a non-zero reward needs a valid word and a table entry for the length; a valid word with an entry earns exactly that entry |
| Ledger.RewardOnlyForValid | frontend_game_UI/src/components/AnagramGame/index.jsx:66-72 | a non-zero reward needs a valid word and a reward table; a valid word earns the table entry for its length, or 0 when there is none |
| Ledger.RewardExample | frontend_game_UI/src/components/AnagramGame/TutorialGame.jsx:48-54 | with rewards {5: 10, 6: 20, 7: 40} and solutions APPLE and MAPLE, APPLE is valid and earns 10, apple is valid too, and an unlisted five-letter word is invalid and earns 0 |
| Ledger.Process | frontend_game_UI/src/components/AnagramGame/index.jsx:292-299 | one submitted word per validated entry, in order; validity and reward are recomputed at submit time from the current solutions and rewards |
| Ledger.TotalRewardAppend | frontend_game_UI/src/components/AnagramGame/index.jsx:301-304 | the left-fold total of two concatenated lists is the sum of their totals |
| Ledger.TotalRewardCons | frontend_game_UI/src/components/AnagramGame/index.jsx:301-304 | the total is the first word's reward plus the total of the rest |
| Ledger.TotalReward | frontend_game_UI/src/components/AnagramGame/index.jsx:301-304 | the total of non-negative rewards is non-negative, and all-zero rewards total 0 |
| Ledger.ValidWords | frontend_game_UI/src/components/AnagramGame/TutorialGame.jsx:301 | every kept word is valid, and the list is no longer than its input |
| Ledger.InvalidWords | frontend_game_UI/src/components/AnagramGame/TutorialGame.jsx:302 | every kept word is invalid, and the list is no longer than its input |
| Ledger.PartitionKeepsOrder | frontend_game_UI/src/components/AnagramGame/TutorialGame.jsx:301-302 | the valid and invalid lists are both subsequences of the input, and together they hold exactly its multiset and its length |
| Ledger.ValidTotalIsTotal | frontend_game_UI/src/components/AnagramGame/TutorialGame.jsx:303-306 | when invalid words earn nothing, summing only the valid words gives the total of all words |
| Ledger.ProcessedInvalidEarnNothing | frontend_game_UI/src/components/AnagramGame/TutorialGame.jsx:292-298 | in a processed ledger every invalid word has reward 0 |
| Ledger.Capped | frontend_game_UI/src/components/DebriefPage.jsx:225 | `Math.min`: the shown amount exceeds neither the total nor the cap, and is one of them |
| Ledger.CapNoteShown | frontend_game_UI/src/components/DebriefPage.jsx:228-234 | the note about the cap is shown exactly when the capped amount is less than the total |
| Ledger.CapLaw | frontend_game_UI/src/components/DebriefPage.jsx:225-234 | the shown amount exceeds neither the cap nor the total; it differs from the total exactly when the cap note is shown, and then it equals the cap |
| Workspace.ReorderMovesOneTile | frontend_game_UI/src/components/AnagramGame/GameBoard.jsx:41-43 | a reorder in the solution moves the dragged tile to the clamped target index; the other tiles keep their order and the pool is untouched |
| Workspace.PoolToSolutionMove | frontend_game_UI/src/components/AnagramGame/GameBoard.jsx:44-46 | a pool-to-solution drop removes the pool entry at the source index and inserts the dragged letter at the target index |
| Workspace.SolutionToPoolMove | frontend_game_UI/src/components/AnagramGame/GameBoard.jsx:47-49 | a solution-to-pool drop removes the solution entry at the source index and inserts the dragged letter in the pool |
| Workspace.UnmatchedDropIsNoOp | frontend_game_UI/src/components/AnagramGame/GameBoard.jsx:38-52 | a pool-to-pool drop, or a drop whose payload names no area, leaves the board as it was |
| Workspace.AreaDropAppends | frontend_game_UI/src/components/AnagramGame/GameBoard.jsx:229 | dropping on an area's background puts the letter at the end of that area |
| Workspace.DropConservesLetters | frontend_game_UI/src/components/AnagramGame/GameBoard.jsx:30-55 | one drop of a tile neither creates nor loses a letter: the board's multiset is unchanged |
| Workspace.DropsConserveLetters | frontend_game_UI/src/components/AnagramGame/GameBoard.jsx:30-55 | any sequence of tile drops keeps the board's letters: this is the letter-conservation invariant |
| Workspace.Drop | frontend_game_UI/src/components/AnagramGame/GameBoard.jsx:30-55 | a tile drop keeps the number of tiles, and the dragged letter ends up in the target area, except for a pool-to-pool drop |
| Workspace.ValidateDisabled | frontend_game_UI/src/components/AnagramGame/GameBoard.jsx:80 | an enabled Validate button means at least five letters are placed, and, in the main game, time is not up; what pressing it does, and that a disabled press does nothing, is proved in MainGame.AnagramGame.PressValidate |
| Workspace.SubmitDisabled | frontend_game_UI/src/components/AnagramGame/GameBoard.jsx:83-86 | an enabled Submit button means a validated word exists, time is not up in the main game, and at most 60 s remain in the practice round; its consequences for a press are proved in MainGame.AnagramGame.PressSubmit and Tutorial.Practice.PressSubmit |
| MainGame.AnagramGame.constructor | frontend_game_UI/src/components/AnagramGame/index.jsx:8-32 | the initial loading state: 3 anagrams, no words, no error, nothing submitted |
| MainGame.AnagramGame.ConfigLoaded | frontend_game_UI/src/components/AnagramGame/index.jsx:35-53 | the HTTP status is never checked: any JSON body is stored, its rewards and its `game_anagrams` taken over as present or absent, with no error; only a failed fetch or a body that is not JSON shows the error |
| MainGame.MoreRounds | frontend_game_UI/src/components/AnagramGame/index.jsx:348-354 | another round follows only when the anagram count is defined and exceeds the next index; an undefined count means no more rounds |
| MainGame.AnagramGame.InitGame | frontend_game_UI/src/components/AnagramGame/index.jsx:153-205 | no session id gives an error; outside loading nothing happens; a failed or incomplete response gives an error; otherwise the round is set up, with phase Message iff there is a message, and the letters are conserved |
| MainGame.AnagramGame.Retry | frontend_game_UI/src/components/AnagramGame/index.jsx:462-467 | the error is cleared and the phase returns to loading |
| MainGame.AnagramGame.HandleDrop | frontend_game_UI/src/components/AnagramGame/index.jsx:503-509 | the board becomes the drop rule's result, and a tile drop keeps the letters conserved |
| MainGame.AnagramGame.Validate | frontend_game_UI/src/components/AnagramGame/index.jsx:217-260 | an exact duplicate changes nothing; otherwise one entry with its validity is appended, the solution is cleared and the pool is a fresh permutation of the word |
| MainGame.AnagramGame.PressValidate | frontend_game_UI/src/components/AnagramGame/GameBoard.jsx:158-160 | pressing Validate while `isValidateDisabled` (GameBoard.jsx:80) holds changes nothing; otherwise it is Validate; every recorded word keeps at least five letters |
| MainGame.AnagramGame.RemoveWord | frontend_game_UI/src/components/AnagramGame/index.jsx:262-279 | exactly the entry at the index is removed and the rest keep their order; an index with no entry changes nothing |
| MainGame.AnagramGame.SubmitStart | frontend_game_UI/src/components/AnagramGame/index.jsx:282-304 | a submission starts iff none is in flight and the round is not already submitted, unless time is up; it then sets both flags and records the processed words and their total |
| MainGame.AnagramGame.PressSubmit | frontend_game_UI/src/components/AnagramGame/GameBoard.jsx:167-169 | pressing Submit while `isSubmitDisabled` (GameBoard.jsx:83-86) holds starts nothing and changes no flag; an enabled one starts a submission iff SubmitStart would, with at least one word and time not up |
| MainGame.AnagramGame.SubmitResponse | frontend_game_UI/src/components/AnagramGame/index.jsx:325-401 | a failure clears both flags and changes nothing else; on success the words join the all-rounds list; before the last round a usable next round starts fresh with a full clock, and an unusable one only clears the flags; after the last round `onComplete` receives the accumulated list |
| MainGame.AnagramGame.Tick | frontend_game_UI/src/components/AnagramGame/index.jsx:404-448 | the countdown loses one second only while running; the last second sets time-up and starts a submission exactly when none is in flight |
| MainGame.AnagramGame.MessageShown | frontend_game_UI/src/components/AnagramGame/index.jsx:411-420 | as written: with no argument the handler throws and the phase stays unchanged; with data it becomes Play |
| MainGame.AnagramGame.MessageShownCorrected | frontend_game_UI/src/components/AnagramGame/index.jsx:419 | leaving the message always starts play |
| MainGame.BackEndInitSkipsMessage | backend_FASTAPI_mongodb/app/services/logic.py:54-59 | fed this repository's init body, which has no `currentMessage` and no `solutions`, the round starts at once in play with the body's word and clock, no word is valid, and the round's total is 0 |
| MainGame.ErrorConfigEndsAfterOneRound | frontend_game_UI/src/components/AnagramGame/index.jsx:35-53 | a config request answered with an error body leaves no error, no rewards and no anagram count, so the first successful submit completes the game with every word earning 0 |
| Tutorial.ResultsOf | frontend_game_UI/src/components/AnagramGame/TutorialGame.jsx:292-313 | the results split the processed words into valid and invalid, each in order and together the whole multiset, and the total equals the total of all processed words |
| Tutorial.Practice.constructor | frontend_game_UI/src/components/AnagramGame/TutorialGame.jsx:14-38 | the initial state: loading, overview shown, nothing submitted |
| Tutorial.Practice.InitTutorial | frontend_game_UI/src/components/AnagramGame/TutorialGame.jsx:167-205 | both requests ok: the word, solutions, shuffled letters and practice time are set; otherwise an error; loading ends either way |
| Tutorial.Practice.StartPractice | frontend_game_UI/src/components/AnagramGame/TutorialGame.jsx:584 | the overview is hidden and nothing else changes |
| Tutorial.Practice.HandleDrop | frontend_game_UI/src/components/AnagramGame/GameBoard.jsx:30-55 | the board becomes the drop rule's result, and a tile drop keeps the letters conserved |
| Tutorial.Practice.Validate | frontend_game_UI/src/components/AnagramGame/TutorialGame.jsx:224-258 | a duplicate changes nothing; otherwise an entry without validity is appended and the pool is reshuffled, with the letters conserved |
| Tutorial.Practice.RemoveWord | frontend_game_UI/src/components/AnagramGame/TutorialGame.jsx:260-279 | exactly the entry at the index is removed; an index with no entry changes nothing |
| Tutorial.Practice.Submit | frontend_game_UI/src/components/AnagramGame/TutorialGame.jsx:281-332 | blocked while submitting or once submitted; otherwise the results are those of the ledger and the results view is shown |
| Tutorial.Practice.PressSubmit | frontend_game_UI/src/components/AnagramGame/GameBoard.jsx:167-169 | a disabled button changes nothing; an enabled one, outside a submission, shows the ledger's results; results appear only with a validated word and at most 60 s left |
| Tutorial.Practice.Tick | frontend_game_UI/src/components/AnagramGame/TutorialGame.jsx:359-379 | as written: on expiry the submitted flag is set before the submit handler runs, so time is up and no results appear |
| Tutorial.Practice.TickCorrected | frontend_game_UI/src/components/AnagramGame/TutorialGame.jsx:545 | expiry submits the round, so the results view appears with the ledger's results |
| Tutorial.Practice.CompletePractice | frontend_game_UI/src/components/AnagramGame/TutorialGame.jsx:334-357 | `onComplete` is called exactly when the completion request does not throw |
| Tutorial.Practice.ShownReward | frontend_game_UI/src/components/AnagramGame/TutorialGame.jsx:462 | the shown practice reward is the total capped at 40: it exceeds neither, and is one of them |
| Tutorial.TutorialSolutionsMissing | frontend_game_UI/src/components/AnagramGame/TutorialGame.jsx:191-192 | as written: the tutorial body carries no solutions, so every practice word is invalid, none is listed as valid, and the total is 0 |
| Tutorial.CorrectedTutorialJudgesByEntry | frontend_game_UI/src/components/AnagramGame/TutorialGame.jsx:192 | corrected: with the tutorial entry's solutions in the body, each practice word is judged and rewarded exactly as the back end judges it against that entry |
| MessageDisplay.CountdownAfter | frontend_game_UI/src/components/AnagramGame/MessageDisplay.jsx:12-28 | after k one-second ticks the countdown is 5 - k, and 0 from the fifth tick on |
| MessageDisplay.Display.constructor | frontend_game_UI/src/components/AnagramGame/MessageDisplay.jsx:5-8 | starts not ready and unread, at 5 s; the timers run only for a message with an id |
| MessageDisplay.Display.ButtonLabel | frontend_game_UI/src/components/AnagramGame/MessageDisplay.jsx:68-74 | "I understand, continue" exactly when ready; otherwise "Please wait " and " seconds..." around the decimal digits of the remaining time, which read back as the countdown after the ticks so far |
| MessageDisplay.Display.IntervalTick | frontend_game_UI/src/components/AnagramGame/MessageDisplay.jsx:19-21 | once started, the countdown goes down by one and never below 0; the invariant ties it to the number of ticks |
| MessageDisplay.Display.ReadDelayElapsed | frontend_game_UI/src/components/AnagramGame/MessageDisplay.jsx:14-17 | after the 5000 ms delay the button is enabled and the countdown is 0 |
| MessageDisplay.Display.Click | frontend_game_UI/src/components/AnagramGame/MessageDisplay.jsx:30-57 | the callback fires iff the message is rendered, ready, not yet read and has an id, so the game is told at most once |
| EventTrack.IdleTrace | frontend_game_UI/src/components/shared/EventTrack.jsx:33-77 | the idle events of the emitted log, in order |
| EventTrack.PageTrace | frontend_game_UI/src/components/shared/EventTrack.jsx:79-126 | the page events of the emitted log, in order |
| EventTrack.AlternatingIsEdgeTriggered | frontend_game_UI/src/components/shared/EventTrack.jsx:37-44 | in an alternating trace no stretch is opened or closed twice in a row, and the first event opens one |
| EventTrack.TraceAppend | frontend_game_UI/src/components/shared/EventTrack.jsx:43 | an emitted event extends exactly one of the two traces |
| EventTrack.AlternatesExtend | frontend_game_UI/src/components/shared/EventTrack.jsx:42-43 | an opening event after an even trace, or a closing one after an odd trace, keeps it alternating |
| EventTrack.Tracker.Emit | frontend_game_UI/src/components/shared/EventTrack.jsx:43 | a callback is appended to the log, it extends only its own trace, both traces keep alternating, and no other state changes |
| EventTrack.Tracker.Wake | frontend_game_UI/src/components/shared/EventTrack.jsx:57-60 | the idle flag is cleared, and `onActiveReturn` fires exactly when it was set |
| EventTrack.Tracker.constructor | frontend_game_UI/src/components/shared/EventTrack.jsx:12-19 | active, not idle, no tab change, nothing emitted |
| EventTrack.Tracker.ShouldProcessEvent | frontend_game_UI/src/components/shared/EventTrack.jsx:24-31 | an event is accepted iff more than 300 ms have passed since the last accepted one, and only then does the window move |
| EventTrack.Tracker.CheckInactivity | frontend_game_UI/src/components/shared/EventTrack.jsx:33-45 | `onInactivityStart` fires only on the edge: not idle, timeout reached, enabled |
| EventTrack.Tracker.ResetInactivityTimer | frontend_game_UI/src/components/shared/EventTrack.jsx:47-63 | when enabled, activity is recorded and an idle stretch ends with exactly one `onActiveReturn` |
| EventTrack.Tracker.HandleActivity | frontend_game_UI/src/components/shared/EventTrack.jsx:65-77 | ignored while hidden or disabled; otherwise activity is recorded and an idle stretch ends once |
| EventTrack.Tracker.HandleVisibility | frontend_game_UI/src/components/shared/EventTrack.jsx:79-102 | the debounce is consumed first; the tab counter restarts after 10 s; a hide while active counts a tab change and leaves the page, a show while inactive returns to it; page events keep alternating |
| EventTrack.Tracker.HandleFocus | frontend_game_UI/src/components/shared/EventTrack.jsx:104-115 | focus returns to the page only from inactive with the page visible, debounced, and resets the idle timer |
| EventTrack.Tracker.HandleBlur | frontend_game_UI/src/components/shared/EventTrack.jsx:117-126 | blur leaves the page only from active, debounced, with no tab count |
| EventTrack.Tracker.SetEnabled | frontend_game_UI/src/components/shared/EventTrack.jsx:129-131 | the enabled ref follows the prop and nothing else changes |
| InlineTracker.IdleTrace | frontend_game_UI/src/components/AnagramGame/TutorialGame.jsx:130-146 | the idle events of the log, in order |
| InlineTracker.IdleTraceAppend | frontend_game_UI/src/components/AnagramGame/TutorialGame.jsx:134 | a logged event extends the idle trace exactly when it is an idle event |
| InlineTracker.Tracker.constructor | frontend_game_UI/src/components/AnagramGame/TutorialGame.jsx:85-86 | active, focused, not idle, nothing logged |
| InlineTracker.Tracker.LogPageEvent | frontend_game_UI/src/components/AnagramGame/TutorialGame.jsx:92 | a page event is appended and the idle trace is unchanged |
| InlineTracker.Tracker.HandleVisibilityChange | frontend_game_UI/src/components/AnagramGame/WordMeaningCheck.jsx:97-107 | hiding logs a leave and silently clears the idle flag; showing logs a return, in the tutorial copy only from inactive (TutorialGame.jsx:88-98) |
| InlineTracker.Tracker.Alert | frontend_game_UI/src/components/AnagramGame/TutorialGame.jsx:124-128 | the patched alert arms the skip of the next blur |
| InlineTracker.Tracker.HandleWindowBlur | frontend_game_UI/src/components/AnagramGame/TutorialGame.jsx:100-111 | right after an alert the one-shot flag is only consumed; otherwise focus is lost and an active page logs one leave |
| InlineTracker.Tracker.HandleWindowFocus | frontend_game_UI/src/components/AnagramGame/TutorialGame.jsx:113-122 | regaining focus on a visible page makes it active and logs a return |
| InlineTracker.Tracker.HandleUserActivity | frontend_game_UI/src/components/AnagramGame/TutorialGame.jsx:130-137 | ignored on an inactive page or once submitted; otherwise activity is recorded and an idle stretch is closed once |
| InlineTracker.Tracker.Poll | frontend_game_UI/src/components/AnagramGame/TutorialGame.jsx:139-146 | more than 5000 ms without activity, on an active page before submission, starts exactly one idle stretch; every close follows its start |
| WordMeaning.WordsAppend | frontend_game_UI/src/components/AnagramGame/WordMeaningCheck.jsx:33-37 | appending a word adds its text to the set of texts |
| WordMeaning.UniqueWords | frontend_game_UI/src/components/AnagramGame/WordMeaningCheck.jsx:32-38 | the de-duplicating loop computes the first-occurrence list |
| WordMeaning.DedupKeepsFirst | frontend_game_UI/src/components/AnagramGame/WordMeaningCheck.jsx:32-38 | the unique list has the same texts as the input, none twice, each entry the first with its text, in input order |
| WordMeaning.DedupWords | frontend_game_UI/src/components/AnagramGame/WordMeaningCheck.jsx:34-35 | de-duplication keeps every text of the input and adds none |
| WordMeaning.DedupDistinct | frontend_game_UI/src/components/AnagramGame/WordMeaningCheck.jsx:34 | no text appears twice in the unique list |
| WordMeaning.DedupFirst | frontend_game_UI/src/components/AnagramGame/WordMeaningCheck.jsx:34-35 | each entry of the unique list is the first input entry with its text |
| WordMeaning.DedupSubsequence | frontend_game_UI/src/components/AnagramGame/WordMeaningCheck.jsx:33 | the unique list keeps the input order |
| WordMeaning.MeaningData | frontend_game_UI/src/components/AnagramGame/WordMeaningCheck.jsx:205-209 | one entry per unique word, in order, with the typed meaning or, where none was typed, the one just submitted, and `isCorrect` left unset |
| WordMeaning.MeaningCheck.constructor | frontend_game_UI/src/components/AnagramGame/WordMeaningCheck.jsx:11-52 | the words shown are the de-duplicated validated words, starting at the first |
| WordMeaning.MeaningCheck.EditMeaning | frontend_game_UI/src/components/AnagramGame/WordMeaningCheck.jsx:319-324 | the current word's meaning becomes the typed text |
| WordMeaning.MeaningCheck.Submit | frontend_game_UI/src/components/AnagramGame/WordMeaningCheck.jsx:177-237 | the meaning is stored; before the last word the index advances; on the last one the meanings as they were before this call are sent and `onComplete` receives them, or a failure shows the error and clears the flag |
| WordMeaning.MeaningCheck.ButtonDisabled | frontend_game_UI/src/components/AnagramGame/WordMeaningCheck.jsx:330 | the button is disabled exactly when the current word has no meaning or an all-whitespace one; enabled means a meaning is there |
| WordMeaning.MeaningCheck.ButtonLabel | frontend_game_UI/src/components/AnagramGame/WordMeaningCheck.jsx:338 | the label is "Complete" exactly on the last word, otherwise "Next Word" |
| WordMeaning.TypeAndPress | frontend_game_UI/src/components/AnagramGame/WordMeaningCheck.jsx:319-330 | typing a non-blank meaning enables the button; pressing it stores the text, advances before the last word, and on the last one delivers the meanings |
| WordMeaning.AnswerAll | frontend_game_UI/src/components/AnagramGame/WordMeaningCheck.jsx:319-338 | answering every unique word in turn delivers one entry per unique word, in order, each with the meaning typed for it and `isCorrect` unset |
| Survey.CodeAcceptedIff | frontend_game_UI/src/components/SurveyPage.jsx:16 | a code is accepted iff, without surrounding whitespace, it is exactly 12345 |
| Survey.InputDisabled | frontend_game_UI/src/components/SurveyPage.jsx:135 | while the survey is not opened, the code input and, for every code, the Continue button are disabled |
| Survey.ContinueDisabled | frontend_game_UI/src/components/SurveyPage.jsx:148 | Continue is disabled iff the survey was not opened or the code is all whitespace |
| Survey.AcceptedCodeIsEnabled | frontend_game_UI/src/components/SurveyPage.jsx:148 | on an opened survey the right code always enables Continue |
| Survey.PaddedCodeAccepted | frontend_game_UI/src/components/SurveyPage.jsx:16 | whitespace around the code is ignored |
| Survey.SurveyPage.constructor | frontend_game_UI/src/components/SurveyPage.jsx:11-13 | an empty code, no error, not opened |
| Survey.SurveyPage.SubmitCode | frontend_game_UI/src/components/SurveyPage.jsx:15-22 | the right code completes without error; any other code shows the error and does not complete |
| Survey.SurveyPage.OpenSurvey | frontend_game_UI/src/components/SurveyPage.jsx:24-27 | once opened, the survey stays opened |
| Survey.SurveyPage.EditCode | frontend_game_UI/src/components/SurveyPage.jsx:123-126 | editing sets the code and clears the error |
| Debrief.Remove | frontend_game_UI/src/components/DebriefPage.jsx:64 | `Set.delete`: exactly the other elements remain, distinctness is kept, and removing an absent element changes nothing |
| Debrief.Toggle | frontend_game_UI/src/components/DebriefPage.jsx:55-73 | the "none" box flips and clears the words; a word box flips that word's membership and clears "none"; no word appears twice |
| Debrief.ToggleKeepsWellFormed | frontend_game_UI/src/components/DebriefPage.jsx:55-73 | every toggle keeps the answer well formed: no duplicates, and "none" only with no words |
| Debrief.ToggleTwiceRestores | frontend_game_UI/src/components/DebriefPage.jsx:62-67 | ticking a new word and unticking it again restores the answer exactly |
| Debrief.FindWord | frontend_game_UI/src/components/DebriefPage.jsx:83 | none iff no word has this text; otherwise the first one with it |
| Debrief.FindDetail | frontend_game_UI/src/components/DebriefPage.jsx:84-88 | none iff no detail lists the word ignoring case; otherwise the first such detail |
| Debrief.WordsWithAnagrams | frontend_game_UI/src/components/DebriefPage.jsx:82-95 | one help entry per ticked word, in ticking order |
| Debrief.ListedWordsAreFound | frontend_game_UI/src/components/DebriefPage.jsx:83-92 | a word picked from the list always has a length, and it is valid iff its entry has a reward |
| Debrief.HelpFor | frontend_game_UI/src/components/DebriefPage.jsx:83-92 | the entry names the word and some anagram; a length is present iff the word is in the results, and a valid entry has one |
| Debrief.AnagramLookupIgnoresCase | frontend_game_UI/src/components/DebriefPage.jsx:84-88 | the anagram found for a word does not depend on its case |
| Debrief.SubmittedAnswerIsConsistent | frontend_game_UI/src/components/DebriefPage.jsx:97-102 | for an answer that can be submitted, the logged flag says help was used iff some word was ticked, with one entry per ticked word |
| Debrief.CompletionDisabled | frontend_game_UI/src/components/DebriefPage.jsx:393 | for a well-formed answer, completion is enabled exactly when either "no help" or some word is ticked |
| Debrief.LexLeTotal | frontend_game_UI/src/components/DebriefPage.jsx:151 | the text order compares any two strings |
| Debrief.LexLeTrans | frontend_game_UI/src/components/DebriefPage.jsx:151 | the text order is transitive |
| Debrief.InOrderTotal | frontend_game_UI/src/components/DebriefPage.jsx:149-152 | the comparator (longer first, then by text) orders any two words |
| Debrief.InOrderTrans | frontend_game_UI/src/components/DebriefPage.jsx:149-152 | the comparator is transitive |
| Debrief.Insert | frontend_game_UI/src/components/DebriefPage.jsx:149-152 | insertion adds exactly the new word |
| Debrief.InsertSorted | frontend_game_UI/src/components/DebriefPage.jsx:149-152 | inserting into a sorted list keeps it sorted |
| Debrief.SortWords | frontend_game_UI/src/components/DebriefPage.jsx:149-152 | the sorted list is a permutation of the input |
| Debrief.SortWordsSorted | frontend_game_UI/src/components/DebriefPage.jsx:149-152 | the feedback list is ordered by the comparator and holds exactly the found words |
| Debrief.FeedbackList | frontend_game_UI/src/components/DebriefPage.jsx:149-152 | the listed words are sorted by the comparator and are exactly the words of the results |
| Debrief.FinalReward | frontend_game_UI/src/components/DebriefPage.jsx:301-308 | the reward is defined iff both config fields are present, and is then their product |
| Debrief.DebriefPage.ShownReward | frontend_game_UI/src/components/DebriefPage.jsx:225-234 | a reward is shown iff there are results; it is `min(totalReward, 120)`: it exceeds neither the cap nor the total and equals one of them, and the note appears iff it is less than the total |
| Debrief.DebriefPage.constructor | frontend_game_UI/src/components/DebriefPage.jsx:10-18 | loading, on the results step, nothing ticked, nothing sent |
| Debrief.DebriefPage.Render | frontend_game_UI/src/components/DebriefPage.jsx:131-155 | the spinner shows iff loading; the error screen shows iff loading has ended with an error or without results; the feedback view shows only on its step with results |
| Debrief.DebriefPage.DataLoaded | frontend_game_UI/src/components/DebriefPage.jsx:21-53 | both bodies are taken when both responses were ok, otherwise an error; loading ends |
| Debrief.DebriefPage.ContinueToDebrief | frontend_game_UI/src/components/DebriefPage.jsx:239 | the page moves to the debrief text step |
| Debrief.DebriefPage.ContinueToFeedback | frontend_game_UI/src/components/DebriefPage.jsx:314 | the page moves to the feedback step |
| Debrief.DebriefPage.ToggleUsage | frontend_game_UI/src/components/DebriefPage.jsx:55-73 | the answer becomes the toggle's result and stays well formed |
| Debrief.DebriefPage.Complete | frontend_game_UI/src/components/DebriefPage.jsx:75-129 | with results the answer's details are logged; an ok response completes the page; a failure, or missing results, shows the error |
| StudyFlow.FindStep | frontend_game_UI/src/App.jsx:151-156 | the result is a listed screen with this id, or the landing page |
| StudyFlow.FindListed | frontend_game_UI/src/App.jsx:151-156 | with distinct ids, a listed screen's own id finds that screen |
| StudyFlow.CurrentStepLookup | frontend_game_UI/src/App.jsx:151-156 | every screen's id finds that screen, and an unknown id falls back to the landing page |
| StudyFlow.Info | frontend_game_UI/src/App.jsx:11-39 | every screen has an id and a progress between 0 and 100; only the landing page has no step number |
| StudyFlow.Next | frontend_game_UI/src/App.jsx:80-149 | every screen but the last leads to one with more progress, and numbered screens lead to the next number; the thank-you page is final |
| StudyFlow.CurrentStep | frontend_game_UI/src/App.jsx:151-156 | the displayed screen is the one with this id, or the landing page |
| StudyFlow.FlowOrder | frontend_game_UI/src/App.jsx:11-39 | the handlers take the screens in table order; progress never goes down, from 0 to 100; the step numbers are 1 to 7 |
| StudyFlow.ThankYouLabelOverflows | frontend_game_UI/src/App.jsx:248-249 | as written, the last screen is labelled "Step 7 of 6" |
| StudyFlow.StepLabel | frontend_game_UI/src/App.jsx:245-249 | corrected: every screen but the landing page is labelled "Step k of 7" with 1 <= k <= 7 |
| StudyFlow.App.constructor | frontend_game_UI/src/App.jsx:42-47 | the landing page, no session |
| StudyFlow.App.StartStudy | frontend_game_UI/src/App.jsx:80 | the landing page leads to registration |
| StudyFlow.App.ProlificIdSubmit | frontend_game_UI/src/App.jsx:82-96 | the id is kept; a created session leads to the tutorial, a failure stays on registration; initialising ends |
| StudyFlow.App.TutorialComplete | frontend_game_UI/src/App.jsx:98 | the tutorial leads to the main game |
| StudyFlow.App.MainGameComplete | frontend_game_UI/src/App.jsx:100-103 | the main game's words are kept and the survey follows |
| StudyFlow.App.SurveyComplete | frontend_game_UI/src/App.jsx:105-107 | the survey leads to the meaning check |
| StudyFlow.App.MeaningCheckComplete | frontend_game_UI/src/App.jsx:109-145 | the debrief follows only with both ids and an ok response; otherwise the screen stays |
| StudyFlow.App.DebriefComplete | frontend_game_UI/src/App.jsx:147-149 | the debrief leads to the thank-you page |
| Helpers.Db.constructor | backend_FASTAPI_mongodb/app/utils/helpers.py:9 | the collections as given, with no events and no sessions |
| Helpers.MinShown | backend_FASTAPI_mongodb/app/utils/helpers.py:14 | the least show count: some message has it and none has less |
| Helpers.IncrementShown | backend_FASTAPI_mongodb/app/utils/helpers.py:20-23 | `$inc` raises the count of exactly the messages with this `_id` |
| Helpers.IncrementOnlyChosen | backend_FASTAPI_mongodb/app/utils/helpers.py:20-23 | with distinct `_id`s, only the chosen message changes, and the ids stay distinct |
| Helpers.TotalShownBump | backend_FASTAPI_mongodb/app/utils/helpers.py:20-23 | each selection raises the total show count by one |
| Helpers.GetRandomTheory | backend_FASTAPI_mongodb/app/utils/helpers.py:6-30 | no messages gives 500; otherwise a least-shown message is chosen, its id and text are returned, its count alone rises by one, and the total by one |
| Helpers.FirstGameSolutions | backend_FASTAPI_mongodb/app/utils/helpers.py:41-45 | none iff no game anagram has this word; otherwise the solutions of the first that has it |
| Helpers.FindGameSolutions | backend_FASTAPI_mongodb/app/utils/helpers.py:41-45 | the loop with `break` finds the first matching game anagram |
| Helpers.SolutionsFor | backend_FASTAPI_mongodb/app/utils/helpers.py:41-55 | solutions used are never empty; the lookup fails iff no game anagram has solutions and there is no tutorial; solutions other than the game anagram's are the tutorial's, for a tutorial with this word |
| Helpers.Judge | backend_FASTAPI_mongodb/app/utils/helpers.py:56-61 | valid iff the length key is present and its list holds the upper-case word; an invalid word earns 0; a non-zero reward is the table entry for the length |
| Helpers.ValidateWord | backend_FASTAPI_mongodb/app/utils/helpers.py:32-63 | every failure is 500; the result is ok iff there is a config and some non-empty solutions for the anagram, game anagrams first, then the tutorial; the verdict is the per-length check |
| Helpers.JudgeAgreesWithFrontEnd | backend_FASTAPI_mongodb/app/utils/helpers.py:56-61 | the back end judges a non-empty word exactly as the front end does, with the same reward |
| Helpers.GameAnagramsFirst | backend_FASTAPI_mongodb/app/utils/helpers.py:42-50 | a matching game anagram with solutions takes precedence over the tutorial |
| Helpers.PrepareEvent | backend_FASTAPI_mongodb/app/utils/helpers.py:79-83 | `None` values are dropped, the other keys keep their values, and a timestamp is added only when missing |
| Helpers.PrepareIdempotent | backend_FASTAPI_mongodb/app/utils/helpers.py:79-83 | preparing an event twice is the same as preparing it once |
| Helpers.LogGameEvent | backend_FASTAPI_mongodb/app/utils/helpers.py:75-92 | a successful insert stores the prepared event and returns true; a failed one raises a `NameError`, because `logger` is undefined |
| Helpers.MeaningFlag | backend_FASTAPI_mongodb/app/utils/helpers.py:112 | a missing meaning counts as false, a text counts iff it is not blank, and any other value raises |
| Helpers.CheckWordMeanings | backend_FASTAPI_mongodb/app/utils/helpers.py:105-114 | every entry keeps its fields and gains `isCorrect`; it fails iff some `providedMeaning` is not a string |
| GameService.Canonical | backend_FASTAPI_mongodb/app/services/logic.py:72 | an object id keeps its length and stays an object id when written in lower case |
| GameService.NewSession | backend_FASTAPI_mongodb/app/services/logic.py:23-35 | a new session belongs to the participant, with every completion flag false |
| GameService.Service.constructor | backend_FASTAPI_mongodb/app/services/logic.py:11-12 | the service works on the given database |
| GameService.Service.InitializeSession | backend_FASTAPI_mongodb/app/services/logic.py:14-40 | get-or-create: a participant's existing session is returned unchanged; otherwise one new session is added under the fresh id; ids and participants stay unique |
| GameService.Service.InitializeGame | backend_FASTAPI_mongodb/app/services/logic.py:42-61 | every failure is 500; the config is read first, then a message is chosen and counted even when a later lookup fails; the first anagram and the time settings are returned |
| GameService.Service.InitializeTutorial | backend_FASTAPI_mongodb/app/services/logic.py:64-96 | the outcome is the checks in order: 422 for a bad id, 404 for a missing session, config or tutorial, 500 for a missing time setting |
| GameService.Service.ProcessMeaningSubmissions | backend_FASTAPI_mongodb/app/services/logic.py:103-124 | a malformed id gives 500; otherwise the matching session gets the meaning record, and the call reports success even when none matched |
| GameService.TutorialCheckOrder | backend_FASTAPI_mongodb/app/services/logic.py:66-96 | a bad id is refused before anything is looked up; success holds iff everything is present, and it returns the tutorial word and time; every error is 404, 422 or 500 |
| GameService.TutorialIdCaseInsensitive | backend_FASTAPI_mongodb/app/services/logic.py:68-75 | an upper-case spelling of a session id finds the same session |
| GameService.TutorialOutcome | backend_FASTAPI_mongodb/app/services/logic.py:64-96 | every error is 404, 422 or 500; success needs a well-formed id of a stored session and a tutorial entry, whose word is returned |
| GameService.TutorialOutcomeCorrected | backend_FASTAPI_mongodb/app/services/logic.py:88-91 | corrected: the same checks and errors, and on success the tutorial word and time together with the entry's solutions |

## Left out

- The HTTP layer (`routes/endpoints.py`) and the Pydantic models (`models/schemas.py`) are not part of this model. Request bodies reach the service methods as already-parsed values.
- `LandingPage.jsx`, `vite.config.js`, `ProlificIdPage`, `ThankYouPage` and `CoinIcon` are not part of this model.
- `TestPage.jsx` is not part of this model. `App.jsx` renders it for the main-game step; its completion handler is modelled, and the game it evidently hosts is `AnagramGame/index.jsx`.
- `validate_word_submission` (logic.py:99-101) only forwards to `validate_word`, so it has no member of its own; `Helpers.ValidateWord` models both.
- `get_game_config` and `update_session_status` (helpers.py:65-103) are not modelled separately. `InitializeGame` inlines the first one's lookup, including its 500 on a missing config.
- Network failures are parameters: a boolean response flag or an `Option` body. Database failures are modelled only as the `insertOk` parameter of `LogGameEvent`.
- Clocks are `now` arguments in milliseconds. `setInterval` and `setTimeout` firings are caller-driven method calls. React's re-render order, stale closures and effect re-runs are not modelled.
- `Math.random` shuffles are parameters, constrained to be permutations of the word. `random.choice` is a nondeterministic `:|` choice among the least-shown messages.
- Notifications, toasts, `console` output, `alert` text and styling are left out. The bodies of `logGameEvent` calls are left out. `timeSpent`, `validatedAt` and `submittedAt` timestamps are left out.
- `Text.ToUpper`, `Text.ToLower`, `Text.Trim`: ASCII only. JavaScript's and Python's Unicode case mapping and whitespace classes are not modelled.
- `Debrief.LexLe`: `localeCompare` is approximated by character-code order; the result is a total order, as the sort needs.
- `Ledger.IsValidWord`: solution lists are keyed by the word length as a number, not by the string `str(len)`. The two are in one-to-one correspondence.
- `Helpers.PrepareEvent`: Python dict key order is not modelled; documents are maps.
- `MainGame.AnagramGame.Validate`: `isValid` is stored as `Some(bool)`. The source's `undefined` for a missing length key is read as false, which is how every later use treats it.
- `MainGame.StudyConfig`: a stored config body is reduced to its rewards and its `game_anagrams`, each present or absent; an error body has neither. Any other content of an error body is not modelled.
- `Debrief.AnagramDetail`: each detail's words are kept as their texts, which is all of `w.word` that DebriefPage.jsx:84-88 reads.
- `Workspace.Drop`: a reorder drag whose index lies outside the solution can only come from a forged payload; it is excluded by a precondition.
- `MainGame.AnagramGame.InitGame`: a `timeSettings` object without `game_time` is treated like a missing `timeSettings`, so it shows the error. The source instead starts the round with an undefined clock. The clock is an integer in the model, so it cannot be undefined.
- `MainGame.InitResponse`: the front end targets a back-end API that is not the one in this repository. It reads `currentMessage` and `solutions` from `/api/game/init` (index.jsx:173-185), which `initialize_game` (logic.py:54-59) does not return. It sends `?sessionId=`, where endpoints.py:45 and :63 take `session_id`. It calls `/api/word-submissions`, `/api/game/next`, `/api/tutorial/complete` and `/api/game-results`, which endpoints.py does not define. `InitResponse`, `NextRound` and the other response types therefore model the bodies the front end expects. Only `MainGame.InitResponseOf` and `Tutorial.PracticeWordOf` connect them to this repository's records, and `MainGame.BackEndInitSkipsMessage` states what follows from that connection.
- `MainGame.AnagramGame.HandleDrop`, `Tutorial.Practice.HandleDrop`: the same precondition as `Workspace.Drop`.
- `Tutorial.Practice.Submit`: the `catch` branch (TutorialGame.jsx:322-331) is unreachable in the model, because the logging call swallows its own errors.
- `GameService.Service.ProcessMeaningSubmissions`: the source writes the meaning record at the top-level `completionStatus.meaningCheck`, while sessions are created with the flag under `gameState.completionStatus`. This is modelled as written, so the creation flag stays false (`GameService.RegistrationFlow`). It is not claimed as a defect, because no reader of either field is part of this model.
- `Helpers.LogGameEvent`: `logger` is not defined in helpers.py, so the failure path raises `NameError` instead of the intended 500. It is modelled as `Unhandled`.
- `GameService.Service.InitializeSession`: the metadata's shape, and the database's own id generation, are replaced by an arbitrary document and a fresh canonical id parameter.

## Findings

| source | as written | input that shows it | evidently intended | confidence | as-written member | corrected member |
|---|---|---|---|---|---|---|
| frontend_game_UI/src/components/AnagramGame/MessageDisplay.jsx:30-34 | calls `onMessageShown()` with no argument, while `handleMessageShown` (index.jsx:411-420) reads `messageData.messageId` before it sets the phase to play | any init response with a `currentMessage`: the read throws, and the game stays on the message screen | leaving the message starts play | high (not executed) | MainGame.MessagePhaseIsStuck | MainGame.AnagramGame.MessageShownCorrected |
| frontend_game_UI/src/components/AnagramGame/TutorialGame.jsx:363-367 | on expiry the timer sets `isSubmitted.current = true` before it calls `handleSubmit`, which returns at its guard (TutorialGame.jsx:282) | a practice round whose clock reaches 0 before a manual submit: no results appear, Submit does nothing, and the button that leads on is never shown | "Game will automatically submit when time runs out" (TutorialGame.jsx:545): expiry shows the results | high (not executed) | Tutorial.ExpiryWithoutResults | Tutorial.Practice.TickCorrected |
| frontend_game_UI/src/App.jsx:249 | the step total is `Object.values(STEPS).length - 2` = 6, but the numbered steps run from 1 to 7 | the thank-you screen: "Step 7 of 6" | a total of 7, the number of numbered screens | high (not executed) | StudyFlow.ThankYouLabelOverflows | StudyFlow.StepLabel |
| backend_FASTAPI_mongodb/app/services/logic.py:88-91 | the tutorial body holds only `word` and `timeLimit`, while TutorialGame.jsx:192 stores `tutorialData.solutions` as the practice solutions | any practice round: the solutions are `undefined`, so every word is judged invalid and the practice reward is 0 | the body carries the tutorial entry's solutions, so practice words are judged as the back end judges them | high (not executed) | Tutorial.TutorialSolutionsMissing | GameService.TutorialOutcomeCorrected |
