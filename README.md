# Focus-tracking video player session, modelled in Dafny

This project models the session controller of a React lecture player,
`src/components/VideoPlayer.js`. A webcam classifier labels each frame as
looking left, right, centre, or "face not detected". The controller debounces
those labels into a focused or unfocused state, using 2000 ms accumulators.
It reacts according to the session mode:

- **Free mode**: nothing happens.
- **Pause mode**: it pauses the embedded player on losing focus and resumes
  it on regaining focus.
- **Question mode**: it freezes the session and asks a multiple-choice
  question drawn from a fetched bank. Answering opens a decision modal. The
  decision modal unfreezes the session with "continue", or with "rewind",
  which seeks to the question's timecode first.

Every 3 s a focus bucket (1 or 0) is recorded while the session is not
frozen. When the session ends, the buckets become a summary of labelled
intervals and a total unfocused time.

Modules:

- `Wrappers`: `Option` and `Result`.
- `Decimal`: digit strings and their values.
- `Timecode`: `timeStringToSeconds`.
- `Answers`: the answer "shuffle", both as written and corrected.
- `QuestionBank`: normalisation of the fetched payload.
- `Questions`: a `Question` class whose answer array `shuffleAnswers`
  splices in place, and the random selection `getRandomQuestion`.
- `Focus`: the debouncer step and the reaction it calls for, as pure
  functions, with lemmas about runs of samples.
- `Summary`: the session report.
- `Session`: the `VideoSession` class holding the refs and state of the
  component, with one method per handler.

The methods of `VideoSession` keep the invariant `Valid()`:

- The debouncer is settled.
- Every bucket is 0 or 1.
- The session is frozen exactly while one of the two modals is open, and
  never both are open.
- A shown question has a correct answer first, and its id is the last
  prompted id.
- No two bank questions share an answer array, so shuffling one question
  leaves every other question's answers as they were.

Each method's `ensures` ties its new state to pure functions: `Step`,
`ReactionTo`, `Shuffle`, `Drawn` and `Prompted` (which question a prompt
picks), `ShownFor` (what it shows), `TimeStringToSeconds` and `Summarize`.
The gaze handler is registered once, when the component mounts. It
therefore sees the session's paused flag as it was at mount; the model
keeps that value as `pausedAtMount`.

Inputs the component takes from its surroundings become parameters:

- Wall-clock times become `now`.
- The `Math.random()` values become a sequence `draws` of reals in [0, 1).
- The classified gaze becomes a `Gaze` value.
- The fetch result becomes a `Fetched` value.

Calls made on the player are recorded in `playerLog`.

## Model

| member | source | states |
|---|---|---|
| Decimal.ToString | src/components/VideoPlayer.js:268-270 | the decimal spelling of a non-negative whole number is all digits, non-empty, and starts with '0' only for 0 itself |
| Decimal.ValueOfToString | src/components/VideoPlayer.js:308 | reading the decimal spelling of n back with `Number` gives n |
| Decimal.ToStringInjective | src/components/VideoPlayer.js:268-270 | distinct numbers have distinct spellings |
| Timecode.Split | src/components/VideoPlayer.js:308 | `split(':')` gives at least one piece, no piece holds a colon, and joining the pieces with colons gives the string back |
| Timecode.SplitJoin | src/components/VideoPlayer.js:308 | splitting colon-free pieces joined by colons gives the same pieces |
| Timecode.TimeStringToSeconds | src/components/VideoPlayer.js:307-321 | any non-numeric piece gives 0, and any piece count other than 2 or 3 gives 0 |
| Timecode.HoursMinutesSeconds | src/components/VideoPlayer.js:313-314 | "h:m:s" with digit pieces is h*3600 + m*60 + s |
| Timecode.MinutesSeconds | src/components/VideoPlayer.js:315-316 | "m:s" with digit pieces is m*60 + s |
| Timecode.WrittenTimecodeRoundTrip | src/components/VideoPlayer.js:307-321 | parsing the decimal writing of h, m and s joined by colons gives h*3600 + m*60 + s |
| Answers.FirstCorrect | src/components/VideoPlayer.js:628 | `findIndex` gives the least index of a correct answer, and gives -1 (`None`) exactly when no answer is correct |
| Answers.ShuffleAsWritten | src/components/VideoPlayer.js:621-640 | the as-written shuffle throws exactly on an empty answer array, and otherwise agrees with `Shuffle` |
| Answers.ShuffleWithCorrect | src/components/VideoPlayer.js:637-639 | with a correct answer at the first correct index k, the shown list is a permutation of the answers with answer k first and the others in their order, and the question keeps exactly the others |
| Answers.ShuffleWithoutCorrect | src/components/VideoPlayer.js:630-635 | with no correct answer, the same list comes back with its first answer marked correct, and the question keeps it |
| Answers.ShuffleSurfacesCorrect | src/components/VideoPlayer.js:616-640 | a non-empty answer list always comes back with the same length, a correct answer first and the same keys |
| Answers.ShuffleSingleCorrect | src/components/VideoPlayer.js:637-639 | with exactly one correct answer, it is shown first and every other shown answer is incorrect |
| Answers.DefaultShuffleKeepsOrder | src/components/VideoPlayer.js:136-145 | the fallback question shows its answers in written order, with "Yes 100%" first and correct |
| Answers.ShuffleLowersPotential | src/components/VideoPlayer.js:630-639 | each shuffle of a non-empty list strictly lowers (2·length − 1 if a correct answer remains, else 2·length) of what it leaves in the question |
| Answers.ShufflesEmptyTheQuestion | src/components/VideoPlayer.js:630-639 | after that many shuffles of one question, its answer array is empty |
| Answers.AsWrittenThrowsAfterRepeatedShuffles | src/components/VideoPlayer.js:630-635 | as written, the shuffle after 2·|answers| shuffles of one question throws |
| Answers.ShuffleTwiceMarksNextAnswer | src/components/VideoPlayer.js:637-639 | with only its first answer correct, a question shows its answers in order on the first prompt; the splice leaves the rest in the question, so the second prompt shows the next answer marked correct in front |
| Answers.FallbackSecondPrompt | src/components/VideoPlayer.js:592-601 | as written, the second fallback prompt shows three answers with "Yes 80%" marked correct |
| Answers.FallbackThrowsOnEighthPrompt | src/components/VideoPlayer.js:592-601 | as written, the eighth fallback prompt finds the fallback object's answer array empty and throws |
| Answers.IsCorrectChoice | src/components/VideoPlayer.js:648-649 | the result is the correct flag of the first shown answer with the chosen key, and false when no shown answer has that key |
| QuestionBank.KeepTruthy | src/components/VideoPlayer.js:199-204 | `.filter(ans => ans.text)` keeps exactly the slots with non-empty text, and is empty exactly when no slot has text |
| QuestionBank.KeepTruthySingle | src/components/VideoPlayer.js:199-204 | one slot is kept exactly when its text is non-empty |
| QuestionBank.KeepTruthyAppend | src/components/VideoPlayer.js:199-204 | filtering two runs of slots one after the other gives the filtered first run followed by the filtered second, so the filter keeps slot order |
| QuestionBank.NormalizeBank | src/components/VideoPlayer.js:196-238 | a bare array and a `questions` array are normalised record by record; any other payload and a failed fetch give an empty bank |
| QuestionBank.SlotPresence | src/components/VideoPlayer.js:199-204 | a slot with a key of its own yields an answer with that key exactly when it has text |
| QuestionBank.NormalizedAnswers | src/components/VideoPlayer.js:197-209 | a normalised record keeps its id, prompt and timecode, has at most four answers, all with text, and answerN appears exactly when its text is present |
| Questions.Question.constructor | src/components/VideoPlayer.js:206-209 | a loaded question holds the normalised record's fields, and its fresh answer array holds the normalised answers |
| Questions.Question.ShuffleAnswers | src/components/VideoPlayer.js:621-640 | the in-place shuffle returns `Shuffle(old answers).shown` and leaves `Shuffle(old answers).remaining` in the question's array |
| Questions.Question.Splice | src/components/VideoPlayer.js:638 | `splice(k, 1)` leaves the array without its k-th element, with the rest in order |
| Questions.LoadQuestions | src/components/VideoPlayer.js:197-209 | each normalised record becomes a fresh question object with the record's fields and answers, and no two of them share an answer array |
| Questions.FirstCorrectIsFirst | src/components/VideoPlayer.js:628 | the index the `findIndex` loop stops at is the first correct index |
| Questions.Pick | src/components/VideoPlayer.js:549 | `Math.floor(r * n)` for r in [0, 1) is a valid index |
| Questions.Picks | src/components/VideoPlayer.js:546-549 | ten draws give ten valid indices |
| Questions.SelectFrom | src/components/VideoPlayer.js:548-563 | the retry loop returns the FIRST drawn index whose id differs from the last prompted id (every earlier draw hit that id), and returns nothing exactly when every draw hit that id |
| Questions.SelectSpec | src/components/VideoPlayer.js:530-564 | `getRandomQuestion` returns nothing exactly for an empty bank or ten repeats; it returns the only question of a one-question bank; otherwise it returns the index of the first of the ten draws that misses the last prompted id |
| Questions.PickOfFraction | src/components/VideoPlayer.js:549 | the draw j/n lands on index j |
| Questions.SelectCanFallBack | src/components/VideoPlayer.js:561-563 | a bank of two or more questions can still yield nothing, when all ten draws hit the last prompted question |
| Focus.Step | src/components/VideoPlayer.js:410-459 | one sample gains focus exactly when it is centred and takes the focus accumulator to 2000 ms; it loses focus exactly when it is off-centre and takes the unfocus accumulator to 2000 ms; a flip resets both accumulators; the settled invariant is preserved |
| Focus.ReactionTo | src/components/VideoPlayer.js:428-520 | resume exactly on gaining focus in pause mode with a player and no modal; pause on losing focus in pause mode, or on any non-centre gaze while unfocused; ask exactly on the same events in question mode with no modal; nothing in free mode or without a player |
| Focus.CentredRunStaysFocused | src/components/VideoPlayer.js:418-442 | once focused, centred samples keep the viewer focused and flip nothing |
| Focus.CentredRunFocusesOnce | src/components/VideoPlayer.js:418-426 | centred samples from unfocused end focused exactly when the accumulated time plus the run's duration reaches 2000 ms, and then focus was gained exactly once |
| Focus.OffCentreRunStaysUnfocused | src/components/VideoPlayer.js:443-458 | once unfocused, off-centre samples keep the viewer unfocused and flip nothing |
| Focus.OffCentreRunUnfocusesOnce | src/components/VideoPlayer.js:451-459 | off-centre samples from focused end unfocused exactly when the accumulated time plus the run's duration reaches 2000 ms, and then focus was lost exactly once |
| Focus.RunKeepsSettled | src/components/VideoPlayer.js:410-459 | every run of samples keeps both accumulators below their thresholds, with at most one running, and that one counting towards a flip |
| Focus.PauseRepeatsWhileUnfocused | src/components/VideoPlayer.js:488-500 | in pause mode, every off-centre sample while unfocused pauses the player again |
| Summary.OrUnknown | src/components/VideoPlayer.js:282-289 | a missing or empty field is reported as "Unknown", and any other value as itself |
| Summary.IntervalsDescribeBuckets | src/components/VideoPlayer.js:264-275 | one interval per bucket, labelled by its offsets, tiling the session from its start in 3000 ms steps; 0% not focused exactly for a 1 bucket, and 100% exactly for a 0 bucket |
| Summary.TotalMatchesIntervals | src/components/VideoPlayer.js:264-278 | the total unfocused time is 3000 ms for each 100% interval |
| Summary.TotalIsUnfocusedBuckets | src/components/VideoPlayer.js:277-278 | the total unfocused time counts the buckets that are not 1, and never exceeds the bucketed span |
| Summary.IntervalLabelsDistinct | src/components/VideoPlayer.js:268-270 | no two intervals share a label |
| Session.Drawn | src/components/VideoPlayer.js:530-564 | the question `getRandomQuestion` returns is a bank member; it is the only question of a one-question bank; with two or more it is `bank[Pick(draws[k])]` for the first draw k that misses the last prompted id; there is none exactly for an empty bank or ten draws that all hit the last prompted id |
| Session.AfterRepeatGuard | src/components/VideoPlayer.js:571-579 | after the repeat guard the question is a bank member; a match that is not the last prompted question, or the only question of a one-question bank, is kept as it is; no match stays none; a repeat is replaced by a redraw, so with two or more questions the result is never the last prompted one |
| Session.Prompted | src/components/VideoPlayer.js:478-485 | the question a gaze-path prompt picks is a bank member: none for an empty bank, the only question of a one-question bank, and with two or more questions the question of the first of the first ten draws that misses the last prompted id, with none exactly when all ten land on it |
| Session.ShownFor | src/components/VideoPlayer.js:581-601 | a prompt shows a correct answer first; it shows the chosen question under its own id, prompt and timecode, with the same number of answers and the same keys, exactly when a question was chosen and its answer list is non-empty; otherwise it shows the fallback question |
| Session.VideoSession.constructor | src/components/VideoPlayer.js:91-134 | a new session is unfocused, unfrozen, with no question, no bank, no buckets, no player and the bucket interval running; the paused flag at mount is kept for the gaze handler |
| Session.VideoSession.PlayerReady | src/components/VideoPlayer.js:690-700 | a ready player is paused or started to match the session's paused flag |
| Session.VideoSession.SessionPausedChanged | src/components/VideoPlayer.js:246-256 | a ready player follows the host's pause flag |
| Session.VideoSession.QuestionsFetched | src/components/VideoPlayer.js:189-238 | the bank becomes one fresh question per record of `NormalizeBank(f)`, with the same fields and answers |
| Session.VideoSession.GetRandomQuestion | src/components/VideoPlayer.js:530-564 | the loop returns exactly the question `Drawn` names for the same bank, last prompted id and draws |
| Session.VideoSession.ShowDefaultQuestion | src/components/VideoPlayer.js:592-601 | the fallback question is shown with its answers in written order, and the last prompted id is cleared |
| Session.VideoSession.ShowBankQuestion | src/components/VideoPlayer.js:581-590 | the question shown is `ShownFor` the chosen question and its answers before the shuffle; its array keeps what the shuffle leaves; every other bank question's answers are unchanged |
| Session.VideoSession.ShuffleInBank | src/components/VideoPlayer.js:582 | shuffling one bank question returns `Shuffle(old answers).shown`, leaves the rest in its array, and changes no other bank question |
| Session.VideoSession.AvoidRepeat | src/components/VideoPlayer.js:571-579 | the question after the repeat guard is exactly `AfterRepeatGuard` of the matched question: a non-repeating match passes through, and a repeat is redrawn once |
| Session.VideoSession.ShowChosen | src/components/VideoPlayer.js:581-601 | the question shown is `ShownFor` the chosen question, or the fallback when none was chosen; only the chosen question's answers change |
| Session.VideoSession.PromptQuestion | src/components/VideoPlayer.js:570-613 | the session freezes with the question modal open and the player paused; the question shown is `ShownFor` the `AfterRepeatGuard` choice and its answers before the prompt; that question keeps what its shuffle leaves, and every other bank question is unchanged; with two or more questions the last prompted question is not shown again |
| Session.VideoSession.OpenQuestionModal | src/components/VideoPlayer.js:604-612 | the session freezes, the question modal opens, a ready player is paused, and no bank question changes |
| Session.VideoSession.HandleVideoPlayback | src/components/VideoPlayer.js:401-523 | a frozen session ignores the sample; otherwise the focus state becomes `Step` of the old one, with the paused flag seen at mount, and the player log, freeze and question follow `ReactionTo` case by case; on a question it shows `ShownFor` the `Prompted` question; only that question's answers can change |
| Session.VideoSession.CentredSample | src/components/VideoPlayer.js:410-442 | a centred sample steps the debouncer, and resumes the player exactly when `ReactionTo` says resume |
| Session.VideoSession.OffCentreSample | src/components/VideoPlayer.js:443-521 | an off-centre sample steps the debouncer and pauses, or prompts a question, exactly as `ReactionTo` says; a prompt shows `ShownFor` the `Prompted` question, and only that question's answers change |
| Session.VideoSession.LeaveCentre | src/components/VideoPlayer.js:443-521 | the debouncer half of an off-centre sample: the focus state becomes `Step`, it pauses on `PausePlayback`, and it reports a due question exactly on `AskQuestion` |
| Session.VideoSession.LoseFocus | src/components/VideoPlayer.js:451-487 | while focused, focus flips exactly when the unfocus accumulator reaches 2000 ms; then it pauses in pause mode, and a question is due in question mode |
| Session.VideoSession.StayUnfocused | src/components/VideoPlayer.js:488-521 | while unfocused, every non-centre gaze pauses in pause mode, and calls for a question in question mode |
| Session.VideoSession.PromptRandomQuestion | src/components/VideoPlayer.js:475-485 | the question shown is `ShownFor` the `Prompted` question and its answers before the prompt; that question keeps what its shuffle leaves and no other bank question changes; with two or more questions it is not the last prompted one |
| Session.VideoSession.OnResults | src/components/VideoPlayer.js:356-367 | the clock advances to `now` even while frozen; a frozen session otherwise changes nothing, neither focus, player, question nor bank; otherwise the sample, with the time since the previous frame as its delta, steps the debouncer and its reaction follows `ReactionTo` case by case, a question showing `ShownFor` the `Prompted` question and changing only that question's answers |
| Session.VideoSession.AdvanceClock | src/components/VideoPlayer.js:357-359 | the delta is the time since the previous frame and the clock moves to `now`; the focus state and the bank are unchanged |
| Session.VideoSession.HandleAnswer | src/components/VideoPlayer.js:646-654 | the question modal gives way to the decision modal, and the recorded correctness is that of the chosen key's answer (the first shown answer is correct) |
| Session.VideoSession.HandleDecision | src/components/VideoPlayer.js:660-688 | "continue" unfreezes and plays; "rewind" unfreezes, seeks to the question's timecode in seconds and plays; any other decision changes nothing |
| Session.VideoSession.Tick | src/components/VideoPlayer.js:323-352 | while the interval runs and the session is not frozen, the current focus is appended as 1 or 0; otherwise the buckets are unchanged |
| Session.VideoSession.EndSession | src/components/VideoPlayer.js:258-300 | the interval stops and the returned summary is `Summarize` of the buckets so far |

## Left out

- Camera capture, MediaPipe face mesh and `estimateGaze` (lines 154-183, 369-399) are left out. The classified gaze is an input.
- The chart (`chartData`, colours, `Bar`) and the `chartData` field of the summary are left out.
- The YouTube embed's `onPlayerStateChange` and the `isPlaying` flag are left out. Player calls are recorded in `playerLog` instead.
- The network request (`fetchQuestionsForVideo`) is left out. Its outcome is a `Fetched` value, and a rejected request is `FetchFailed`. The condition that triggers the fetch (question mode and a video id) is not modelled: `QuestionsFetched` may be called in any mode.
- `toLocaleTimeString` rendering is left out. Times in the summary stay as millisecond numbers.
- React's render cycle is left out:
  - The gaze handler is the one built at mount. The model reads the current modal flags where that handler reads their mount-time values (both false). Both are false whenever a sample gets past the frozen check, so the two readings agree.
  - Session.VideoSession.ShowDefaultQuestion: shows a fresh fallback question on every prompt. As written, the gaze path shuffles one mount-time fallback object in place; the second row under Findings covers that erosion.
- The `mode` prop is constant over a session. The effect that restarts the bucket interval when the mode changes is not modelled.
- Timecode.PartValue: the model does not capture all of `Number` conversion. Only digit strings are numbers; whitespace, signs, decimals and exponents are treated as NaN.
- QuestionBank.NormalizeBank: the model assumes every fetched record is an object, that `q_id` is present and is a string, that answer texts are strings, and that `answerN_correct` is a boolean. A `null` or non-object element of the fetched array (or of its `questions` array) makes `q.answer1` throw inside the `.map` at line 197 or 212, and the `.catch` at lines 233-237 then empties the whole bank; `RawQuestion` cannot express such a record. Other truthy values of the fields are not modelled.
- `getCurrentTime()` is left out, because its value is never used.
- Session.VideoSession.HandleVideoPlayback: a question prompt takes its first ten random values for the first draw and the next ten for a possible redraw. It does not model them as one shared random stream.
- Samples that arrive after the session ends are not made inert; the component does not do so either.
- Session.VideoSession.EndSession: it takes its end time as a parameter, and does not model the `sessionEnded` effect that calls it.
- Session.VideoSession.ShuffleInBank: keeps the in-place erosion of a bank question as written. `splice` removes the correct answer from the question's own array, so the second prompt of a question whose first answer alone is correct shows the next answer marked correct (`Answers.ShuffleTwiceMarksNextAnswer`), and repeated prompts empty the array (`Answers.ShufflesEmptyTheQuestion`). The model does not replace this with a shuffle of a copy; it corrects only the throw on an empty array.
- Session.VideoSession.HandleDecision: the timecode is a string in the model. On "rewind", a record without `time_start_I_can_ask_about_it` reaches `timeStr.split` (line 308) through the call at line 678 and throws. The decision modal has closed by then, but line 686, which unfreezes the session, never runs. That path is not modelled.
- Session.VideoSession.OnResults: requires a clock that does not go backwards. `Date.now()` can step back when the system clock is adjusted, which would give a negative delta; that case is not modelled.

In pause mode the code pauses the player again on every off-centre sample while the viewer is unfocused (lines 488-500), not only once when focus is lost. `Focus.ReactionTo` and `Focus.PauseRepeatsWhileUnfocused` model that repeated pause.

## Findings

| source | as written | input that shows it | evidently intended | confidence | as-written member | corrected member |
|---|---|---|---|---|---|---|
| src/components/VideoPlayer.js:630-635 | on an empty answer array, `findIndex` gives -1 and `question.answers[0].correct = true` throws a TypeError. The empty-shuffle guard at lines 583-585 can never run; it also would not show the fallback question. Because `splice` removes the correct answer from the bank question's own array, repeated prompts erode it until the throw is reached; the model keeps that erosion as written (see "## Left out") and corrects only the throw. | a bank record whose four answer texts are all missing; or a one-question bank with four answers, one correct: successive prompts leave it 3, 3, 2, 2, 1, 1 and 0 answers, so the 8th prompt throws | an empty answer list shows the fallback question | high (not executed) | Answers.ShuffleAsWritten, Answers.AsWrittenThrowsAfterRepeatedShuffles | Answers.Shuffle, Answers.ShuffleSurfacesCorrect, Session.VideoSession.ShowBankQuestion |
| src/components/VideoPlayer.js:592-601 | the gaze handler is registered at mount (line 168) and keeps that render's `promptQuestion`, whose `defaultQuestion` (lines 136-145) is one object. Every fallback prompt shuffles that object in place, so it erodes like a bank question. | a question-mode session with an empty bank: the second fallback prompt shows three answers with "Yes 80%" marked correct; prompts show 4, 3, 3, 2, 2, 1 and 1 answers, and the 8th throws | every fallback prompt shows the four written answers with "Yes 100%" correct | high (not executed) | Answers.FallbackSecondPrompt, Answers.FallbackThrowsOnEighthPrompt | Session.VideoSession.ShowDefaultQuestion, Answers.DefaultShuffleKeepsOrder |
