# Quiz session runtime of the RFL Russian-grammar trainer

This project models the practice screen of a small React app for learning Russian grammar, and the two lessons the app ships with. A lesson is a list of questions, and the practice view runs one question at a time:

- A multiple-choice question is judged when the check button is pressed.
- A typed answer is entered on an on-screen keyboard. It is judged case-insensitively, ignoring surrounding white space.
- A drag question shows a word on a card. The card is dragged onto one of the lesson's drop zones. Releasing it over a zone settles the question, and a correct drop adds the word to that zone's history.

The view counts points and advances through the questions. On the last question it reports a completion score and the number of questions.

Layout:

- `types.dfy` (module `Types`): exercise kinds, gender tags, the question and lesson records without their translated text.
- `text.dfy` (`Text`): the case folding and trimming used for typed answers.
- `answer.dfy` (`Answer`): how the check button judges an answer.
- `geometry.dfy` (`Geometry`): the rectangle hit-test and the loop that finds the zone under the card.
- `zones.dfy` (`Zones`): the drop zones each lesson offers.
- `lessons.dfy` (`Lessons`): the noun-gender and plurals lessons as constants, with their consistency checks.
- `session_spec.dfy` (`SessionSpec`): the view's state as a value and one function per handler. It also holds the session invariant, an event-run model, and the lemmas about runs.
- `quiz_session.dfy` (`Quiz`): class `QuizSession`. Its fields are the view's state and its methods are the handlers. Each method updates fields in place and promises the state the matching `SessionSpec` function gives.
- `scenarios.dfy` (`Scenarios`): concrete sessions driven through the methods, with their outcomes.

Modelling choices:

- **Integer coordinates.** Pixel coordinates are integers. The card's centre `left + width / 2` is kept exact by doubling: the doubled centre is compared with doubled zone edges.
- **Rectangles as inputs.** The card's and the zones' bounding rectangles are parameters of `PointerMove`. The zones come in their registration order. A zone whose element is gone is an entry with no rectangle.
- **The moved card.** The model places the card at its rectangle at rest, shifted by the offset computed in the same pointer move, and tests the centre of that shifted rectangle. The source measures the card on screen instead; see "## Left out" for how the two differ.
- **Handler preconditions.** The handlers are written as the view wires them up:
  - the option buttons exist only for an unanswered multiple-choice question;
  - the on-screen keyboard, with its key press and backspace, exists only for an unanswered typed question;
  - the check button exists only for questions that are not drag questions;
  - the card's pointer handlers, including cancel and leave, exist only for drag questions;
  - the zones on screen are the lesson's own;
  - a lesson without questions shows only the empty notice, so no handler is reachable there.

  `SessionSpec.Enabled` states these conditions for the event-run model, and a run ignores an event that has no handler at that point. The check button and the card are hidden once the question is answered, but `Enabled` still offers them there: their handlers' own guards make them no-ops (next point and `SessionSpec.CommitAtMostOnce`).
- **`Check` is wider than its button.** The button is hidden once the question is answered, and disabled for multiple choice with nothing selected. `Check` still accepts both cases and handles them as the handler does: a no-op once answered, and a wrong answer when nothing is selected.
- **`Next` has no answered guard**, like the handler in the source. The model treats it as callable at any time on a lesson with questions. It is the next button of multiple-choice and typed questions. For a drag question it also stands for the advance 1200 ms after a drop, which moves on to the next question in the same way; on the last question that advance reports differently (next point).
- **Order of folding and trimming.** The source lower-cases and then trims. `Text.TrimLowerCommute` proves that the other order gives the same result, so "lower(trim(input))" is the same comparison.
- **Last overlapping zone wins.** The hit-test keeps the last zone in iteration order that contains the centre, so with overlapping zones the later one wins (`Geometry.OverlapLaterZoneWins`).
- **Reported completion score.** The view reports `isCorrect ? score + 1 : score` on the last question. The model keeps `score` as the true count, and the reported value is the separate function `SessionSpec.ReportedScore`. What that reports depends on the kind of the last question:
  - Multiple-choice and typed questions finish through the next button, which reads the current fields. `score` already includes a correct last answer, so it is counted twice. `SessionSpec.CorrectLastCheckReportedTwice` proves this for every state, and `Scenarios.SingleRightAnswerReportedTwice` reports 2 out of 1.
  - Drag questions have no next button and finish through the timer started by the drop. The timer runs the next handler of the render in which the card was released, so it reads the fields from before the drop: `isCorrect` false and the score without the drop's point. A correct last drop is therefore not counted at all. `SessionSpec.TimerReportMissesLastDrop` proves this. Both shipped lessons are made of drag questions only, so a perfect noun-gender run reports 9 out of 10.
  - `SessionSpec.CorrectLastDropReportedTwice` shows what calling `Next` on the fields after the drop would report: two more than before the drop.

## Model

| member | source | states |
|---|---|---|
| Types.GenderTag | types.ts:50 | each gender tag is written as one of the one-letter ids m, f, n, the tag M as m, F as f and N as n |
| Zones.DropZones | components/QuizView.tsx:180-196 | a lesson id other than 'noun-gender' and 'plurals' gets no zones; the zone ids a lesson gets are distinct and non-empty |
| Zones.ZoneIdSets | components/QuizView.tsx:181-194 | noun-gender has zone ids {m, f, n} and plurals has {y, i, a, ya}; the two sets share no id |
| Lessons.LessonHeaders | constants.ts:84-100 | the two lesson ids differ; the difficulties are 1 and 2, and every difficulty lies in 1..3 |
| Lessons.LessonsAreDragOnly | constants.ts:158-169 | both lessons have questions, and all of them are drag questions, so none lacks multiple-choice options |
| Lessons.NounGenderAnswers | constants.ts:159-168 | every noun-gender answer is one of m, f, n |
| Lessons.PluralsAnswers | constants.ts:236-247 | every plurals answer is one of y, i, a, ya |
| Lessons.AnswersAreZones | constants.ts:158-169 | in both lessons every answer is a zone id of that lesson, so every shipped question can be scored correct |
| Lessons.GenderTagsAreZones | components/QuizView.tsx:181-186 | every gender tag is a zone id of the noun-gender lesson, and different tags have different ids |
| Lessons.GenderTagsMatchAnswers | constants.ts:159-168 | every noun-gender question has a gender tag, and it equals the question's answer |
| Lessons.NounGenderIdsUnique | constants.ts:159-168 | question ids are unique within the noun-gender lesson |
| Lessons.PluralsIdsUnique | constants.ts:236-247 | question ids are unique within the plurals lesson |
| Text.IsWhitespace | components/QuizView.tsx:84 | the characters JavaScript's `trim` removes: the white-space characters and the line terminators |
| Text.LowerChar | components/QuizView.tsx:84 | maps A-Z to a-z, А-Я to а-я and Ѐ-Џ to ѐ-џ, and leaves every other character alone |
| Text.Trim | components/QuizView.tsx:84 | removes the leading and then the trailing white space |
| Text.LowerCharKeepsWhitespace | components/QuizView.tsx:84 | folding one character never turns white space into text or text into white space |
| Text.Lower | components/QuizView.tsx:84 | folding keeps the length and folds each character independently |
| Text.TrimStart | components/QuizView.tsx:84 | the result is a suffix of the input that does not start with white space, and everything removed is white space |
| Text.TrimEnd | components/QuizView.tsx:84 | the result is a prefix of the input that does not end with white space, and everything removed is white space |
| Text.LowerAppend | components/QuizView.tsx:84 | folding distributes over concatenation |
| Text.LowerIdempotent | components/QuizView.tsx:84 | folding twice is folding once |
| Text.TrimStartLower | components/QuizView.tsx:84 | trimming the front commutes with folding |
| Text.TrimEndLower | components/QuizView.tsx:84 | trimming the end commutes with folding |
| Text.TrimLowerCommute | components/QuizView.tsx:84 | trimming and folding commute, so folding before trimming gives the same result as after |
| Text.TrimStartOfWhitespacePrefix | components/QuizView.tsx:84 | white space added in front does not change a trimmed front |
| Text.TrimEndOfWhitespaceSuffix | components/QuizView.tsx:84 | white space added at the end does not change a trimmed end |
| Text.TrimStartAppend | components/QuizView.tsx:84 | trimming the front of a concatenation trims the front part only, unless that part is entirely white space |
| Text.TrimIgnoresPadding | components/QuizView.tsx:84 | white space on both sides of a string does not survive trimming |
| Text.TrimIgnoresTrailing | components/QuizView.tsx:84 | white space after a string does not survive trimming |
| Answer.TypedMatches | components/QuizView.tsx:84 | the typed comparison: the folded, trimmed input equals the folded expected answer |
| Answer.Evaluate | components/QuizView.tsx:79-85 | by kind: multiple choice is correct when the selection is the correct answer; a typed answer when the folded and trimmed input equals the folded answer; anything else is wrong |
| Answer.MultipleChoiceIsExact | components/QuizView.tsx:81-82 | a multiple-choice answer is correct exactly when the selected option equals the correct answer; the typed text plays no part |
| Answer.DragDropNeverChecked | components/QuizView.tsx:79-85 | the check judges a drag question wrong whatever is selected or typed |
| Answer.TypedAnswerIgnoresPaddingAndCase | components/QuizView.tsx:83-84 | a typed answer gets the same verdict with white space added on either side, and in any letter case |
| Answer.TrailingWhitespaceIgnored | components/QuizView.tsx:83-84 | white space typed after an answer does not change the verdict |
| Answer.CanonicalAnswerAccepted | components/QuizView.tsx:83-84 | typing exactly the expected word is correct, for any expected word without surrounding white space |
| Answer.TypedMatchOrderIrrelevant | components/QuizView.tsx:84 | comparing the folded-then-trimmed input is the same as comparing the trimmed-then-folded input |
| Geometry.DoubledCentre | components/QuizView.tsx:113-117 | the doubled centre is twice the left or top edge, plus the width or height, plus twice the offset |
| Geometry.Contains | components/QuizView.tsx:125-130 | the doubled centre lies between the doubled left and right edges and between the doubled top and bottom edges, edges included |
| Geometry.Hits | components/QuizView.tsx:123-130 | a zone is hit when its element is present and its rectangle contains the centre |
| Geometry.LastHit | components/QuizView.tsx:119-134 | the id of the last hit zone in iteration order, or none, found by looking from the end |
| Geometry.ContainsIsInclusiveBox | components/QuizView.tsx:125-130 | in plain coordinates a zone contains the centre exactly when left <= x <= right and top <= y <= bottom, edges included |
| Geometry.LastHitCharacterised | components/QuizView.tsx:119-136 | no zone is found exactly when no present zone contains the centre; otherwise the zone found contains it and no later zone does |
| Geometry.LastHitWithin | components/QuizView.tsx:119-136 | the zone found is one of the zones searched |
| Geometry.SoleHitReported | components/QuizView.tsx:119-136 | when exactly one zone contains the centre, that zone is found |
| Geometry.OverlapLaterZoneWins | components/QuizView.tsx:121-134 | for any zones: when two zones both contain the centre and no zone after the later of them does, the later one is found |
| Geometry.FindZone | components/QuizView.tsx:119-134 | the loop over the zones returns the last zone containing the centre, or none |
| SessionSpec.HistoryOf | components/QuizView.tsx:163 | a zone's recorded prompts, or the empty list when the zone has none yet |
| SessionSpec.CommitsOnRelease | components/QuizView.tsx:141-148 | a release commits when a drag is in progress and a zone with a non-empty id is hovered |
| SessionSpec.Reset | components/QuizView.tsx:40-48 | clears the selection, the typed text, the answered and correct flags, the offset and the hovered zone |
| SessionSpec.AfterSelect | components/QuizView.tsx:234 | records the chosen option |
| SessionSpec.AfterKeyPress | components/QuizView.tsx:176 | appends the key's text to the typed answer |
| SessionSpec.AfterBackspace | components/QuizView.tsx:177 | drops the last typed character, if any |
| SessionSpec.AfterCheck | components/QuizView.tsx:76-90 | unchanged once answered; otherwise sets the verdict, adds a point when correct and marks the question answered |
| SessionSpec.AfterPointerDown | components/QuizView.tsx:94-103 | unchanged once answered; otherwise starts a drag at the pointer with a zero offset |
| SessionSpec.AfterPointerMove | components/QuizView.tsx:105-138 | unchanged unless dragging an unanswered card; otherwise the offset is pointer minus start and, when the card is present, the hovered zone is the last zone containing the moved centre |
| SessionSpec.AfterCommit | components/QuizView.tsx:155-167 | sets the verdict to zone equals answer; when correct adds a point and appends the prompt to that zone's history; marks the question answered and zeroes the offset |
| SessionSpec.AfterPointerUp | components/QuizView.tsx:140-153 | unchanged unless dragging; otherwise ends the drag and commits to the hovered zone, or zeroes the offset when no zone, or only an empty id, is hovered |
| SessionSpec.AfterNext | components/QuizView.tsx:67-74 | before the last question moves to the next one and resets; on the last question leaves the state alone |
| SessionSpec.ReportedScore | components/QuizView.tsx:72 | the completion score as reported: `score` plus one when the current question was answered correctly |
| SessionSpec.NextResult | components/QuizView.tsx:67-74 | nothing to report before the last question; on it, the reported score and the question count |
| SessionSpec.Enabled | components/QuizView.tsx:50-398 | which handlers the screen offers in a state, as listed under "Handler preconditions" |
| SessionSpec.InitialInv | components/QuizView.tsx:19-32 | the starting state satisfies the session invariant for any lesson |
| SessionSpec.CheckKeepsInv | components/QuizView.tsx:76-90 | checking keeps the invariant: a point is only added as the question becomes answered |
| SessionSpec.CommitKeepsInv | components/QuizView.tsx:155-167 | committing a drop keeps the invariant; a zone's history never holds more prompts than the score |
| SessionSpec.HoverKeepsInv | components/QuizView.tsx:108-136 | changing the offset and the hovered zone keeps the invariant when the zone is one of the lesson's |
| SessionSpec.MoveKeepsInv | components/QuizView.tsx:105-138 | a pointer move keeps the invariant; the hovered zone is always one of the lesson's zones |
| SessionSpec.UpKeepsInv | components/QuizView.tsx:140-153 | a pointer release keeps the invariant |
| SessionSpec.StepKeepsInv | components/QuizView.tsx:67-177 | every handler the view offers keeps the invariant |
| SessionSpec.StepIsMonotone | components/QuizView.tsx:67-177 | no handler lowers the score or the question index, or removes anything from a zone's history |
| SessionSpec.StepScoresAtMostOne | components/QuizView.tsx:88 | one event adds at most one point |
| SessionSpec.RunKeepsInv | components/QuizView.tsx:67-177 | any run of events from a state satisfying the invariant ends in one that satisfies it |
| SessionSpec.ScoreBounded | components/QuizView.tsx:77-89 | after any run from the start, score <= currentIdx + (answered ? 1 : 0) and score <= the number of questions |
| SessionSpec.RunIsMonotone | components/QuizView.tsx:67-177 | over any run, the score, the index and every zone's history only grow |
| SessionSpec.EmptyLessonStaysEmpty | components/QuizView.tsx:17-65 | on a lesson without questions no run changes the state at all |
| SessionSpec.CommitAccounting | components/QuizView.tsx:155-167 | a drop scores exactly when the zone is the answer; then that zone's history alone gains the prompt at its end; otherwise score and histories stay the same; either way the question is answered and the offset is (0, 0) |
| SessionSpec.CommitAtMostOnce | components/QuizView.tsx:94-95 | once a drag question is answered, a single pointer down or pointer up changes nothing and would not commit |
| SessionSpec.AnsweredDragQuestionSettled | components/QuizView.tsx:94-153 | once a drag question is answered, every run of events without next leaves the state exactly as it is, so the question is committed at most once |
| SessionSpec.UnreachableAnswerNeverCorrect | components/QuizView.tsx:155-157 | a drag question whose answer is not one of its lesson's zones is never marked correct |
| SessionSpec.NextBehaviour | components/QuizView.tsx:40-48 | before the last question, advancing moves to the next question (still in range), clears the per-question state and keeps score and histories; on the last question it changes nothing and reports the question count |
| SessionSpec.LastQuestionReport | components/QuizView.tsx:72 | on an answered last question the reported score is one more than `score` when correct, and `score` otherwise |
| SessionSpec.CorrectLastCheckReportedTwice | components/QuizView.tsx:67-90 | when checking the last question right adds a point, the next button then reports two more than the points held before the check |
| SessionSpec.CorrectLastDropReportedTwice | components/QuizView.tsx:67-74 | a correct drop on the last question adds a point, and advancing from the fields after the drop would report two more than the points held before it |
| SessionSpec.TimerReportMissesLastDrop | components/QuizView.tsx:155-171 | a correct drop on the last question adds a point, but the timer's advance, reading the fields from before the release, reports only the points held before the drop |
| Quiz.QuizSession.constructor | components/QuizView.tsx:19-32 | a new session starts at the first question with no points, nothing typed or selected, no drag and empty histories |
| Quiz.QuizSession.HasQuestions | components/QuizView.tsx:17 | the lesson has at least one question |
| Quiz.QuizSession.Current | components/QuizView.tsx:37 | the question at the current index |
| Quiz.QuizSession.View | components/QuizView.tsx:17-65 | the empty notice is shown exactly when the lesson has no questions; otherwise the question at the current index is shown |
| Quiz.QuizSession.ResetForQuestion | components/QuizView.tsx:40-48 | clears the selection, the typed text, the answered and correct flags, the offset and the hovered zone, and nothing else |
| Quiz.QuizSession.SelectOption | components/QuizView.tsx:234 | choosing an option records it and keeps the invariant |
| Quiz.QuizSession.KeyPress | components/QuizView.tsx:176 | the key's text is appended to the typed answer |
| Quiz.QuizSession.Backspace | components/QuizView.tsx:177 | the last typed character is removed, and nothing happens when nothing is typed |
| Quiz.QuizSession.Check | components/QuizView.tsx:76-90 | a no-op once answered; otherwise the question becomes answered, correctness is the judged verdict, and the score rises by exactly one when correct |
| Quiz.QuizSession.PointerDown | components/QuizView.tsx:94-103 | ignored once answered; otherwise a drag starts at the pointer with the offset at (0, 0) |
| Quiz.QuizSession.PointerMove | components/QuizView.tsx:105-138 | ignored unless dragging an unanswered card; otherwise the offset is pointer minus start and the hovered zone is the last zone containing the moved centre |
| Quiz.QuizSession.DropCommit | components/QuizView.tsx:155-167 | correct exactly when the zone is the answer; then the score rises by one and only that zone's history gains the prompt; otherwise score and histories are unchanged; the question becomes answered and the offset is (0, 0) |
| Quiz.QuizSession.PointerUp | components/QuizView.tsx:140-153 | nothing unless dragging; otherwise the drag ends and, exactly when a zone is hovered, the drop is committed; an answered question is never committed again |
| Quiz.QuizSession.Next | components/QuizView.tsx:67-74 | before the last question, moves on one question with the per-question state cleared and the score and histories kept; on the last question reports `isCorrect ? score + 1 : score` out of the question count and changes nothing |
| Scenarios.GenderEntriesAreZones | components/QuizView.tsx:181-186 | the sample zone layout registers only noun-gender zones, and all three of them |
| Scenarios.CentreOverMasculine | components/QuizView.tsx:112-136 | the card moved onto zone m is found over m |
| Scenarios.CentreBetweenZones | components/QuizView.tsx:112-136 | the card moved into the gap between two zones is found over no zone |
| Scenarios.DropHouseOnMasculine | components/QuizView.tsx:94-167 | dragging "Дом" onto zone m scores one point and records "Дом" under m alone |
| Scenarios.ReleaseOutsideZones | components/QuizView.tsx:140-153 | releasing the card between zones snaps it back, leaves the question open and scores nothing |
| Scenarios.OneRightOneWrong | components/QuizView.tsx:67-90 | one right and one wrong multiple-choice answer finish with 1 out of 2 |
| Scenarios.SingleRightAnswerReportedTwice | components/QuizView.tsx:72 | answering a one-question lesson right earns one point but reports 2 out of 1 |
| Scenarios.TableFolds | components/QuizView.tsx:84 | the check accepts "СТОЛ", in capitals, for the expected word "Стол" |
| Scenarios.TableTypedWithSpace | components/QuizView.tsx:84 | "стол " with a trailing space is accepted for "Стол" |
| Scenarios.TypedOnKeyboardAccepted | components/QuizView.tsx:76-90 | pressing the keys с, т, о, л and Space and then checking answers "Стол" correctly, for one point |
| Scenarios.MotherTypedExactly | components/QuizView.tsx:84 | "Мама" is accepted for "Мама" |
| Scenarios.MotherTypedInLowerCase | components/QuizView.tsx:84 | "мама" is accepted for "Мама" |
| Scenarios.MotherTypedWithTrailingSpace | components/QuizView.tsx:84 | "Мама " with a trailing space is accepted for "Мама" |
| Scenarios.EmptyLesson | components/QuizView.tsx:17-65 | a lesson without questions shows the empty notice and offers no question |

## Left out

- Rendering is not modelled: JSX, CSS class choices (hover, correct and wrong highlights), the progress-bar percentage, icons, confetti and the localized texts (`UI_TEXT`, hints, zone sub-captions, lesson titles, descriptions, icons and theory). These are presentation only.
- Pointer capture (`setPointerCapture`, `releasePointerCapture`) is browser API. Capture is implied by the dragging flag.
- `getBoundingClientRect` is browser API. Rectangles are inputs; how the moved card is placed is described under Quiz.QuizSession.PointerMove below.
- The card's rotation and scaling while dragged is not modelled; it does not change which zone is hit in the model.
- The 1200 ms timer that advances after a drop is not modelled. The caller calls `Next`, and `PointerUp` returns whether a drop was committed.
- The view's state updates are modelled as applied at once, in handler order. React's batched updates and stale closures are not modelled, except for the one below.
- Quiz.QuizSession.Next: reads the fields current when it is called. After a drop the source's timer runs the next handler captured when the card was released, and that handler reads the fields from before the drop. Advancing to the next question is the same either way, because the index update uses the previous value. On the last question the reports differ: the timer reports the score without the last drop's point. `SessionSpec.TimerReportMissesLastDrop` states that report; the class has no method for the timer.
- SessionSpec.NextResult: gives the report the next button makes from the current fields, not the one the timer makes after the last drop (see the line above).
- Quiz.QuizSession.PointerMove: tests the centre of the card shifted by this move's offset. The source measures the card on screen right after requesting the new offset, before the view re-renders, so its rectangle still carries the previous move's offset, part-way through a 75 ms transition. The source's hovered zone therefore lags one move behind, and the model does not capture that lag.
- Floating-point coordinates are modelled exactly by doubled integers. Fractional pixel positions are not modelled.
- Text.LowerChar: folds only ASCII A-Z and the basic Cyrillic capitals (U+0400 to U+042F). Other Unicode case mappings of `toLowerCase` are not modelled, nor are the length-changing ones.
- Strings are sequences of Dafny characters, not UTF-16 code units. Surrogate pairs are not modelled.
- App.tsx is not part of this model. It routes between views and turns the reported score into a percentage.
- components/TheoryView.tsx is read-only content, and is not part of this model.
- components/VirtualKeyboard.tsx is not part of this model beyond what it sends: each key's text goes to `KeyPress` and the backspace key to `Backspace`.
- The check button's disabled state for multiple choice with nothing selected is not modelled as a precondition. `Check` judges that case wrong, as the handler would.
