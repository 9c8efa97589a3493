# EduSync learning-platform frontend: analytics, progress, attempts and authoring

A Dafny model of the logic in four React components of the EduSync frontend.

- **Instructor analytics** (`InstructorAnalytics.jsx`):
  - scoping the fetched courses, assessments and results to one instructor;
  - the four overall figures: total students, average score, completion rate and assessments taken;
  - per-assessment statistics, the two chart series and the detail modal's percentages.
- **Student progress** (`StudentProgressTracker.jsx`):
  - the assessment history built from the student's results;
  - the `isRefreshing` / `loading` flags with which poll ticks and completion events start refreshes.
- **Student attempts** (`StudentAssessmentList.jsx`):
  - the enrollment filter and gate;
  - the answer map, and collecting the answers for submission;
  - the submit-enable rule;
  - how the grading reply and request errors are shown.
- **Question authoring** (`AssessmentForm.jsx`):
  - the editor's initial question list and its edit, insert and remove handlers;
  - validation of a save, in order, and the save payload.

Modules:

| file | module | contents |
|---|---|---|
| `common.dfy` | `Common` | ids, `Option`, request outcomes (`Fetched`), JavaScript numbers that may be non-finite |
| `js_math.dfy` | `JsMath` | `Math.round` of a ratio and `toFixed(1)`, in exact integer arithmetic |
| `js_strings.dfy` | `JsStrings` | `String.prototype.trim` and blankness |
| `sequences.dfy` | `Sequences` | order-preserving `filter`, counting and `find` |
| `questions.dfy` | `Questions` | the question record and its stored encoding |
| `catalog.dfy` | `Catalog` | the course, assessment and result records the REST endpoints return |
| `instructor_analytics.dfy` | `InstructorAnalytics` | the instructor analytics view |
| `student_progress_tracker.dfy` | `StudentProgressTracker` | the history, plus a `ProgressTracker` class for the refresh flags |
| `student_assessment_list.dfy` | `StudentAssessmentList` | the list and gate, answer collection, reply handling, plus an `AttemptView` class |
| `assessment_form.dfy` | `AssessmentForm` | the pure edit functions, validation, plus a `Form` class for the editor state |

Modelling choices:

- **Numbers.** Scores are integers. A `null` score is `Null`: `Number.isFinite` rejects it, and arithmetic reads it as 0. Any other score that `Number.isFinite` rejects (NaN, an infinity, `undefined`) is `NotFinite`.
- **Rounding.** With a positive divisor, `Math.round(n / d)` is `(2n + d) div 2d`: halves round toward positive infinity, as in JavaScript.
- **Decimal displays.** `averageScore` (two decimals) is kept in hundredths. `avgScore.toFixed(1)` is kept in tenths, rounded half away from zero.
- **Stored questions.** They are an abstract `Blob`, one of:
  - absent (a falsy value);
  - malformed (`JSON.parse` throws);
  - the encoding of a question list.

  Parsing is `Decode`, `JSON.stringify` is `Encode`, and `Decode(Encode(qs))` is `qs`.
- **Unguarded parses.** Three kinds are handled differently:
  - an unguarded parse inside a `try` becomes an explicit error outcome (the progress history);
  - a parse during rendering becomes a precondition (the detail modal, the open attempt);
  - a parse inside its own `try`, as in `getAssessmentStats`, counts 0 questions for a missing or unparsable field (`GuardedCount`). The question editor is different: there such a field starts the form with one blank question (`InitialQuestions`).
- **Component state.** It is modelled in two ways.
  - Instructor analytics: one fetch computes everything the view shows. That fetch is the function `FetchData`, which returns an `Analytics` value (the scoped courses, assessments and results, and the overall figures). The `loading` flag and the selected assessment of the detail modal are display state and are not modelled.
  - The other three components: each becomes a class, and each handler a method whose postcondition gives the whole new state.
    - `AttemptView` and `Form` have the components' `useState` variables as fields.
    - `ProgressTracker` keeps the history, `loading`, `error` and `isRefreshing`. It leaves out the display-only `selectedAssessment` and the unused `courses`. It adds `inFlight`, the list of fetches started and not yet finished, which the refresh-overlap properties are stated over.
- **Requests.** The server's responses are method or function parameters.
- **Membership tests.** The source's `.some(...)` and strict-equality tests are the helpers `InstructorAnalytics.OwnedBy`, `InstructorAnalytics.HasCourse`, `InstructorAnalytics.HasAssessment` and `StudentAssessmentList.IsEnrolled`. They carry no contract of their own; they are the vocabulary of the contracts of `InstructorCourses`, `InstructorAssessments`, `InstructorResults`, `ScopedResultIff` and `ListedAssessments`.
- **Scenarios.** `RepeatAttemptsExceedFullCompletion`, `TwoStudentScenario`, `OverlappingRefreshes`, `SingleRefreshWhenExclusive`, `ErrorSurvivesLaterSuccess` and `LoneSuccessClearsError` each fix one concrete input. They illustrate the all-inputs lemmas and contracts; they do not replace them.
- **History order.** The history is shown in the order the results arrive; it is not sorted by date (`HistoryKeepsServerOrder`).
- **Completion rate.** `completionRate` counts repeat attempts, so it can exceed 100 (`RepeatAttemptsExceedFullCompletion`). The completion bounds hold only while attempts do not outnumber (student, assessment) pairs.

## Model

| member | source | states |
|---|---|---|
| `Common.FiniteOrZero` | src/Components/InstructorAnalytics.jsx:96-97 | a finite score counts as itself; `null` and non-finite scores count as 0 |
| `JsMath.RoundRatio` | src/Components/InstructorAnalytics.jsx:102-104 | the result `r` is the integer nearest to `n/d`, halves upward: `d(2r-1) <= 2n < d(2r+1)` |
| `JsMath.Percent` | src/Components/InstructorAnalytics.jsx:107-110 | the integer nearest to `100n/d`, halves upward |
| `JsMath.TenthsToFixed` | src/Components/InstructorAnalytics.jsx:162 | `n/d` to one decimal, in tenths, halves away from zero |
| `JsMath.UnguardedPercent` | src/Components/StudentProgressTracker.jsx:49 | finite exactly when the score is a number or `null` and the divisor positive; then the rounded percentage, with `null` giving 0 |
| `JsMath.PercentBounds` | src/Components/InstructorAnalytics.jsx:107-110 | for `0 <= n <= d` the percentage is between 0 and 100 |
| `JsMath.PercentEnds` | src/Components/StudentProgressTracker.jsx:49 | all of `d` is 100 percent and none is 0 percent |
| `JsMath.PercentMonotone` | src/Components/InstructorAnalytics.jsx:107-110 | a larger part never rounds to a smaller percentage, so more attempts never lower a rate |
| `JsMath.RoundExact` | src/Components/InstructorAnalytics.jsx:102-104 | rounding an exact quotient gives the quotient |
| `JsMath.PercentScaledBounds` | src/Components/InstructorAnalytics.jsx:102-104 | a total of at most `m` per attempt gives at most `100m` hundredths |
| `JsStrings.TrimStart` | src/Components/AssessmentForm.jsx:92 | a suffix, with only whitespace removed and no leading whitespace left |
| `JsStrings.TrimEnd` | src/Components/AssessmentForm.jsx:92 | a prefix, with only whitespace removed and no trailing whitespace left |
| `JsStrings.Trim` | src/Components/AssessmentForm.jsx:109 | the input with whitespace cut from both ends and nothing else cut: a contiguous part, preceded and followed only by whitespace, with no whitespace at either end |
| `JsStrings.BlankIffAllWhitespace` | src/Components/AssessmentForm.jsx:92-105 | a string trims to empty exactly when every character is whitespace |
| `JsStrings.TrimIdempotent` | src/Components/AssessmentForm.jsx:109 | trimming a trimmed title changes nothing |
| `JsStrings.TrimCuts` | src/Components/AssessmentForm.jsx:92 | trimming the start and then the end cuts a whitespace-only prefix and suffix at the offset the first step removed |
| `JsStrings.IsBlank` | src/Components/AssessmentForm.jsx:92-102 | the `!s.trim()` test; `BlankIffAllWhitespace` proves it holds exactly for all-whitespace strings |
| `Sequences.Filter` | src/Components/InstructorAnalytics.jsx:62-64 | keeps exactly the elements satisfying the predicate, and no more elements than the input |
| `Sequences.FilterMember` | src/Components/InstructorAnalytics.jsx:68-70 | `x` survives the filter exactly when it is in the input and satisfies the predicate |
| `Sequences.FilterAppend` | src/Components/InstructorAnalytics.jsx:74-76 | filtering distributes over concatenation, so relative order is kept |
| `Sequences.FilterMultiplicity` | src/Components/InstructorAnalytics.jsx:74-76 | every kept element is kept as often as it occurs, so repeat attempts survive |
| `Sequences.CountWhere` | src/Components/InstructorAnalytics.jsx:142-145 | the length of the filtered list, 0 exactly when nothing matches |
| `Sequences.FirstIndex` | src/Components/InstructorAnalytics.jsx:148 | the index of the first match, or the length when there is none |
| `Sequences.Find` | src/Components/InstructorAnalytics.jsx:148 | none exactly when nothing matches; otherwise the first matching element of the list |
| `Questions.Encode` | src/Components/AssessmentForm.jsx:111 | decoding the encoding gives back the question list |
| `Questions.Decode` | src/Components/AssessmentForm.jsx:15 | defined exactly on encoded question lists |
| `Questions.GuardedCount` | src/Components/InstructorAnalytics.jsx:150-155 | the decoded question count, or 0 when the field is falsy or does not parse |
| `Questions.Blank` | src/Components/AssessmentForm.jsx:17-21 | empty text, four empty options, the first marked correct |
| `InstructorAnalytics.InstructorCourses` | src/Components/InstructorAnalytics.jsx:62-64 | exactly the input's courses whose instructor is the user |
| `InstructorAnalytics.InstructorAssessments` | src/Components/InstructorAnalytics.jsx:68-70 | exactly the assessments whose course is a kept course |
| `InstructorAnalytics.InstructorResults` | src/Components/InstructorAnalytics.jsx:74-76 | exactly the results whose assessment is a kept assessment |
| `InstructorAnalytics.ScopedResultIff` | src/Components/InstructorAnalytics.jsx:61-76 | a result is kept iff its assessment belongs to a course the user owns |
| `InstructorAnalytics.ScopingKeepsOrder` | src/Components/InstructorAnalytics.jsx:62-76 | each of the three filters distributes over concatenation of its input |
| `InstructorAnalytics.ListedIds` | src/Components/InstructorAnalytics.jsx:82 | the student ids of a course entry in order, none when the list is missing |
| `InstructorAnalytics.AllListedIds` | src/Components/InstructorAnalytics.jsx:81-83 | an id is listed iff some course entry lists it |
| `InstructorAnalytics.TotalStudents` | src/Components/InstructorAnalytics.jsx:80-84 | the number of distinct listed student ids, 0 exactly when no course lists a student |
| `InstructorAnalytics.DistinctEmpty` | src/Components/InstructorAnalytics.jsx:80-84 | a list of ids has no distinct id exactly when it is empty |
| `InstructorAnalytics.ListedIdsAppend` | src/Components/InstructorAnalytics.jsx:81-83 | the ids listed by two runs of course entries are the two id lists put together |
| `InstructorAnalytics.TotalStudentsBound` | src/Components/InstructorAnalytics.jsx:80-84 | the distinct count never exceeds the number of listed entries |
| `InstructorAnalytics.TotalStudentsIgnoresRepeats` | src/Components/InstructorAnalytics.jsx:80-84 | a course entry listing only already-counted students, or no list, adds no student |
| `InstructorAnalytics.TotalScore` | src/Components/InstructorAnalytics.jsx:96-97 | the guarded sum of the scores: 0 when no score is finite, non-negative when no counted score is negative |
| `InstructorAnalytics.TotalScoreAppend` | src/Components/InstructorAnalytics.jsx:96-97 | the score total is additive over the results, one term per attempt |
| `InstructorAnalytics.TotalScoreBounds` | src/Components/InstructorAnalytics.jsx:96-97 | scores in `[0, m]` total between 0 and `m` times the number of attempts |
| `InstructorAnalytics.Overall` | src/Components/InstructorAnalytics.jsx:99-117 | students are the distinct count; attempts are all kept results; the average and completion rate are as rounded, and 0 with no attempts or a zero denominator |
| `InstructorAnalytics.FetchData` | src/Components/InstructorAnalytics.jsx:49-135 | any failed request gives empty lists and zero figures; otherwise the scoped lists and their figures |
| `InstructorAnalytics.AverageScoreBounds` | src/Components/InstructorAnalytics.jsx:102-104 | with scores in `[0, m]` the average lies in `[0, m]` |
| `InstructorAnalytics.CompletionRateBounds` | src/Components/InstructorAnalytics.jsx:107-110 | a percentage while attempts do not outnumber (student, assessment) pairs |
| `InstructorAnalytics.RepeatAttemptsExceedFullCompletion` | src/Components/InstructorAnalytics.jsx:99-110 | three attempts by one student at one assessment give a completion rate of 300 |
| `InstructorAnalytics.TwoStudentScenario` | src/Components/InstructorAnalytics.jsx:78-117 | two students scoring 3 and 2 on one assessment give figures 2, 2.50, 100 and 2 |
| `InstructorAnalytics.MaxScoreOf` | src/Components/InstructorAnalytics.jsx:148-155 | the guarded question count of the first assessment with the id, 0 when there is none |
| `InstructorAnalytics.AveragePercent` | src/Components/InstructorAnalytics.jsx:157-158 | the average over the question count as a rounded percentage, 0 for a question-less assessment |
| `InstructorAnalytics.GetAssessmentStats` | src/Components/InstructorAnalytics.jsx:141-166 | null exactly when the assessment has no results; else the count, the average in tenths, the question count and the average percentage |
| `InstructorAnalytics.AssessmentPercentageBounds` | src/Components/InstructorAnalytics.jsx:157-158 | when the assessment has questions, scores within the question count give an average percentage in `[0, 100]`; without questions the percentage is 0 whatever the scores |
| `InstructorAnalytics.TitleOr` | src/Components/InstructorAnalytics.jsx:169 | never empty; the title itself when it is non-empty and the fallback exactly when it is empty |
| `InstructorAnalytics.ChartValue` | src/Components/InstructorAnalytics.jsx:170-173 | the average percentage, 0 for an assessment without results |
| `InstructorAnalytics.PerformanceChartData` | src/Components/InstructorAnalytics.jsx:168-187 | one label and one value per scoped assessment, in order |
| `InstructorAnalytics.PerformanceChartBounds` | src/Components/InstructorAnalytics.jsx:168-173 | every bar is in `[0, 100]` once the scores of assessments with questions lie within their question counts |
| `InstructorAnalytics.CourseAttempts` | src/Components/InstructorAnalytics.jsx:192-195 | the number of results whose assessment belongs to the course: at most the number of results, and 0 exactly when no result has an assessment of the course |
| `InstructorAnalytics.CourseCompletion` | src/Components/InstructorAnalytics.jsx:196-197 | attempts over assessments times students as a rounded percentage, 0 on a zero denominator |
| `InstructorAnalytics.CourseCompletionBounds` | src/Components/InstructorAnalytics.jsx:196-197 | a percentage while attempts do not outnumber the course's pairs |
| `InstructorAnalytics.CompletionRateData` | src/Components/InstructorAnalytics.jsx:189-212 | one label and one value per scoped course, in order |
| `InstructorAnalytics.ModalRenders` | src/Components/InstructorAnalytics.jsx:407-408 | the modal's unguarded parse does not throw: no assessment has the id, or its questions are absent or parse; `DetailRows` requires it |
| `InstructorAnalytics.ModalPercentage` | src/Components/InstructorAnalytics.jsx:409 | 0 for a question-less assessment, otherwise the unguarded rounded percentage (a `null` score gives 0) |
| `InstructorAnalytics.DetailRows` | src/Components/InstructorAnalytics.jsx:404-409 | one row per result of the assessment, in order, with its score, question count and percentage |
| `StudentProgressTracker.MaxScore` | src/Components/StudentProgressTracker.jsx:48 | 0 without an assessment; undefined (the parse throws) when a present assessment's questions do not parse; else the question count |
| `StudentProgressTracker.ToEntry` | src/Components/StudentProgressTracker.jsx:47-61 | ids, score and date copied; the question count; the unguarded percentage; the "Unknown Assessment" and "Unknown Course" fallbacks |
| `StudentProgressTracker.BuildHistory` | src/Components/StudentProgressTracker.jsx:47-62 | undefined iff some result's entry throws; otherwise one entry per result, position by position |
| `StudentProgressTracker.HistoryKeepsServerOrder` | src/Components/StudentProgressTracker.jsx:47-65 | entry `i` carries the id and date of result `i`: the history is not re-sorted |
| `StudentProgressTracker.PercentageDefinedIff` | src/Components/StudentProgressTracker.jsx:48-49 | a history percentage is a number iff the score is a number or `null` and the question count positive |
| `StudentProgressTracker.FullScoreIsHundred` | src/Components/StudentProgressTracker.jsx:49 | a full score on a non-empty assessment shows 100 percent |
| `StudentProgressTracker.FetchOutcome` | src/Components/StudentProgressTracker.jsx:39-69 | success sets the history and keeps the error as it was (it is cleared when the fetch starts); a failure or a throwing entry sets the error with an empty history |
| `StudentProgressTracker.ProgressTracker.constructor` | src/Components/StudentProgressTracker.jsx:12-17 | empty history, loading, no error, not refreshing, nothing in flight |
| `StudentProgressTracker.ProgressTracker.BeginFetch` | src/Components/StudentProgressTracker.jsx:30-35 | loading is set only for a foreground fetch; the error is cleared; the fetch is recorded as pending |
| `StudentProgressTracker.ProgressTracker.RefreshIfIdle` | src/Components/StudentProgressTracker.jsx:87-90 | starts a background fetch exactly when the flag was clear, setting the flag first; keeps both invariants |
| `StudentProgressTracker.ProgressTracker.OnPollTick` | src/Components/StudentProgressTracker.jsx:86-93 | the guarded start; when already refreshing nothing changes and the flag stays set |
| `StudentProgressTracker.ProgressTracker.OnAssessmentCompleted` | src/Components/StudentProgressTracker.jsx:99-105 | the same guarded start, the flag set afterwards either way |
| `StudentProgressTracker.ProgressTracker.FinishFetch` | src/Components/StudentProgressTracker.jsx:65-75 | stores the outcome, a success leaving the error untouched; clears loading only for a foreground fetch; always clears the flag |
| `StudentProgressTracker.ProgressTracker.FinishFetchExclusive` | src/Components/StudentProgressTracker.jsx:65-75 | as above, but only a background fetch clears the flag; keeps at most one background fetch pending |
| `StudentProgressTracker.OverlappingRefreshes` | src/Components/StudentProgressTracker.jsx:74 | mount fetch, tick, mount completion, tick: two background fetches pending at once |
| `StudentProgressTracker.SingleRefreshWhenExclusive` | src/Components/StudentProgressTracker.jsx:87-90 | the same events with the corrected completion leave one background fetch |
| `StudentProgressTracker.ErrorSurvivesLaterSuccess` | src/Components/StudentProgressTracker.jsx:35-68 | two overlapping fetches, the later-started one failing first: the earlier one's success leaves the error shown, beside an empty history |
| `StudentProgressTracker.LoneSuccessClearsError` | src/Components/StudentProgressTracker.jsx:35-65 | after a failed fetch, a new fetch that succeeds leaves no error, because starting it cleared the error |
| `StudentAssessmentList.ListedAssessments` | src/Components/StudentAssessmentList.jsx:32-34 | exactly the assessments whose course matches some enrollment |
| `StudentAssessmentList.ListedKeepsOrder` | src/Components/StudentAssessmentList.jsx:32-34 | the listing distributes over concatenation, keeping the server's order |
| `StudentAssessmentList.LoadList` | src/Components/StudentAssessmentList.jsx:21-47 | a failed request empties both lists; otherwise the enrollments and the filtered assessments |
| `StudentAssessmentList.CollectAnswers` | src/Components/StudentAssessmentList.jsx:87-98 | succeeds iff every question has an answer, giving them in question order; otherwise names the first unanswered question, counting from 1 |
| `StudentAssessmentList.SubmitEnabled` | src/Components/StudentAssessmentList.jsx:241 | the submit button's enable test: not loading and one answer per question; `SubmitEnabledIffAllAnswered` gives its meaning |
| `StudentAssessmentList.SubmitEnabledIffAllAnswered` | src/Components/StudentAssessmentList.jsx:209-241 | with keys only from rendered questions, the size test holds iff every question is answered |
| `StudentAssessmentList.ErrorMessage` | src/Components/StudentAssessmentList.jsx:137-155 | the 400 / 404 / body message / no response / error message / default precedence, never empty |
| `StudentAssessmentList.ErrorMessagePrecedence` | src/Components/StudentAssessmentList.jsx:139-154 | a response decides the text whatever the request and message; a sent request yields the connection text |
| `StudentAssessmentList.Interpret` | src/Components/StudentAssessmentList.jsx:109-122 | a body gives the result card with `passed` iff the status is exactly "Passed"; an empty body or error gives an alert |
| `StudentAssessmentList.AttemptView.constructor` | src/Components/StudentAssessmentList.jsx:9-15 | the initial state: loading, nothing selected, no answers, no result |
| `StudentAssessmentList.AttemptView.QuestionCount` | src/Components/StudentAssessmentList.jsx:170-172 | 0 with nothing open; the number of parsed questions of the open assessment |
| `StudentAssessmentList.AttemptView.FetchData` | src/Components/StudentAssessmentList.jsx:21-47 | the lists are the load outcome and loading ends |
| `StudentAssessmentList.AttemptView.HandleAttempt` | src/Components/StudentAssessmentList.jsx:49-68 | refused for a course not enrolled; a failed load alerts; otherwise opens it with answers and result reset |
| `StudentAssessmentList.AttemptView.SelectAnswer` | src/Components/StudentAssessmentList.jsx:70-75 | sets the one answer, overwriting, and leaves every other answer and every other field unchanged |
| `StudentAssessmentList.AttemptView.HandleSubmit` | src/Components/StudentAssessmentList.jsx:77-160 | nothing posted and `loading` untouched without a selection; an unanswered question stops the submit, naming the first unanswered one; the posted answers are the map's in order; success shows the result, clears answers and signals completion |
| `AssessmentForm.InitialQuestions` | src/Components/AssessmentForm.jsx:12-29 | the stored questions when they parse, else one blank question |
| `AssessmentForm.SetText` | src/Components/AssessmentForm.jsx:51-57 | only the text of the one question changes |
| `AssessmentForm.SetOption` | src/Components/AssessmentForm.jsx:59-65 | only the one option of the one question changes |
| `AssessmentForm.SetCorrect` | src/Components/AssessmentForm.jsx:67-73 | only the correct index of the one question changes, and it names an existing option |
| `AssessmentForm.InsertBlankAfter` | src/Components/AssessmentForm.jsx:75-81 | one blank inserted after `idx` (at the end past it); earlier elements kept, later ones shifted by one |
| `AssessmentForm.RemoveAt` | src/Components/AssessmentForm.jsx:83-85 | exactly element `idx` dropped, the rest kept in order; nothing changes for an index out of range |
| `AssessmentForm.RemoveUndoesInsert` | src/Components/AssessmentForm.jsx:75-85 | removing the question just inserted restores the list |
| `AssessmentForm.RemoveEnabled` | src/Components/AssessmentForm.jsx:231 | the remove button is enabled unless exactly one question is left; `RemoveKeepsOne` gives its purpose |
| `AssessmentForm.RemoveKeepsOne` | src/Components/AssessmentForm.jsx:227-231 | with the remove button enabled the list never becomes empty |
| `AssessmentForm.OptionCounts` | src/Components/AssessmentForm.jsx:250 | the option count of each question in order |
| `AssessmentForm.FieldEditsKeepOptionCounts` | src/Components/AssessmentForm.jsx:51-73 | no field edit changes any question's option count |
| `AssessmentForm.InsertAddsFourOptions` | src/Components/AssessmentForm.jsx:75-81 | an insertion adds one question of four options at `idx + 1` |
| `AssessmentForm.RemoveDropsOneCount` | src/Components/AssessmentForm.jsx:83-85 | a removal drops exactly that question's count |
| `AssessmentForm.BlankStartWellFormed` | src/Components/AssessmentForm.jsx:12-29 | a new or unparsable assessment starts with one well-formed question of four options |
| `AssessmentForm.EditsKeepWellFormed` | src/Components/AssessmentForm.jsx:51-85 | every handler keeps every correct index naming an existing option |
| `AssessmentForm.ErrorText` | src/Components/AssessmentForm.jsx:92-105 | each rejection has a non-empty notification text |
| `AssessmentForm.Complete` | src/Components/AssessmentForm.jsx:102 | a question passes the save check when its text and every option are non-blank; `Validate` rejects exactly lists with an incomplete question |
| `AssessmentForm.Validate` | src/Components/AssessmentForm.jsx:91-113 | title, then course, then blank questions or options are rejected in that order; otherwise the payload with trimmed title and a `maxScore` equal to the question count |
| `AssessmentForm.SavedMaxScoreAgrees` | src/Components/AssessmentForm.jsx:108-113 | a saved `maxScore` equals the question count readers decode, and the title is non-empty and trimmed |
| `AssessmentForm.Form.constructor` | src/Components/AssessmentForm.jsx:8-30 | the stored title, course and parsed questions, or blanks for a new assessment; no notification and not loading |
| `AssessmentForm.Form.SelectDefaultCourse` | src/Components/AssessmentForm.jsx:34-38 | the first course is chosen only when none is |
| `AssessmentForm.Form.ChangeText` | src/Components/AssessmentForm.jsx:51-57 | the question list becomes the edited one, everything else unchanged |
| `AssessmentForm.Form.ChangeOption` | src/Components/AssessmentForm.jsx:59-65 | the question list becomes the edited one, everything else unchanged |
| `AssessmentForm.Form.ChangeCorrect` | src/Components/AssessmentForm.jsx:67-73 | the question list becomes the edited one, everything else unchanged |
| `AssessmentForm.Form.AddQuestion` | src/Components/AssessmentForm.jsx:75-81 | the list gains the blank question after `idx` |
| `AssessmentForm.Form.RemoveQuestion` | src/Components/AssessmentForm.jsx:83-85 | the list loses element `idx` and stays non-empty |
| `AssessmentForm.Form.Submit` | src/Components/AssessmentForm.jsx:87-118 | a rejection notifies and sends nothing, leaving `loading` as it was; otherwise `loading` is set and the payload goes to POST or PUT by whether an assessment is edited |
| `AssessmentForm.SaveNotice` | src/Components/AssessmentForm.jsx:116-144 | a success notice exactly when the save succeeded, updated or created by the target; 401 gives the session-expired text; otherwise the server's message, or the default when it has none |
| `AssessmentForm.Form.FinishSave` | src/Components/AssessmentForm.jsx:116-147 | the notification becomes the save's notice and `loading` ends; the edited fields are unchanged |

## Left out

- Timers and events: the debounce closure, `setInterval` polling, the window `assessmentCompleted` event, `popstate` and the `setTimeout` close. Only the flag logic they drive is modelled. The `completed` result of `HandleSubmit` stands for the event.
- React scheduling: each handler sees current state. Handlers that capture a stale `isRefreshing` are not modelled.
- Rendering: charts' colours, badges, toasts, spinners and date formatting. `attemptDate` is an opaque integer.
- JSON: the syntax of `JSON.parse`/`JSON.stringify` and what a parsed non-array would do. A stored question field that parses is taken to be a question list.
- Floating point: all arithmetic is exact. A `null` score is `Null` and a NaN, infinite or `undefined` score is `NotFinite`; the guarded sums count both as 0.
- Non-numeric strings as scores: JavaScript would coerce them in the divisions; the model has no such score.
- Console logging, and the 401 "session expired" alert of `StudentAssessmentList.jsx`, line 39.
- The `onClose` calls after a save in `AssessmentForm.jsx`, immediate or through `setTimeout`.
- `totalPossibleScore` in `InstructorAnalytics.jsx`, lines 86-94: it is computed but never used.
- `InstructorDashboard.jsx`, `EnrollmentAnalytics.jsx`, `authServices.jsx`, the `AuthContext` and the database context are not part of this model.
- Server-side grading behind `/Assessment/attempt`: only the reply's use is modelled.
- The shallow copy in the edit handlers of `AssessmentForm.jsx`: they mutate a question object shared with the previous state. The model treats questions as values, so it does not capture that aliasing.

## Findings

| source | as written | input that shows it | evidently intended | confidence | as-written member | corrected member |
|---|---|---|---|---|---|---|
| src/Components/StudentProgressTracker.jsx:74 | every completed fetch clears `isRefreshing`, including the mount fetch that never set it | mount fetch pending, a poll tick starts a background fetch, the mount fetch completes, a second tick starts another background fetch while the first is pending | only the guarded background fetch clears the flag, so at most one background refresh runs at a time | medium, not executed | `StudentProgressTracker.OverlappingRefreshes` | `StudentProgressTracker.ProgressTracker.FinishFetchExclusive` |
