# Examify front end in Dafny

This project models the decision logic of the Examify React front end, an
online examination system with a teacher side and a student side. It covers the
following:

- **Exam attempt.** The student's timed attempt: the answers restored when an
  attempt resumes, the countdown and its `m:ss` display, the answer handler,
  and the submission. A submission is sent at most once while one is in flight
  or has been accepted. When time runs out it is sent without confirmation.
- **Manual grading.** The teacher's evaluation of a submission: a marks table
  with one entry per question that is not multiple-choice, marks clamped to
  `[0, maxMarks]`, the evaluation request built from the table, and the verdict
  shown for a multiple-choice question.
- **Classification rules.**
  - The time-window status of an exam (Upcoming, Active, Expired) and the start
    button it enables.
  - The 40 percent pass mark and the rounded percentage.
  - The actions an exam offers by its draft or published status.
  - The case-insensitive student search.
  - The student-selection toggle used when assigning an exam.
- **Forms.** The create-exam, create-student, edit-student, add-question,
  login, registration and change-password forms: defaults, single-field
  updates, required-field checks, and resets after a success. This also covers
  the re-entrancy guard of the registration page, the identity stored at login
  with its role-based landing page, and the CSV template offered for bulk
  upload.

Each page is one module.

- **State-changing pages are classes.** A page whose state React updates is a
  `class`:
  - its `useState` variables are fields;
  - each handler is a method whose `modifies this` and `ensures` give the whole
    new state;
  - the requests a page sends are recorded in a field, so contracts can state
    what was sent.
- **Backend and browser inputs are parameters.** Backend responses and the
  answer to `window.confirm` are passed in as method parameters.
- **Async handlers with a guard are split in two.** Such a handler is guarded by
  a flag that keeps a second request out while the first is on its way. It is
  modelled as two methods:
  - one runs up to the `await`;
  - one (`...Settled`) runs the rest once the response is known.
- **Other handlers are one method.** They take the outcome of their request as a
  parameter.
- **A disabled button becomes a precondition.** The handler requires the flag
  that disables it to be clear.
- **Shared modules.** The JavaScript semantics the pages rely on live in four
  modules:
  - `JsObject`: objects whose `Object.keys` order is insertion order;
  - `JsString`: `toLowerCase`, `includes`, `trim`, numbers as text, `split`
    and `join`;
  - `Forms`: form objects and the `!form.a || !form.b` checks;
  - `Wrappers`: `Option`.

Timestamps are integers on one clock. Marks and totals are exact reals.

## Behaviour of the code worth knowing

- The answers of every question kind are submitted: the payload is built from
  every key of `answers` (src/pages/student/StartExam.js:93-96).
- A failed automatic submission is not retried: the timer effect runs only when
  `timeLeft` changes, and after a failure it stays where it was.

## Model

| member | source | states |
|---|---|---|
| `StartExam.Restored` | src/pages/student/StartExam.js:30-34 | The table the restore loop builds is a well-formed object (distinct keys, keys listed exactly once) |
| `StartExam.RestoreAnswers` | src/pages/student/StartExam.js:30-34 | The `forEach` loop over `previousAnswers` builds exactly `Restored(previousAnswers)` |
| `StartExam.RestoredKeys` | src/pages/student/StartExam.js:30-34 | The restored table answers exactly the question ids that occur in `previousAnswers`; unanswered questions get no entry |
| `StartExam.RestoredLastWins` | src/pages/student/StartExam.js:31-33 | Each question holds the option of its last record: a later duplicate overwrites an earlier one |
| `StartExam.Payload` | src/pages/student/StartExam.js:93-96 | The payload has one record per key of `answers`, in `Object.keys` order |
| `StartExam.PayloadFaithful` | src/pages/student/StartExam.js:93-96 | The payload has one record per answered question, no question twice, each with the option stored for it |
| `StartExam.RestorePayload` | src/pages/student/StartExam.js:30-34 | Restoring a submitted payload gives back the very table it was built from, key order included (round trip of payload and restore) |
| `StartExam.RestoreDistinct` | src/pages/student/StartExam.js:30-34 | Records for distinct questions restore to a table keyed by their ids in order, each with its record's option |
| `StartExam.PayloadAt` | src/pages/student/StartExam.js:93-96 | The `i`-th payload record is the `i`-th key with its stored option |
| `StartExam.Ids` | src/pages/student/StartExam.js:93-96 | The question ids of a list of records, one per record |
| `StartExam.InitialTimeLeft` | src/pages/student/StartExam.js:38-39 | The countdown starts at `duration * 60` seconds, at 3600 when the duration is missing or 0, and is positive exactly when the duration is not negative |
| `StartExam.JsRem` | src/pages/student/StartExam.js:120 | JavaScript's `%` agrees with the mathematical remainder for non-negative operands |
| `StartExam.FormatTime` | src/pages/student/StartExam.js:118-122 | For `sec >= 0`, `formatTime(sec)` is a well-formed `m:ss` clock that reads back as `sec` through an independent parser |
| `StartExam.ClockRoundTrip` | src/pages/student/StartExam.js:119-121 | The minutes, a colon and the zero-padded seconds below 60 read back as `m*60+s`, with the seconds two digits |
| `StartExam.TwoDigitSeconds` | src/pages/student/StartExam.js:121 | The zero-padded seconds are two digits that read back as the seconds |
| `StartExam.ExamSession.constructor` | src/pages/student/StartExam.js:10-16 | No questions, no answers, no countdown, not submitting |
| `StartExam.ExamSession.HandleSubmit` | src/pages/student/StartExam.js:86-98 | A request goes out exactly when not already submitting and the submit is automatic or confirmed; it carries the payload of the current answers; `submitting` is then set |
| `StartExam.ExamSession.SubmitSettled` | src/pages/student/StartExam.js:98-112 | Success leaves the page with `submitting` still set; failure clears `submitting` so a retry is possible; the backend accepts at most one submission |
| `StartExam.ExamSession.TimerEffect` | src/pages/student/StartExam.js:58-64 | Once started, a countdown at or below zero submits automatically, without confirmation, unless a submission is in progress |
| `StartExam.ExamSession.Start` | src/pages/student/StartExam.js:21-53 | A refused start leaves the page; otherwise the questions are shown, the answers restored and the countdown seeded, and a non-positive countdown submits at once |
| `StartExam.ExamSession.Tick` | src/pages/student/StartExam.js:66-68 | A tick happens only on an open, started, positive countdown and decrements it by exactly 1; reaching 0 submits automatically; ticking never takes a non-negative countdown below 0 |
| `StartExam.ExamSession.HandleOptionChange` | src/pages/student/StartExam.js:76-81 | `answers[q] = o` with every other entry unchanged; only `o` is checked for `q`; the answered count grows by one exactly when `q` was unanswered |
| `StartExam.ExamSession.AnsweredCount` | src/pages/student/StartExam.js:132 | `Object.keys(answers).length` is the number of answered questions |
| `StartExam.ExamSession.Clock` | src/pages/student/StartExam.js:135 | `--:--` before the start; for a non-negative countdown, a clock that reads back as the seconds left |
| `StartExam.ResumeOneAnswer` | src/pages/student/StartExam.js:30-34 | Resuming with one record for `q1` gives exactly `{q1: "B"}` |
| `SubmissionReview.InitialMarksOf` | src/pages/teacher/TeacherSubmissionView.js:25-30 | The seeded marks table is a well-formed object |
| `SubmissionReview.InitialMarks` | src/pages/teacher/TeacherSubmissionView.js:25-30 | The `forEach` loop builds exactly `InitialMarksOf(questions)` |
| `SubmissionReview.InitialMarksKeys` | src/pages/teacher/TeacherSubmissionView.js:25-30 | The table has an entry for exactly the questions whose type is not `"mcq"` |
| `SubmissionReview.InitialMarksValue` | src/pages/teacher/TeacherSubmissionView.js:28 | Each such question starts at its recorded marks, or 0 when it has none |
| `SubmissionReview.Clamp` | src/pages/teacher/TeacherSubmissionView.js:45 | The stored mark never exceeds `max`; for `max >= 0` it lies in `[0, max]`; an in-range value is kept; below 0 gives 0, above `max` gives `max`; a negative `max` is stored whatever was entered |
| `SubmissionReview.ClampIdempotent` | src/pages/teacher/TeacherSubmissionView.js:45 | Clamping an already clamped mark stores the same mark |
| `SubmissionReview.McqHasNoMarkInput` | src/pages/teacher/TeacherSubmissionView.js:163-236 | A mark input is shown only for a question that is not multiple-choice in a manually evaluated exam; `ReviewPage.MarksChange` requires the input to be shown, so no mark can be entered for a multiple-choice question or in an automatically evaluated exam |
| `SubmissionReview.EvaluationPayload` | src/pages/teacher/TeacherSubmissionView.js:55-58 | One record per key of `marksMap`, in key order |
| `SubmissionReview.EvaluationPayloadFaithful` | src/pages/teacher/TeacherSubmissionView.js:55-58 | The request has one record per table entry, none repeated, each with its stored marks |
| `SubmissionReview.LoadedPayloadSkipsMcq` | src/pages/teacher/TeacherSubmissionView.js:25-30 | Finalizing the table as loaded sends marks for exactly the questions that are not multiple-choice |
| `SubmissionReview.McqVerdict` | src/pages/teacher/TeacherSubmissionView.js:150-157 | "Correct" exactly when the student's answer equals the correct answer; a missing answer is "Wrong" |
| `SubmissionReview.AnswerText` | src/pages/teacher/TeacherSubmissionView.js:143 | A missing or empty answer shows "Not Answered", any other answer shows itself |
| `SubmissionReview.VerdictMatchesDisplay` | src/pages/teacher/TeacherSubmissionView.js:143-157 | A "Correct" badge shows the correct option as the answer; "Not Answered" is "Wrong" unless the correct option is empty or that text |
| `SubmissionReview.ReviewPage.constructor` | src/pages/teacher/TeacherSubmissionView.js:10-13 | Loading, no data, empty table, not saving |
| `SubmissionReview.ReviewPage.Load` | src/pages/teacher/TeacherSubmissionView.js:15-42 | Success keeps the details and seeds the table with exactly the questions that are not multiple-choice; failure navigates back; loading ends either way |
| `SubmissionReview.ReviewPage.MarksChange` | src/pages/teacher/TeacherSubmissionView.js:44-47 | Only that question's entry changes, to the clamped value, which is in `[0, maxMarks]`; every other entry and the rest of the page are unchanged |
| `SubmissionReview.ReviewPage.Finalize` | src/pages/teacher/TeacherSubmissionView.js:49-63 | A request is sent exactly when confirmed; it carries the whole table, which names no multiple-choice question; `saving` is set |
| `SubmissionReview.ReviewPage.FinalizeSettled` | src/pages/teacher/TeacherSubmissionView.js:64-71 | Success navigates back; `saving` is false after either outcome |
| `SubmissionReview.ReviewPage.FinalizeLabel` | src/pages/teacher/TeacherSubmissionView.js:249 | "Saving..." exactly while saving |
| `AssignExam.Remove` | src/pages/teacher/AssignExam.js:21 | `filter` drops every occurrence of the id and keeps every other id |
| `AssignExam.Toggle` | src/pages/teacher/AssignExam.js:18-24 | The id's membership flips and no other id's membership changes |
| `AssignExam.RemoveAbsent` | src/pages/teacher/AssignExam.js:21 | Removing an id that is not there changes nothing |
| `AssignExam.RemoveNoDup` | src/pages/teacher/AssignExam.js:21 | Removing keeps a list free of repetitions |
| `AssignExam.ToggleNoDup` | src/pages/teacher/AssignExam.js:21-22 | Toggling keeps a repetition-free selection repetition-free |
| `AssignExam.ToggleTwice` | src/pages/teacher/AssignExam.js:18-24 | Toggling twice restores the set of selected ids; exactly the list when the id was absent, the id moved last when it was present |
| `AssignExam.RemoveAppended` | src/pages/teacher/AssignExam.js:19-23 | Removing an id just appended undoes the append |
| `AssignExam.AssignPage.constructor` | src/pages/teacher/AssignExam.js:11-12 | Empty selection, not loading |
| `AssignExam.AssignPage.SelectedCount` | src/pages/teacher/AssignExam.js:146 | The count is `selected.length`, and 0 exactly when no box is checked |
| `AssignExam.AssignPage.ToggleStudent` | src/pages/teacher/AssignExam.js:18-24 | Clicking a checkbox flips its tick and no other, keeping the selection repetition-free |
| `AssignExam.AssignPage.Assign` | src/pages/teacher/AssignExam.js:26-36 | An empty selection sends nothing; otherwise `loading` is set and the body's `studentIds` is the selection |
| `AssignExam.AssignPage.AssignSettled` | src/pages/teacher/AssignExam.js:37-43 | Success leaves for the exam list; `loading` is false after either outcome |
| `StudentList.Matches` | src/pages/teacher/StudentList.js:20-25 | The `filter` callback: the empty query matches every student (its full behaviour is stated through `Filter`, `NarrowerQueryMatches` and `CaseInsensitive`) |
| `StudentList.Filter` | src/pages/teacher/StudentList.js:20-25 | A student is kept exactly when the lower-cased query occurs in the lower-cased name, e-mail or non-empty student id |
| `StudentList.FilterSubsequence` | src/pages/teacher/StudentList.js:20 | The result is an order-preserving subsequence of the list |
| `StudentList.SubsequenceSkip` | src/pages/teacher/StudentList.js:20 | Skipping an element of the list keeps a subsequence a subsequence |
| `StudentList.SubsequenceTail` | src/pages/teacher/StudentList.js:20 | Dropping the head of a subsequence keeps it a subsequence |
| `StudentList.EmptyQueryKeepsAll` | src/pages/teacher/StudentList.js:20-25 | The empty query keeps every student |
| `StudentList.NarrowerQueryMatches` | src/pages/teacher/StudentList.js:21-24 | A student matching a query matches every query contained in it |
| `StudentList.NarrowerQuery` | src/pages/teacher/StudentList.js:20-25 | Searching for `q2` inside the results for `q1`, where `q1` occurs in `q2`, gives the results for `q2`, so they are a subset of the results for `q1` |
| `StudentList.CaseInsensitive` | src/pages/teacher/StudentList.js:22-24 | Queries that differ only in letter case give the same list |
| `StudentList.StudentListPage.constructor` | src/pages/teacher/StudentList.js:7-8 | No students, empty search |
| `StudentList.StudentListPage.Shown` | src/pages/teacher/StudentList.js:115 | The rows are the listed students that match the search |
| `StudentList.StudentListPage.EmptyStateWithoutSearch` | src/pages/teacher/StudentList.js:85 | With an empty search box, "No students found." shows exactly when there are no students |
| `StudentList.StudentListPage.SetSearch` | src/pages/teacher/StudentList.js:78 | The search box changes and nothing else |
| `StudentList.StudentListPage.Fetched` | src/pages/teacher/StudentList.js:15-18 | The fetched list replaces the students |
| `StudentList.StudentListPage.DeleteStudent` | src/pages/teacher/StudentList.js:27-37 | Nothing without confirmation; otherwise the delete request goes out and a success fetches the list again |
| `StudentDashboard.ExamStatus` | src/pages/student/StudentDashboard.js:29-37 | Upcoming iff `now < start`; Expired iff `start <= now` and `now > end`; Active iff `start <= now <= end`; exactly one holds |
| `StudentDashboard.StatusMovesForward` | src/pages/student/StudentDashboard.js:29-37 | With `start <= end` the status only moves from Upcoming to Active to Expired as time passes |
| `StudentDashboard.WindowEndsInclusive` | src/pages/student/StudentDashboard.js:34-36 | Both ends of the window are Active; one past either end is not |
| `StudentDashboard.InvertedWindowNeverActive` | src/pages/student/StudentDashboard.js:34-36 | A window ending before it starts is never Active |
| `StudentDashboard.StatusBadge` | src/pages/student/StudentDashboard.js:39-50 | A class is given exactly for the three statuses, and green exactly for "Active" |
| `StudentDashboard.StatusBadgeDistinct` | src/pages/student/StudentDashboard.js:39-50 | The three statuses get three distinct non-empty classes; any other text gets `""` |
| `StudentDashboard.StartDisabled` | src/pages/student/StudentDashboard.js:98 | The start button is enabled exactly for an Active exam |
| `StudentDashboard.StartEnabledInWindow` | src/pages/student/StudentDashboard.js:98-135 | The start button is enabled exactly while `start <= now <= end` |
| `StudentDashboard.StartNavigation` | src/pages/student/StudentDashboard.js:55-62 | The page navigates to the attempt only when the start request succeeds |
| `StudentDashboard.DashboardPage.constructor` | src/pages/student/StudentDashboard.js:7-8 | No exams, loading |
| `StudentDashboard.DashboardPage.Load` | src/pages/student/StudentDashboard.js:11-24 | The list on success, unchanged on failure; loading ends either way |
| `StudentDashboard.DashboardPage.OneViewShown` | src/pages/student/StudentDashboard.js:85-94 | After loading exactly one of the empty state and the grid shows; while loading neither does |
| `StudentExamSummary.SummaryBadgeAgrees` | src/pages/student/StudentExamSummary.js:138-145 | The summary colours each status as the dashboard does |
| `StudentExamSummary.SubjectLabel` | src/pages/student/StudentExamSummary.js:102 | A missing or empty subject shows "-"; any other subject shows itself |
| `StudentExamSummary.TotalMarksLabel` | src/pages/student/StudentExamSummary.js:116 | A missing or zero total shows "Based on questions"; a positive total shows digits that read back as the total |
| `StudentExamSummary.StartButtonDisabled` | src/pages/student/StudentExamSummary.js:167 | Enabled exactly when the status is Active and no start is in progress |
| `StudentExamSummary.SummaryStartMatchesDashboard` | src/pages/student/StudentExamSummary.js:167 | Without a start in progress the summary enables the button exactly as the dashboard does |
| `StudentExamSummary.StartLabel` | src/pages/student/StudentExamSummary.js:176 | "Starting..." exactly while starting |
| `StudentExamSummary.SummaryPage.constructor` | src/pages/student/StudentExamSummary.js:10-12 | No exam, loading, not starting |
| `StudentExamSummary.SummaryPage.Load` | src/pages/student/StudentExamSummary.js:14-28 | The summary on success; failure navigates to `/student`; loading ends either way |
| `StudentExamSummary.SummaryPage.HandleStartExam` | src/pages/student/StudentExamSummary.js:37-40 | From the enabled button, `starting` is set, one request goes out, and the button becomes disabled |
| `StudentExamSummary.SummaryPage.StartSettled` | src/pages/student/StudentExamSummary.js:40-45 | Success navigates to the attempt; failure clears `starting` so the student can try again |
| `Grading.RatioAtLeast` | src/pages/teacher/ExamResults.js:27-28 | The unrounded percentage reaches a bound exactly when `100*obtained >= bound*total` |
| `Grading.Status` | src/pages/teacher/ExamResults.js:26-29 | Pass exactly when `100*obtained >= 40*total` |
| `Grading.BadgeClass` | src/pages/teacher/ExamResults.js:112-117 | The badge is green exactly for a pass and red otherwise, on this page and on the student's (src/pages/student/MyResults.js:76-85) |
| `Grading.Round` | src/pages/teacher/ExamResults.js:86-88 | `Math.round(x)` lies in `(x-0.5, x+0.5]` |
| `Grading.Percent` | src/pages/teacher/ExamResults.js:86-88 | The shown percentage is within a half of the exact ratio, halves rounding up |
| `Grading.PassBoundary` | src/pages/teacher/ExamResults.js:28 | Exactly 40 percent passes, and so do full marks |
| `Grading.StatusMonotone` | src/pages/teacher/ExamResults.js:26-29 | More marks never turn a pass into a fail |
| `Grading.PassShowsAtLeastForty` | src/pages/teacher/ExamResults.js:86-92 | A pass always shows at least 40 percent; 39 or less always fails |
| `Grading.RoundedFortyCanFail` | src/pages/teacher/ExamResults.js:86-92 | 79 of 200 shows "40%" and still fails |
| `Grading.PercentNonNegative` | src/pages/teacher/ExamResults.js:86-88 | Non-negative marks never give a negative percentage |
| `Grading.PercentLabel` | src/pages/teacher/ExamResults.js:86-109 | `${percent}%` (also src/pages/student/MyResults.js:96-101): ends in `%`, and for non-negative marks what precedes it is all digits and reads back as `Percent` |
| `Grading.PercentInRange` | src/pages/student/MyResults.js:44-46 | Marks between none and the total give a percentage between 0 and 100 |
| `ExamResults.CellAgreesWithBadge` | src/pages/teacher/ExamResults.js:86-117 | The percentage cell and the status badge of a row agree: a pass reads back as at least 40, and a cell reading 39 or less sits beside a red badge |
| `ExamResults.RowBadgeGreenIffPass` | src/pages/teacher/ExamResults.js:89-117 | A row's badge is green exactly when the marks reach 40 percent of the total |
| `ExamResults.ResultsPage.constructor` | src/pages/teacher/ExamResults.js:8-9 | No rows, loading |
| `ExamResults.ResultsPage.Load` | src/pages/teacher/ExamResults.js:11-24 | The rows on success, unchanged on failure; loading ends either way |
| `ExamResults.ResultsPage.OneViewShown` | src/pages/teacher/ExamResults.js:57-61 | After loading exactly one of "No submissions yet." and the table shows |
| `MyResults.BarClass` | src/pages/student/MyResults.js:90-95 | The bar is green exactly for a pass |
| `MyResults.BarWidthInRange` | src/pages/student/MyResults.js:44-101 | The bar's width (lines 96-101; the same label as the text under it) reads back as at most 100 for marks between none and the total, and exactly 100 at full marks |
| `MyResults.CardColoursAgree` | src/pages/student/MyResults.js:76-95 | Bar and badge are both green exactly when the marks reach 40 percent, both red otherwise |
| `MyResults.MyResultsPage.constructor` | src/pages/student/MyResults.js:6-7 | No results, loading |
| `MyResults.MyResultsPage.Load` | src/pages/student/MyResults.js:9-22 | The cards on success, unchanged on failure; loading ends either way |
| `MyExams.BadgeStyle` | src/pages/teacher/MyExams.js:56-59 | Green exactly for "published", yellow for any other status |
| `MyExams.ActionsByStatus` | src/pages/teacher/MyExams.js:157-168 | A draft offers Publish and no Assign; the badge is green exactly when Assign is enabled; a published exam offers Assign and no Publish |
| `MyExams.MyExamsPage.constructor` | src/pages/teacher/MyExams.js:7-8 | No exams, loading |
| `MyExams.MyExamsPage.FetchExams` | src/pages/teacher/MyExams.js:11-20 | The list on success, unchanged on failure; loading ends either way |
| `MyExams.MyExamsPage.PublishExam` | src/pages/teacher/MyExams.js:26-37 | Nothing without confirmation; otherwise the publish request goes out and a success fetches the list again |
| `MyExams.MyExamsPage.HandleDelete` | src/pages/teacher/MyExams.js:39-54 | Nothing without confirmation; otherwise the delete request goes out and a success fetches the list again |
| `MyExams.MyExamsPage.OneViewShown` | src/pages/teacher/MyExams.js:82-91 | The empty state and the table never show together, and after loading one of them does |
| `AddQuestions.DefaultForm` | src/pages/teacher/AddQuestions.js:12-17 | Empty text, options A to D empty, correct answer "A", marks 1 |
| `AddQuestions.OptionChange` | src/pages/teacher/AddQuestions.js:28-33 | Only option `key` changes; the other options and fields stay |
| `AddQuestions.OptionChangeWellFormed` | src/pages/teacher/AddQuestions.js:98 | Editing one of A to D keeps exactly four options with the correct answer among them |
| `AddQuestions.BlankIffWhitespace` | src/pages/teacher/AddQuestions.js:36-39 | The text is refused exactly when it is white space only |
| `AddQuestions.AddQuestionsPage.constructor` | src/pages/teacher/AddQuestions.js:9-17 | No questions, not loading, the default form |
| `AddQuestions.AddQuestionsPage.SetText` | src/pages/teacher/AddQuestions.js:91-93 | Only the question text changes |
| `AddQuestions.AddQuestionsPage.HandleOptionChange` | src/pages/teacher/AddQuestions.js:28-33 | Only the option changes, and the form stays well formed |
| `AddQuestions.AddQuestionsPage.SetCorrectAnswer` | src/pages/teacher/AddQuestions.js:112-123 | The correct answer, one of A to D, changes and nothing else |
| `AddQuestions.AddQuestionsPage.SetMarks` | src/pages/teacher/AddQuestions.js:130 | Only the marks change |
| `AddQuestions.AddQuestionsPage.AddQuestion` | src/pages/teacher/AddQuestions.js:35-44 | A blank text sends nothing; otherwise `loading` is set and the form is posted |
| `AddQuestions.AddQuestionsPage.AddSettled` | src/pages/teacher/AddQuestions.js:45-58 | Success resets the form to the defaults and fetches the list; `loading` is false after either outcome |
| `AddQuestions.AddQuestionsPage.DeleteQuestion` | src/pages/teacher/AddQuestions.js:61-65 | Nothing without confirmation; otherwise the delete goes out and a success fetches the list |
| `CreateExam.DefaultForm` | src/pages/teacher/CreateExam.js:9-18 | `examType` "Practice", every other field empty |
| `CreateExam.CanSubmitIff` | src/pages/teacher/CreateExam.js:27-36 | The request is sent exactly when title, institute name, duration, start and end time are all non-empty |
| `CreateExam.DefaultFormBlocked` | src/pages/teacher/CreateExam.js:27-36 | The untouched form is refused |
| `CreateExam.OptionalFieldsIgnored` | src/pages/teacher/CreateExam.js:27-33 | Subject, total marks and exam type never affect the check |
| `CreateExam.RequiredFieldBlocks` | src/pages/teacher/CreateExam.js:27-36 | Emptying any required field blocks the request |
| `CreateExam.EndBeforeStartAccepted` | src/pages/teacher/CreateExam.js:27-33 | The check does not compare the times: an end before the start is accepted |
| `CreateExam.CreateExamPage.constructor` | src/pages/teacher/CreateExam.js:9-20 | The default form, not loading |
| `CreateExam.CreateExamPage.HandleChange` | src/pages/teacher/CreateExam.js:22-24 | Only the named field changes; the exam type stays one of Practice, Test, Final |
| `CreateExam.CreateExamPage.HandleSubmit` | src/pages/teacher/CreateExam.js:26-40 | A missing required field sends nothing; otherwise `loading` is set and the form is posted |
| `CreateExam.CreateExamPage.SubmitSettled` | src/pages/teacher/CreateExam.js:41-47 | Success goes to the exam list; `loading` is false after either outcome |
| `CreateStudent.DefaultForm` | src/pages/teacher/CreateStudent.js:12-17 | Every field empty |
| `CreateStudent.UserIdOptional` | src/pages/teacher/CreateStudent.js:35-38 | The student id never affects the check |
| `CreateStudent.RequiredFieldBlocks` | src/pages/teacher/CreateStudent.js:35-38 | An empty name, e-mail or password blocks the request |
| `CreateStudent.TemplateCsv` | src/pages/teacher/CreateStudent.js:88-91 | `csvContent` is the header, the two rows and an empty last line joined by line breaks |
| `CreateStudent.TemplateLines` | src/pages/teacher/CreateStudent.js:88-91 | The template is the header and two rows, each ended by a line break |
| `CreateStudent.NoLineBreaks` | src/pages/teacher/CreateStudent.js:89-91 | No template line holds a line break of its own |
| `CreateStudent.TemplateHeaderFields` | src/pages/teacher/CreateStudent.js:89 | The header is `name,email,password,userId`, the four form fields |
| `CreateStudent.TemplateRow1Fields` | src/pages/teacher/CreateStudent.js:90 | The first data row has four comma-separated fields |
| `CreateStudent.TemplateRow2Fields` | src/pages/teacher/CreateStudent.js:91 | The second data row has four comma-separated fields |
| `CreateStudent.CreateStudentPage.constructor` | src/pages/teacher/CreateStudent.js:12-25 | The empty form, no file, not loading |
| `CreateStudent.CreateStudentPage.HandleChange` | src/pages/teacher/CreateStudent.js:27-29 | Only the named field changes |
| `CreateStudent.CreateStudentPage.HandleCreate` | src/pages/teacher/CreateStudent.js:34-50 | Sent exactly when name, e-mail and password are filled; success goes to the student list; `loading` ends cleared |
| `CreateStudent.CreateStudentPage.SelectFile` | src/pages/teacher/CreateStudent.js:215 | The chosen file, or none, is kept |
| `CreateStudent.CreateStudentPage.HandleBulkUpload` | src/pages/teacher/CreateStudent.js:55-82 | No file sends nothing; otherwise the file is uploaded, a success resets the file to none, and `bulkLoading` ends cleared |
| `EditStudent.BlankForm` | src/pages/teacher/EditStudent.js:10-14 | Every field empty |
| `EditStudent.LoadedForm` | src/pages/teacher/EditStudent.js:22-26 | Name and e-mail are copied; the student id is copied, or `""` when absent |
| `EditStudent.LoadedFormCanUpdate` | src/pages/teacher/EditStudent.js:22-41 | A loaded student can be saved unchanged exactly when it has a name and an e-mail, whatever its student id |
| `EditStudent.UserIdOptional` | src/pages/teacher/EditStudent.js:38-41 | The student id never affects the check |
| `EditStudent.EditStudentPage.constructor` | src/pages/teacher/EditStudent.js:10-16 | The empty form, loading, not saving |
| `EditStudent.EditStudentPage.Load` | src/pages/teacher/EditStudent.js:18-35 | Success fills the form; failure keeps it; loading ends either way |
| `EditStudent.EditStudentPage.SetField` | src/pages/teacher/EditStudent.js:101-104 | Each setter changes only its own field (also lines 117-120 and 132-135) |
| `EditStudent.EditStudentPage.Update` | src/pages/teacher/EditStudent.js:37-53 | Sent exactly when name and e-mail are filled; success goes to the student list; `saving` ends cleared |
| `Login.DefaultForm` | src/pages/Login.js:8-11 | Both fields empty |
| `Login.CanLoginIff` | src/pages/Login.js:19-22 | A request is sent exactly when e-mail and password are both non-empty; the untouched form is refused |
| `Login.Destination` | src/pages/Login.js:33 | `/teacher` exactly for the role "teacher", `/student` for every other role |
| `Login.Stored` | src/pages/Login.js:29-31 | Token, role and name of the response are stored and every other entry is kept |
| `Login.DestinationFollowsStoredRole` | src/pages/Login.js:29-33 | The landing page follows the role just stored |
| `Login.LoginPage.constructor` | src/pages/Login.js:8-12 | The empty form, not loading |
| `Login.LoginPage.HandleChange` | src/pages/Login.js:14-16 | Only the named field changes |
| `Login.LoginPage.HandleLogin` | src/pages/Login.js:18-39 | Sent exactly when both fields are filled; success stores the identity and lands by role; `loading` ends cleared |
| `RegisterTeacher.DefaultForm` | src/pages/RegisterTeacher.js:8-12 | Every field empty |
| `RegisterTeacher.CanRegisterIff` | src/pages/RegisterTeacher.js:22-25 | A request is sent exactly when name, e-mail and password are all non-empty |
| `RegisterTeacher.RegisterPage.constructor` | src/pages/RegisterTeacher.js:8-13 | The empty form, not loading |
| `RegisterTeacher.RegisterPage.HandleChange` | src/pages/RegisterTeacher.js:15-17 | Only the named field changes |
| `RegisterTeacher.RegisterPage.HandleRegister` | src/pages/RegisterTeacher.js:19-30 | While loading nothing happens at all; otherwise a request goes out exactly when all three fields are filled, with `loading` set |
| `RegisterTeacher.RegisterPage.RegisterSettled` | src/pages/RegisterTeacher.js:31-40 | Success goes to `/login`; `loading` is false after either outcome |
| `RegisterTeacher.DoubleClickSendsOnce` | src/pages/RegisterTeacher.js:20 | Two clicks before the response send a single request |
| `ChangePassword.ButtonLabel` | src/pages/common/ChangePassword.js:52 | "Updating..." exactly while loading |
| `ChangePassword.ChangePasswordForm.constructor` | src/pages/common/ChangePassword.js:5-7 | Both fields empty, not loading |
| `ChangePassword.ChangePasswordForm.SetOld` | src/pages/common/ChangePassword.js:41 | Only the old password changes |
| `ChangePassword.ChangePasswordForm.SetNew` | src/pages/common/ChangePassword.js:48 | Only the new password changes |
| `ChangePassword.ChangePasswordForm.Submit` | src/pages/common/ChangePassword.js:9-31 | Sent exactly when both fields are non-empty, as `{oldPassword, newPassword}`; success clears both fields, failure keeps them; `loading` ends cleared |
| `JsObject.Put` | src/pages/student/StartExam.js:77-80 | `{...o, [k]: v}`: the value of `k` becomes `v`, an existing key keeps its place, a new key comes last |
| `JsObject.KeyCount` | src/pages/student/StartExam.js:132 | `Object.keys(o).length` is the number of entries |
| `JsString.IncludesTransitive` | src/pages/teacher/StudentList.js:22-24 | A string includes what any of its substrings includes |
| `JsString.LowerKeepsIncludes` | src/pages/teacher/StudentList.js:22-24 | Lower-casing keeps every occurrence |
| `JsString.TrimEmptyIffBlank` | src/pages/teacher/AddQuestions.js:36 | `!s.trim()` holds exactly of white-space-only strings |
| `JsString.SplitJoin` | src/pages/teacher/CreateStudent.js:88-91 | Splitting the join of separator-free fields gives the fields back |
| `Forms.Change` | src/pages/teacher/CreateExam.js:22-24 | The named field takes the new text and no other field changes |
| `Forms.FilledIff` | src/pages/teacher/CreateExam.js:27-36 | The `!form.a \|\| !form.b` check passes exactly when every required field is non-empty |
| `Forms.FilledIgnoresOptional` | src/pages/teacher/CreateExam.js:27-33 | A field that is not required never changes the outcome |
| `Forms.EmptyRequiredBlocks` | src/pages/teacher/CreateExam.js:27-36 | Emptying a required field fails the check |

## Left out

- HTTP transport (`src/api/axios.js`, its base URL, timeout and token interceptor) is not part of this model. Every response is a method parameter: success with its data, or failure.
- Rendering, `alert` texts and routing are out of the model. Where a page navigates, the target is recorded in a field (`navigatedTo`, `closed`); the rest of the JSX is not modelled.
- React effect scheduling, `setInterval`/`clearInterval` and stale closures are out of the model. The countdown is an explicit `Tick` method. The timer effect runs after every change of the countdown.
- `StartExam.ExamSession.Tick`: the effect's cleanup clears the interval on every change of the countdown and the effect creates a new one, except once the countdown is at or below 0, when none is created (the guard of `Tick`). A submission in flight does not stop the countdown. The individual interval handles are not modelled.
- `StartExam.ExamSession.Clock`: a negative countdown (from a negative duration) is formatted as the source formats it, with JavaScript's truncating `%`, but the contract states nothing about that text.
- `new Date(...)` parsing, invalid dates and `toLocaleString` are out of the model. Times are integers on one clock. An invalid date compares false both ways and would make an exam Active; the model has no such value.
- Floating-point arithmetic is out of the model. This covers `Number(...)` on arbitrary input, including the NaN that non-numeric mark input produces, and division by a zero total. Marks and totals are exact reals, and the percentage functions require `total > 0`. The marks typed for a new question are an integer.
- `toLowerCase` lowers only the ASCII letters A to Z. Unicode case mapping is out of the model.
- `JsObject`: `Object.keys` lists integer-like keys first, in numeric order. The model uses insertion order for every key. Question ids are not integer-like.
- File upload (`FormData`), the template download (`Blob`, object URL) and the file links of submitted answers are out of the model, and so is `src/pages/teacher/BulkUploadStudents.js`. Only the template text and the chosen-file guard are modelled.
- The static pages are out of the model: `src/App.js`, `Navbar`, `LandingPage`, `TeacherDashboard`, `DashboardCard`, `Profile`, `StudentDetail` and `Results`.
- A refetch after publish, delete or add is started without `await`, before the `finally`. It is modelled as completing within the same handler, so requests that interleave with it are not modelled.
- A handler without a re-entrancy flag of its own is one atomic method, with the outcome of its request as a parameter. This covers login, create and edit student, change password, publish and delete. While its request is on its way the user could trigger another; the model does not capture that interleaving.
- `AddQuestions`: the displayed count `questions.length` is only the length of the `questions` field and has no member of its own.
