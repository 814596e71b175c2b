/** The student's StudentExamSummary page: the exam details with their fallbacks,
    the same time-window status as the dashboard, and a start button that stays
    disabled while a start request is on its way. */
module StudentExamSummary {
  import opened Wrappers
  import opened JsString
  import opened StudentDashboard

  /** The parts of `GET /student/exam-summary/{examId}` the page acts on. */
  datatype ExamSummary = ExamSummary(subject: Option<string>, totalMarks: Option<int>, startTime: int, endTime: int)

  /** The nested ternary that colours the status: green when active, blue when
      upcoming, red otherwise. */
  function SummaryBadge(s: Status): string {
    if s == Active then "bg-green-100 text-green-700"
    else if s == Upcoming then "bg-blue-100 text-blue-700"
    else "bg-red-100 text-red-700"
  }

  /** The summary colours each status as the dashboard's `statusBadge` does. */
  lemma SummaryBadgeAgrees(s: Status)
    ensures SummaryBadge(s) == StatusBadge(StatusName(s))
  {
  }

  /** `exam.subject || "-"`: a missing or empty subject shows "-", any other
      subject shows itself. */
  function SubjectLabel(subject: Option<string>): (text: string)
    ensures text == "-" <==> subject.None? || subject.value == "" || subject.value == "-"
    ensures subject.Some? && subject.value != "" ==> text == subject.value
  {
    if subject.Some? && subject.value != "" then subject.value else "-"
  }

  /** `exam.totalMarks || "Based on questions"`: a missing or zero total falls back to
      the text. */
  function TotalMarksLabel(totalMarks: Option<int>): (text: string)
    ensures totalMarks.None? || totalMarks.value == 0 ==> text == "Based on questions"
    ensures totalMarks.Some? && totalMarks.value > 0 ==>
              AllDigits(text) && ParseNat(text) == totalMarks.value
  {
    if totalMarks.Some? && totalMarks.value != 0 then
      ParseNatToString(if totalMarks.value >= 0 then totalMarks.value else 0);
      IntToString(totalMarks.value)
    else "Based on questions"
  }

  /** `status !== "Active" || starting` */
  function StartButtonDisabled(s: Status, starting: bool): (disabled: bool)
    ensures !disabled <==> s == Active && !starting
  {
    StatusName(s) != "Active" || starting
  }

  /** When no start is in progress the summary enables the button exactly as the
      dashboard does. */
  lemma SummaryStartMatchesDashboard(s: Status)
    ensures StartButtonDisabled(s, false) == StudentDashboard.StartDisabled(s)
  {
  }

  /** The start button's text. */
  function StartLabel(starting: bool): (text: string)
    ensures text == "Starting..." <==> starting
  {
    if starting then "Starting..." else "Start Exam"
  }

  /** The summary page. */
  class SummaryPage {
    /** The `exam` state: `None` (null) until the summary has loaded. */
    var exam: Option<ExamSummary>
    /** The `loading` state. */
    var loading: bool
    /** The `starting` state. */
    var starting: bool
    /** A start request is awaiting its response. */
    var awaiting: bool
    /** Where the page has navigated to, if anywhere. */
    var navigatedTo: Option<string>
    /** How many start requests were sent. */
    var startRequests: nat

    ghost predicate Valid()
      reads this
    {
      awaiting ==> starting && exam.Some? && !loading
    }

    constructor ()
      ensures Valid()
      ensures exam.None? && loading && !starting && !awaiting && navigatedTo.None? && startRequests == 0
    {
      exam, loading, starting, awaiting, navigatedTo, startRequests := None, true, false, false, None, 0;
    }

    /** The fetch effect: the summary on success; on failure the page goes back to
        the dashboard. Loading ends either way. */
    method Load(res: Option<ExamSummary>)
      requires Valid() && loading
      modifies this
      ensures Valid()
      ensures !loading && exam == res
      ensures res.None? ==> navigatedTo == Some("/student")
      ensures res.Some? ==> navigatedTo == old(navigatedTo)
      ensures starting == old(starting) && awaiting == old(awaiting) && startRequests == old(startRequests)
    {
      if res.None? {
        navigatedTo := Some("/student");
      }
      exam := res;
      loading := false;
    }

    /** The status at instant `now`, as `getStatus` computes it. */
    function StatusAt(now: int): Status
      requires exam.Some?
      reads this
    {
      ExamStatus(now, exam.value.startTime, exam.value.endTime)
    }

    /** `handleStartExam` from the enabled start button at instant `now`, up to the
        `await`: `starting` is set and the start request goes out. */
    method HandleStartExam(examId: string, now: int)
      requires Valid() && !loading && exam.Some? && !StartButtonDisabled(StatusAt(now), starting)
      modifies this
      ensures Valid()
      ensures starting && awaiting && startRequests == old(startRequests) + 1
      ensures StartButtonDisabled(StatusAt(now), starting)
      ensures exam == old(exam) && loading == old(loading) && navigatedTo == old(navigatedTo)
    {
      starting := true;
      startRequests := startRequests + 1;
      awaiting := true;
    }

    /** The rest of `handleStartExam`: success opens the attempt page; a failure
        clears `starting` so the student can try again. */
    method StartSettled(examId: string, ok: bool)
      requires Valid() && awaiting
      modifies this
      ensures Valid()
      ensures !awaiting
      ensures ok ==> starting && navigatedTo == Some("/student/start/" + examId)
      ensures !ok ==> !starting && navigatedTo == old(navigatedTo)
      ensures exam == old(exam) && loading == old(loading) && startRequests == old(startRequests)
    {
      awaiting := false;
      if ok {
        navigatedTo := Some("/student/start/" + examId);
      } else {
        starting := false;
      }
    }
  }
}
