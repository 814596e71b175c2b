/** The student's StudentDashboard page: the time-window status of each assigned
    exam, its badge, and the start button that is enabled only inside the window.
    Times are instants on one integer clock (for instance milliseconds since the
    epoch), the value `new Date(...)` compares by. */
module StudentDashboard {
  import opened Wrappers

  /** The three outcomes of `getExamStatus`. */
  datatype Status = Upcoming | Expired | Active

  /** `getExamStatus`: before the start the exam is upcoming; after the end it has
      expired; otherwise, both ends included, it is active. */
  function ExamStatus(now: int, start: int, end: int): (s: Status)
    ensures s == Upcoming <==> now < start
    ensures s == Expired <==> start <= now && end < now
    ensures s == Active <==> start <= now <= end
  {
    if now < start then Upcoming
    else if now > end then Expired
    else Active
  }

  /** The position of a status in the life of an exam. */
  function Phase(s: Status): nat {
    match s
    case Upcoming => 0
    case Active => 1
    case Expired => 2
  }

  /** With a window that ends no earlier than it starts, the status only moves
      forward in time: Upcoming, then Active, then Expired. */
  lemma StatusMovesForward(t1: int, t2: int, start: int, end: int)
    requires start <= end && t1 <= t2
    ensures Phase(ExamStatus(t1, start, end)) <= Phase(ExamStatus(t2, start, end))
  {
  }

  /** Both ends of the window are inside it. */
  lemma WindowEndsInclusive(start: int, end: int)
    requires start <= end
    ensures ExamStatus(start, start, end) == Active
    ensures ExamStatus(end, start, end) == Active
    ensures ExamStatus(end + 1, start, end) == Expired
    ensures ExamStatus(start - 1, start, end) == Upcoming
  {
  }

  /** A window whose end lies before its start is never active: it goes straight
      from Upcoming to Expired. */
  lemma InvertedWindowNeverActive(now: int, start: int, end: int)
    requires end < start
    ensures ExamStatus(now, start, end) != Active
  {
  }

  /** The status text shown on the badge. */
  function StatusName(s: Status): string {
    match s
    case Upcoming => "Upcoming"
    case Expired => "Expired"
    case Active => "Active"
  }

  /** `statusBadge(status)`: a colour per status and no class for any other text;
      green is the colour of an open exam. */
  function StatusBadge(status: string): (c: string)
    ensures c != "" <==> status == "Active" || status == "Upcoming" || status == "Expired"
    ensures c == "bg-green-100 text-green-700" <==> status == "Active"
  {
    match status
    case "Active" => "bg-green-100 text-green-700"
    case "Upcoming" => "bg-blue-100 text-blue-700"
    case "Expired" => "bg-red-100 text-red-700"
    case _ => ""
  }

  /** The three statuses get three different, non-empty badge classes, and every
      other text gets none. */
  lemma StatusBadgeDistinct(s1: Status, s2: Status, other: string)
    requires other != "Active" && other != "Upcoming" && other != "Expired"
    ensures StatusBadge(StatusName(s1)) != ""
    ensures s1 != s2 ==> StatusBadge(StatusName(s1)) != StatusBadge(StatusName(s2))
    ensures StatusBadge(other) == ""
  {
  }

  /** `disabled = status !== "Active"` */
  function StartDisabled(s: Status): (disabled: bool)
    ensures !disabled <==> s == Active
  {
    StatusName(s) != "Active"
  }

  /** The start button can be pressed exactly while the clock is inside the window. */
  lemma StartEnabledInWindow(now: int, start: int, end: int)
    ensures !StartDisabled(ExamStatus(now, start, end)) <==> start <= now <= end
  {
  }

  /** An assigned exam as `GET /student/exams` lists it. */
  datatype AssignedExam = AssignedExam(id: string, startTime: int, endTime: int)

  /** `handleStartExam(examId)` with the outcome of the start request: the page
      navigates to the attempt only when the request succeeds. */
  function StartNavigation(examId: string, ok: bool): (target: Option<string>)
    ensures target.Some? <==> ok
    ensures ok ==> target.value == "/student/start/" + examId
  {
    if ok then Some("/student/start/" + examId) else None
  }

  /** The dashboard: the assigned exams and the loading flag. */
  class DashboardPage {
    /** The `exams` state. */
    var exams: seq<AssignedExam>
    /** The `loading` state. */
    var loading: bool

    constructor ()
      ensures exams == [] && loading
    {
      exams, loading := [], true;
    }

    /** The fetch effect: the list on success, nothing on failure, and loading ends
        either way. */
    method Load(res: Option<seq<AssignedExam>>)
      modifies this
      ensures !loading
      ensures res.Some? ==> exams == res.value
      ensures res.None? ==> exams == old(exams)
    {
      if res.Some? {
        exams := res.value;
      }
      loading := false;
    }

    /** "No exams assigned yet." */
    predicate EmptyStateShown()
      reads this
    {
      !loading && |exams| == 0
    }

    /** The grid of exam cards. */
    predicate GridShown()
      reads this
    {
      !loading && |exams| > 0
    }

    /** Once loading is over exactly one of the empty state and the grid shows; while
        loading neither does. */
    lemma OneViewShown()
      ensures !loading ==> (EmptyStateShown() <==> !GridShown())
      ensures loading ==> !EmptyStateShown() && !GridShown()
    {
    }
  }
}
