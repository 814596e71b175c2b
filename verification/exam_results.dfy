/** The teacher's ExamResults page: one table row per submission with the marks,
    the rounded percentage and a pass or fail badge. */
module ExamResults {
  import opened Wrappers
  import opened JsString
  import opened Grading

  /** A submission result as `GET /results/exam/{examId}` lists it. */
  datatype ResultRow = ResultRow(studentName: string, obtainedMarks: real, totalMarks: real)

  /** A row with a green badge shows at least "40%" in its percentage cell, and a
      cell showing 39 or less has a red badge. */
  lemma CellAgreesWithBadge(r: ResultRow)
    requires r.totalMarks > 0.0 && r.obtainedMarks >= 0.0
    ensures var t := PercentLabel(r.obtainedMarks, r.totalMarks);
      && (Status(r.obtainedMarks, r.totalMarks) == Pass ==> ParseNat(t[..|t| - 1]) >= 40)
      && (ParseNat(t[..|t| - 1]) <= 39 ==> BadgeClass(Status(r.obtainedMarks, r.totalMarks)) == "bg-red-100 text-red-700")
  {
    PassShowsAtLeastForty(r.obtainedMarks, r.totalMarks);
  }

  /** A row's badge is green exactly when the student reached 40 percent of the
      total. */
  lemma RowBadgeGreenIffPass(r: ResultRow)
    requires r.totalMarks > 0.0
    ensures BadgeClass(Status(r.obtainedMarks, r.totalMarks)) == "bg-green-100 text-green-700"
            <==> 100.0 * r.obtainedMarks >= 40.0 * r.totalMarks
  {
  }

  /** The results page: the fetched rows and the loading flag. */
  class ResultsPage {
    /** The `results` state. */
    var results: seq<ResultRow>
    /** The `loading` state. */
    var loading: bool

    constructor ()
      ensures results == [] && loading
    {
      results, loading := [], true;
    }

    /** The fetch effect: the rows on success, none on failure, and loading ends
        either way. */
    method Load(res: Option<seq<ResultRow>>)
      modifies this
      ensures !loading
      ensures res.Some? ==> results == res.value
      ensures res.None? ==> results == old(results)
    {
      if res.Some? {
        results := res.value;
      }
      loading := false;
    }

    /** "No submissions yet." */
    predicate EmptyShown()
      reads this
    {
      !loading && |results| == 0
    }

    /** The results table. */
    predicate TableShown()
      reads this
    {
      !loading && |results| > 0
    }

    /** Once loading is over exactly one of the message and the table shows; while
        loading neither does. */
    lemma OneViewShown()
      ensures !loading ==> (EmptyShown() <==> !TableShown())
      ensures loading ==> !EmptyShown() && !TableShown()
    {
    }
  }
}
