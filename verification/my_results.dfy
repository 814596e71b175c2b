/** The student's MyResults page: one card per result with the score, a pass or
    fail badge, and a progress bar as wide as the rounded percentage. */
module MyResults {
  import opened Wrappers
  import opened JsString
  import opened Grading

  /** A result as `GET /results/my-results` lists it. */
  datatype ResultCard = ResultCard(examTitle: string, obtainedMarks: real, totalMarks: real)

  /** The progress bar's colour class. */
  function BarClass(v: Verdict): (c: string)
    ensures c == "bg-green-600" <==> v == Pass
  {
    if v == Pass then "bg-green-600" else "bg-red-600"
  }

  /** The bar's `width` style and the text under the bar are both the card's
      `PercentLabel`: a result between none and full marks fills between 0 and 100
      percent of the bar, and full marks fill all of it. */
  lemma BarWidthInRange(r: ResultCard)
    requires r.totalMarks > 0.0 && 0.0 <= r.obtainedMarks <= r.totalMarks
    ensures var w := PercentLabel(r.obtainedMarks, r.totalMarks);
      && ParseNat(w[..|w| - 1]) <= 100
      && (r.obtainedMarks == r.totalMarks ==> ParseNat(w[..|w| - 1]) == 100)
  {
    PercentInRange(r.obtainedMarks, r.totalMarks);
    if r.obtainedMarks == r.totalMarks {
      RatioAtLeast(r.obtainedMarks, r.totalMarks, 100.0);
    }
  }

  /** The bar and the badge agree: both are green exactly when the result is a
      pass, and both are red otherwise. */
  lemma CardColoursAgree(r: ResultCard)
    requires r.totalMarks > 0.0
    ensures var v := Status(r.obtainedMarks, r.totalMarks);
      (BarClass(v) == "bg-green-600" <==> BadgeClass(v) == "bg-green-100 text-green-700")
      && (BarClass(v) == "bg-green-600" <==> 100.0 * r.obtainedMarks >= 40.0 * r.totalMarks)
  {
  }

  /** The results page: the fetched cards and the loading flag. */
  class MyResultsPage {
    /** The `results` state. */
    var results: seq<ResultCard>
    /** The `loading` state. */
    var loading: bool

    constructor ()
      ensures results == [] && loading
    {
      results, loading := [], true;
    }

    /** The fetch effect: the cards on success, none on failure, and loading ends
        either way. */
    method Load(res: Option<seq<ResultCard>>)
      modifies this
      ensures !loading
      ensures res.Some? ==> results == res.value
      ensures res.None? ==> results == old(results)
    {
      if res.Some? {
        results := res.value;
      }
      loading := false;
    }

    /** "No results available yet." */
    predicate EmptyShown()
      reads this
    {
      !loading && |results| == 0
    }
  }
}
