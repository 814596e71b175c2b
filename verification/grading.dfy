/** The pass mark and the percentage shared by the teacher's ExamResults page and
    the student's MyResults page, which both define the same `getStatus` and the
    same rounded percentage. Marks are exact reals: the model has no
    floating-point rounding. */
module Grading {
  import opened JsString

  /** The outcome of `getStatus`. */
  datatype Verdict = Pass | Fail

  /** `(obtained / total) * 100`, the unrounded percentage. */
  function Ratio(obtained: real, total: real): real
    requires total > 0.0
  {
    obtained / total * 100.0
  }

  /** The unrounded percentage reaches a bound exactly when the marks reach that
      share of the total. */
  lemma RatioAtLeast(obtained: real, total: real, bound: real)
    requires total > 0.0
    ensures Ratio(obtained, total) >= bound <==> 100.0 * obtained >= bound * total
  {
    var q := obtained / total;
    assert q * total == obtained;
    if q * 100.0 >= bound {
      assert q * 100.0 * total >= bound * total;
    } else {
      assert q * 100.0 * total < bound * total;
    }
  }

  /** `getStatus(obtained, total)`: a pass from 40 percent up. */
  function Status(obtained: real, total: real): (v: Verdict)
    requires total > 0.0
    ensures v == Pass <==> 100.0 * obtained >= 40.0 * total
  {
    RatioAtLeast(obtained, total, 40.0);
    if Ratio(obtained, total) >= 40.0 then Pass else Fail
  }

  /** The status badge's colour classes, the same on the teacher's and the
      student's results page. */
  function BadgeClass(v: Verdict): (c: string)
    ensures c == "bg-green-100 text-green-700" <==> v == Pass
    ensures c != "bg-green-100 text-green-700" ==> c == "bg-red-100 text-red-700"
  {
    if v == Pass then "bg-green-100 text-green-700" else "bg-red-100 text-red-700"
  }

  /** `Math.round(x)`: the nearest integer, halves going up. */
  function Round(x: real): (n: int)
    ensures x - 0.5 < n as real <= x + 0.5
  {
    (x + 0.5).Floor
  }

  /** The percentage shown: `Math.round((obtained / total) * 100)`. */
  function Percent(obtained: real, total: real): (p: int)
    requires total > 0.0
    ensures Ratio(obtained, total) - 0.5 < p as real <= Ratio(obtained, total) + 0.5
  {
    Round(Ratio(obtained, total))
  }

  /** The shown percentage is never negative when the marks are not. */
  lemma PercentNonNegative(obtained: real, total: real)
    requires total > 0.0 && obtained >= 0.0
    ensures Percent(obtained, total) >= 0
  {
    RatioAtLeast(obtained, total, 0.0);
  }

  /** `${percent}%`, the text both results pages show for a result: the digits of
      the rounded percentage followed by a percent sign. */
  function PercentLabel(obtained: real, total: real): (t: string)
    requires total > 0.0
    ensures |t| >= 2 && t[|t| - 1] == '%'
    ensures obtained >= 0.0 ==>
              AllDigits(t[..|t| - 1]) && ParseNat(t[..|t| - 1]) == Percent(obtained, total)
  {
    var p := Percent(obtained, total);
    var t := IntToString(p) + "%";
    assert t[..|t| - 1] == IntToString(p);
    if obtained >= 0.0 then
      PercentNonNegative(obtained, total);
      ParseNatToString(p);
      t
    else
      t
  }

  /** Exactly 40 percent passes, and so does a full score. */
  lemma PassBoundary(total: real)
    requires total > 0.0
    ensures Status(0.4 * total, total) == Pass
    ensures Status(total, total) == Pass
  {
  }

  /** More marks never turn a pass into a fail. */
  lemma StatusMonotone(o1: real, o2: real, total: real)
    requires total > 0.0 && o1 <= o2
    ensures Status(o1, total) == Pass ==> Status(o2, total) == Pass
  {
  }

  /** A pass always shows at least 40 percent, so a shown percentage of 39 or
      less is always a fail. */
  lemma PassShowsAtLeastForty(obtained: real, total: real)
    requires total > 0.0
    ensures Status(obtained, total) == Pass ==> Percent(obtained, total) >= 40
    ensures Percent(obtained, total) <= 39 ==> Status(obtained, total) == Fail
  {
    RatioAtLeast(obtained, total, 40.0);
  }

  /** The status reads the unrounded ratio, so 79 marks out of 200 (39.5 percent)
      show as "40%" and still fail. */
  lemma RoundedFortyCanFail()
    ensures Percent(79.0, 200.0) == 40
    ensures Status(79.0, 200.0) == Fail
  {
    assert Ratio(79.0, 200.0) == 39.5;
  }

  /** Marks between none and the total give a percentage between 0 and 100. */
  lemma PercentInRange(obtained: real, total: real)
    requires total > 0.0 && 0.0 <= obtained <= total
    ensures 0 <= Percent(obtained, total) <= 100
  {
    RatioAtLeast(obtained, total, 0.0);
    var q := obtained / total;
    assert q * total == obtained;
    assert q <= 1.0;
  }
}
