/** The teacher's TeacherSubmissionView page: the marks table seeded from a loaded
    submission, the clamped mark inputs of a manually evaluated exam, the
    evaluation request built from the table, and the verdict shown for a
    multiple-choice question. */
module SubmissionReview {
  import opened Wrappers
  import opened JsObject

  /** A question of the submission details: its id, its `type` ("mcq", "short",
      "long" or "file"), the marks already recorded for it and its maximum, the
      student's answer and, for a multiple-choice question, the correct option. */
  datatype SubmissionQuestion = SubmissionQuestion(
    id: string,
    kind: string,
    obtainedMarks: Option<real>,
    maxMarks: real,
    studentAnswer: Option<string>,
    correctAnswer: string)

  /** The parts of `GET /results/submission/{id}/details` the page acts on. */
  datatype Submission = Submission(evaluationType: string, questions: seq<SubmissionQuestion>)

  /** A `{questionId, obtainedMarks}` record of the evaluation request body. */
  datatype MarkEntry = MarkEntry(questionId: string, obtainedMarks: real)

  /** The multiple-choice badge. */
  datatype Verdict = Correct | Wrong

  // ---------------------------------------------------------------------------
  // The initial marks table

  /** `q.obtainedMarks || 0` */
  function InitialMark(q: SubmissionQuestion): real {
    q.obtainedMarks.GetOr(0.0)
  }

  /** The ids of the questions that are not multiple-choice. */
  function NonMcqIds(qs: seq<SubmissionQuestion>): set<string> {
    set q | q in qs && q.kind != "mcq" :: q.id
  }

  /** The table the `forEach` over the questions builds: every question that is not
      multiple-choice stores its recorded marks, or 0, under its id. */
  function InitialMarksOf(qs: seq<SubmissionQuestion>): (d: Dict<real>)
    ensures d.Valid()
    decreases |qs|
  {
    if |qs| == 0 then Empty()
    else
      var before := InitialMarksOf(qs[..|qs| - 1]);
      var q := qs[|qs| - 1];
      if q.kind != "mcq" then Put(before, q.id, InitialMark(q)) else before
  }

  /** The seeding loop itself. */
  method InitialMarks(qs: seq<SubmissionQuestion>) returns (initial: Dict<real>)
    ensures initial.Valid()
    ensures initial == InitialMarksOf(qs)
  {
    initial := Empty();
    var i := 0;
    while i < |qs|
      invariant 0 <= i <= |qs|
      invariant initial.Valid()
      invariant initial == InitialMarksOf(qs[..i])
    {
      assert qs[..i + 1][..i] == qs[..i];
      if qs[i].kind != "mcq" {
        initial := Put(initial, qs[i].id, InitialMark(qs[i]));
      }
      i := i + 1;
    }
    assert qs[..|qs|] == qs;
  }

  /** The seeded table has an entry for exactly the questions that are not
      multiple-choice. */
  lemma {:induction false} InitialMarksKeys(qs: seq<SubmissionQuestion>)
    ensures InitialMarksOf(qs).values.Keys == NonMcqIds(qs)
    decreases |qs|
  {
    if |qs| > 0 {
      var init := qs[..|qs| - 1];
      var q := qs[|qs| - 1];
      InitialMarksKeys(init);
      assert qs == init + [q];
      if q.kind != "mcq" {
        assert NonMcqIds(qs) == NonMcqIds(init) + {q.id};
      } else {
        assert NonMcqIds(qs) == NonMcqIds(init);
      }
    }
  }

  /** A question that is not multiple-choice starts with its recorded marks, or 0
      when it has none, unless a later question carries the same id. */
  lemma {:induction false} InitialMarksValue(qs: seq<SubmissionQuestion>, i: nat)
    requires i < |qs| && qs[i].kind != "mcq"
    requires forall j :: i < j < |qs| ==> qs[j].id != qs[i].id
    ensures qs[i].id in InitialMarksOf(qs).values
    ensures InitialMarksOf(qs).values[qs[i].id] == InitialMark(qs[i])
    ensures qs[i].obtainedMarks.None? ==> InitialMarksOf(qs).values[qs[i].id] == 0.0
    decreases |qs|
  {
    if i < |qs| - 1 {
      var init := qs[..|qs| - 1];
      assert init[i] == qs[i];
      InitialMarksValue(init, i);
    }
  }

  // ---------------------------------------------------------------------------
  // Entering marks

  /** `Math.min(Math.max(value, 0), max)` */
  function Clamp(v: real, max: real): (r: real)
    ensures r <= max
    ensures max >= 0.0 ==> 0.0 <= r
    ensures 0.0 <= v <= max ==> r == v
    ensures v < 0.0 && max >= 0.0 ==> r == 0.0
    ensures v > max ==> r == max
    ensures max < 0.0 ==> r == max
  {
    var atLeastZero := if v > 0.0 then v else 0.0;
    if atLeastZero < max then atLeastZero else max
  }

  /** Entering a mark that is already in range stores it unchanged, so clamping
      twice is clamping once. */
  lemma ClampIdempotent(v: real, max: real)
    ensures Clamp(Clamp(v, max), max) == Clamp(v, max)
  {
  }

  /** A question shows a mark input when the exam is evaluated manually and the
      question is a short, long or file answer. */
  predicate MarkInputShown(evaluationType: string, kind: string) {
    evaluationType == "manual" && (kind == "short" || kind == "long" || kind == "file")
  }

  /** A multiple-choice question never has a mark input. */
  lemma McqHasNoMarkInput(evaluationType: string, kind: string)
    ensures MarkInputShown(evaluationType, kind) ==> kind != "mcq" && evaluationType == "manual"
  {
  }

  // ---------------------------------------------------------------------------
  // The evaluation request

  /** `Object.keys(marksMap).map(qid => ({ questionId: qid, obtainedMarks: marksMap[qid] }))` */
  function EvaluationPayload(marks: Dict<real>): (p: seq<MarkEntry>)
    ensures |p| == |marks.keys|
    ensures forall i :: 0 <= i < |p| ==> p[i].questionId == marks.keys[i]
  {
    seq(|marks.keys|, i requires 0 <= i < |marks.keys| =>
        MarkEntry(marks.keys[i], if marks.keys[i] in marks.values then marks.values[marks.keys[i]] else 0.0))
  }

  /** The request carries one record per entry of the table, none repeated, each
      with the marks stored for its question. */
  lemma EvaluationPayloadFaithful(marks: Dict<real>)
    requires marks.Valid()
    ensures |EvaluationPayload(marks)| == |marks.values|
    ensures forall i, j :: 0 <= i < j < |EvaluationPayload(marks)| ==>
              EvaluationPayload(marks)[i].questionId != EvaluationPayload(marks)[j].questionId
    ensures (set e | e in EvaluationPayload(marks) :: e.questionId) == marks.values.Keys
    ensures forall e :: e in EvaluationPayload(marks) ==>
              e.questionId in marks.values && marks.values[e.questionId] == e.obtainedMarks
  {
    KeyCount(marks);
    var p := EvaluationPayload(marks);
    forall k | k in marks.values ensures k in (set e | e in p :: e.questionId) {
      var i :| 0 <= i < |marks.keys| && marks.keys[i] == k;
      assert p[i] in p;
    }
  }

  /** Finalizing straight after the load sends marks for exactly the questions that
      are not multiple-choice: multiple-choice questions are never sent. */
  lemma LoadedPayloadSkipsMcq(qs: seq<SubmissionQuestion>)
    ensures (set e | e in EvaluationPayload(InitialMarksOf(qs)) :: e.questionId) == NonMcqIds(qs)
  {
    InitialMarksKeys(qs);
    EvaluationPayloadFaithful(InitialMarksOf(qs));
  }

  // ---------------------------------------------------------------------------
  // Multiple-choice display

  /** `q.studentAnswer === q.correctAnswer ? "Correct" : "Wrong"`: a missing answer
      is never correct. */
  function McqVerdict(studentAnswer: Option<string>, correctAnswer: string): (v: Verdict)
    ensures v == Correct <==> studentAnswer == Some(correctAnswer)
    ensures studentAnswer.None? ==> v == Wrong
  {
    if studentAnswer == Some(correctAnswer) then Correct else Wrong
  }

  /** `q.studentAnswer || "Not Answered"` */
  function AnswerText(studentAnswer: Option<string>): (t: string)
    ensures studentAnswer.None? || studentAnswer.value == "" ==> t == "Not Answered"
    ensures studentAnswer.Some? && studentAnswer.value != "" ==> t == studentAnswer.value
  {
    if studentAnswer.Some? && studentAnswer.value != "" then studentAnswer.value else "Not Answered"
  }

  /** The badge agrees with the shown answer: a "Correct" badge shows the correct
      option as the student's answer, and a question shown as "Not Answered" is
      marked "Wrong" unless its correct option is empty or that very text. */
  lemma VerdictMatchesDisplay(studentAnswer: Option<string>, correctAnswer: string)
    ensures McqVerdict(studentAnswer, correctAnswer) == Correct && correctAnswer != ""
            ==> AnswerText(studentAnswer) == correctAnswer
    ensures AnswerText(studentAnswer) == "Not Answered" && correctAnswer != "" && correctAnswer != "Not Answered"
            ==> McqVerdict(studentAnswer, correctAnswer) == Wrong
  {
  }

  // ---------------------------------------------------------------------------
  // The page

  class ReviewPage {
    /** The `loading` state: the details are being fetched. */
    var loading: bool
    /** The `data` state: `None` (null) until the details have loaded. */
    var data: Option<Submission>
    /** The `marksMap` state: question id to the marks entered for it. */
    var marks: Dict<real>
    /** The `saving` state. */
    var saving: bool
    /** An evaluation request is awaiting its response. */
    var awaiting: bool
    /** The page has navigated back. */
    var closed: bool
    /** Every evaluation request body sent, in order. */
    var evaluations: seq<seq<MarkEntry>>

    /** The loaded questions, none before the load. */
    function Questions(): seq<SubmissionQuestion>
      reads this
    {
      if data.Some? then data.value.questions else []
    }

    /** `isManual`: the finalize button and the mark inputs are rendered. */
    predicate IsManual()
      reads this
    {
      data.Some? && data.value.evaluationType == "manual"
    }

    /** Only questions that are not multiple-choice ever have marks. */
    ghost predicate Valid()
      reads this
    {
      && marks.Valid()
      && marks.values.Keys <= NonMcqIds(Questions())
      && (awaiting ==> saving)
    }

    /** The page as first rendered: loading, with no details and an empty table. */
    constructor ()
      ensures Valid()
      ensures loading && data.None? && marks == Empty()
      ensures !saving && !awaiting && !closed && evaluations == []
    {
      loading, data, marks := true, None, Empty();
      saving, awaiting, closed, evaluations := false, false, false, [];
    }

    /** The load effect with the outcome of the details request: on success the
        details are kept and the table is seeded with an entry for every question
        that is not multiple-choice; on failure the page navigates back. Loading
        ends either way. */
    method Load(res: Option<Submission>)
      requires Valid() && loading && data.None?
      modifies this
      ensures Valid()
      ensures !loading
      ensures res.Some? ==> data == res && closed == old(closed) && marks == InitialMarksOf(res.value.questions)
      ensures res.Some? ==> marks.values.Keys == NonMcqIds(res.value.questions)
      ensures res.None? ==> data.None? && closed && marks == old(marks)
      ensures saving == old(saving) && awaiting == old(awaiting) && evaluations == old(evaluations)
    {
      if res.Some? {
        data := res;
        var initial := InitialMarks(res.value.questions);
        InitialMarksKeys(res.value.questions);
        marks := initial;
      } else {
        closed := true;
      }
      loading := false;
    }

    /** `marksMap[q._id] ?? 0`, the value shown in a mark input. */
    function DisplayedMark(qid: string): real
      reads this
    {
      if qid in marks.values then marks.values[qid] else 0.0
    }

    /** `handleMarksChange(q._id, value, q.maxMarks)` from the mark input of the
        `i`-th question: that question's entry becomes the value clamped to
        `[0, maxMarks]`; every other entry and the rest of the page stay. */
    method MarksChange(i: nat, value: real)
      requires Valid() && i < |Questions()| && data.Some?
      requires MarkInputShown(data.value.evaluationType, Questions()[i].kind)
      modifies this
      ensures Valid()
      ensures data == old(data) && loading == old(loading) && saving == old(saving)
      ensures var q := Questions()[i];
        && marks == Put(old(marks), q.id, Clamp(value, q.maxMarks))
        && DisplayedMark(q.id) == Clamp(value, q.maxMarks)
        && (q.maxMarks >= 0.0 ==> 0.0 <= DisplayedMark(q.id) <= q.maxMarks)
      ensures forall k :: k != Questions()[i].id ==>
                (k in marks.values <==> k in old(marks.values)) && DisplayedMark(k) == old(DisplayedMark(k))
      ensures awaiting == old(awaiting) && closed == old(closed) && evaluations == old(evaluations)
    {
      var q := Questions()[i];
      assert q in Questions() && q.kind != "mcq";
      marks := Put(marks, q.id, Clamp(value, q.maxMarks));
    }

    /** `finalizeEvaluation` from the enabled finalize button, up to the `await` of
        the request: nothing without the confirmation; otherwise `saving` is set
        and the request carries the whole table, which names no multiple-choice
        question. */
    method Finalize(confirmed: bool) returns (sent: bool)
      requires Valid() && IsManual() && !saving
      modifies this
      ensures Valid()
      ensures sent == confirmed
      ensures sent ==> saving && awaiting && evaluations == old(evaluations) + [EvaluationPayload(marks)]
      ensures sent ==> forall e :: e in EvaluationPayload(marks) ==> e.questionId in NonMcqIds(Questions())
      ensures !sent ==> !saving && !awaiting && evaluations == old(evaluations)
      ensures marks == old(marks) && data == old(data) && loading == old(loading) && closed == old(closed)
    {
      if !confirmed {
        return false;
      }
      saving := true;
      var payload := EvaluationPayload(marks);
      EvaluationPayloadFaithful(marks);
      evaluations := evaluations + [payload];
      awaiting := true;
      sent := true;
    }

    /** The rest of `finalizeEvaluation`: on success the page navigates back; the
        `finally` clears `saving` after either outcome. */
    method FinalizeSettled(ok: bool)
      requires Valid() && awaiting
      modifies this
      ensures Valid()
      ensures !saving && !awaiting
      ensures closed <==> ok || old(closed)
      ensures marks == old(marks) && data == old(data) && loading == old(loading) && evaluations == old(evaluations)
    {
      awaiting := false;
      if ok {
        closed := true;
      }
      saving := false;
    }

    /** The finalize button's label. */
    function FinalizeLabel(): (text: string)
      reads this
      ensures text == "Saving..." <==> saving
    {
      if saving then "Saving..." else "Save & Finalize Result"
    }
  }
}
