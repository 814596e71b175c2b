/** The timed exam attempt of the student's StartExam page: the answers restored
    from the start response, the countdown, the answer handler, and a submission
    that is sent at most once while one is in flight or has succeeded. */
module StartExam {
  import opened Wrappers
  import opened JsObject
  import opened JsString

  /** A `{questionId, selectedOption}` record: an element of `previousAnswers` in
      the start response and of `answers` in the submit request body. */
  datatype AnswerEntry = AnswerEntry(questionId: string, selectedOption: string)

  /** A question as the page shows it: its id, its text, and its options as
      `[key, text]` pairs. */
  datatype Question = Question(id: string, text: string, options: seq<(string, string)>)

  /** The outcome of `GET /student/start/{examId}`. */
  datatype StartResponse =
    | Started(questions: seq<Question>, previousAnswers: seq<AnswerEntry>, duration: Option<int>)
    | StartRefused(message: Option<string>)

  // ---------------------------------------------------------------------------
  // Restoring previous answers

  /** The answers table the `forEach` over `previousAnswers` builds: every record in
      turn stores its option under its question id. */
  function Restored(prev: seq<AnswerEntry>): (d: Dict<string>)
    ensures d.Valid()
    decreases |prev|
  {
    if |prev| == 0 then Empty()
    else
      var last := prev[|prev| - 1];
      Put(Restored(prev[..|prev| - 1]), last.questionId, last.selectedOption)
  }

  /** The restoring loop itself. */
  method RestoreAnswers(prev: seq<AnswerEntry>) returns (restored: Dict<string>)
    ensures restored.Valid()
    ensures restored == Restored(prev)
  {
    restored := Empty();
    var i := 0;
    while i < |prev|
      invariant 0 <= i <= |prev|
      invariant restored.Valid()
      invariant restored == Restored(prev[..i])
    {
      assert prev[..i + 1][..i] == prev[..i];
      restored := Put(restored, prev[i].questionId, prev[i].selectedOption);
      i := i + 1;
    }
    assert prev[..|prev|] == prev;
  }

  /** The restored table answers exactly the questions named in `previousAnswers`:
      a question with no record gets no entry. */
  lemma {:induction false} RestoredKeys(prev: seq<AnswerEntry>)
    ensures Restored(prev).values.Keys == set a | a in prev :: a.questionId
    decreases |prev|
  {
    if |prev| > 0 {
      var init := prev[..|prev| - 1];
      RestoredKeys(init);
      assert prev == init + [prev[|prev| - 1]];
      assert (set a | a in prev :: a.questionId)
          == (set a | a in init :: a.questionId) + {prev[|prev| - 1].questionId};
    }
  }

  /** Each question holds the option of its last record: a later record for the
      same question overwrites an earlier one. */
  lemma {:induction false} RestoredLastWins(prev: seq<AnswerEntry>, i: nat)
    requires i < |prev|
    requires forall j :: i < j < |prev| ==> prev[j].questionId != prev[i].questionId
    ensures prev[i].questionId in Restored(prev).values
    ensures Restored(prev).values[prev[i].questionId] == prev[i].selectedOption
    decreases |prev|
  {
    if i < |prev| - 1 {
      var init := prev[..|prev| - 1];
      assert init[i] == prev[i];
      RestoredLastWins(init, i);
    }
  }

  // ---------------------------------------------------------------------------
  // The submitted payload

  /** `Object.keys(answers).map(qid => ({ questionId: qid, selectedOption: answers[qid] }))` */
  function Payload(answers: Dict<string>): (p: seq<AnswerEntry>)
    ensures |p| == |answers.keys|
    ensures forall i :: 0 <= i < |p| ==> p[i].questionId == answers.keys[i]
  {
    seq(|answers.keys|, i requires 0 <= i < |answers.keys| =>
        AnswerEntry(answers.keys[i], if answers.keys[i] in answers.values then answers.values[answers.keys[i]] else ""))
  }

  /** The payload has one record per answered question, none repeated, each with
      the option stored for it. */
  lemma PayloadFaithful(answers: Dict<string>)
    requires answers.Valid()
    ensures |Payload(answers)| == |answers.values|
    ensures forall i, j :: 0 <= i < j < |Payload(answers)| ==> Payload(answers)[i].questionId != Payload(answers)[j].questionId
    ensures (set e | e in Payload(answers) :: e.questionId) == answers.values.Keys
    ensures forall e :: e in Payload(answers) ==> e.questionId in answers.values && answers.values[e.questionId] == e.selectedOption
  {
    KeyCount(answers);
    var p := Payload(answers);
    forall k | k in answers.values ensures k in (set e | e in p :: e.questionId) {
      var i :| 0 <= i < |answers.keys| && answers.keys[i] == k;
      assert p[i] in p;
    }
  }

  /** Restoring a submitted payload gives back the very answers table it was built
      from, key order included: resuming an attempt loses nothing that was sent. */
  lemma RestorePayload(answers: Dict<string>)
    requires answers.Valid()
    ensures Restored(Payload(answers)) == answers
  {
    var p := Payload(answers);
    RestoreDistinct(p);
    var r := Restored(p);
    assert r.keys == answers.keys;
    forall k | k in r.values ensures k in answers.values && r.values[k] == answers.values[k] {
      var i :| 0 <= i < |answers.keys| && answers.keys[i] == k;
      PayloadAt(answers, i);
    }
    assert r.values.Keys == answers.values.Keys;
    assert r.values == answers.values;
  }

  /** The question ids of a list of records, in order. */
  function Ids(es: seq<AnswerEntry>): (ids: seq<string>)
    ensures |ids| == |es|
  {
    seq(|es|, i requires 0 <= i < |es| => es[i].questionId)
  }

  /** Records for distinct questions restore to a table with their ids as keys, in
      order, each holding its record's option. */
  lemma {:induction false} RestoreDistinct(es: seq<AnswerEntry>)
    requires forall i, j :: 0 <= i < j < |es| ==> es[i].questionId != es[j].questionId
    ensures Restored(es).keys == Ids(es)
    ensures forall i :: 0 <= i < |es| ==>
              es[i].questionId in Restored(es).values && Restored(es).values[es[i].questionId] == es[i].selectedOption
    decreases |es|
  {
    if |es| > 0 {
      var init := es[..|es| - 1];
      var last := es[|es| - 1];
      RestoreDistinct(init);
      var before := Restored(init);
      assert Restored(es) == Put(before, last.questionId, last.selectedOption);
      assert last.questionId !in before.values;
      assert Ids(init) + [last.questionId] == Ids(es);
      forall i | 0 <= i < |es|
        ensures es[i].questionId in Restored(es).values
        ensures Restored(es).values[es[i].questionId] == es[i].selectedOption
      {
        if i < |es| - 1 {
          assert init[i] == es[i];
        }
      }
    }
  }

  /** The record at position `i` of the payload is for the `i`-th key. */
  lemma PayloadAt(answers: Dict<string>, i: nat)
    requires answers.Valid()
    requires i < |answers.keys|
    ensures Payload(answers)[i] == AnswerEntry(answers.keys[i], answers.values[answers.keys[i]])
  {
    assert answers.keys[i] in answers.values;
  }

  // ---------------------------------------------------------------------------
  // The countdown and its display

  /** `(res.data.duration || 60) * 60`: the duration in minutes, or an hour when the
      response has none or gives 0, in seconds. */
  function InitialTimeLeft(duration: Option<int>): (t: int)
    ensures duration.None? || duration.value == 0 ==> t == 3600
    ensures duration.Some? && duration.value != 0 ==> t == duration.value * 60
    ensures t > 0 <==> duration.None? || duration.value >= 0
  {
    var minutes := if duration.None? || duration.value == 0 then 60 else duration.value;
    minutes * 60
  }

  /** JavaScript's `a % b` for `b > 0`: the remainder takes the sign of `a`. */
  function JsRem(a: int, b: int): (r: int)
    requires b > 0
    ensures a >= 0 ==> r == a % b
  {
    if a >= 0 then a % b else -((-a) % b)
  }

  /** `formatTime(sec)`: the whole minutes (`Math.floor(sec / 60)`), a colon, and the
      remaining seconds, with a leading "0" when they are below 10. For a
      non-negative count of seconds the display is a well-formed `m:ss` clock
      that reads back as the same number of seconds. */
  function FormatTime(sec: int): (t: string)
    ensures sec >= 0 ==> ParseClock(t) == Some(sec)
  {
    var m := sec / 60;
    var s := JsRem(sec, 60);
    var t := IntToString(m) + ":" + ((if s < 10 then "0" else "") + IntToString(s));
    if sec >= 0 then ClockRoundTrip(m, s); t else t
  }

  /** Reads an `m:ss` clock back into seconds; `None` for any other text. */
  function ParseClock(t: string): Option<int> {
    var parts := SplitOn(t, ':');
    if |parts| == 2 && |parts[0]| >= 1 && AllDigits(parts[0])
       && |parts[1]| == 2 && AllDigits(parts[1]) && ParseNat(parts[1]) < 60
    then Some(ParseNat(parts[0]) * 60 + ParseNat(parts[1]))
    else None
  }

  lemma TwoDigitSeconds(s: nat)
    requires s < 60
    ensures var text := (if s < 10 then "0" else "") + NatToString(s);
      |text| == 2 && AllDigits(text) && ParseNat(text) == s
  {
    ParseNatToString(s);
    if s < 10 {
      ParseNatLeadingZero(NatToString(s));
    } else {
      assert NatToString(s) == NatToString(s / 10) + [DigitChar(s % 10)];
    }
  }

  /** The minutes, a colon and the zero-padded seconds (below 60) form a
      well-formed `m:ss` clock that reads back as `m * 60 + s`. */
  lemma ClockRoundTrip(m: nat, s: nat)
    requires s < 60
    ensures ParseClock(NatToString(m) + ":" + ((if s < 10 then "0" else "") + NatToString(s)))
              == Some(m * 60 + s)
  {
    var mText := NatToString(m);
    var sText := (if s < 10 then "0" else "") + NatToString(s);
    TwoDigitSeconds(s);
    ParseNatToString(m);
    assert ':' !in mText by { assert !IsDigit(':'); }
    assert ':' !in sText by { assert !IsDigit(':'); }
    SplitAtColon(mText, sText);
  }

  /** Two colon-free pieces joined by a colon split back into those pieces. */
  lemma SplitAtColon(a: string, b: string)
    requires ':' !in a && ':' !in b
    ensures SplitOn(a + ":" + b, ':') == [a, b]
  {
    SplitJoin([a, b], ':');
    assert JoinWith([a, b], ':') == a + ":" + b;
  }

  // ---------------------------------------------------------------------------
  // The attempt session

  class ExamSession {
    /** The questions of the start response, in order. */
    var questions: seq<Question>
    /** The `answers` state: question id to the selected option key. */
    var answers: Dict<string>
    /** The `timeLeft` state in seconds; `None` (null) until the exam has started. */
    var timeLeft: Option<int>
    /** `examStarted.current` */
    var started: bool
    /** The `submitting` state. */
    var submitting: bool
    /** A submit request is awaiting its response. */
    var awaiting: bool
    /** The page has navigated away (after a refused start or an accepted submission). */
    var closed: bool
    /** Every submit request body sent, in order. */
    var requests: seq<seq<AnswerEntry>>
    /** How many submissions the backend has accepted. */
    ghost var accepted: nat

    ghost predicate Valid()
      reads this
    {
      && answers.Valid()
      && (started ==> timeLeft.Some?)
      && (awaiting ==> submitting && |requests| > 0)
      && accepted <= 1
      && (accepted == 1 ==> submitting && !awaiting && closed)
    }

    /** The page as first rendered: no questions, no answers, no countdown. */
    constructor ()
      ensures Valid()
      ensures questions == [] && answers == Empty() && timeLeft == None
      ensures !started && !submitting && !awaiting && !closed && requests == [] && accepted == 0
    {
      questions, answers, timeLeft := [], Empty(), None;
      started, submitting, awaiting, closed := false, false, false, false;
      requests, accepted := [], 0;
    }

    /** `handleSubmit(auto)` up to the `await` of the submit request: nothing while a
        submission is in progress; a manual submit needs the confirmation, an
        automatic one does not; otherwise the request carries the current answers. */
    method HandleSubmit(auto: bool, confirmed: bool) returns (sent: bool)
      requires Valid()
      modifies this
      ensures Valid()
      ensures sent <==> !old(submitting) && (auto || confirmed)
      ensures sent ==> submitting && awaiting && requests == old(requests) + [Payload(answers)]
      ensures !sent ==> requests == old(requests) && submitting == old(submitting) && awaiting == old(awaiting)
      ensures answers == old(answers) && timeLeft == old(timeLeft) && started == old(started)
      ensures questions == old(questions) && closed == old(closed) && accepted == old(accepted)
    {
      if submitting {
        return false;
      }
      if !auto && !confirmed {
        return false;
      }
      submitting := true;
      var formatted := Payload(answers);
      requests := requests + [formatted];
      awaiting := true;
      sent := true;
    }

    /** The rest of `handleSubmit` once the backend has answered: on success the page
        leaves with `submitting` still set; on failure `submitting` is cleared so that
        the student can submit again. */
    method SubmitSettled(ok: bool)
      requires Valid() && awaiting
      modifies this
      ensures Valid()
      ensures !awaiting && requests == old(requests) && answers == old(answers)
      ensures timeLeft == old(timeLeft) && started == old(started) && questions == old(questions)
      ensures ok ==> submitting && closed && accepted == 1
      ensures !ok ==> !submitting && closed == old(closed) && accepted == old(accepted)
    {
      awaiting := false;
      if ok {
        accepted := accepted + 1;
        closed := true;
      } else {
        submitting := false;
      }
    }

    /** The timer effect, run whenever `timeLeft` changes: once the started
        countdown is at or below zero it submits automatically. */
    method TimerEffect() returns (autoSent: bool)
      requires Valid()
      modifies this
      ensures Valid()
      ensures autoSent <==> started && timeLeft.value <= 0 && !old(submitting)
      ensures autoSent ==> submitting && awaiting && requests == old(requests) + [Payload(answers)]
      ensures !autoSent ==> requests == old(requests) && submitting == old(submitting) && awaiting == old(awaiting)
      ensures answers == old(answers) && timeLeft == old(timeLeft) && started == old(started)
      ensures questions == old(questions) && closed == old(closed) && accepted == old(accepted)
    {
      autoSent := false;
      if started && timeLeft.value <= 0 {
        autoSent := HandleSubmit(true, false);
      }
    }

    /** The start effect: on a refused start the page leaves with nothing set up;
        otherwise it shows the questions, restores the previous answers and seeds
        the countdown, and the timer effect runs once for the new countdown. */
    method Start(res: StartResponse)
      requires Valid() && !started && !closed
      modifies this
      ensures Valid()
      ensures res.StartRefused? ==>
                closed && !started && answers == old(answers) && timeLeft == old(timeLeft) && requests == old(requests)
      ensures res.Started? ==>
                started && !closed && questions == res.questions && answers == Restored(res.previousAnswers)
      ensures res.Started? ==> timeLeft == Some(InitialTimeLeft(res.duration))
      ensures res.Started? && InitialTimeLeft(res.duration) > 0 ==> requests == old(requests)
      ensures res.Started? && InitialTimeLeft(res.duration) <= 0 && !old(submitting)
              ==> requests == old(requests) + [Payload(answers)]
    {
      match res
      case StartRefused(_) =>
        closed := true;
      case Started(qs, prev, duration) =>
        questions := qs;
        var restored := RestoreAnswers(prev);
        answers := restored;
        timeLeft := Some(InitialTimeLeft(duration));
        started := true;
        var _ := TimerEffect();
    }

    /** One second of the interval: while the page is open and the started countdown
        is positive it drops by exactly one, and reaching zero submits
        automatically, without confirmation. */
    method Tick() returns (autoSent: bool)
      requires Valid()
      modifies this
      ensures Valid()
      ensures var running := !old(closed) && old(started) && old(timeLeft).value > 0;
        && (running ==> timeLeft == Some(old(timeLeft).value - 1))
        && (!running ==> timeLeft == old(timeLeft) && !autoSent)
        && (autoSent <==> running && old(timeLeft).value == 1 && !old(submitting))
      ensures autoSent ==> requests == old(requests) + [Payload(answers)]
      ensures !autoSent ==> requests == old(requests)
      ensures old(timeLeft).Some? && old(timeLeft).value >= 0 ==> timeLeft.value >= 0
      ensures answers == old(answers) && questions == old(questions) && closed == old(closed)
    {
      autoSent := false;
      if !closed && started && timeLeft.value > 0 {
        timeLeft := Some(timeLeft.value - 1);
        autoSent := TimerEffect();
      }
    }

    /** `handleOptionChange(qId, option)`: the question's answer becomes `option`;
        every other answer and the rest of the session stay as they were. */
    method HandleOptionChange(qId: string, option: string)
      requires Valid()
      modifies this
      ensures Valid()
      ensures answers == Put(old(answers), qId, option)
      ensures answers.values == old(answers.values)[qId := option]
      ensures forall key :: IsChecked(qId, key) <==> key == option
      ensures AnsweredCount() == old(AnsweredCount()) + (if qId in old(answers.values) then 0 else 1)
      ensures timeLeft == old(timeLeft) && submitting == old(submitting) && awaiting == old(awaiting)
      ensures requests == old(requests) && started == old(started) && closed == old(closed)
      ensures questions == old(questions) && accepted == old(accepted)
    {
      answers := Put(answers, qId, option);
    }

    /** The radio button for `key` of question `qId` is checked. */
    predicate IsChecked(qId: string, key: string)
      reads this
    {
      qId in answers.values && answers.values[qId] == key
    }

    /** `Object.keys(answers).length`, the "Answered" count: the number of questions
        that have an answer. */
    function AnsweredCount(): (n: nat)
      requires Valid()
      reads this
      ensures n == |answers.values|
    {
      KeyCount(answers);
      |answers.keys|
    }

    /** The countdown text: `formatTime(timeLeft)`, or `--:--` before the start. */
    function Clock(): (t: string)
      reads this
      ensures timeLeft.None? ==> t == "--:--"
      ensures timeLeft.Some? && timeLeft.value >= 0 ==> ParseClock(t) == Some(timeLeft.value)
    {
      if timeLeft.Some? then
        FormatTime(timeLeft.value)
      else "--:--"
    }
  }

  /** Resuming with `[{questionId: "q1", selectedOption: "B"}]` gives `{q1: "B"}` and
      nothing for the other questions. */
  lemma ResumeOneAnswer()
    ensures Restored([AnswerEntry("q1", "B")]).values == map["q1" := "B"]
  {
    assert [AnswerEntry("q1", "B")][..0] == [];
  }
}
