/** The teacher's AddQuestions page: the multiple-choice question form with its
    four options A to D, the check that the question text is not blank, the reset
    after a successful add, and the confirmed deletion. */
module AddQuestions {
  import opened Wrappers
  import opened JsString

  /** The `form` state: the question text, the text of each option by its key, the
      key of the correct option, and the marks. */
  datatype McqForm = McqForm(questionText: string, options: map<string, string>, correctAnswer: string, marks: int)

  /** The option keys the form renders, in order. */
  const OptionKeys: seq<string> := ["A", "B", "C", "D"]

  /** A question as `GET /question/{examId}` lists it. */
  datatype QuestionItem = QuestionItem(id: string, questionText: string)

  /** The form has exactly the four options and its correct answer names one of
      them. */
  predicate WellFormed(f: McqForm) {
    && f.options.Keys == {"A", "B", "C", "D"}
    && f.correctAnswer in f.options
  }

  /** The form as first shown and after every successful add. */
  function DefaultForm(): (f: McqForm)
    ensures WellFormed(f)
    ensures f.questionText == "" && f.correctAnswer == "A" && f.marks == 1
    ensures forall k :: k in f.options ==> f.options[k] == ""
  {
    McqForm("", map["A" := "", "B" := "", "C" := "", "D" := ""], "A", 1)
  }

  /** `handleOptionChange(key, value)`: only option `key` takes the new text. */
  function OptionChange(f: McqForm, key: string, value: string): (r: McqForm)
    ensures r.options.Keys == f.options.Keys + {key} && r.options[key] == value
    ensures forall k :: k in f.options && k != key ==> r.options[k] == f.options[k]
    ensures r.questionText == f.questionText && r.correctAnswer == f.correctAnswer && r.marks == f.marks
  {
    f.(options := f.options[key := value])
  }

  /** Editing one of the four rendered options keeps the form well formed. */
  lemma OptionChangeWellFormed(f: McqForm, key: string, value: string)
    requires WellFormed(f) && key in OptionKeys
    ensures WellFormed(OptionChange(f, key, value))
  {
  }

  /** `!form.questionText.trim()`: the text is empty or white space only. */
  predicate IsBlank(text: string) {
    Trim(text) == ""
  }

  /** A question text is refused exactly when every character of it is white
      space. */
  lemma BlankIffWhitespace(text: string)
    ensures IsBlank(text) <==> AllWhitespace(text)
  {
    TrimEmptyIffBlank(text);
  }

  /** The add-question page. */
  class AddQuestionsPage {
    /** The `questions` state. */
    var questions: seq<QuestionItem>
    /** The `loading` state; the add button is disabled while it is set. */
    var loading: bool
    /** The `form` state. */
    var form: McqForm
    /** An add request is awaiting its response. */
    var awaiting: bool
    /** The body of every add request sent, in order. */
    var posted: seq<McqForm>
    /** The id of every delete request sent, in order. */
    var deleted: seq<string>

    ghost predicate Valid()
      reads this
    {
      && WellFormed(form)
      && (awaiting ==> loading && |posted| > 0)
    }

    constructor ()
      ensures Valid()
      ensures questions == [] && !loading && form == DefaultForm() && !awaiting && posted == [] && deleted == []
    {
      questions, loading, form, awaiting, posted, deleted := [], false, DefaultForm(), false, [], [];
    }

    /** The question textarea is edited. */
    method SetText(text: string)
      requires Valid()
      modifies this
      ensures Valid()
      ensures form == old(form).(questionText := text)
      ensures questions == old(questions) && loading == old(loading) && awaiting == old(awaiting)
      ensures posted == old(posted) && deleted == old(deleted)
    {
      form := form.(questionText := text);
    }

    /** The input of option `key` (one of A to D) is edited. */
    method HandleOptionChange(key: string, value: string)
      requires Valid() && key in OptionKeys
      modifies this
      ensures Valid()
      ensures form == OptionChange(old(form), key, value)
      ensures questions == old(questions) && loading == old(loading) && awaiting == old(awaiting)
      ensures posted == old(posted) && deleted == old(deleted)
    {
      OptionChangeWellFormed(form, key, value);
      form := OptionChange(form, key, value);
    }

    /** The correct-answer select, whose choices are A to D, is changed. */
    method SetCorrectAnswer(answer: string)
      requires Valid() && answer in OptionKeys
      modifies this
      ensures Valid()
      ensures form == old(form).(correctAnswer := answer)
      ensures questions == old(questions) && loading == old(loading) && awaiting == old(awaiting)
      ensures posted == old(posted) && deleted == old(deleted)
    {
      form := form.(correctAnswer := answer);
    }

    /** The marks input is edited; `Number(...)` of its text is taken as given. */
    method SetMarks(marks: int)
      requires Valid()
      modifies this
      ensures Valid()
      ensures form == old(form).(marks := marks)
      ensures questions == old(questions) && loading == old(loading) && awaiting == old(awaiting)
      ensures posted == old(posted) && deleted == old(deleted)
    {
      form := form.(marks := marks);
    }

    /** `addQuestion` from the enabled button, up to the `await`: a blank question
        text only raises an alert; otherwise `loading` is set and the form is
        posted as it stands. */
    method AddQuestion() returns (sent: bool)
      requires Valid() && !loading
      modifies this
      ensures Valid()
      ensures sent <==> !AllWhitespace(old(form).questionText)
      ensures sent ==> loading && awaiting && posted == old(posted) + [form]
      ensures !sent ==> !loading && !awaiting && posted == old(posted)
      ensures form == old(form) && questions == old(questions) && deleted == old(deleted)
    {
      BlankIffWhitespace(form.questionText);
      if IsBlank(form.questionText) {
        return false;
      }
      loading := true;
      posted := posted + [form];
      awaiting := true;
      sent := true;
    }

    /** The rest of `addQuestion`: on success the form goes back to its defaults and
        the list is fetched again; `loading` is cleared after either outcome. */
    method AddSettled(ok: bool, refetched: Option<seq<QuestionItem>>)
      requires Valid() && awaiting
      modifies this
      ensures Valid()
      ensures !loading && !awaiting
      ensures ok ==> form == DefaultForm()
      ensures !ok ==> form == old(form)
      ensures ok && refetched.Some? ==> questions == refetched.value
      ensures !(ok && refetched.Some?) ==> questions == old(questions)
      ensures posted == old(posted) && deleted == old(deleted)
    {
      awaiting := false;
      if ok {
        form := DefaultForm();
        if refetched.Some? {
          questions := refetched.value;
        }
      }
      loading := false;
    }

    /** `deleteQuestion(id)`: nothing without the confirmation; otherwise the delete
        request goes out and, when it succeeds, the list is fetched again. */
    method DeleteQuestion(id: string, confirmed: bool, ok: bool, refetched: Option<seq<QuestionItem>>)
      requires Valid()
      modifies this
      ensures Valid()
      ensures !confirmed ==> deleted == old(deleted) && questions == old(questions)
      ensures confirmed ==> deleted == old(deleted) + [id]
      ensures confirmed && ok && refetched.Some? ==> questions == refetched.value
      ensures !(confirmed && ok && refetched.Some?) ==> questions == old(questions)
      ensures form == old(form) && loading == old(loading) && awaiting == old(awaiting) && posted == old(posted)
    {
      if !confirmed {
        return;
      }
      deleted := deleted + [id];
      if ok && refetched.Some? {
        questions := refetched.value;
      }
    }
  }
}
