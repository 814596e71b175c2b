/** The teacher's CreateExam page: the exam form with its defaults, the field
    handler, and the required-field check before the create request. */
module CreateExam {
  import opened Wrappers
  import opened Forms

  /** The names of the form's inputs. */
  const ExamFields: set<string> :=
    {"title", "instituteName", "examType", "subject", "duration", "totalMarks", "startTime", "endTime"}

  /** The fields `handleSubmit` insists on, in the order it tests them. */
  const Required: seq<string> := ["title", "instituteName", "duration", "startTime", "endTime"]

  /** The choices of the exam type select. */
  const ExamTypes: seq<string> := ["Practice", "Test", "Final"]

  /** The form as first shown: a practice exam with every other field empty. */
  function DefaultForm(): (f: Form)
    ensures f.Keys == ExamFields
    ensures f["examType"] == "Practice"
    ensures forall k :: k in f && k != "examType" ==> f[k] == ""
  {
    map["title" := "", "instituteName" := "", "examType" := "Practice", "subject" := "",
        "duration" := "", "totalMarks" := "", "startTime" := "", "endTime" := ""]
  }

  /** The create request is sent exactly when every required field is non-empty. */
  predicate CanSubmit(f: Form) {
    Filled(f, Required)
  }

  /** The check passes exactly when title, institute name, duration, start time and
      end time are all filled in. */
  lemma CanSubmitIff(f: Form)
    ensures CanSubmit(f) <==> forall name :: name in Required ==> Truthy(f, name)
  {
    FilledIff(f, Required);
    if !CanSubmit(f) {
      var i :| 0 <= i < |Required| && !Truthy(f, Required[i]);
      assert Required[i] in Required;
    }
  }

  /** The untouched form cannot be submitted. */
  lemma DefaultFormBlocked()
    ensures !CanSubmit(DefaultForm())
  {
  }

  /** The subject, the total marks and the exam type play no part in the check. */
  lemma OptionalFieldsIgnored(f: Form, name: string, value: string)
    requires name == "subject" || name == "totalMarks" || name == "examType"
    ensures CanSubmit(Change(f, name, value)) == CanSubmit(f)
  {
    FilledIgnoresOptional(f, Required, name, value);
  }

  /** Emptying any required field blocks the request. */
  lemma RequiredFieldBlocks(f: Form, name: string)
    requires name in Required
    ensures !CanSubmit(Change(f, name, ""))
  {
    EmptyRequiredBlocks(f, Required, name);
  }

  /** The check does not compare the times: a form whose end lies before its start
      is accepted. */
  lemma EndBeforeStartAccepted()
    ensures var f := Change(Change(Change(Change(Change(DefaultForm(),
                       "title", "Midterm"), "instituteName", "City College"), "duration", "60"),
                       "startTime", "2025-03-02T10:00"), "endTime", "2025-03-01T10:00");
      CanSubmit(f)
  {
  }

  /** The create-exam page. */
  class CreateExamPage {
    /** The `form` state. */
    var form: Form
    /** The `loading` state; the create button is disabled while it is set. */
    var loading: bool
    /** A create request is awaiting its response. */
    var awaiting: bool
    /** The body of every create request sent, in order. */
    var posted: seq<Form>
    /** Where the page has navigated to, if anywhere. */
    var navigatedTo: Option<string>

    ghost predicate Valid()
      reads this
    {
      && form.Keys == ExamFields
      && form["examType"] in ExamTypes
      && (awaiting ==> loading && |posted| > 0)
    }

    constructor ()
      ensures Valid()
      ensures form == DefaultForm() && !loading && !awaiting && posted == [] && navigatedTo.None?
    {
      form, loading, awaiting, posted, navigatedTo := DefaultForm(), false, false, [], None;
    }

    /** `handleChange` from the input called `name`; the exam type comes from its
        select, so it is one of the three types. */
    method HandleChange(name: string, value: string)
      requires Valid() && name in ExamFields
      requires name == "examType" ==> value in ExamTypes
      modifies this
      ensures Valid()
      ensures form == Change(old(form), name, value)
      ensures loading == old(loading) && awaiting == old(awaiting)
      ensures posted == old(posted) && navigatedTo == old(navigatedTo)
    {
      form := Change(form, name, value);
    }

    /** `handleSubmit` from the enabled button, up to the `await`: a missing required
        field only raises an alert; otherwise `loading` is set and the form is
        posted as it stands. */
    method HandleSubmit() returns (sent: bool)
      requires Valid() && !loading
      modifies this
      ensures Valid()
      ensures sent <==> CanSubmit(old(form))
      ensures sent ==> loading && awaiting && posted == old(posted) + [form]
      ensures !sent ==> !loading && !awaiting && posted == old(posted)
      ensures form == old(form) && navigatedTo == old(navigatedTo)
    {
      if !Filled(form, Required) {
        return false;
      }
      loading := true;
      posted := posted + [form];
      awaiting := true;
      sent := true;
    }

    /** The rest of `handleSubmit`: success goes to the exam list, and `loading` is
        cleared after either outcome. */
    method SubmitSettled(ok: bool)
      requires Valid() && awaiting
      modifies this
      ensures Valid()
      ensures !loading && !awaiting
      ensures ok ==> navigatedTo == Some("/teacher/my-exams")
      ensures !ok ==> navigatedTo == old(navigatedTo)
      ensures form == old(form) && posted == old(posted)
    {
      awaiting := false;
      if ok {
        navigatedTo := Some("/teacher/my-exams");
      }
      loading := false;
    }
  }
}
