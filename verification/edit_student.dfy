/** The teacher's EditStudent page: the form filled from the loaded student, its
    three field setters, and the update that needs a name and an e-mail. */
module EditStudent {
  import opened Wrappers
  import opened Forms

  /** The names of the form's fields. */
  const EditFields: set<string> := {"name", "email", "userId"}

  /** The fields `update` insists on, in the order it tests them. */
  const Required: seq<string> := ["name", "email"]

  /** The student as `GET /teacher/student/{id}` returns it. */
  datatype StudentDetails = StudentDetails(name: string, email: string, userId: Option<string>)

  /** The form as first rendered, before the student has loaded. */
  function BlankForm(): (f: Form)
    ensures f.Keys == EditFields && forall k :: k in f ==> f[k] == ""
  {
    map["name" := "", "email" := "", "userId" := ""]
  }

  /** `setForm({ name, email, userId: userId || "" })`: name and e-mail are copied
      and a missing student id becomes the empty text. */
  function LoadedForm(d: StudentDetails): (f: Form)
    ensures f.Keys == EditFields
    ensures f["name"] == d.name && f["email"] == d.email
    ensures d.userId.Some? ==> f["userId"] == d.userId.value
    ensures d.userId.None? ==> f["userId"] == ""
  {
    map["name" := d.name, "email" := d.email, "userId" := d.userId.GetOr("")]
  }

  /** The update request is sent exactly when name and e-mail are non-empty. */
  predicate CanUpdate(f: Form) {
    Filled(f, Required)
  }

  /** A loaded student can be saved unchanged exactly when it has a name and an
      e-mail; its student id, present or not, plays no part. */
  lemma LoadedFormCanUpdate(d: StudentDetails)
    ensures CanUpdate(LoadedForm(d)) <==> d.name != "" && d.email != ""
  {
    FilledIff(LoadedForm(d), Required);
    assert Required[0] == "name" && Required[1] == "email";
  }

  /** The student id is optional: it plays no part in the check. */
  lemma UserIdOptional(f: Form, value: string)
    ensures CanUpdate(Change(f, "userId", value)) == CanUpdate(f)
  {
    FilledIgnoresOptional(f, Required, "userId", value);
  }

  /** The edit page. */
  class EditStudentPage {
    /** The `form` state. */
    var form: Form
    /** The `loading` state: the student is being fetched. */
    var loading: bool
    /** The `saving` state; the save button is disabled while it is set. */
    var saving: bool
    /** The body of every update request sent, in order. */
    var updates: seq<Form>
    /** Where the page has navigated to, if anywhere. */
    var navigatedTo: Option<string>

    ghost predicate Valid()
      reads this
    {
      form.Keys == EditFields
    }

    constructor ()
      ensures Valid()
      ensures form == BlankForm() && loading && !saving && updates == [] && navigatedTo.None?
    {
      form, loading, saving, updates, navigatedTo := BlankForm(), true, false, [], None;
    }

    /** The fetch effect: on success the form takes the student's values; on failure
        it stays as it was. Loading ends either way. */
    method Load(res: Option<StudentDetails>)
      requires Valid() && loading
      modifies this
      ensures Valid()
      ensures !loading
      ensures res.Some? ==> form == LoadedForm(res.value)
      ensures res.None? ==> form == old(form)
      ensures saving == old(saving) && updates == old(updates) && navigatedTo == old(navigatedTo)
    {
      if res.Some? {
        form := LoadedForm(res.value);
      }
      loading := false;
    }

    /** The name, e-mail or student-id input is edited: only that field changes. */
    method SetField(field: string, value: string)
      requires Valid() && field in EditFields
      modifies this
      ensures Valid()
      ensures form == Change(old(form), field, value)
      ensures loading == old(loading) && saving == old(saving)
      ensures updates == old(updates) && navigatedTo == old(navigatedTo)
    {
      form := Change(form, field, value);
    }

    /** `update` from the enabled save button, with the outcome of the request: a
        missing name or e-mail only raises an alert; otherwise the form is sent,
        success goes to the student list, and `saving` ends cleared. */
    method Update(ok: bool) returns (sent: bool)
      requires Valid() && !loading && !saving
      modifies this
      ensures Valid()
      ensures sent <==> CanUpdate(old(form))
      ensures sent ==> updates == old(updates) + [form]
      ensures !sent ==> updates == old(updates)
      ensures sent && ok ==> navigatedTo == Some("/teacher/students")
      ensures !(sent && ok) ==> navigatedTo == old(navigatedTo)
      ensures !saving && form == old(form) && loading == old(loading)
    {
      if !Filled(form, Required) {
        return false;
      }
      saving := true;
      updates := updates + [form];
      if ok {
        navigatedTo := Some("/teacher/students");
      }
      saving := false;
      sent := true;
    }
  }
}
