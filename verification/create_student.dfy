/** The teacher's CreateStudent page: the single-student form with its required
    fields, the bulk upload that needs a chosen file, and the CSV template offered
    for download. */
module CreateStudent {
  import opened Wrappers
  import opened JsString
  import opened Forms

  /** The names of the form's inputs. */
  const StudentFields: set<string> := {"name", "email", "password", "userId"}

  /** The fields `handleCreate` insists on, in the order it tests them. */
  const Required: seq<string> := ["name", "email", "password"]

  /** The form as first shown: every field empty. */
  function DefaultForm(): (f: Form)
    ensures f.Keys == StudentFields
    ensures forall k :: k in f ==> f[k] == ""
  {
    map["name" := "", "email" := "", "password" := "", "userId" := ""]
  }

  /** The create request is sent exactly when name, e-mail and password are
      non-empty. */
  predicate CanCreate(f: Form) {
    Filled(f, Required)
  }

  /** The student id is optional: it plays no part in the check. */
  lemma UserIdOptional(f: Form, value: string)
    ensures CanCreate(Change(f, "userId", value)) == CanCreate(f)
  {
    FilledIgnoresOptional(f, Required, "userId", value);
  }

  /** Emptying the name, the e-mail or the password blocks the request. */
  lemma RequiredFieldBlocks(f: Form, name: string)
    requires name in Required
    ensures !CanCreate(Change(f, name, ""))
  {
    EmptyRequiredBlocks(f, Required, name);
  }

  // ---------------------------------------------------------------------------
  // The CSV template

  const TemplateHeader: string := "name,email,password,userId"
  const TemplateRow1: string := "Rahul Kumar,rahul@gmail.com,123456,STU001"
  const TemplateRow2: string := "Anjali Sharma,anjali@gmail.com,123456,STU002"

  /** `csvContent` of `downloadTemplate`: a header and two rows, each ended by a
      line break, i.e. the three lines and an empty last one joined by line
      breaks. */
  function TemplateCsv(): (t: string)
    ensures t == JoinWith([TemplateHeader, TemplateRow1, TemplateRow2, ""], '\n')
  {
    var lines := [TemplateHeader, TemplateRow1, TemplateRow2, ""];
    assert lines[1..] == [TemplateRow1, TemplateRow2, ""];
    assert lines[2..] == [TemplateRow2, ""];
    assert JoinWith(lines[2..], '\n') == TemplateRow2 + "\n";
    assert JoinWith(lines[1..], '\n') == TemplateRow1 + "\n" + (TemplateRow2 + "\n");
    TemplateHeader + "\n" + TemplateRow1 + "\n" + TemplateRow2 + "\n"
  }

  /** The template's lines are the header, the two data rows, and the empty piece
      after the final line break. */
  lemma TemplateLines()
    ensures SplitOn(TemplateCsv(), '\n') == [TemplateHeader, TemplateRow1, TemplateRow2, ""]
  {
    var lines := [TemplateHeader, TemplateRow1, TemplateRow2, ""];
    NoLineBreaks();
    SplitJoin(lines, '\n');
  }

  /** None of the template's lines holds a line break of its own. */
  lemma NoLineBreaks()
    ensures '\n' !in TemplateHeader && '\n' !in TemplateRow1 && '\n' !in TemplateRow2
  {
  }

  /** The header names the four form fields. */
  lemma TemplateHeaderFields()
    ensures SplitOn(TemplateHeader, ',') == ["name", "email", "password", "userId"]
    ensures forall i :: 0 <= i < 4 ==> SplitOn(TemplateHeader, ',')[i] in StudentFields
  {
    var fields := ["name", "email", "password", "userId"];
    assert JoinWith(fields, ',') == TemplateHeader;
    SplitJoin(fields, ',');
  }

  /** The first data row has four fields, one per header column. */
  lemma TemplateRow1Fields()
    ensures |SplitOn(TemplateRow1, ',')| == 4
  {
    var row := ["Rahul Kumar", "rahul@gmail.com", "123456", "STU001"];
    assert JoinWith(row, ',') == TemplateRow1;
    SplitJoin(row, ',');
  }

  /** The second data row has four fields, one per header column. */
  lemma TemplateRow2Fields()
    ensures |SplitOn(TemplateRow2, ',')| == 4
  {
    var row := ["Anjali Sharma", "anjali@gmail.com", "123456", "STU002"];
    assert JoinWith(row, ',') == TemplateRow2;
    SplitJoin(row, ',');
  }

  // ---------------------------------------------------------------------------
  // The page

  class CreateStudentPage {
    /** The `form` state. */
    var form: Form
    /** The `loading` state; the create button is disabled while it is set. */
    var loading: bool
    /** The `file` state: the name of the chosen CSV file, `None` (null) when none. */
    var file: Option<string>
    /** The `bulkLoading` state; the upload button is disabled while it is set. */
    var bulkLoading: bool
    /** The body of every create request sent, in order. */
    var created: seq<Form>
    /** The file of every bulk upload request sent, in order. */
    var uploaded: seq<string>
    /** Where the page has navigated to, if anywhere. */
    var navigatedTo: Option<string>

    ghost predicate Valid()
      reads this
    {
      form.Keys == StudentFields
    }

    constructor ()
      ensures Valid()
      ensures form == DefaultForm() && !loading && file.None? && !bulkLoading
      ensures created == [] && uploaded == [] && navigatedTo.None?
    {
      form, loading, file, bulkLoading := DefaultForm(), false, None, false;
      created, uploaded, navigatedTo := [], [], None;
    }

    /** `handleChange` from the input called `name`. */
    method HandleChange(name: string, value: string)
      requires Valid() && name in StudentFields
      modifies this
      ensures Valid()
      ensures form == Change(old(form), name, value)
      ensures loading == old(loading) && file == old(file) && bulkLoading == old(bulkLoading)
      ensures created == old(created) && uploaded == old(uploaded) && navigatedTo == old(navigatedTo)
    {
      form := Change(form, name, value);
    }

    /** `handleCreate` from the enabled button, with the outcome of the request: a
        missing required field only raises an alert; otherwise the form is posted,
        success goes to the student list, and `loading` ends cleared. */
    method HandleCreate(ok: bool) returns (sent: bool)
      requires Valid() && !loading
      modifies this
      ensures Valid()
      ensures sent <==> CanCreate(old(form))
      ensures sent ==> created == old(created) + [form]
      ensures !sent ==> created == old(created)
      ensures sent && ok ==> navigatedTo == Some("/teacher/students")
      ensures !(sent && ok) ==> navigatedTo == old(navigatedTo)
      ensures !loading && form == old(form) && file == old(file) && uploaded == old(uploaded)
    {
      if !Filled(form, Required) {
        return false;
      }
      loading := true;
      created := created + [form];
      if ok {
        navigatedTo := Some("/teacher/students");
      }
      loading := false;
      sent := true;
    }

    /** The file input changes: `e.target.files[0]`, none when the choice is
        cancelled. */
    method SelectFile(chosen: Option<string>)
      requires Valid()
      modifies this
      ensures Valid()
      ensures file == chosen && form == old(form) && created == old(created) && uploaded == old(uploaded)
    {
      file := chosen;
    }

    /** `handleBulkUpload` from the enabled button, with the outcome of the request:
        without a chosen file nothing is sent; otherwise the file is uploaded, a
        success clears the choice, and `bulkLoading` ends cleared. */
    method HandleBulkUpload(ok: bool) returns (sent: bool)
      requires Valid() && !bulkLoading
      modifies this
      ensures Valid()
      ensures sent <==> old(file).Some?
      ensures sent ==> uploaded == old(uploaded) + [old(file).value]
      ensures !sent ==> uploaded == old(uploaded)
      ensures sent && ok ==> file.None?
      ensures !(sent && ok) ==> file == old(file)
      ensures !bulkLoading && form == old(form) && created == old(created) && navigatedTo == old(navigatedTo)
    {
      if file.None? {
        return false;
      }
      bulkLoading := true;
      uploaded := uploaded + [file.value];
      if ok {
        file := None;
      }
      bulkLoading := false;
      sent := true;
    }
  }
}
