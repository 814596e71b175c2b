/** The RegisterTeacher page: the sign-up form, a handler that ignores clicks
    while a registration is on its way, and the move to the login page after a
    success. */
module RegisterTeacher {
  import opened Wrappers
  import opened Forms

  /** The names of the form's inputs. */
  const RegisterFields: set<string> := {"name", "email", "password"}

  /** All three fields are required, in the order `handleRegister` tests them. */
  const Required: seq<string> := ["name", "email", "password"]

  /** The form as first shown: every field empty. */
  function DefaultForm(): (f: Form)
    ensures f.Keys == RegisterFields && forall k :: k in f ==> f[k] == ""
  {
    map["name" := "", "email" := "", "password" := ""]
  }

  /** The registration request is sent exactly when all three fields are
      non-empty. */
  predicate CanRegister(f: Form) {
    Filled(f, Required)
  }

  /** The check passes exactly when name, e-mail and password are all filled in. */
  lemma CanRegisterIff(f: Form)
    ensures CanRegister(f) <==> Truthy(f, "name") && Truthy(f, "email") && Truthy(f, "password")
  {
    FilledIff(f, Required);
    assert Required[0] == "name" && Required[1] == "email" && Required[2] == "password";
  }

  /** The registration page. */
  class RegisterPage {
    /** The `form` state. */
    var form: Form
    /** The `loading` state. */
    var loading: bool
    /** A registration request is awaiting its response. */
    var awaiting: bool
    /** The body of every registration request sent, in order. */
    var requests: seq<Form>
    /** Where the page has navigated to, if anywhere. */
    var navigatedTo: Option<string>

    /** A request is in flight exactly while `loading` is set. */
    ghost predicate Valid()
      reads this
    {
      && form.Keys == RegisterFields
      && (awaiting <==> loading)
      && (awaiting ==> |requests| > 0)
    }

    constructor ()
      ensures Valid()
      ensures form == DefaultForm() && !loading && !awaiting && requests == [] && navigatedTo.None?
    {
      form, loading, awaiting, requests, navigatedTo := DefaultForm(), false, false, [], None;
    }

    /** `handleChange` from the input called `name`. */
    method HandleChange(name: string, value: string)
      requires Valid() && name in RegisterFields
      modifies this
      ensures Valid()
      ensures form == Change(old(form), name, value)
      ensures loading == old(loading) && awaiting == old(awaiting)
      ensures requests == old(requests) && navigatedTo == old(navigatedTo)
    {
      form := Change(form, name, value);
    }

    /** `handleRegister` up to the `await`: nothing at all while a registration is
        in progress; a missing field only raises an alert; otherwise `loading` is
        set and the form is sent. */
    method HandleRegister() returns (sent: bool)
      requires Valid()
      modifies this
      ensures Valid()
      ensures sent <==> !old(loading) && CanRegister(old(form))
      ensures old(loading) ==> loading && awaiting && requests == old(requests)
      ensures sent ==> loading && awaiting && requests == old(requests) + [form]
      ensures !old(loading) && !sent ==> !loading && requests == old(requests)
      ensures form == old(form) && navigatedTo == old(navigatedTo)
    {
      if loading {
        return false;
      }
      if !Filled(form, Required) {
        return false;
      }
      loading := true;
      requests := requests + [form];
      awaiting := true;
      sent := true;
    }

    /** The rest of `handleRegister`: success goes to the login page, and `loading` is
        cleared after either outcome. */
    method RegisterSettled(ok: bool)
      requires Valid() && awaiting
      modifies this
      ensures Valid()
      ensures !loading && !awaiting
      ensures ok ==> navigatedTo == Some("/login")
      ensures !ok ==> navigatedTo == old(navigatedTo)
      ensures form == old(form) && requests == old(requests)
    {
      awaiting := false;
      if ok {
        navigatedTo := Some("/login");
      }
      loading := false;
    }
  }

  /** Two clicks before the first response send one request only. */
  method DoubleClickSendsOnce(page: RegisterPage)
    requires page.Valid() && !page.loading && CanRegister(page.form)
    modifies page
    ensures |page.requests| == |old(page.requests)| + 1
  {
    var first := page.HandleRegister();
    var second := page.HandleRegister();
    assert first && !second;
  }
}
