/** The Login page: the credentials form, the check that both are given, the
    identity kept in local storage, and the role-based landing page. */
module Login {
  import opened Wrappers
  import opened Forms

  /** The names of the form's inputs. */
  const LoginFields: set<string> := {"email", "password"}

  /** The fields `handleLogin` insists on, in the order it tests them. */
  const Required: seq<string> := ["email", "password"]

  /** The parts of a successful `POST /auth/login` response the page uses. */
  datatype LoginResponse = LoginResponse(token: string, role: string, name: string)

  /** The form as first shown: both fields empty. */
  function DefaultForm(): (f: Form)
    ensures f.Keys == LoginFields && forall k :: k in f ==> f[k] == ""
  {
    map["email" := "", "password" := ""]
  }

  /** The login request is sent exactly when e-mail and password are non-empty. */
  predicate CanLogin(f: Form) {
    Filled(f, Required)
  }

  /** The check passes exactly when both fields are filled in, and the untouched
      form cannot be sent. */
  lemma CanLoginIff(f: Form)
    ensures CanLogin(f) <==> Truthy(f, "email") && Truthy(f, "password")
    ensures !CanLogin(DefaultForm())
  {
    FilledIff(f, Required);
    assert Required[0] == "email" && Required[1] == "password";
  }

  /** `res.data.role === "teacher" ? "/teacher" : "/student"` */
  function Destination(role: string): (path: string)
    ensures path == "/teacher" <==> role == "teacher"
    ensures path != "/teacher" ==> path == "/student"
  {
    if role == "teacher" then "/teacher" else "/student"
  }

  /** The three `localStorage.setItem` calls: token, role and name of the response. */
  function Stored(storage: map<string, string>, res: LoginResponse): (s: map<string, string>)
    ensures s.Keys == storage.Keys + {"token", "role", "name"}
    ensures s["token"] == res.token && s["role"] == res.role && s["name"] == res.name
    ensures forall k :: k in storage && k !in {"token", "role", "name"} ==> s[k] == storage[k]
  {
    storage["token" := res.token]["role" := res.role]["name" := res.name]
  }

  /** The page sends a teacher to the teacher area, and everyone else, whatever the
      stored role, to the student area. */
  lemma DestinationFollowsStoredRole(storage: map<string, string>, res: LoginResponse)
    ensures Destination(Stored(storage, res)["role"]) == (if res.role == "teacher" then "/teacher" else "/student")
  {
  }

  /** The login page. */
  class LoginPage {
    /** The `form` state. */
    var form: Form
    /** The `loading` state; the login button is disabled while it is set. */
    var loading: bool
    /** Local storage. */
    var storage: map<string, string>
    /** The body of every login request sent, in order. */
    var requests: seq<Form>
    /** Where the page has navigated to, if anywhere. */
    var navigatedTo: Option<string>

    ghost predicate Valid()
      reads this
    {
      form.Keys == LoginFields
    }

    constructor (initialStorage: map<string, string>)
      ensures Valid()
      ensures form == DefaultForm() && !loading && storage == initialStorage
      ensures requests == [] && navigatedTo.None?
    {
      form, loading, storage, requests, navigatedTo := DefaultForm(), false, initialStorage, [], None;
    }

    /** `handleChange` from the input called `name`. */
    method HandleChange(name: string, value: string)
      requires Valid() && name in LoginFields
      modifies this
      ensures Valid()
      ensures form == Change(old(form), name, value)
      ensures loading == old(loading) && storage == old(storage)
      ensures requests == old(requests) && navigatedTo == old(navigatedTo)
    {
      form := Change(form, name, value);
    }

    /** `handleLogin` from the enabled button, with the response (`None` for a
        failed request): a missing field only raises an alert; otherwise the form is
        sent, a success stores the identity and lands on the role's area, and
        `loading` ends cleared. */
    method HandleLogin(res: Option<LoginResponse>) returns (sent: bool)
      requires Valid() && !loading
      modifies this
      ensures Valid()
      ensures sent <==> CanLogin(old(form))
      ensures sent ==> requests == old(requests) + [form]
      ensures !sent ==> requests == old(requests)
      ensures sent && res.Some? ==>
                storage == Stored(old(storage), res.value) && navigatedTo == Some(Destination(res.value.role))
      ensures !(sent && res.Some?) ==> storage == old(storage) && navigatedTo == old(navigatedTo)
      ensures !loading && form == old(form)
    {
      if !Filled(form, Required) {
        return false;
      }
      loading := true;
      requests := requests + [form];
      if res.Some? {
        storage := Stored(storage, res.value);
        navigatedTo := Some(Destination(res.value.role));
      }
      loading := false;
      sent := true;
    }
  }
}
