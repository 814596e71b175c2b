/** The pages' form state: one object from field name to the text typed into the
    input of that name, updated one field at a time and checked for required fields
    with a chain of `!form.a || !form.b || ...`. */
module Forms {

  /** A form state object: field name to the current text of its input. */
  type Form = map<string, string>

  /** `setForm({ ...form, [name]: value })`: the named field takes the new text and
      no other field changes. */
  function Change(form: Form, name: string, value: string): (r: Form)
    ensures r.Keys == form.Keys + {name}
    ensures r[name] == value
    ensures forall k :: k in form && k != name ==> r[k] == form[k]
  {
    form[name := value]
  }

  /** `form.name` is truthy: the field is there and its text is not empty. */
  predicate Truthy(form: Form, name: string) {
    name in form && form[name] != ""
  }

  /** The negation of `!form.r0 || !form.r1 || ...`, evaluated left to right. */
  function Filled(form: Form, required: seq<string>): bool {
    if |required| == 0 then true else Truthy(form, required[0]) && Filled(form, required[1..])
  }

  /** The check passes exactly when every required field is non-empty. */
  lemma {:induction false} FilledIff(form: Form, required: seq<string>)
    ensures Filled(form, required) <==> forall i :: 0 <= i < |required| ==> Truthy(form, required[i])
  {
    if |required| > 0 {
      FilledIff(form, required[1..]);
      assert forall i :: 1 <= i < |required| ==> required[i] == required[1..][i - 1];
    }
  }

  /** Editing a field that is not required never changes the outcome of the check. */
  lemma {:induction false} FilledIgnoresOptional(form: Form, required: seq<string>, name: string, value: string)
    requires name !in required
    ensures Filled(Change(form, name, value), required) == Filled(form, required)
  {
    if |required| > 0 {
      FilledIgnoresOptional(form, required[1..], name, value);
    }
  }

  /** Emptying any required field makes the check fail. */
  lemma EmptyRequiredBlocks(form: Form, required: seq<string>, name: string)
    requires name in required
    ensures !Filled(Change(form, name, ""), required)
  {
    FilledIff(Change(form, name, ""), required);
  }
}
