/** The ChangePassword component: the two password inputs, the check that both
    are given, the request body, and the inputs cleared after a success. */
module ChangePassword {

  /** The body of `POST /auth/change-password`. */
  datatype PasswordChange = PasswordChange(oldPassword: string, newPassword: string)

  /** The request is sent exactly when neither input is empty. */
  predicate CanSubmit(oldP: string, newP: string) {
    oldP != "" && newP != ""
  }

  /** The button's text while a request is or is not on its way. */
  function ButtonLabel(loading: bool): (text: string)
    ensures text == "Updating..." <==> loading
  {
    if loading then "Updating..." else "Change Password"
  }

  /** The component's state. */
  class ChangePasswordForm {
    /** The `oldP` state. */
    var oldP: string
    /** The `newP` state. */
    var newP: string
    /** The `loading` state; the button is disabled while it is set. */
    var loading: bool
    /** Every request body sent, in order. */
    var requests: seq<PasswordChange>

    constructor ()
      ensures oldP == "" && newP == "" && !loading && requests == []
    {
      oldP, newP, loading, requests := "", "", false, [];
    }

    /** The old-password input is edited. */
    method SetOld(value: string)
      modifies this
      ensures oldP == value && newP == old(newP) && loading == old(loading) && requests == old(requests)
    {
      oldP := value;
    }

    /** The new-password input is edited. */
    method SetNew(value: string)
      modifies this
      ensures newP == value && oldP == old(oldP) && loading == old(loading) && requests == old(requests)
    {
      newP := value;
    }

    /** `submit` from the enabled button, with the outcome of the request: an empty
        input only raises an alert; otherwise the old and the new password are
        sent, a success clears both inputs while a failure keeps them, and
        `loading` ends cleared. */
    method Submit(ok: bool) returns (sent: bool)
      requires !loading
      modifies this
      ensures sent <==> CanSubmit(old(oldP), old(newP))
      ensures sent ==> requests == old(requests) + [PasswordChange(old(oldP), old(newP))]
      ensures !sent ==> requests == old(requests)
      ensures sent && ok ==> oldP == "" && newP == ""
      ensures !(sent && ok) ==> oldP == old(oldP) && newP == old(newP)
      ensures !loading
    {
      if oldP == "" || newP == "" {
        return false;
      }
      loading := true;
      requests := requests + [PasswordChange(oldP, newP)];
      if ok {
        oldP := "";
        newP := "";
      }
      loading := false;
      sent := true;
    }
  }
}
