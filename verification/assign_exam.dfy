/** The teacher's AssignExam page: a list of selected student ids toggled by the
    checkboxes, and an assignment request that is refused for an empty selection. */
module AssignExam {

  /** No id is listed twice. */
  predicate NoDup(s: seq<string>) {
    forall i, j :: 0 <= i < j < |s| ==> s[i] != s[j]
  }

  /** `prev.filter(s => s !== id)`: every occurrence of `id` goes, the other ids keep
      their order. */
  function Remove(prev: seq<string>, id: string): (r: seq<string>)
    ensures forall x :: x in r <==> x in prev && x != id
    ensures |r| <= |prev|
  {
    if |prev| == 0 then []
    else (if prev[0] == id then [] else [prev[0]]) + Remove(prev[1..], id)
  }

  /** `toggleStudent(id)`: drop the id if it is selected, add it at the end if not.
      The id's membership flips and no other id's membership changes. */
  function Toggle(prev: seq<string>, id: string): (r: seq<string>)
    ensures id in r <==> id !in prev
    ensures forall x :: x != id ==> (x in r <==> x in prev)
  {
    if id in prev then Remove(prev, id) else prev + [id]
  }

  /** Removing an id that is not there changes nothing. */
  lemma {:induction false} RemoveAbsent(prev: seq<string>, id: string)
    requires id !in prev
    ensures Remove(prev, id) == prev
  {
    if |prev| > 0 {
      RemoveAbsent(prev[1..], id);
      assert prev == [prev[0]] + prev[1..];
    }
  }

  /** Removing keeps a list free of repetitions. */
  lemma {:induction false} RemoveNoDup(prev: seq<string>, id: string)
    requires NoDup(prev)
    ensures NoDup(Remove(prev, id))
  {
    if |prev| > 0 {
      assert NoDup(prev[1..]) by {
        forall i, j | 0 <= i < j < |prev[1..]| ensures prev[1..][i] != prev[1..][j] {
          assert prev[1..][i] == prev[i + 1] && prev[1..][j] == prev[j + 1];
        }
      }
      RemoveNoDup(prev[1..], id);
      var rest := Remove(prev[1..], id);
      assert prev[0] !in prev[1..] by {
        forall k | 0 <= k < |prev[1..]| ensures prev[1..][k] != prev[0] {
          assert prev[1..][k] == prev[k + 1];
        }
      }
      assert prev[0] !in rest;
    }
  }

  /** A selection without repetitions stays without repetitions through a toggle. */
  lemma ToggleNoDup(prev: seq<string>, id: string)
    requires NoDup(prev)
    ensures NoDup(Toggle(prev, id))
  {
    if id in prev {
      RemoveNoDup(prev, id);
    }
  }

  /** Ticking a box twice selects the same students as before. Unticking a box that
      was ticked and ticking it again selects the same students, with that id now
      last. Ticking a box that was not ticked and unticking it again gives back
      the very same list. */
  lemma ToggleTwice(prev: seq<string>, id: string)
    ensures forall x :: x in Toggle(Toggle(prev, id), id) <==> x in prev
    ensures id !in prev ==> Toggle(Toggle(prev, id), id) == prev
    ensures id in prev ==> Toggle(Toggle(prev, id), id) == Remove(prev, id) + [id]
  {
    if id !in prev {
      RemoveAbsent(prev, id);
      RemoveAppended(prev, id);
    }
  }

  /** Removing the id just appended to a list that did not hold it. */
  lemma {:induction false} RemoveAppended(prev: seq<string>, id: string)
    requires id !in prev
    ensures Remove(prev + [id], id) == Remove(prev, id)
  {
    if |prev| == 0 {
      assert Remove([id], id) == [] + Remove([], id);
    } else {
      assert (prev + [id])[1..] == prev[1..] + [id];
      RemoveAppended(prev[1..], id);
    }
  }

  /** The assignment page: the selection and the state of its assign request. */
  class AssignPage {
    /** The `selected` state: ids of the ticked students, in ticking order. */
    var selected: seq<string>
    /** The `loading` state; the assign button is disabled while it is set. */
    var loading: bool
    /** An assign request is awaiting its response. */
    var awaiting: bool
    /** The page has navigated to the exam list. */
    var closed: bool
    /** The `studentIds` of every assign request sent, in order. */
    var requests: seq<seq<string>>

    ghost predicate Valid()
      reads this
    {
      && NoDup(selected)
      && (awaiting ==> loading && |requests| > 0 && |requests[|requests| - 1]| > 0)
    }

    constructor ()
      ensures Valid()
      ensures selected == [] && !loading && !awaiting && !closed && requests == []
    {
      selected, loading, awaiting, closed, requests := [], false, false, false, [];
    }

    /** The checkbox of student `id` is ticked. */
    predicate Checked(id: string)
      reads this
    {
      id in selected
    }

    /** The "Selected students" count. */
    function SelectedCount(): (n: nat)
      requires Valid()
      reads this
      ensures n == |selected|
      ensures n == 0 <==> forall id :: !Checked(id)
    {
      if |selected| > 0 then assert Checked(selected[0]); |selected| else 0
    }

    /** The checkbox of student `id` is clicked: its tick flips and no other
        student's tick changes. */
    method ToggleStudent(id: string)
      requires Valid()
      modifies this
      ensures Valid()
      ensures selected == Toggle(old(selected), id)
      ensures Checked(id) <==> !old(Checked(id))
      ensures forall other :: other != id ==> (Checked(other) <==> old(Checked(other)))
      ensures loading == old(loading) && awaiting == old(awaiting)
      ensures closed == old(closed) && requests == old(requests)
    {
      ToggleNoDup(selected, id);
      selected := Toggle(selected, id);
    }

    /** `assign` from the enabled button, up to the `await` of the request: an empty
        selection only raises an alert; otherwise `loading` is set and the request
        body's `studentIds` is the selection as it stands. */
    method Assign() returns (sent: bool)
      requires Valid() && !loading
      modifies this
      ensures Valid()
      ensures sent <==> |old(selected)| > 0
      ensures sent ==> loading && awaiting && requests == old(requests) + [selected]
      ensures !sent ==> !loading && !awaiting && requests == old(requests)
      ensures selected == old(selected) && closed == old(closed)
    {
      if |selected| == 0 {
        return false;
      }
      loading := true;
      requests := requests + [selected];
      awaiting := true;
      sent := true;
    }

    /** The rest of `assign`: success leaves for the exam list, and `loading` is
        cleared after either outcome. */
    method AssignSettled(ok: bool)
      requires Valid() && awaiting
      modifies this
      ensures Valid()
      ensures !loading && !awaiting
      ensures closed <==> ok || old(closed)
      ensures selected == old(selected) && requests == old(requests)
    {
      awaiting := false;
      if ok {
        closed := true;
      }
      loading := false;
    }
  }
}
