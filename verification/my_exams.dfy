/** The teacher's MyExams page: the status badge, which actions each exam offers,
    and the confirmed publish and delete requests that refresh the list. */
module MyExams {
  import opened Wrappers

  /** An exam as `GET /exam/my-exams` lists it; `status` is "draft" or "published". */
  datatype ExamItem = ExamItem(id: string, status: string)

  /** A request the page sends for one exam. */
  datatype Request = PublishRequest(id: string) | DeleteRequest(id: string)

  /** `badgeStyle(status)`: green for a published exam, yellow for anything else. */
  function BadgeStyle(status: string): (c: string)
    ensures c == "bg-green-100 text-green-700" <==> status == "published"
    ensures c != "bg-green-100 text-green-700" ==> c == "bg-yellow-100 text-yellow-700"
  {
    if status == "published" then "bg-green-100 text-green-700" else "bg-yellow-100 text-yellow-700"
  }

  /** The Assign button's `disabled`. */
  function AssignDisabled(status: string): bool {
    status != "published"
  }

  /** The Publish button is rendered. */
  function PublishOffered(status: string): bool {
    status == "draft"
  }

  /** An exam that can still be published cannot be assigned yet; the badge is green
      exactly when Assign is enabled; and a published exam offers Assign but no
      Publish. */
  lemma ActionsByStatus(status: string)
    ensures PublishOffered(status) ==> AssignDisabled(status)
    ensures BadgeStyle(status) == "bg-green-100 text-green-700" <==> !AssignDisabled(status)
    ensures status == "published" ==> !AssignDisabled(status) && !PublishOffered(status)
  {
  }

  /** The exam list page. */
  class MyExamsPage {
    /** The `exams` state. */
    var exams: seq<ExamItem>
    /** The `loading` state. */
    var loading: bool
    /** Every publish or delete request sent, in order. */
    var requests: seq<Request>

    constructor ()
      ensures exams == [] && loading && requests == []
    {
      exams, loading, requests := [], true, [];
    }

    /** `fetchExams` with the outcome of its request: the list on success, the old
        list on failure, and loading ends either way. */
    method FetchExams(res: Option<seq<ExamItem>>)
      modifies this
      ensures !loading && requests == old(requests)
      ensures res.Some? ==> exams == res.value
      ensures res.None? ==> exams == old(exams)
    {
      if res.Some? {
        exams := res.value;
      }
      loading := false;
    }

    /** `publishExam` from the Publish button of the `i`-th exam, which is a draft:
        nothing without the confirmation; otherwise the publish request goes out
        and, if it succeeds, the list is fetched again. */
    method PublishExam(i: nat, confirmed: bool, ok: bool, refetched: Option<seq<ExamItem>>)
      requires !loading && i < |exams| && PublishOffered(exams[i].status)
      modifies this
      ensures !confirmed ==> exams == old(exams) && requests == old(requests)
      ensures confirmed ==> requests == old(requests) + [PublishRequest(old(exams)[i].id)]
      ensures confirmed && ok && refetched.Some? ==> exams == refetched.value
      ensures !(confirmed && ok && refetched.Some?) ==> exams == old(exams)
      ensures !loading
    {
      if !confirmed {
        return;
      }
      requests := requests + [PublishRequest(exams[i].id)];
      if ok {
        FetchExams(refetched);
      }
    }

    /** `handleDelete` from the Delete button of the `i`-th exam: nothing without
        the confirmation; otherwise the delete request goes out and, if it
        succeeds, the list is fetched again. */
    method HandleDelete(i: nat, confirmed: bool, ok: bool, refetched: Option<seq<ExamItem>>)
      requires !loading && i < |exams|
      modifies this
      ensures !confirmed ==> exams == old(exams) && requests == old(requests)
      ensures confirmed ==> requests == old(requests) + [DeleteRequest(old(exams)[i].id)]
      ensures confirmed && ok && refetched.Some? ==> exams == refetched.value
      ensures !(confirmed && ok && refetched.Some?) ==> exams == old(exams)
      ensures !loading
    {
      if !confirmed {
        return;
      }
      requests := requests + [DeleteRequest(exams[i].id)];
      if ok {
        FetchExams(refetched);
      }
    }

    /** "You haven't created any exams yet." */
    predicate EmptyShown()
      reads this
    {
      !loading && |exams| == 0
    }

    /** The exam table. */
    predicate TableShown()
      reads this
    {
      !loading && |exams| > 0
    }

    /** The empty state and the table never show together, and after loading one of
        them does. */
    lemma OneViewShown()
      ensures !(EmptyShown() && TableShown())
      ensures !loading ==> EmptyShown() || TableShown()
    {
    }
  }
}
