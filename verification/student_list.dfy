/** The teacher's StudentList page: the case-insensitive search over the student
    list, and the confirmed deletion followed by a fresh fetch. */
module StudentList {
  import opened Wrappers
  import opened JsString

  /** A student record as `GET /teacher/students` lists it. */
  datatype Student = Student(id: string, name: string, email: string, userId: Option<string>)

  /** The search condition for one student: the lower-cased query occurs in the
      lower-cased name, e-mail, or (when it is a non-empty string) student id.
      The empty query matches every student. */
  predicate Matches(s: Student, query: string)
    ensures query == "" ==> Matches(s, query)
  {
    IncludesEmpty(Lower(s.name));
    var q := Lower(query);
    || Includes(Lower(s.name), q)
    || Includes(Lower(s.email), q)
    || (s.userId.Some? && s.userId.value != "" && Includes(Lower(s.userId.value), q))
  }

  /** `students.filter(...)`: the matching students in list order. */
  function Filter(students: seq<Student>, query: string): (r: seq<Student>)
    ensures forall s :: s in r <==> s in students && Matches(s, query)
    ensures |r| <= |students|
  {
    if |students| == 0 then []
    else (if Matches(students[0], query) then [students[0]] else []) + Filter(students[1..], query)
  }

  /** `a` is `b` with some elements left out and the rest in their order. */
  predicate SubsequenceOf(a: seq<Student>, b: seq<Student>)
    decreases |b|
  {
    if |a| == 0 then true
    else if |b| == 0 then false
    else if a[0] == b[0] then SubsequenceOf(a[1..], b[1..])
    else SubsequenceOf(a, b[1..])
  }

  /** The result keeps the students in the order of the fetched list. */
  lemma {:induction false} FilterSubsequence(students: seq<Student>, query: string)
    ensures SubsequenceOf(Filter(students, query), students)
  {
    if |students| > 0 {
      FilterSubsequence(students[1..], query);
      var rest := Filter(students[1..], query);
      if Matches(students[0], query) {
        assert Filter(students, query) == [students[0]] + rest;
        assert ([students[0]] + rest)[1..] == rest;
      } else {
        assert Filter(students, query) == rest;
        SubsequenceSkip(rest, students);
      }
    }
  }

  /** Leaving out the first element of `b` keeps `a` a subsequence when it was one
      of `b[1..]`. */
  lemma {:induction false} SubsequenceSkip(a: seq<Student>, b: seq<Student>)
    requires |b| > 0 && SubsequenceOf(a, b[1..])
    ensures SubsequenceOf(a, b)
    decreases |a| + |b|
  {
    if |a| > 0 && a[0] == b[0] {
      SubsequenceTail(a, b[1..]);
    }
  }

  /** Dropping the first element of a subsequence keeps it a subsequence. */
  lemma {:induction false} SubsequenceTail(a: seq<Student>, b: seq<Student>)
    requires |a| > 0 && SubsequenceOf(a, b)
    ensures SubsequenceOf(a[1..], b)
    decreases |a| + |b|
  {
    if a[0] != b[0] {
      SubsequenceTail(a, b[1..]);
    }
    SubsequenceSkip(a[1..], b);
  }

  /** An empty search box lists every student. */
  lemma {:induction false} EmptyQueryKeepsAll(students: seq<Student>)
    ensures Filter(students, "") == students
  {
    if |students| > 0 {
      EmptyQueryKeepsAll(students[1..]);
      assert students == [students[0]] + students[1..];
    }
  }

  /** A query that contains a shorter one matches only students the shorter one
      matches. */
  lemma NarrowerQueryMatches(s: Student, q1: string, q2: string)
    requires Includes(q2, q1) && Matches(s, q2)
    ensures Matches(s, q1)
  {
    LowerKeepsIncludes(q2, q1);
    var l1, l2 := Lower(q1), Lower(q2);
    if Includes(Lower(s.name), l2) {
      IncludesTransitive(l1, l2, Lower(s.name));
    } else if Includes(Lower(s.email), l2) {
      IncludesTransitive(l1, l2, Lower(s.email));
    } else {
      IncludesTransitive(l1, l2, Lower(s.userId.value));
    }
  }

  /** Typing more of a query only narrows the list: searching for `q2`, which
      contains `q1`, within the results for `q1` gives the results for `q2`. */
  lemma {:induction false} NarrowerQuery(students: seq<Student>, q1: string, q2: string)
    requires Includes(q2, q1)
    ensures Filter(Filter(students, q1), q2) == Filter(students, q2)
  {
    if |students| > 0 {
      NarrowerQuery(students[1..], q1, q2);
      var s := students[0];
      var rest1 := Filter(students[1..], q1);
      if Matches(s, q2) {
        NarrowerQueryMatches(s, q1, q2);
        assert Filter(students, q1) == [s] + rest1;
        assert ([s] + rest1)[1..] == rest1;
      } else if Matches(s, q1) {
        assert Filter(students, q1) == [s] + rest1;
        assert ([s] + rest1)[1..] == rest1;
        assert Filter([s] + rest1, q2) == Filter(rest1, q2);
      } else {
        assert Filter(students, q1) == rest1;
        assert Filter(students, q2) == Filter(students[1..], q2);
      }
    }
  }

  /** Queries that differ only in the case of their letters list the same
      students. */
  lemma {:induction false} CaseInsensitive(students: seq<Student>, q1: string, q2: string)
    requires Lower(q1) == Lower(q2)
    ensures Filter(students, q1) == Filter(students, q2)
  {
    if |students| > 0 {
      CaseInsensitive(students[1..], q1, q2);
    }
  }

  /** The list page: the fetched students and the search box. */
  class StudentListPage {
    /** The `students` state. */
    var students: seq<Student>
    /** The `search` state. */
    var search: string
    /** The id of every delete request sent, in order. */
    var deletes: seq<string>

    constructor ()
      ensures students == [] && search == "" && deletes == []
    {
      students, search, deletes := [], "", [];
    }

    /** `filteredStudents`, the rows of the table. */
    function Shown(): (r: seq<Student>)
      reads this
      ensures forall s :: s in r <==> s in students && Matches(s, search)
    {
      Filter(students, search)
    }

    /** "No students found." replaces the table exactly when no student matches. */
    predicate EmptyStateShown()
      reads this
    {
      |Shown()| == 0
    }

    /** With an empty search box the empty state shows only when there are no
        students at all. */
    lemma EmptyStateWithoutSearch()
      requires search == ""
      ensures EmptyStateShown() <==> students == []
    {
      EmptyQueryKeepsAll(students);
    }

    /** The search box is edited. */
    method SetSearch(query: string)
      modifies this
      ensures search == query && students == old(students) && deletes == old(deletes)
    {
      search := query;
    }

    /** The fetch that fills the list. */
    method Fetched(list: seq<Student>)
      modifies this
      ensures students == list && search == old(search) && deletes == old(deletes)
    {
      students := list;
    }

    /** `deleteStudent(id)`: without the confirmation nothing happens; otherwise the
        delete request is sent and, when it succeeds, the list is fetched again. */
    method DeleteStudent(id: string, confirmed: bool, ok: bool, refetched: seq<Student>)
      modifies this
      ensures !confirmed ==> deletes == old(deletes) && students == old(students)
      ensures confirmed ==> deletes == old(deletes) + [id]
      ensures confirmed && ok ==> students == refetched
      ensures confirmed && !ok ==> students == old(students)
      ensures search == old(search)
    {
      if !confirmed {
        return;
      }
      deletes := deletes + [id];
      if ok {
        Fetched(refetched);
      }
    }
  }
}
