/** The administrator's student list: the name search and the assigned/unassigned split. */
module AdminStudents {
  import opened Wrappers
  import opened Text
  import Seqs

  datatype Profile = Profile(teacherName: Option<string>, isActive: bool)

  datatype Student = Student(id: string, name: string, profile: Option<Profile>)

  /** `student.profile?.teacher?.name || ''` */
  function TeacherName(s: Student): string {
    if s.profile.Some? then s.profile.value.teacherName.GetOr("") else ""
  }

  /** The search keeps a student whose name or teacher's name contains the query, ignoring case. */
  predicate MatchesQuery(s: Student, query: string) {
    Contains(ToLower(s.name), ToLower(query)) || Contains(ToLower(TeacherName(s)), ToLower(query))
  }

  function MatchesOf(query: string): Student -> bool {
    (s: Student) => MatchesQuery(s, query)
  }

  /** `filteredStudents` */
  function FilteredStudents(students: seq<Student>, query: string): (r: seq<Student>)
    ensures Seqs.IsSubsequence(r, students)
    ensures forall k :: 0 <= k < |r| ==> MatchesQuery(r[k], query)
    ensures forall k :: 0 <= k < |students| && MatchesQuery(students[k], query) ==> students[k] in r
  {
    Seqs.Filter(students, MatchesOf(query))
  }

  /** An empty search keeps every student, in order. */
  lemma EmptyQueryKeepsAll(students: seq<Student>)
    ensures FilteredStudents(students, "") == students
  {
    forall k | 0 <= k < |students| ensures MatchesQuery(students[k], "") {
      assert OccursAt(ToLower(students[k].name), ToLower(""), 0);
    }
    Seqs.FilterAll(students, MatchesOf(""));
  }

  predicate IsAssigned(s: Student) { s.profile.Some? && s.profile.value.isActive }

  predicate IsUnassigned(s: Student) { s.profile.None? }

  /** `assignedStudents` */
  function AssignedStudents(filtered: seq<Student>): (r: seq<Student>)
    ensures Seqs.IsSubsequence(r, filtered)
    ensures forall k :: 0 <= k < |r| ==> IsAssigned(r[k])
    ensures forall k :: 0 <= k < |filtered| && IsAssigned(filtered[k]) ==> filtered[k] in r
  {
    Seqs.Filter(filtered, IsAssigned)
  }

  /** `unassignedStudents` */
  function UnassignedStudents(filtered: seq<Student>): (r: seq<Student>)
    ensures Seqs.IsSubsequence(r, filtered)
    ensures forall k :: 0 <= k < |r| ==> IsUnassigned(r[k])
    ensures forall k :: 0 <= k < |filtered| && IsUnassigned(filtered[k]) ==> filtered[k] in r
  {
    Seqs.Filter(filtered, IsUnassigned)
  }

  predicate HasInactiveProfile(s: Student) { s.profile.Some? && !s.profile.value.isActive }

  /**
   * No student is in both lists, a student whose profile is inactive is in
   * neither, and the two lists plus those students account for every match.
   */
  lemma {:induction false} SplitAccountsForAll(filtered: seq<Student>)
    ensures forall x :: x in AssignedStudents(filtered) ==> x !in UnassignedStudents(filtered)
    ensures forall x :: HasInactiveProfile(x) ==> x !in AssignedStudents(filtered) && x !in UnassignedStudents(filtered)
    ensures |AssignedStudents(filtered)| + |UnassignedStudents(filtered)| + |Seqs.Filter(filtered, HasInactiveProfile)|
            == |filtered|
  {
    var a := AssignedStudents(filtered);
    var u := UnassignedStudents(filtered);
    forall x | x in a ensures x !in u {
      var i :| 0 <= i < |a| && a[i] == x;
    }
    assert forall x :: HasInactiveProfile(x) ==> x !in a && x !in u;
    if filtered != [] {
      SplitAccountsForAll(filtered[1..]);
    }
  }

  /** The headings: `미배정 학생 (N명)` and `배정된 학생 (N명)`. */
  function UnassignedHeading(filtered: seq<Student>): string {
    "미배정 학생 (" + NatToString(|UnassignedStudents(filtered)|) + "명)"
  }

  function AssignedHeading(filtered: seq<Student>): string {
    "배정된 학생 (" + NatToString(|AssignedStudents(filtered)|) + "명)"
  }

  /** The number in each heading reads back as the size of its list. */
  lemma HeadingCounts(filtered: seq<Student>)
    ensures var h := UnassignedHeading(filtered);
            DecimalValue(h[8..|h| - 2]) == |UnassignedStudents(filtered)|
    ensures var h := AssignedHeading(filtered);
            DecimalValue(h[8..|h| - 2]) == |AssignedStudents(filtered)|
  {
    var h1 := UnassignedHeading(filtered);
    var h2 := AssignedHeading(filtered);
    assert h1[8..|h1| - 2] == NatToString(|UnassignedStudents(filtered)|);
    assert h2[8..|h2| - 2] == NatToString(|AssignedStudents(filtered)|);
    DecimalValueOfNatToString(|UnassignedStudents(filtered)|);
    DecimalValueOfNatToString(|AssignedStudents(filtered)|);
  }

  /** The unassigned card is shown only when that list is not empty. */
  function ShowsUnassignedCard(filtered: seq<Student>): (shown: bool)
    ensures shown <==> exists k :: 0 <= k < |filtered| && IsUnassigned(filtered[k])
  {
    var u := UnassignedStudents(filtered);
    assert u != [] ==> IsUnassigned(u[0]) && u[0] in filtered;
    |u| > 0
  }
}
