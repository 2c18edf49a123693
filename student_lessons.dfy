/** The student's lesson list: three status tabs and the counts on their labels. */
module StudentLessons {
  import opened Text
  import opened Frontend
  import Seqs

  function WithStatus(st: LessonStatus): Lesson -> bool {
    (l: Lesson) => l.status == st
  }

  /** `scheduledLessons`, `completedLessons` or `cancelledLessons`: the lessons of one status, in fetched order. */
  function TabLessons(lessons: seq<Lesson>, st: LessonStatus): (r: seq<Lesson>)
    ensures Seqs.IsSubsequence(r, lessons)
    ensures forall k :: 0 <= k < |r| ==> r[k].status == st
    ensures forall k :: 0 <= k < |lessons| && lessons[k].status == st ==> lessons[k] in r
  {
    Seqs.Filter(lessons, WithStatus(st))
  }

  /** Tabs of different statuses never share a lesson. */
  lemma TabsDisjoint(lessons: seq<Lesson>, st1: LessonStatus, st2: LessonStatus)
    requires st1 != st2
    ensures forall x :: x in TabLessons(lessons, st1) ==> x !in TabLessons(lessons, st2)
  {
    var a := TabLessons(lessons, st1);
    forall x | x in a ensures x !in TabLessons(lessons, st2) {
      var i :| 0 <= i < |a| && a[i] == x;
    }
  }

  /** When every status is one of the three, the tab sizes add up to the total shown in the heading. */
  lemma {:induction false} TabsCoverAll(lessons: seq<Lesson>)
    requires forall k :: 0 <= k < |lessons| ==> lessons[k].status.Known()
    ensures |TabLessons(lessons, Scheduled)| + |TabLessons(lessons, Completed)| + |TabLessons(lessons, Cancelled)|
            == |lessons|
  {
    if lessons != [] {
      TabsCoverAll(lessons[1..]);
    }
  }

  /** `전체 N개의 레슨` */
  function TotalHeading(lessons: seq<Lesson>): string {
    "전체 " + NatToString(|lessons|) + "개의 레슨"
  }

  /** The number in the heading reads back as the number of lessons fetched. */
  lemma TotalHeadingCount(lessons: seq<Lesson>)
    ensures var s := TotalHeading(lessons);
            var digits := s[3..|s| - 5];
            (forall k :: 0 <= k < |digits| ==> IsDigit(digits[k])) && DecimalValue(digits) == |lessons|
  {
    var s := TotalHeading(lessons);
    assert s[3..|s| - 5] == NatToString(|lessons|);
    DecimalValueOfNatToString(|lessons|);
  }

  /** The label of a tab: its name and, in parentheses, the size of its list. */
  function TabLabel(lessons: seq<Lesson>, st: LessonStatus): string
    requires st.Known()
  {
    var name := match st
      case Scheduled => "예정"
      case Completed => "완료"
      case _ => "취소";
    name + " (" + NatToString(|TabLessons(lessons, st)|) + ")"
  }

  /** The number on a tab label reads back as the size of the tab's list. */
  lemma TabLabelCount(lessons: seq<Lesson>, st: LessonStatus)
    requires st.Known()
    ensures var s := TabLabel(lessons, st);
            var digits := s[4..|s| - 1];
            (forall k :: 0 <= k < |digits| ==> IsDigit(digits[k])) && DecimalValue(digits) == |TabLessons(lessons, st)|
  {
    var n := |TabLessons(lessons, st)|;
    var s := TabLabel(lessons, st);
    assert s[4..|s| - 1] == NatToString(n);
    DecimalValueOfNatToString(n);
  }
}
