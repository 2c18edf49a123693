/**
 * The teacher's lesson list: the optional student filter from the URL, the
 * upcoming/past tabs, the per-lesson feedback and restore buttons, and the
 * restore handler.
 */
module TeacherLessons {
  import opened Wrappers
  import opened Frontend
  import Seqs
  import TeacherDashboard

  function OfStudent(studentId: string): Lesson -> bool {
    (l: Lesson) => l.studentId == Some(studentId)
  }

  /** `filteredLessons`: every lesson without a filter (absent or ""), else exactly that student's lessons. */
  function FilteredLessons(lessons: seq<Lesson>, studentFilter: Option<string>): (r: seq<Lesson>)
    ensures studentFilter.GetOr("") == "" ==> r == lessons
    ensures Seqs.IsSubsequence(r, lessons)
    ensures studentFilter.GetOr("") != "" ==>
      && (forall k :: 0 <= k < |r| ==> r[k].studentId == studentFilter)
      && (forall k :: 0 <= k < |lessons| && lessons[k].studentId == studentFilter ==> lessons[k] in r)
  {
    if studentFilter.GetOr("") != "" then Seqs.Filter(lessons, OfStudent(studentFilter.value))
    else
      Seqs.SubsequenceRefl(lessons);
      lessons
  }

  predicate IsUpcoming(l: Lesson) { l.status == Scheduled }

  predicate IsPast(l: Lesson) { l.status == Completed || l.status == Cancelled }

  /** `upcomingLessons` */
  function UpcomingLessons(filtered: seq<Lesson>): (r: seq<Lesson>)
    ensures Seqs.IsSubsequence(r, filtered)
    ensures forall k :: 0 <= k < |r| ==> IsUpcoming(r[k])
    ensures forall k :: 0 <= k < |filtered| && IsUpcoming(filtered[k]) ==> filtered[k] in r
  {
    Seqs.Filter(filtered, IsUpcoming)
  }

  /** `pastLessons` */
  function PastLessons(filtered: seq<Lesson>): (r: seq<Lesson>)
    ensures Seqs.IsSubsequence(r, filtered)
    ensures forall k :: 0 <= k < |r| ==> IsPast(r[k])
    ensures forall k :: 0 <= k < |filtered| && IsPast(filtered[k]) ==> filtered[k] in r
  {
    Seqs.Filter(filtered, IsPast)
  }

  /** The two tabs never share a lesson and, when every status is one of the three, together hold every lesson. */
  lemma TabsPartition(filtered: seq<Lesson>)
    ensures forall x :: x in UpcomingLessons(filtered) ==> x !in PastLessons(filtered)
    ensures (forall k :: 0 <= k < |filtered| ==> filtered[k].status.Known()) ==>
              |UpcomingLessons(filtered)| + |PastLessons(filtered)| == |filtered|
  {
    var up := UpcomingLessons(filtered);
    var past := PastLessons(filtered);
    forall x | x in up ensures x !in past {
      var i :| 0 <= i < |up| && up[i] == x;
    }
    if forall k :: 0 <= k < |filtered| ==> filtered[k].status.Known() {
      Seqs.FilterPartition(filtered, IsUpcoming, IsPast);
    }
  }

  /** The feedback button: only for completed lessons, "피드백 수정" once any feedback value is attached. */
  function FeedbackButton(l: Lesson): (caption: Option<string>)
    ensures caption.Some? <==> l.status == Completed
    ensures caption.Some? ==> (caption.value == "피드백 수정" <==> l.feedback.Truthy())
    ensures caption.Some? ==> (caption.value == "피드백 작성" <==> !l.feedback.Truthy())
  {
    if l.status == Completed then
      Some(if l.feedback.Truthy() then "피드백 수정" else "피드백 작성")
    else None
  }

  /** The restore button: only for cancelled lessons; `Some(true)` when it is shown disabled. */
  function RestoreButton(l: Lesson, restoringId: Option<string>): (disabled: Option<bool>)
    ensures disabled.Some? <==> l.status == Cancelled
    ensures disabled.Some? ==> (disabled.value <==> restoringId == Some(l.id))
  {
    if l.status == Cancelled then Some(restoringId == Some(l.id)) else None
  }

  /** No lesson shows both buttons. */
  lemma ButtonsExclusive(l: Lesson, restoringId: Option<string>)
    ensures FeedbackButton(l).None? || RestoreButton(l, restoringId).None?
  {
  }

  /**
   * A completed lesson whose `feedback` is an empty array or object counts as
   * pending on the dashboard, while this page labels it "피드백 수정".
   */
  lemma EmptyFeedbackLabelledAsWritten(l: Lesson, now: int)
    requires l.status == Completed && (l.feedback == EmptyArray || l.feedback == EmptyObject)
    ensures TeacherDashboard.FeedbackEligible(l, now) && TeacherDashboard.NeedsFeedback(l)
    ensures FeedbackButton(l) == Some("피드백 수정")
  {
  }

  /** The page's lesson list and the lesson whose restore is in flight. */
  class LessonsPage {
    var lessons: seq<Lesson>
    var restoringId: Option<string>
    var restoreRequests: seq<string>

    constructor (fetched: seq<Lesson>)
      ensures lessons == fetched && restoringId == None && restoreRequests == []
    {
      lessons := fetched;
      restoringId := None;
      restoreRequests := [];
    }

    /**
     * `handleRestoreLesson`: sends the restore request, then reloads the list
     * (`refetched` is the reload's result, `None` when either request failed).
     * `restoringId` is cleared whatever happens.
     */
    method HandleRestoreLesson(lessonId: string, refetched: Option<seq<Lesson>>)
      modifies this
      ensures restoringId == None
      ensures restoreRequests == old(restoreRequests) + [lessonId]
      ensures lessons == (if refetched.Some? then refetched.value else old(lessons))
    {
      restoringId := Some(lessonId);
      restoreRequests := restoreRequests + [lessonId];
      if refetched.Some? {
        lessons := refetched.value;
      }
      restoringId := None;
    }
  }
}
