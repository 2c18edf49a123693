/**
 * The administrator's lesson list: which lessons may still be edited or
 * cancelled, the query a tab fetches with, the status badge, and the cancel
 * handler.
 */
module AdminLessons {
  import opened Wrappers
  import opened Frontend
  import TeacherDashboard

  /** `isUpcoming`: scheduled and strictly in the future. */
  predicate IsUpcoming(l: Lesson, now: int) {
    l.status == Scheduled && l.scheduledAt > now
  }

  /** The edit and cancel controls are shown exactly for upcoming lessons. */
  function ShowsControls(l: Lesson, now: int): (shown: bool)
    ensures shown <==> l.status == Scheduled && l.scheduledAt > now
  {
    IsUpcoming(l, now)
  }

  /**
   * The administrator's "upcoming" and the dashboard's "feedback-eligible"
   * split a scheduled lesson at `now` without overlap or gap: the first is
   * strict, the second is not.
   */
  lemma UpcomingComplementsEligible(l: Lesson, now: int)
    requires l.status == Scheduled
    ensures IsUpcoming(l, now) <==> !TeacherDashboard.FeedbackEligible(l, now)
  {
  }

  /** No finished or cancelled lesson offers the controls. */
  lemma ControlsOnlyWhileScheduled(l: Lesson, now: int)
    requires l.status != Scheduled || l.scheduledAt <= now
    ensures !ShowsControls(l, now)
  {
  }

  /** The query string a tab fetches `/admin/lessons` with. */
  function StatusParam(tab: string): (q: string)
    ensures tab == "upcoming" ==> q == "?status=upcoming"
    ensures tab == "past" ==> q == "?status=past"
    ensures tab != "upcoming" && tab != "past" ==> q == ""
  {
    if tab == "upcoming" then "?status=upcoming" else if tab == "past" then "?status=past" else ""
  }

  /** `getStatusBadge`: the Korean word for a known status, the raw text otherwise. */
  function StatusBadge(status: LessonStatus): (text: string)
    ensures status == Scheduled ==> text == "예정"
    ensures status == Completed ==> text == "완료"
    ensures status == Cancelled ==> text == "취소"
    ensures status.Other? ==> text == status.raw
  {
    match status
    case Scheduled => "예정"
    case Completed => "완료"
    case Cancelled => "취소"
    case Other(raw) => raw
  }

  /** The three known statuses get three different badges. */
  lemma BadgesDistinct(s1: LessonStatus, s2: LessonStatus)
    requires s1.Known() && s2.Known() && s1 != s2
    ensures StatusBadge(s1) != StatusBadge(s2)
  {
  }

  /** An unknown status string is shown as it came. */
  lemma UnknownBadgeIsRaw(raw: string)
    requires raw != "scheduled" && raw != "completed" && raw != "cancelled"
    ensures StatusBadge(ParseStatus(raw)) == raw
  {
  }

  /** The page's cancel state: the lesson being cancelled, the requests sent and the reloads started. */
  class AdminLessonsPage {
    var cancelling: Option<string>
    var cancelRequests: seq<string>
    var reloads: nat

    constructor ()
      ensures cancelling == None && cancelRequests == [] && reloads == 0
    {
      cancelling := None;
      cancelRequests := [];
      reloads := 0;
    }

    /**
     * `cancelLesson`: declining the confirmation returns before anything
     * happens; otherwise the request is sent, a reload follows a success, and
     * `cancelling` ends cleared.
     */
    method CancelLesson(lessonId: string, confirmed: bool, patchSucceeds: bool)
      modifies this
      ensures !confirmed ==> cancelling == old(cancelling) && cancelRequests == old(cancelRequests) && reloads == old(reloads)
      ensures confirmed ==>
        && cancelling == None
        && cancelRequests == old(cancelRequests) + [lessonId]
        && reloads == old(reloads) + (if patchSucceeds then 1 else 0)
    {
      if !confirmed {
        return;
      }
      cancelling := Some(lessonId);
      cancelRequests := cancelRequests + [lessonId];
      if patchSucceeds {
        reloads := reloads + 1;
      }
      cancelling := None;
    }
  }
}
