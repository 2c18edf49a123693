/**
 * The teacher dashboard: how many lessons still wait for feedback, the five
 * most recent student reactions, the scheduled lessons on a chosen calendar
 * day, calendar event spans, and marking a reaction as viewed.
 */
module TeacherDashboard {
  import opened Wrappers
  import opened Frontend
  import Seqs
  import Sorting

  /** A lesson the teacher may write feedback for: completed, or scheduled and already started. */
  predicate FeedbackEligible(l: Lesson, now: int) {
    l.status == Completed || (l.status == Scheduled && l.scheduledAt <= now)
  }

  /** No feedback yet: `null`/absent, an empty array or an empty object. */
  predicate NeedsFeedback(l: Lesson) {
    !l.feedback.Present?
  }

  function EligibleOf(now: int): Lesson -> bool {
    (l: Lesson) => FeedbackEligible(l, now)
  }

  function Unwritten(): Lesson -> bool {
    (l: Lesson) => NeedsFeedback(l)
  }

  function PendingOf(now: int): Lesson -> bool {
    (l: Lesson) => FeedbackEligible(l, now) && NeedsFeedback(l)
  }

  /** `feedbackEligibleLessons` */
  function EligibleLessons(all: seq<Lesson>, now: int): (r: seq<Lesson>)
    ensures |r| <= |all|
    ensures forall k :: 0 <= k < |r| ==> r[k] in all && FeedbackEligible(r[k], now) && r[k].status != Cancelled
    ensures forall k :: 0 <= k < |all| && FeedbackEligible(all[k], now) ==> all[k] in r
  {
    Seqs.Filter(all, EligibleOf(now))
  }

  /** `lessonsNeedingFeedback.length`, the count shown on the dashboard. */
  function PendingFeedbackCount(all: seq<Lesson>, now: int): (n: nat)
    ensures n <= |EligibleLessons(all, now)| <= |all|
  {
    |Seqs.Filter(EligibleLessons(all, now), Unwritten())|
  }

  /** The pending lessons are exactly the eligible lessons without feedback, in their original order. */
  lemma PendingCountIsFilter(all: seq<Lesson>, now: int)
    ensures PendingFeedbackCount(all, now) == |Seqs.Filter(all, PendingOf(now))|
  {
    Seqs.FilterFilter(all, EligibleOf(now), Unwritten(), PendingOf(now));
  }

  /** A cancelled lesson never counts, and a scheduled lesson counts only once it has started. */
  lemma {:induction false} PendingIgnoresCancelledAndFuture(all: seq<Lesson>, l: Lesson, now: int)
    requires l.status == Cancelled || (l.status == Scheduled && l.scheduledAt > now)
    ensures PendingFeedbackCount(all + [l], now) == PendingFeedbackCount(all, now)
  {
    PendingCountIsFilter(all + [l], now);
    PendingCountIsFilter(all, now);
    Seqs.FilterAppend(all, [l], PendingOf(now));
    assert Seqs.Filter([l], PendingOf(now)) == [];
  }

  /** Adding an eligible lesson without feedback raises the count by one. */
  lemma {:induction false} PendingCountsNewEligible(all: seq<Lesson>, l: Lesson, now: int)
    requires FeedbackEligible(l, now) && NeedsFeedback(l)
    ensures PendingFeedbackCount(all + [l], now) == PendingFeedbackCount(all, now) + 1
  {
    PendingCountIsFilter(all + [l], now);
    PendingCountIsFilter(all, now);
    Seqs.FilterAppend(all, [l], PendingOf(now));
    assert Seqs.Filter([l], PendingOf(now)) == [l];
  }

  /** A feedback row as the dashboard reads it. */
  datatype ReactionFeedback = ReactionFeedback(id: string, lessonId: string, reaction: Option<string>,
                                               message: Option<string>, reactedAt: Option<int>,
                                               viewedAt: Option<int>)

  /** `!!f.student_reaction` */
  predicate HasReaction(f: ReactionFeedback) {
    f.reaction.Some? && f.reaction.value != ""
  }

  /** The sort key: the reaction time, 0 when there is none. */
  function ReactedKey(f: ReactionFeedback): int {
    f.reactedAt.GetOr(0)
  }

  const RecentReactionLimit: nat := 5

  /** The reacted feedbacks, newest reaction first; ties keep the fetched order. */
  function ReactedNewestFirst(feedbacks: seq<ReactionFeedback>): (r: seq<ReactionFeedback>)
    ensures Sorting.SortedDesc(r, ReactedKey)
    ensures multiset(r) == multiset(Seqs.Filter(feedbacks, HasReaction))
  {
    Sorting.SortDesc(Seqs.Filter(feedbacks, HasReaction), ReactedKey)
  }

  /** `recentReactions`: at most five reacted feedbacks, newest first. */
  function RecentReactions(feedbacks: seq<ReactionFeedback>): (r: seq<ReactionFeedback>)
    ensures |r| <= RecentReactionLimit
    ensures |r| == if |Seqs.Filter(feedbacks, HasReaction)| < RecentReactionLimit
                   then |Seqs.Filter(feedbacks, HasReaction)| else RecentReactionLimit
    ensures Sorting.SortedDesc(r, ReactedKey)
    ensures forall k :: 0 <= k < |r| ==> r[k] in feedbacks && HasReaction(r[k])
  {
    var sorted := ReactedNewestFirst(feedbacks);
    var r := Sorting.Window(sorted, 0, RecentReactionLimit);
    forall k | 0 <= k < |r| ensures r[k] in feedbacks && HasReaction(r[k]) {
      assert r[k] in multiset(sorted);
    }
    r
  }

  /**
   * No reaction that was left out is newer than one that was shown, and when
   * there are at most five reactions every one of them is shown.
   */
  lemma RecentReactionsAreNewest(feedbacks: seq<ReactionFeedback>)
    ensures |Seqs.Filter(feedbacks, HasReaction)| <= RecentReactionLimit ==>
              multiset(RecentReactions(feedbacks)) == multiset(Seqs.Filter(feedbacks, HasReaction))
    ensures forall x, j ::
              (x in Seqs.Filter(feedbacks, HasReaction) && x !in RecentReactions(feedbacks) &&
               0 <= j < |RecentReactions(feedbacks)|) ==> ReactedKey(x) <= ReactedKey(RecentReactions(feedbacks)[j])
  {
    var sorted := ReactedNewestFirst(feedbacks);
    var r := RecentReactions(feedbacks);
    assert r == Sorting.Window(sorted, 0, RecentReactionLimit);
    if |sorted| <= RecentReactionLimit {
      assert r == sorted;
    }
    forall x, j | x in Seqs.Filter(feedbacks, HasReaction) && x !in r && 0 <= j < |r|
      ensures ReactedKey(x) <= ReactedKey(r[j])
    {
      OmittedNotNewer(feedbacks, x, j);
    }
  }

  /** One omitted reaction is no newer than the shown reaction at position `j`. */
  lemma OmittedNotNewer(feedbacks: seq<ReactionFeedback>, x: ReactionFeedback, j: int)
    requires x in Seqs.Filter(feedbacks, HasReaction) && x !in RecentReactions(feedbacks)
    requires 0 <= j < |RecentReactions(feedbacks)|
    ensures ReactedKey(x) <= ReactedKey(RecentReactions(feedbacks)[j])
  {
    var sorted := ReactedNewestFirst(feedbacks);
    var r := RecentReactions(feedbacks);
    assert r == Sorting.Window(sorted, 0, RecentReactionLimit);
    assert x in multiset(sorted);
    var i :| 0 <= i < |sorted| && sorted[i] == x;
    assert i >= |r|;
    assert r[j] == sorted[j];
  }

  /** `upcomingLessons`: the scheduled lessons. */
  function UpcomingLessons(lessons: seq<Lesson>): (r: seq<Lesson>)
    ensures Seqs.IsSubsequence(r, lessons)
    ensures forall k :: 0 <= k < |r| ==> r[k].status == Scheduled
    ensures forall k :: 0 <= k < |lessons| && lessons[k].status == Scheduled ==> lessons[k] in r
  {
    Seqs.Filter(lessons, (l: Lesson) => l.status == Scheduled)
  }

  /** A calendar day in local time: year, month and day of month. */
  datatype Day = Day(year: int, month: int, date: int)

  /**
   * `selectedDateLessons`: the upcoming lessons on the selected day, nothing
   * when no day is selected.  `dayOf` is the local calendar day of a time.
   */
  function SelectedDateLessons(lessons: seq<Lesson>, selected: Option<Day>, dayOf: int -> Day): (r: seq<Lesson>)
    ensures selected.None? ==> r == []
    ensures forall k :: 0 <= k < |r| ==> r[k] in lessons && r[k].status == Scheduled && Some(dayOf(r[k].scheduledAt)) == selected
    ensures selected.Some? ==>
      forall k :: 0 <= k < |lessons| && lessons[k].status == Scheduled && dayOf(lessons[k].scheduledAt) == selected.value ==>
        lessons[k] in r
  {
    match selected
    case None => []
    case Some(d) =>
      var upcoming := UpcomingLessons(lessons);
      Seqs.Filter(upcoming, (l: Lesson) => dayOf(l.scheduledAt) == d)
  }

  /** A lesson on the calendar, from its start to its end in milliseconds. */
  datatype CalendarEvent = CalendarEvent(id: string, start: int, end: int)

  function EventOf(l: Lesson): (e: CalendarEvent)
    ensures e.id == l.id && e.start == l.scheduledAt
    ensures e.end - e.start == l.duration * MinuteMs
    ensures l.duration >= 0 ==> e.start <= e.end
  {
    CalendarEvent(l.id, l.scheduledAt, l.scheduledAt + l.duration * 60000)
  }

  /** The dashboard's state after loading, and the reaction list it updates. */
  class Dashboard {
    var lessons: seq<Lesson>
    var pendingFeedbackCount: nat
    var recentReactions: seq<ReactionFeedback>
    var loading: bool

    constructor ()
      ensures lessons == [] && pendingFeedbackCount == 0 && recentReactions == [] && loading
    {
      lessons := [];
      pendingFeedbackCount := 0;
      recentReactions := [];
      loading := true;
    }

    /**
     * `fetchDashboardData`: `fetched` holds the scheduled lessons, all lessons and
     * the feedbacks, or nothing when a request failed (then only loading ends).
     */
    method FetchDashboardData(fetched: Option<(seq<Lesson>, seq<Lesson>, seq<ReactionFeedback>)>, now: int)
      modifies this
      ensures !loading
      ensures fetched.None? ==> lessons == old(lessons) && pendingFeedbackCount == old(pendingFeedbackCount)
                                && recentReactions == old(recentReactions)
      ensures fetched.Some? ==>
        && lessons == fetched.value.0
        && recentReactions == RecentReactions(fetched.value.2)
        && pendingFeedbackCount == PendingFeedbackCount(fetched.value.1, now)
    {
      loading := true;
      if fetched.Some? {
        var (scheduled, all, feedbacks) := fetched.value;
        lessons := scheduled;
        recentReactions := RecentReactions(feedbacks);
        pendingFeedbackCount := PendingFeedbackCount(all, now);
      }
      loading := false;
    }

    /**
     * A click on a recent reaction: an unviewed one is reported to the server,
     * and on success it alone gets `teacher_viewed_reaction_at`.
     */
    method ViewReaction(f: ReactionFeedback, patchSucceeds: bool, now: int)
      modifies this
      ensures lessons == old(lessons) && pendingFeedbackCount == old(pendingFeedbackCount) && loading == old(loading)
      ensures |recentReactions| == |old(recentReactions)|
      ensures forall k :: 0 <= k < |recentReactions| ==>
        recentReactions[k] == (if f.viewedAt.None? && patchSucceeds && old(recentReactions)[k].id == f.id
                               then old(recentReactions)[k].(viewedAt := Some(now))
                               else old(recentReactions)[k])
    {
      if f.viewedAt.None? && patchSucceeds {
        var prev := recentReactions;
        recentReactions := seq(|prev|, k requires 0 <= k < |prev| =>
          if prev[k].id == f.id then prev[k].(viewedAt := Some(now)) else prev[k]);
      }
    }
  }
}
