/**
 * The notification bell in the page header: the unread badge, marking one or
 * all notifications as read, following a notification to its lesson, and the
 * relative-time wording of the list.
 */
module NotificationBell {
  import opened Wrappers
  import opened Text
  import opened Backend
  import opened Frontend

  datatype BellNotification = BellNotification(id: string, kind: NotificationType, title: string, message: string,
                                               relatedLessonId: Option<string>, isRead: bool, createdAt: int)

  /** The icon drawn beside a notification. */
  datatype Icon = CrossIcon | UserCogIcon | CalendarIcon

  /** `getIcon`: a cross for cancellations, a person for a teacher change, a calendar otherwise. */
  function IconOf(kind: NotificationType): (icon: Icon)
    ensures icon == CrossIcon <==> kind == LessonCancelled
    ensures icon == UserCogIcon <==> kind == TeacherChanged
  {
    match kind
    case LessonCancelled => CrossIcon
    case TeacherChanged => UserCogIcon
    case _ => CalendarIcon
  }

  /** The badge on the bell: nothing at zero, the count up to nine, "9+" above. */
  function BadgeText(unreadCount: int): (text: Option<string>)
    ensures text.None? <==> unreadCount <= 0
    ensures unreadCount > 9 ==> text == Some("9+")
    ensures 0 < unreadCount <= 9 ==> text.Some? && |text.value| == 1 && IsDigit(text.value[0]) &&
                                      DecimalValue(text.value) == unreadCount
  {
    if unreadCount <= 0 then None
    else if unreadCount > 9 then Some("9+")
    else
      DecimalValueOfNatToString(unreadCount);
      Some(NatToString(unreadCount))
  }

  /** Whole hours from whole minutes are whole hours from milliseconds. */
  lemma HoursFromMinutes(x: int)
    ensures (x / 60000) / 60 == x / 3600000
  {
    var m := x / 60000;
    var h := m / 60;
    assert 60000 * m <= x < 60000 * m + 60000;
    assert 60 * h <= m < 60 * h + 60;
    assert 3600000 * h <= x < 3600000 * h + 3600000;
  }

  /** Whole days from whole hours are whole days from milliseconds. */
  lemma DaysFromHours(x: int)
    ensures (x / 3600000) / 24 == x / 86400000
  {
    var h := x / 3600000;
    var d := h / 24;
    assert 3600000 * h <= x < 3600000 * h + 3600000;
    assert 24 * d <= h < 24 * d + 24;
    assert 86400000 * d <= x < 86400000 * d + 86400000;
  }

  /**
   * `formatTime`: minutes, then hours from minutes, then days from hours, with
   * no "어제" bucket.
   */
  function FormatTime(date: int, now: int): (r: Elapsed)
    ensures r != Yesterday
  {
    var diffMins := (now - date) / 60000;
    var diffHours := diffMins / 60;
    var diffDays := diffHours / 24;
    if diffMins < 1 then JustNow
    else if diffMins < 60 then MinutesAgo(diffMins)
    else if diffHours < 24 then HoursAgo(diffHours)
    else if diffDays < 7 then DaysAgo(diffDays)
    else OnDate
  }

  /** The bell words every time as the teacher pages do, except that one day ago reads "1일 전" instead of "어제". */
  lemma FormatTimeMatchesRelativeTime(date: int, now: int)
    ensures FormatTime(date, now) ==
            (if FormatRelativeTime(date, now) == Yesterday then DaysAgo(1) else FormatRelativeTime(date, now))
  {
    HoursFromMinutes(now - date);
    DaysFromHours(now - date);
  }

  /** The bell's state: the fetched list, the unread count, the popover and where a click navigated. */
  class Bell {
    var notifications: seq<BellNotification>
    var unreadCount: int
    var isOpen: bool
    var route: Option<string>
    var readRequests: seq<string>

    constructor ()
      ensures notifications == [] && unreadCount == 0 && !isOpen && route == None && readRequests == []
    {
      notifications := [];
      unreadCount := 0;
      isOpen := false;
      route := None;
      readRequests := [];
    }

    /** `fetchUnreadCount`: the server's count, or no change when the request fails. */
    method FetchUnreadCount(count: Option<nat>)
      modifies this
      ensures unreadCount == (if count.Some? then count.value else old(unreadCount))
      ensures notifications == old(notifications) && isOpen == old(isOpen) && route == old(route)
      ensures readRequests == old(readRequests)
    {
      if count.Some? {
        unreadCount := count.value;
      }
    }

    /** `fetchNotifications`: the server's list, or no change when the request fails. */
    method FetchNotifications(data: Option<seq<BellNotification>>)
      modifies this
      ensures notifications == (if data.Some? then data.value else old(notifications))
      ensures unreadCount == old(unreadCount) && isOpen == old(isOpen) && route == old(route)
      ensures readRequests == old(readRequests)
    {
      if data.Some? {
        notifications := data.value;
      }
    }

    /**
     * `markAsRead`: on success only the notifications with that id become read
     * and the count drops by one, never below zero; on failure nothing changes.
     */
    method MarkAsRead(id: string, patchSucceeds: bool)
      modifies this
      ensures readRequests == old(readRequests) + [id]
      ensures isOpen == old(isOpen) && route == old(route)
      ensures !patchSucceeds ==> notifications == old(notifications) && unreadCount == old(unreadCount)
      ensures patchSucceeds ==>
        && unreadCount == (if old(unreadCount) - 1 > 0 then old(unreadCount) - 1 else 0)
        && |notifications| == |old(notifications)|
        && (forall k :: 0 <= k < |notifications| ==>
              notifications[k] == (if old(notifications)[k].id == id then old(notifications)[k].(isRead := true)
                                   else old(notifications)[k]))
      ensures patchSucceeds ==> unreadCount >= 0
    {
      readRequests := readRequests + [id];
      if patchSucceeds {
        var prev := notifications;
        notifications := seq(|prev|, k requires 0 <= k < |prev| =>
          if prev[k].id == id then prev[k].(isRead := true) else prev[k]);
        unreadCount := if 0 > unreadCount - 1 then 0 else unreadCount - 1;
      }
    }

    /** `markAllAsRead`: on success every notification is read and the count is zero. */
    method MarkAllAsRead(patchSucceeds: bool)
      modifies this
      ensures readRequests == old(readRequests) && isOpen == old(isOpen) && route == old(route)
      ensures !patchSucceeds ==> notifications == old(notifications) && unreadCount == old(unreadCount)
      ensures patchSucceeds ==>
        && unreadCount == 0
        && |notifications| == |old(notifications)|
        && (forall k :: 0 <= k < |notifications| ==> notifications[k] == old(notifications)[k].(isRead := true))
    {
      if patchSucceeds {
        var prev := notifications;
        notifications := seq(|prev|, k requires 0 <= k < |prev| => prev[k].(isRead := true));
        unreadCount := 0;
      }
    }

    /**
     * `handleNotificationClick`: an unread notification is marked read, the
     * popover closes, and a notification about a lesson opens that lesson's
     * page under the caller's role.
     */
    method HandleNotificationClick(n: BellNotification, caller: Option<User>, patchSucceeds: bool)
      modifies this
      ensures !isOpen
      ensures n.isRead ==> notifications == old(notifications) && unreadCount == old(unreadCount)
                           && readRequests == old(readRequests)
      ensures !n.isRead ==> readRequests == old(readRequests) + [n.id]
      ensures !n.isRead && !patchSucceeds ==> notifications == old(notifications) && unreadCount == old(unreadCount)
      ensures !n.isRead && patchSucceeds ==>
        && unreadCount == (if old(unreadCount) - 1 > 0 then old(unreadCount) - 1 else 0)
        && |notifications| == |old(notifications)|
        && (forall k :: 0 <= k < |notifications| ==>
              notifications[k] == (if old(notifications)[k].id == n.id then old(notifications)[k].(isRead := true)
                                   else old(notifications)[k]))
      ensures n.relatedLessonId.GetOr("") == "" ==> route == old(route)
      ensures n.relatedLessonId.GetOr("") != "" ==>
        route == Some((if caller.Some? && caller.value.role == Teacher then "/teacher" else "/student")
                      + "/lessons/" + n.relatedLessonId.value)
    {
      if !n.isRead {
        MarkAsRead(n.id, patchSucceeds);
      }
      isOpen := false;
      if n.relatedLessonId.GetOr("") != "" {
        var basePath := if caller.Some? && caller.value.role == Teacher then "/teacher" else "/student";
        route := Some(basePath + "/lessons/" + n.relatedLessonId.value);
      }
    }
  }
}
