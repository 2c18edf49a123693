/**
 * What the pages share: a lesson as the client receives it, its status string,
 * the `feedback` field whose JSON shape varies, and the relative-time wording
 * ("N분 전") shown next to reactions.  Timestamps are integer milliseconds
 * since the epoch; the current time is always a parameter.
 */
module Frontend {
  import opened Wrappers
  import opened Text

  /** The `status` column; anything the client does not know is kept as it came. */
  datatype LessonStatus = Scheduled | Completed | Cancelled | Other(raw: string) {
    function Name(): string {
      match this
      case Scheduled => "scheduled"
      case Completed => "completed"
      case Cancelled => "cancelled"
      case Other(raw) => raw
    }

    /** One of the three values the server's schema allows. */
    predicate Known() { !Other? }
  }

  /** Reads a status string as the pages compare it (`status === 'scheduled'` and so on). */
  function ParseStatus(s: string): (r: LessonStatus)
    ensures r.Name() == s
    ensures r.Other? <==> s != "scheduled" && s != "completed" && s != "cancelled"
  {
    if s == "scheduled" then Scheduled
    else if s == "completed" then Completed
    else if s == "cancelled" then Cancelled
    else Other(s)
  }

  /** A status that came from the wire is read back as itself. */
  lemma ParseStatusName(st: LessonStatus)
    requires st.Other? ==> ParseStatus(st.raw).Other?
    ensures ParseStatus(st.Name()) == st
  {
  }

  /**
   * The `feedback` relation embedded in a lesson: `null`/absent, an empty
   * array, an empty object, or a record with fields.  JavaScript treats the
   * last three as truthy.
   */
  datatype Attached = Missing | EmptyArray | EmptyObject | Present {
    /** `!!lesson.feedback` */
    predicate Truthy() { !Missing? }
  }

  datatype Lesson = Lesson(id: string, studentId: Option<string>, scheduledAt: int, duration: int,
                           status: LessonStatus, feedback: Attached)

  const MinuteMs: int := 60000
  const HourMs: int := 3600000
  const DayMs: int := 86400000

  /** The buckets of the relative-time wording. */
  datatype Elapsed = JustNow | MinutesAgo(minutes: nat) | HoursAgo(hours: nat) | Yesterday | DaysAgo(days: nat) | OnDate {
    /** The text shown; `OnDate` stands for the locale date, which is not modelled. */
    function Text(): string {
      match this
      case JustNow => "방금 전"
      case MinutesAgo(n) => NatToString(n) + "분 전"
      case HoursAgo(n) => NatToString(n) + "시간 전"
      case Yesterday => "어제"
      case DaysAgo(n) => NatToString(n) + "일 전"
      case OnDate => "date"
    }
  }

  /**
   * `formatRelativeTime` of the teacher pages: elapsed minutes, hours and days
   * are each `Math.floor` of the elapsed milliseconds, and exactly one day
   * reads "어제".  A time in the future reads "방금 전".
   */
  function FormatRelativeTime(date: int, now: int): (r: Elapsed)
    ensures r == JustNow <==> now - date < MinuteMs
    ensures r.MinutesAgo? <==> MinuteMs <= now - date < HourMs
    ensures r.MinutesAgo? ==> 1 <= r.minutes < 60 && r.minutes * MinuteMs <= now - date < (r.minutes + 1) * MinuteMs
    ensures r.HoursAgo? <==> HourMs <= now - date < DayMs
    ensures r.HoursAgo? ==> 1 <= r.hours < 24 && r.hours * HourMs <= now - date < (r.hours + 1) * HourMs
    ensures r == Yesterday <==> DayMs <= now - date < 2 * DayMs
    ensures r.DaysAgo? <==> 2 * DayMs <= now - date < 7 * DayMs
    ensures r.DaysAgo? ==> 2 <= r.days < 7 && r.days * DayMs <= now - date < (r.days + 1) * DayMs
    ensures r == OnDate <==> now - date >= 7 * DayMs
  {
    var diffMs := now - date;
    var diffMins := diffMs / MinuteMs;
    var diffHours := diffMs / HourMs;
    var diffDays := diffMs / DayMs;
    if diffMins < 1 then JustNow
    else if diffMins < 60 then MinutesAgo(diffMins)
    else if diffHours < 24 then HoursAgo(diffHours)
    else if diffDays == 1 then Yesterday
    else if diffDays < 7 then DaysAgo(diffDays)
    else OnDate
  }
}
