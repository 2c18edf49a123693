/**
 * The "new lesson" form of the teacher pages: the 12-hour picker, the
 * `scheduled_at` string sent to the server (an RFC 3339 section 5.6
 * `date-time` with the fixed Korean offset `+09:00`) and the submit handler.
 */
module NewLesson {
  import opened Wrappers
  import opened Text

  datatype Period = AM | PM

  /** `Array.from({ length: 12 }, (_, i) => i + 1)`: the hours the picker offers. */
  predicate IsPickerHour(h: int) { 1 <= h <= 12 }

  /** The minutes the picker offers. */
  const Minutes: seq<string> := ["00", "10", "20", "30", "40", "50"]

  /** The durations (in minutes) the picker offers. */
  const Durations: seq<int> := [30, 45, 60, 90, 120]

  /** The 24-hour clock hour for a picker hour. */
  function Hour24(period: Period, hour: int): int {
    if period == PM && hour != 12 then hour + 12
    else if period == AM && hour == 12 then 0
    else hour
  }

  /** The picker position showing a 24-hour clock hour. */
  function PickerOf(hour24: int): (r: (Period, int))
    requires 0 <= hour24 < 24
    ensures IsPickerHour(r.1)
  {
    (if hour24 >= 12 then PM else AM, if hour24 % 12 == 0 then 12 else hour24 % 12)
  }

  /** Every picker position maps into 0..23, afternoon exactly onto 12..23, and back to itself. */
  lemma Hour24RoundTrip(period: Period, hour: int)
    requires IsPickerHour(hour)
    ensures 0 <= Hour24(period, hour) < 24
    ensures (period == PM) <==> Hour24(period, hour) >= 12
    ensures PickerOf(Hour24(period, hour)) == (period, hour)
  {
  }

  /** Every hour of the day is shown by exactly one picker position. */
  lemma PickerOfRoundTrip(hour24: int)
    requires 0 <= hour24 < 24
    ensures Hour24(PickerOf(hour24).0, PickerOf(hour24).1) == hour24
  {
  }

  /** Different picker positions never give the same hour. */
  lemma Hour24Injective(p1: Period, h1: int, p2: Period, h2: int)
    requires IsPickerHour(h1) && IsPickerHour(h2)
    requires Hour24(p1, h1) == Hour24(p2, h2)
    ensures p1 == p2 && h1 == h2
  {
    Hour24RoundTrip(p1, h1);
    Hour24RoundTrip(p2, h2);
  }

  /** `${hour24.toString().padStart(2, '0')}:${minute}` */
  function TimeStr(hour24: nat, minute: string): string {
    PadStart2(NatToString(hour24)) + ":" + minute
  }

  /** `${date}T${timeStr}:00+09:00` */
  function ScheduledAt(date: string, timeStr: string): string {
    date + "T" + timeStr + ":00+09:00"
  }

  /** A two-digit hour is rendered as its two decimal digits. */
  lemma PaddedHour(hour24: nat)
    requires hour24 < 100
    ensures PadStart2(NatToString(hour24)) == [DigitChar(hour24 / 10), DigitChar(hour24 % 10)]
  {
    if hour24 >= 10 {
      assert NatToString(hour24) == NatToString(hour24 / 10) + [DigitChar(hour24 % 10)];
    }
  }

  /** Two decimal digits read back as the number they spell. */
  lemma TwoDigitValue(tens: nat, ones: nat)
    requires tens < 10 && ones < 10
    ensures DecimalValue([DigitChar(tens), DigitChar(ones)]) == tens * 10 + ones
  {
    var s := [DigitChar(tens), DigitChar(ones)];
    var t := [DigitChar(tens)];
    assert s[..1] == t && t[..0] == [];
    assert DecimalValue(t) == tens;
    assert DecimalValue(s) == DecimalValue(t) * 10 + ones;
  }

  /** `timeStr` spelled out character by character. */
  lemma TimeStrChars(hour24: nat, minute: string)
    requires hour24 < 24
    ensures TimeStr(hour24, minute) == [DigitChar(hour24 / 10), DigitChar(hour24 % 10), ':'] + minute
  {
    PaddedHour(hour24);
    ColonAfterTwo(PadStart2(NatToString(hour24)), DigitChar(hour24 / 10), DigitChar(hour24 % 10), minute);
  }

  lemma ColonAfterTwo(h: string, a: char, b: char, tail: string)
    requires h == [a, b]
    ensures h + ":" + tail == [a, b, ':'] + tail
  {
  }

  /** `timeStr` is `HH:MM`: two digits reading back as the hour, a colon, and the picked minute. */
  lemma TimeStrShape(hour24: nat, minute: string)
    requires hour24 < 24 && minute in Minutes
    ensures TimeStr(hour24, minute) == [DigitChar(hour24 / 10), DigitChar(hour24 % 10), ':'] + minute
    ensures |TimeStr(hour24, minute)| == 5
    ensures TimeStr(hour24, minute)[2] == ':' && TimeStr(hour24, minute)[3..] == minute
    ensures forall k :: 0 <= k < 2 ==> IsDigit(TimeStr(hour24, minute)[k])
    ensures DecimalValue(TimeStr(hour24, minute)[..2]) == hour24
  {
    assert |minute| == 2;
    TimeStrChars(hour24, minute);
    var t := TimeStr(hour24, minute);
    assert t[..2] == [DigitChar(hour24 / 10), DigitChar(hour24 % 10)];
    TwoDigitValue(hour24 / 10, hour24 % 10);
  }

  /** `scheduled_at` is the date, `T`, the time, then zero seconds and the `+09:00` offset. */
  lemma ScheduledAtShape(date: string, hour24: nat, minute: string)
    requires hour24 < 24 && minute in Minutes
    ensures |ScheduledAt(date, TimeStr(hour24, minute))| == |date| + 15
    ensures ScheduledAt(date, TimeStr(hour24, minute))[..|date|] == date
    ensures ScheduledAt(date, TimeStr(hour24, minute))[|date|] == 'T'
    ensures ScheduledAt(date, TimeStr(hour24, minute))[|date| + 1..|date| + 6] == TimeStr(hour24, minute)
    ensures ScheduledAt(date, TimeStr(hour24, minute))[|date| + 6..] == ":00+09:00"
  {
    TimeStrShape(hour24, minute);
  }

  /**
   * `s` is the `scheduled_at` of `date` at a 24-hour hour and picked minute:
   * the date, `T`, two digits reading back as the hour, a colon, the minute,
   * zero seconds and the `+09:00` offset.
   */
  ghost predicate IsScheduledAt(s: string, date: string, hour24: nat, minute: string) {
    && |s| == |date| + 15
    && s[..|date|] == date && s[|date|] == 'T'
    && IsDigit(s[|date| + 1]) && IsDigit(s[|date| + 2])
    && DecimalValue([s[|date| + 1], s[|date| + 2]]) == hour24
    && s[|date| + 3] == ':' && s[|date| + 4..|date| + 6] == minute
    && s[|date| + 6..] == ":00+09:00"
  }

  /** Any picked time gives a well-formed `scheduled_at`. */
  lemma ScheduledAtWellFormed(date: string, hour24: nat, minute: string)
    requires hour24 < 24 && minute in Minutes
    ensures IsScheduledAt(ScheduledAt(date, TimeStr(hour24, minute)), date, hour24, minute)
  {
    var t := TimeStr(hour24, minute);
    var s := ScheduledAt(date, t);
    ScheduledAtShape(date, hour24, minute);
    TimeStrShape(hour24, minute);
    assert s[|date| + 1..|date| + 6] == t;
    assert s[|date| + 1] == t[0] && s[|date| + 2] == t[1] && s[|date| + 3] == t[2];
    assert t[..2] == [t[0], t[1]];
    assert s[|date| + 4..|date| + 6] == t[3..];
  }

  /** The body of `POST /lessons`. */
  datatype LessonPayload = LessonPayload(studentId: string, title: string, scheduledAt: string, duration: int,
                                         location: string, notes: string)

  /** The state of the form and what it has done: the requests it sent and where it navigated. */
  class NewLessonForm {
    var selectedStudentId: string
    var duration: int
    var period: Period
    var hour: int
    var minute: string
    var isLoading: bool
    var sent: seq<LessonPayload>
    var route: Option<string>

    /** The pickers hold one of the values they offer. */
    ghost predicate Valid()
      reads this
    {
      duration in Durations && IsPickerHour(hour) && minute in Minutes
    }

    /** The initial state: 2 PM, :00, 60 minutes, no student. */
    constructor ()
      ensures Valid()
      ensures selectedStudentId == "" && duration == 60 && period == PM && hour == 2 && minute == "00"
      ensures !isLoading && sent == [] && route == None
    {
      selectedStudentId := "";
      duration := 60;
      period := PM;
      hour := 2;
      minute := "00";
      isLoading := false;
      sent := [];
      route := None;
    }

    /**
     * `handleSubmit`: without a student or a date nothing is sent; otherwise
     * the payload goes out once, and on success the page moves to the lesson
     * list.  Either way the form is no longer loading.
     */
    method HandleSubmit(date: Option<string>, title: Option<string>, location: Option<string>,
                        notes: Option<string>, postSucceeds: bool) returns (payload: Option<LessonPayload>)
      requires Valid()
      modifies this
      ensures Valid() && !isLoading
      ensures selectedStudentId == old(selectedStudentId) && duration == old(duration) && period == old(period)
      ensures hour == old(hour) && minute == old(minute)
      ensures selectedStudentId == "" || date.GetOr("") == "" ==> payload.None? && sent == old(sent) && route == old(route)
      ensures payload.Some? <==> selectedStudentId != "" && date.GetOr("") != ""
      ensures payload.Some? ==>
        && payload.value == LessonPayload(selectedStudentId, title.GetOr(""),
                                          ScheduledAt(date.value, TimeStr(Hour24(period, hour), minute)),
                                          duration, location.GetOr(""), notes.GetOr(""))
        && IsScheduledAt(payload.value.scheduledAt, date.value, Hour24(period, hour), minute)
        && sent == old(sent) + [payload.value]
        && route == (if postSucceeds then Some("/teacher/lessons") else old(route))
    {
      isLoading := true;
      if selectedStudentId == "" {
        isLoading := false;
        return None;
      }
      if date.GetOr("") == "" {
        isLoading := false;
        return None;
      }
      var hour24 := Hour24(period, hour);
      Hour24RoundTrip(period, hour);
      ScheduledAtWellFormed(date.value, hour24, minute);
      var timeStr := TimeStr(hour24, minute);
      var p := LessonPayload(selectedStudentId, title.GetOr(""), ScheduledAt(date.value, timeStr), duration,
                             location.GetOr(""), notes.GetOr(""));
      sent := sent + [p];
      if postSucceeds {
        route := Some("/teacher/lessons");
      }
      isLoading := false;
      payload := Some(p);
    }
  }
}
