/** The display formatters (src/utils/formatters.ts): a one-line summary of
    a medicine's schedule and the 12-hour rendering of an "HH:MM" time. */
module Formatters {
  import opened Wrappers
  import opened Text
  import opened MedicineTypes

  /** `formatMedicineSchedule(medicine)`. `renderDate` stands for
      `new Date(d).toLocaleDateString()`, which depends on the locale. Only
      the first alarm is looked at. */
  function FormatMedicineSchedule(m: Medicine, renderDate: string -> string): (r: string)
    ensures r != ""
  {
    match m.kind
    case OneTime =>
      "One time on " + (if |m.alarms| == 0 || m.alarms[0].time == "" then "schedule not set" else m.alarms[0].time)
    case Regular =>
      if |m.alarms| == 0 then "Schedule not set"
      else
        var first := m.alarms[0];
        var days := match first.days case None => "" case Some(ds) => Join(ds, ", ");
        first.time + " on " + (if days == "" then "every day" else days)
    case Course =>
      var start := if m.startDate.None? || m.startDate.value == "" then "undefined start" else renderDate(m.startDate.value);
      var end := if m.endDate.None? || m.endDate.value == "" then "undefined end" else renderDate(m.endDate.value);
      "Course: " + start + " to " + end
  }

  /** The summary sees only the kind, the dates and the first alarm: a
      second alarm never shows. */
  lemma ScheduleUsesFirstAlarmOnly(m: Medicine, extra: seq<Alarm>, renderDate: string -> string)
    requires |m.alarms| > 0
    ensures FormatMedicineSchedule(m.(alarms := m.alarms[..1] + extra), renderDate) == FormatMedicineSchedule(m, renderDate)
  {
  }

  /** The summary of each kind. A one-time medicine shows its first alarm's
      time, or "schedule not set" when there is no alarm or the time is
      empty. A regular medicine without alarms reads "Schedule not set";
      with alarms it starts with the first alarm's time (its days are
      `RegularScheduleDays`). A course shows its two dates, each rendered,
      or "undefined start" / "undefined end" when absent or empty, and never
      depends on the alarms. */
  lemma ScheduleShape(m: Medicine, renderDate: string -> string, otherAlarms: seq<Alarm>)
    ensures var r := FormatMedicineSchedule(m, renderDate);
      && (m.kind == OneTime && |m.alarms| > 0 && m.alarms[0].time != "" ==> r == "One time on " + m.alarms[0].time)
      && (m.kind == OneTime && (|m.alarms| == 0 || m.alarms[0].time == "") ==> r == "One time on schedule not set")
      && (m.kind == Regular && |m.alarms| > 0 ==> m.alarms[0].time + " on " <= r)
      && (m.kind == Regular && |m.alarms| == 0 ==> r == "Schedule not set")
    ensures var r := FormatMedicineSchedule(m, renderDate);
      var start := if m.startDate.Some? && m.startDate.value != "" then renderDate(m.startDate.value) else "undefined start";
      var end := if m.endDate.Some? && m.endDate.value != "" then renderDate(m.endDate.value) else "undefined end";
      m.kind == Course ==> r == "Course: " + start + " to " + end && FormatMedicineSchedule(m.(alarms := otherAlarms), renderDate) == r
  {
    var r := FormatMedicineSchedule(m, renderDate);
    if m.kind == Regular && |m.alarms| > 0 {
      var first := m.alarms[0];
      var days := match first.days case None => "" case Some(ds) => Join(ds, ", ");
      assert r == (first.time + " on ") + (if days == "" then "every day" else days);
    }
  }

  /** A regular medicine's first alarm with no days, an empty day list or a
      single empty name reads "every day" (the joined text is empty, hence
      falsy); any other day list is joined with ", ". */
  lemma RegularScheduleDays(m: Medicine, renderDate: string -> string)
    requires m.kind == Regular && |m.alarms| > 0
    ensures var days := m.alarms[0].days;
      days.None? || days == Some([]) || days == Some([""]) ==>
        FormatMedicineSchedule(m, renderDate) == m.alarms[0].time + " on every day"
    ensures var days := m.alarms[0].days;
      days.Some? && days.value != [] && days.value != [""] ==>
        FormatMedicineSchedule(m, renderDate) == m.alarms[0].time + " on " + Join(days.value, ", ")
  {
    if m.alarms[0].days.Some? {
      JoinIsEmptyIff(m.alarms[0].days.value, ", ");
    }
  }

  // ---------------------------------------------------------------------
  // formatTime
  // ---------------------------------------------------------------------

  /** The text before the first ':' (all of it when there is none): the
      first element of `split(':')`. */
  function FirstSegment(s: string): (r: string)
    ensures ':' !in r
  {
    if s == [] || s[0] == ':' then [] else [s[0]] + FirstSegment(s[1..])
  }

  /** The text after the first ':', if there is one. */
  function AfterFirstColon(s: string): Option<string> {
    if s == [] then None else if s[0] == ':' then Some(s[1..]) else AfterFirstColon(s[1..])
  }

  /** `formatTime(timeString)`: `[hours, minutes] = timeString.split(':')`,
      `hour = parseInt(hours, 10)`, `hour >= 12 ? 'PM' : 'AM'` and
      `hour % 12 || 12`. A missing minutes part prints as "undefined"; an
      hour that does not parse (NaN) is not `>= 12` and `NaN % 12` is falsy,
      so it prints as 12 AM. */
  function FormatTime(timeString: string): (r: string)
    ensures |r| >= 3 && (r[|r| - 3..] == " AM" || r[|r| - 3..] == " PM")
  {
    ClockText(ParseInt(FirstSegment(timeString)), SecondField(timeString))
  }

  /** `${hour12}:${minutes} ${amPm}` for the parsed hour (`None` is NaN). */
  function ClockText(hour: Option<int>, minutes: string): (r: string)
    ensures |r| >= 3 && (r[|r| - 3..] == " AM" || r[|r| - 3..] == " PM")
  {
    var amPm := if hour.Some? && hour.value >= 12 then "PM" else "AM";
    var hour12 := if hour.None? || TruncRem(hour.value, 12) == 0 then 12 else TruncRem(hour.value, 12);
    var head := IntToString(hour12) + ":" + minutes;
    Suffix(head, " " + amPm);
    head + (" " + amPm)
  }

  /** The second element of `split(':')`: the text between the first colon
      and the next one (or the end); `undefined` when there is no colon. */
  function SecondField(s: string): string {
    match AfterFirstColon(s) case Some(rest) => FirstSegment(rest) case None => "undefined"
  }

  /** The end of a concatenation is its second part. */
  lemma Suffix(a: string, b: string)
    ensures (a + b)[|a + b| - |b|..] == b
  {
  }

  /** The 12-hour clock face of a 24-hour hour, written case by case:
      midnight and noon are 12, the morning keeps its hour, the afternoon
      loses 12. */
  function Hour12(hour: nat): (h: nat)
    requires hour < 24
    ensures 1 <= h <= 12
  {
    if hour == 0 then 12 else if hour <= 12 then hour else hour - 12
  }

  /** The source's `hour % 12 || 12` agrees with the case-by-case clock
      face. */
  lemma Hour12IsRemainderOr12(hour: nat)
    requires hour < 24
    ensures (if TruncRem(hour, 12) == 0 then 12 else TruncRem(hour, 12)) == Hour12(hour)
  {
    if hour >= 12 {
      assert hour == 12 * 1 + (hour - 12);
    }
  }

  lemma {:induction false} SplitAtFirstColon(a: string, b: string)
    requires ':' !in a
    ensures FirstSegment(a + ":" + b) == a
    ensures AfterFirstColon(a + ":" + b) == Some(b)
    decreases |a|
  {
    if a != [] {
      assert (a + ":" + b)[1..] == a[1..] + ":" + b;
      SplitAtFirstColon(a[1..], b);
    }
  }

  lemma {:induction false} FirstSegmentWithoutColon(s: string)
    requires ':' !in s
    ensures FirstSegment(s) == s
    decreases |s|
  {
    if s != [] {
      FirstSegmentWithoutColon(s[1..]);
    }
  }

  /** `formatTime` on any text whose hour part reads as an hour of the day:
      the 12-hour clock face, then the second `split(':')` field (the text
      between the first and any second colon) or "undefined" when there is
      no colon, then " AM" exactly below noon. */
  lemma FormatTimeOfParsedHour(s: string, hour: nat)
    requires hour < 24 && ParseInt(FirstSegment(s)) == Some(hour)
    ensures AfterFirstColon(s).Some? ==>
      FormatTime(s) == NatToString(Hour12(hour)) + ":" + FirstSegment(AfterFirstColon(s).value) + " " + (if hour < 12 then "AM" else "PM")
    ensures AfterFirstColon(s).None? ==>
      FormatTime(s) == NatToString(Hour12(hour)) + ":" + "undefined" + " " + (if hour < 12 then "AM" else "PM")
  {
    ClockOfHour(hour, SecondField(s));
  }

  /** The clock text of an hour of the day. */
  lemma ClockOfHour(hour: nat, minutes: string)
    requires hour < 24
    ensures ClockText(Some(hour), minutes) == NatToString(Hour12(hour)) + ":" + minutes + " " + (if hour < 12 then "AM" else "PM")
  {
    Hour12IsRemainderOr12(hour);
  }

  /** On "HH:MM" with HH from 00 to 23, `formatTime` drops the leading zero
      of the hour, prints the hour on the 12-hour clock, copies the minutes
      and appends " AM" exactly when the hour is below 12. */
  lemma FormatTimeOfHHMM(hour: nat, minutes: string)
    requires hour < 24 && ':' !in minutes
    ensures FormatTime(TwoDigits(hour) + ":" + minutes) ==
      NatToString(Hour12(hour)) + ":" + minutes + " " + (if hour < 12 then "AM" else "PM")
  {
    var hh := TwoDigits(hour);
    TwoDigitsRoundTrip(hour);
    assert ':' !in hh by {
      forall i | 0 <= i < |hh| ensures hh[i] != ':' {
        assert IsDigit(hh[i]);
      }
    }
    SplitAtFirstColon(hh, minutes);
    FirstSegmentWithoutColon(minutes);
    ParseDigits(hh);
    FormatTimeOfParsedHour(hh + ":" + minutes, hour);
  }
}
