/** Time and duration texts: the two `dayjs` formats the timeline uses,
    `buildTimeInfo` and `formatDuration`. */
module Format {
  import opened Wrappers
  import opened Digits

  // ---------------------------------------------------------------------------
  // Moments

  type Month = m: nat | 1 <= m <= 12 witness 1
  type Day = d: nat | 1 <= d <= 31 witness 1
  type Hour = h: nat | h < 24
  type Minute = m: nat | m < 60

  /** What `dayjs(text)` yields: an invalid date, or an instant (milliseconds
      since the epoch) together with its reading on the local calendar and
      clock. */
  datatype Moment =
    | Invalid
    | Valid(millis: int, year: nat, month: Month, day: Day, hour: Hour, minute: Minute)

  /** A timestamp string of the input together with what `dayjs` makes of it.
      Parsing and the time zone belong to `dayjs` and are given, not modelled. */
  datatype Stamp = Stamp(text: string, moment: Moment)

  /** What `format` prints for an invalid date. */
  const InvalidDate := "Invalid Date"

  /** Two-digit zero-padded rendering, as `HH`, `mm`, `MM` and `DD` print. */
  function Pad2(n: nat): (s: string)
    requires n < 100
    ensures |s| == 2 && AllDigits(s) && DigitsValue(s) == n
  {
    var s := [DigitChar(n / 10), DigitChar(n % 10)];
    assert s[..1] == [s[0]] && [s[0]][..0] == [];
    assert DigitsValue([s[0]]) == n / 10;
    s
  }

  lemma DigitsValueAppend2(a: string, b: string)
    requires AllDigits(a) && AllDigits(b) && |b| == 2
    ensures AllDigits(a + b)
    ensures DigitsValue(a + b) == 100 * DigitsValue(a) + DigitsValue(b)
  {
    var s := a + b;
    var a0 := a + [b[0]];
    assert s[..|s| - 1] == a0 && s[|s| - 1] == b[1];
    assert a0[..|a0| - 1] == a && a0[|a0| - 1] == b[0];
    assert DigitsValue(a0) == 10 * DigitsValue(a) + DigitValue(b[0]);
    assert b[..1] == [b[0]] && [b[0]][..0] == [];
    assert DigitsValue([b[0]]) == DigitValue(b[0]);
    assert DigitsValue(b) == 10 * DigitValue(b[0]) + DigitValue(b[1]);
  }

  /** `YYYY`: the year padded to four digits, or all its digits past 9999. */
  function YearText(y: nat): (s: string)
    ensures AllDigits(s) && DigitsValue(s) == y
    ensures y < 10000 ==> |s| == 4
  {
    if y < 10000 then
      var s := Pad2(y / 100) + Pad2(y % 100);
      DigitsValueAppend2(Pad2(y / 100), Pad2(y % 100));
      s
    else NatToString(y)
  }

  /** `format("HH:mm")`. */
  function ClockText(m: Moment): (s: string)
    ensures m.Invalid? ==> s == InvalidDate
    ensures m.Valid? ==> |s| == 5 && s[2] == ':'
  {
    match m
    case Invalid => InvalidDate
    case Valid(_, _, _, _, hour, minute) => Pad2(hour) + ([':'] + Pad2(minute))
  }

  /** `format("YYYY-MM-DD")`. */
  function DayText(m: Moment): (s: string)
    ensures m.Invalid? ==> s == InvalidDate
    ensures m.Valid? && m.year < 10000 ==> |s| == 10 && s[4] == '-' && s[7] == '-'
  {
    match m
    case Invalid => InvalidDate
    case Valid(_, year, month, day, _, _) =>
      YearText(year) + (['-'] + (Pad2(month) + (['-'] + Pad2(day))))
  }

  /** The clock text reads back to the hour and the minute. */
  lemma ClockTextFields(m: Moment)
    requires m.Valid?
    ensures var s := ClockText(m);
      AllDigits(s[..2]) && AllDigits(s[3..])
      && DigitsValue(s[..2]) == m.hour && DigitsValue(s[3..]) == m.minute
  {
    var s := ClockText(m);
    assert s[..2] == Pad2(m.hour);
    assert s[3..] == Pad2(m.minute);
  }

  lemma DayTextSlices(s: string, y: string, mo: string, d: string)
    requires s == y + (['-'] + (mo + (['-'] + d)))
    requires |y| == 4 && |mo| == 2 && |d| == 2
    ensures s[..4] == y && s[5..7] == mo && s[8..] == d
  {
  }

  /** The day text of a year below 10000 reads back to year, month and day. */
  lemma DayTextFields(m: Moment)
    requires m.Valid? && m.year < 10000
    ensures var s := DayText(m);
      AllDigits(s[..4]) && AllDigits(s[5..7]) && AllDigits(s[8..])
      && DigitsValue(s[..4]) == m.year && DigitsValue(s[5..7]) == m.month
      && DigitsValue(s[8..]) == m.day
  {
    DayTextSlices(DayText(m), YearText(m.year), Pad2(m.month), Pad2(m.day));
  }

  // ---------------------------------------------------------------------------
  // formatDuration

  const UnderAMinute := "1分未満"
  const HoursUnit := "時間"
  const MinutesUnit := "分"

  /** Whole minutes in a duration, rounded down (`Math.floor(ms / 60000)`). */
  function TotalMinutes(ms: int): int {
    ms / 60000
  }

  /** `formatDuration`: whole minutes as hours and minutes, leaving out a zero
      part; below one minute a fixed text. */
  function FormatDuration(ms: int): (s: string)
    ensures TotalMinutes(ms) <= 0 <==> s == UnderAMinute
  {
    var total := TotalMinutes(ms);
    if total <= 0 then UnderAMinute else HoursAndMinutes(total)
  }

  /** A positive number of minutes as `<h>時間<m>分`, `<h>時間` or `<m>分`. */
  function HoursAndMinutes(total: nat): (s: string)
    requires total > 0
    ensures s != UnderAMinute
  {
    var hours := total / 60;
    var minutes := total % 60;
    var s :=
      if hours > 0 && minutes > 0 then
        NatToString(hours) + (HoursUnit + (NatToString(minutes) + MinutesUnit))
      else if hours > 0 then NatToString(hours) + HoursUnit
      else NatToString(minutes) + MinutesUnit;
    assert s[|s| - 1] != UnderAMinute[|UnderAMinute| - 1];
    s
  }

  /** The numbers a duration text shows before `時間` and before `分`. */
  datatype DurationParts = DurationParts(hours: Option<nat>, minutes: Option<nat>)

  /** Reads the parts of `<h>時間<m>分`, `<h>時間` or `<m>分`. */
  function ReadParts(s: string): Option<DurationParts> {
    var h := DigitRun(s, 0);
    if h == 0 then None
    else
      var lead := DigitsValue(s[..h]);
      var rest := s[h..];
      if rest == MinutesUnit then Some(DurationParts(None, Some(lead)))
      else if rest == HoursUnit then Some(DurationParts(Some(lead), None))
      else if |rest| > 2 && rest[..2] == HoursUnit then
        var t := rest[2..];
        var m := DigitRun(t, 0);
        if m > 0 && t[m..] == MinutesUnit then Some(DurationParts(Some(lead), Some(DigitsValue(t[..m]))))
        else None
      else None
  }

  /** Reads a duration text back to whole minutes; the text for less than a
      minute reads as 0. */
  function ReadDuration(s: string): Option<nat> {
    if s == UnderAMinute then Some(0)
    else
      match ReadParts(s)
      case None => None
      case Some(p) => Some(60 * p.hours.GetOr(0) + p.minutes.GetOr(0))
  }

  /** After a run of digits `a` comes the text `u`, which starts with a non-digit. */
  lemma LeadRun(s: string, a: string, u: string)
    requires s == a + u && |a| > 0 && AllDigits(a) && |u| > 0 && !IsDigit(u[0])
    ensures DigitRun(s, 0) == |a| && s[..|a|] == a && s[|a|..] == u
  {
    DigitRunWhole(a, u);
  }

  lemma ReadMinutesOnly(s: string, m: nat)
    requires s == NatToString(m) + MinutesUnit
    ensures ReadParts(s) == Some(DurationParts(None, Some(m)))
  {
    LeadRun(s, NatToString(m), MinutesUnit);
  }

  lemma ReadHoursOnly(s: string, h: nat)
    requires s == NatToString(h) + HoursUnit
    ensures ReadParts(s) == Some(DurationParts(Some(h), None))
  {
    LeadRun(s, NatToString(h), HoursUnit);
  }

  lemma ReadHoursMinutes(s: string, h: nat, m: nat)
    requires s == NatToString(h) + (HoursUnit + (NatToString(m) + MinutesUnit))
    ensures ReadParts(s) == Some(DurationParts(Some(h), Some(m)))
  {
    var a, b := NatToString(h), NatToString(m);
    var t := b + MinutesUnit;
    LeadRun(s, a, HoursUnit + t);
    var rest := s[|a|..];
    assert rest[..2] == HoursUnit && rest[2..] == t;
    LeadRun(t, b, MinutesUnit);
  }

  /** Round trip: the text `formatDuration` prints reads back to the whole
      minutes of the duration, and to 0 below one minute. */
  lemma ReadFormatDuration(ms: int)
    ensures ReadDuration(FormatDuration(ms)) == Some(if ms < 60000 then 0 else ms / 60000)
  {
    if TotalMinutes(ms) > 0 {
      ReadHoursAndMinutes(TotalMinutes(ms));
    }
  }

  lemma ReadHoursAndMinutes(total: nat)
    requires total > 0
    ensures ReadDuration(HoursAndMinutes(total)) == Some(total)
  {
    DurationShape(total);
  }

  /** The shape of the text for a positive number of minutes: at least one
      part is shown, a zero part never is, the minutes shown are below 60,
      and hours × 60 + minutes is the total. */
  lemma DurationShape(total: nat)
    requires total > 0
    ensures ReadParts(HoursAndMinutes(total)).Some?
    ensures var p := ReadParts(HoursAndMinutes(total)).value;
      (p.hours.Some? || p.minutes.Some?)
      && (p.hours.Some? ==> p.hours.value > 0)
      && (p.minutes.Some? ==> 0 < p.minutes.value < 60)
      && 60 * p.hours.GetOr(0) + p.minutes.GetOr(0) == total
  {
    var hours, minutes := total / 60, total % 60;
    if hours > 0 && minutes > 0 {
      ReadHoursMinutes(HoursAndMinutes(total), hours, minutes);
    } else if hours > 0 {
      ReadHoursOnly(HoursAndMinutes(total), hours);
    } else {
      ReadMinutesOnly(HoursAndMinutes(total), minutes);
    }
  }

  /** Durations with the same whole minutes print the same text. */
  lemma FormatDurationByMinutes(a: int, b: int)
    requires TotalMinutes(a) == TotalMinutes(b)
    ensures FormatDuration(a) == FormatDuration(b)
  {
  }

  // ---------------------------------------------------------------------------
  // buildTimeInfo

  /** The time fields `buildTimeInfo` adds to every point of an item. */
  datatype TimeInfo = TimeInfo(
    startTime: Option<string>,
    endTime: Option<string>,
    timeRangeText: Option<string>,
    durationMs: Option<int>,
    durationText: Option<string>)

  /** The `dayjs` object `buildTimeInfo` builds for a timestamp: none for an
      absent or empty string. */
  function Parsed(t: Option<Stamp>): (r: Option<Moment>)
    ensures r.Some? <==> t.Some? && t.value.text != ""
  {
    if t.Some? && t.value.text != "" then Some(t.value.moment) else None
  }

  predicate IsValidMoment(m: Option<Moment>) {
    m.Some? && m.value.Valid?
  }

  function TextOf(t: Option<Stamp>): Option<string> {
    if t.Some? then Some(t.value.text) else None
  }

  /** `buildTimeInfo`. */
  function BuildTimeInfo(startTime: Option<Stamp>, endTime: Option<Stamp>): (r: TimeInfo)
    ensures r.startTime == TextOf(startTime) && r.endTime == TextOf(endTime)
    ensures r.timeRangeText.Some? <==> IsValidMoment(Parsed(startTime))
    ensures r.durationMs.Some? <==> IsValidMoment(Parsed(startTime)) && IsValidMoment(Parsed(endTime))
    ensures r.durationMs.Some? ==>
      r.durationMs.value >= 0
      && r.durationMs.value >= Parsed(endTime).value.millis - Parsed(startTime).value.millis
    ensures r.durationText.Some? <==> r.durationMs.Some?
  {
    var start := Parsed(startTime);
    var end := Parsed(endTime);
    var range :=
      if IsValidMoment(start) then
        Some(ClockText(start.value) + (if IsValidMoment(end) then " - " + ClockText(end.value) else ""))
      else None;
    var duration :=
      if IsValidMoment(start) && IsValidMoment(end) then
        Some(Max(end.value.millis - start.value.millis, 0))
      else None;
    TimeInfo(TextOf(startTime), TextOf(endTime), range,
             duration, if duration.Some? then Some(FormatDuration(duration.value)) else None)
  }

  function Max(a: int, b: int): int {
    if a >= b then a else b
  }

  /** The range text starts with the start clock and carries ` - ` and the
      end clock exactly when the end is valid too. */
  lemma TimeRangeShape(startTime: Option<Stamp>, endTime: Option<Stamp>)
    requires IsValidMoment(Parsed(startTime))
    ensures var t := BuildTimeInfo(startTime, endTime).timeRangeText.value;
      t[..5] == ClockText(Parsed(startTime).value)
      && (IsValidMoment(Parsed(endTime)) ==> |t| == 13 && t[5..8] == " - " && t[8..] == ClockText(Parsed(endTime).value))
      && (!IsValidMoment(Parsed(endTime)) ==> |t| == 5)
  {
  }

  /** The duration is the gap between the two instants, and 0 when the end
      comes first; its text reads back to its whole minutes. */
  lemma DurationMeaning(startTime: Option<Stamp>, endTime: Option<Stamp>)
    requires IsValidMoment(Parsed(startTime)) && IsValidMoment(Parsed(endTime))
    ensures var info := BuildTimeInfo(startTime, endTime);
      var gap := Parsed(endTime).value.millis - Parsed(startTime).value.millis;
      info.durationMs == Some(if gap > 0 then gap else 0)
      && ReadDuration(info.durationText.value) == Some(if gap < 60000 then 0 else gap / 60000)
  {
    var info := BuildTimeInfo(startTime, endTime);
    ReadFormatDuration(info.durationMs.value);
  }
}
