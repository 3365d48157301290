/**
 * Instants and times of day. An instant is an integer count of milliseconds since the
 * epoch, read in UTC (the server's zone); a day is the integer index of a UTC calendar day.
 * The texts the routes take apart are those `Date.prototype.toISOString` prints:
 * `<date>T<HH>:<MM>:<SS>.<mmm>Z`.
 */
module Clock {
  import opened Wrappers
  import opened Text
  import opened JsNumbers

  const SecondMs: nat := 1000
  const MinuteMs: nat := 60 * SecondMs
  const HourMs: nat := 60 * MinuteMs
  const DayMs: nat := 24 * HourMs
  /** The fixed six-hour shift the routes subtract to reach Managua time (UTC-6). */
  const ManaguaOffsetMs: nat := 6 * HourMs

  /** The instant whose UTC reading is Managua's wall clock at `now`: `now` less six hours. */
  function Managua(now: int): int
  {
    now - ManaguaOffsetMs
  }

  /** The UTC day an instant falls on: what the date part of its ISO text names. */
  function DayOf(t: int): int
  {
    t / DayMs
  }

  /** Midnight at the start of a day: `setHours(0, 0, 0, 0)`. */
  function StartOfDay(day: int): int
  {
    day * DayMs
  }

  /** The milliseconds elapsed since midnight. */
  function MsOfDay(t: int): (r: nat)
    ensures r < DayMs
  {
    t % DayMs
  }

  /** An instant is the start of its day plus the milliseconds elapsed since. */
  lemma MsOfDaySplit(t: int)
    ensures t == StartOfDay(DayOf(t)) + MsOfDay(t)
  {
  }

  lemma DayOfWithin(day: int, ms: int)
    requires 0 <= ms < DayMs
    ensures DayOf(StartOfDay(day) + ms) == day
    ensures MsOfDay(StartOfDay(day) + ms) == ms
  {
  }

  datatype TimeOfDay = TimeOfDay(hour: nat, minute: nat, second: nat, milli: nat) {
    predicate Valid()
    {
      hour < 24 && minute < 60 && second < 60 && milli < 1000
    }

    /** Minutes since midnight, seconds dropped: `HH * 60 + MM`. */
    function Minutes(): nat
    {
      hour * 60 + minute
    }
  }

  /** `getHours()`, `getMinutes()`, `getSeconds()`, `getMilliseconds()` of an instant. */
  function TimeOf(t: int): (c: TimeOfDay)
    ensures c.Valid()
  {
    var ms := MsOfDay(t);
    TimeOfDay(ms / HourMs, ms / MinuteMs % 60, ms / SecondMs % 60, ms % SecondMs)
  }

  /** The clock reading of an instant adds up to the milliseconds elapsed since midnight. */
  lemma TimeOfSplit(t: int)
    ensures var c := TimeOf(t);
      c.hour * HourMs + c.minute * MinuteMs + c.second * SecondMs + c.milli == MsOfDay(t)
  {
    var ms := MsOfDay(t);
    assert ms / MinuteMs == (ms / HourMs) * 60 + ms / MinuteMs % 60;
    assert ms / SecondMs == (ms / MinuteMs) * 60 + ms / SecondMs % 60;
  }

  /** The last millisecond of a day, `setHours(23, 59, 59, 999)`, reads as 23:59:59.999. */
  lemma EndOfDayTime(day: int)
    ensures TimeOf(StartOfDay(day) + DayMs - 1) == TimeOfDay(23, 59, 59, 999)
  {
    DayOfWithin(day, DayMs - 1);
  }

  /** `HH:MM:SS`, two digits each. */
  function FormatClock(c: TimeOfDay): (r: string)
    requires c.Valid()
    ensures |r| == 8
  {
    Pad2(c.hour) + ":" + Pad2(c.minute) + ":" + Pad2(c.second)
  }

  /** The texts that stand before the `T` of an ISO instant: digits, `-` and `+`. */
  predicate IsoDateShaped(date: string)
  {
    forall i :: 0 <= i < |date| ==> IsDigit(date[i]) || date[i] == '-' || date[i] == '+'
  }

  /** `toISOString()` of an instant whose date part reads `date` and whose time of day is `c`. */
  function IsoText(date: string, c: TimeOfDay): string
    requires c.Valid()
  {
    date + "T" + FormatClock(c) + "." + Pad3(c.milli) + "Z"
  }

  /** `extraerHora`: the piece after the `T`, cut at the `.`; `None` where the source would throw (no `T`). */
  function ExtractTime(iso: string): Option<string>
  {
    var pieces := Split(iso, 'T');
    if |pieces| < 2 then None else Some(Split(pieces[1], '.')[0])
  }

  /** `iso.split('T')[1].substring(0, 8)`, the formatting of the listing routes. */
  function IsoTimePrefix(iso: string): Option<string>
  {
    var pieces := Split(iso, 'T');
    if |pieces| < 2 then None
    else if |pieces[1]| <= 8 then Some(pieces[1])
    else Some(pieces[1][..8])
  }

  /** `text.split(':').map(Number)`, then `HH * 60 + MM`; `None` stands for `NaN`. */
  function ClockMinutes(text: string): Option<int>
  {
    var fields := Split(text, ':');
    if |fields| < 2 then None
    else
      match (Number(fields[0]), Number(fields[1]))
      case (Some(h), Some(m)) => Some(h * 60 + m)
      case _ => None
  }

  /** The text the evaluation shows for an instant's time: `extraerHora(new Date(t))`. */
  function TimeText(t: int): (r: string)
    ensures |r| == 8
  {
    FormatClock(TimeOf(t))
  }

  /** Where the three fields and the two colons of an `HH:MM:SS` text lie. */
  lemma FormatClockFields(c: TimeOfDay)
    requires c.Valid()
    ensures var r := FormatClock(c);
      && r[2] == ':' && r[5] == ':'
      && r[..2] == Pad2(c.hour) && r[3..5] == Pad2(c.minute) && r[6..] == Pad2(c.second)
  {
    var r := FormatClock(c);
    assert r == Pad2(c.hour) + ":" + Pad2(c.minute) + ":" + Pad2(c.second);
    assert r[..2] == Pad2(c.hour);
    assert r[3..5] == Pad2(c.minute);
    assert r[6..] == Pad2(c.second);
  }

  lemma FormatClockChars(c: TimeOfDay)
    requires c.Valid()
    ensures forall i :: 0 <= i < 8 ==> IsDigit(FormatClock(c)[i]) || FormatClock(c)[i] == ':'
  {
  }

  lemma IsoTail(date: string, c: TimeOfDay)
    requires c.Valid() && IsoDateShaped(date)
    ensures Split(IsoText(date, c), 'T') == [date, FormatClock(c) + "." + Pad3(c.milli) + "Z"]
  {
    var tail := FormatClock(c) + "." + Pad3(c.milli) + "Z";
    assert IsoText(date, c) == date + ['T'] + tail;
    assert forall i :: 0 <= i < |date| ==> date[i] != 'T';
    FormatClockChars(c);
    assert forall i :: 0 <= i < 8 ==> tail[i] == FormatClock(c)[i];
    assert forall i :: 9 <= i < 12 ==> tail[i] == Pad3(c.milli)[i - 9];
    assert forall i :: 0 <= i < |tail| ==> tail[i] != 'T';
    SplitAt(date, 'T', tail);
    SplitWithout(tail, 'T');
  }

  /** `extraerHora` of an ISO instant is its `HH:MM:SS`. */
  lemma ExtractTimeOfIso(date: string, c: TimeOfDay)
    requires c.Valid() && IsoDateShaped(date)
    ensures ExtractTime(IsoText(date, c)) == Some(FormatClock(c))
  {
    IsoTail(date, c);
    FormatClockChars(c);
    var hms := FormatClock(c);
    assert forall i :: 0 <= i < |hms| ==> hms[i] != '.';
    assert hms + "." + Pad3(c.milli) + "Z" == hms + ['.'] + (Pad3(c.milli) + "Z");
    SplitAt(hms, '.', Pad3(c.milli) + "Z");
  }

  /** The first eight characters after the `T` of an ISO instant are its `HH:MM:SS` too. */
  lemma IsoTimePrefixOfIso(date: string, c: TimeOfDay)
    requires c.Valid() && IsoDateShaped(date)
    ensures IsoTimePrefix(IsoText(date, c)) == Some(FormatClock(c))
  {
    IsoTail(date, c);
    var tail := FormatClock(c) + "." + Pad3(c.milli) + "Z";
    assert tail[..8] == FormatClock(c);
  }

  /** Two clock fields whose `Number` values are known give `HH * 60 + MM`. */
  lemma ClockMinutesOfFields(text: string, h: nat, m: nat)
    requires |Split(text, ':')| >= 2
    requires Number(Split(text, ':')[0]) == Some(h) && Number(Split(text, ':')[1]) == Some(m)
    ensures ClockMinutes(text) == Some(h * 60 + m)
  {
  }

  /** The fields of `HH:MM` followed by nothing or by a further `:` field. */
  lemma HourMinuteFields(h: nat, m: nat, rest: string)
    requires h < 100 && m < 100
    requires rest == [] || rest[0] == ':'
    ensures var fields := Split(Pad2(h) + ":" + Pad2(m) + rest, ':');
      |fields| >= 2 && fields[0] == Pad2(h) && fields[1] == Pad2(m)
  {
    var text := Pad2(h) + [':'] + (Pad2(m) + rest);
    assert Pad2(h) + ":" + Pad2(m) + rest == text;
    assert ':' !in Pad2(h) && ':' !in Pad2(m);
    SplitAt(Pad2(h), ':', Pad2(m) + rest);
    if rest == [] {
      SplitWithout(Pad2(m), ':');
      assert Pad2(m) + rest == Pad2(m);
    } else {
      assert Pad2(m) + rest == Pad2(m) + [':'] + rest[1..];
      SplitAt(Pad2(m), ':', rest[1..]);
    }
  }

  /** Reading `HH:MM` back gives the minutes since midnight. */
  lemma ClockMinutesOfHourMinute(h: nat, m: nat, rest: string)
    requires h < 100 && m < 100
    requires rest == [] || rest[0] == ':'
    ensures ClockMinutes(Pad2(h) + ":" + Pad2(m) + rest) == Some(h * 60 + m)
  {
    HourMinuteFields(h, m, rest);
    Pad2Value(h);
    Pad2Value(m);
    NumberDigits(Pad2(h));
    NumberDigits(Pad2(m));
    ClockMinutesOfFields(Pad2(h) + ":" + Pad2(m) + rest, h, m);
  }

  /** An `HH:` with no minutes reads as the whole hour: the empty minute field is `Number("")`, 0. */
  lemma ClockMinutesOfHourOnly(h: nat)
    requires h < 100
    ensures ClockMinutes(Pad2(h) + ":") == Some(h * 60)
  {
    assert ':' !in Pad2(h);
    assert Pad2(h) + ":" == Pad2(h) + [':'] + "";
    SplitAt(Pad2(h), ':', "");
    Pad2Value(h);
    NumberDigits(Pad2(h));
    NumberBlank("");
    ClockMinutesOfFields(Pad2(h) + ":", h, 0);
  }

  /** Reading the `HH:MM:SS` of a time gives its minutes since midnight: the seconds are ignored. */
  lemma ClockMinutesOfFormat(c: TimeOfDay)
    requires c.Valid()
    ensures ClockMinutes(FormatClock(c)) == Some(c.Minutes())
  {
    assert FormatClock(c) == Pad2(c.hour) + ":" + Pad2(c.minute) + (":" + Pad2(c.second));
    ClockMinutesOfHourMinute(c.hour, c.minute, ":" + Pad2(c.second));
  }

  /** The minutes since midnight the evaluation reads from an instant. */
  lemma TimeTextMinutes(t: int)
    ensures ClockMinutes(TimeText(t)) == Some(TimeOf(t).Minutes())
  {
    ClockMinutesOfFormat(TimeOf(t));
  }
}
