/** Time as integer milliseconds since the epoch, JavaScript's Date range, and
    `Date.prototype.toISOString`. */
module IsoTime {
  import opened JsText

  const SecondMs: int := 1000
  const MinuteMs: int := 60 * SecondMs
  const HourMs: int := 60 * MinuteMs
  const DayMs: int := 24 * HourMs

  /** A Date holds at most 100,000,000 days (8.64e15 ms) either side of the epoch;
      any other time value is an Invalid Date. */
  const MaxTimeMs: int := 100_000_000 * DayMs

  predicate ValidTime(t: int) {
    -MaxTimeMs <= t <= MaxTimeMs
  }

  /** The proleptic Gregorian (year, month, day) of the day numbered `z` (day 0 is 1970-01-01). */
  function CivilFromDays(z: int): (int, int, int) {
    var z' := z + 719468;
    var era := z' / 146097;
    var doe := z' - era * 146097;
    var yoe := (doe - doe / 1460 + doe / 36524 - doe / 146096) / 365;
    var doy := doe - (365 * yoe + yoe / 4 - yoe / 100);
    var mp := (5 * doy + 2) / 153;
    var d := doy - (153 * mp + 2) / 5 + 1;
    var m := if mp < 10 then mp + 3 else mp - 9;
    (yoe + era * 400 + (if m <= 2 then 1 else 0), m, d)
  }

  /** The last `w` decimal digits of `n`, zero-padded. */
  function Pad(n: int, w: nat): (r: string)
    ensures |r| == w && AllDigits(r)
    decreases w
  {
    if w == 0 then "" else Pad(n / 10, w - 1) + [('0' as int + n % 10) as char]
  }

  /** The year as `toISOString` writes it: four digits within 0..9999, otherwise a sign
      and six digits. */
  function YearText(y: int): string {
    if 0 <= y <= 9999 then Pad(y, 4)
    else (if y < 0 then "-" else "+") + Pad(if y < 0 then -y else y, 6)
  }

  /** The milliseconds elapsed since midnight UTC of the day holding `t`. */
  function MsOfDay(t: int): (r: int)
    ensures 0 <= r < DayMs
  {
    t % DayMs
  }

  /** `YYYY-MM-DD`: the UTC calendar date of `t`. */
  function DateText(t: int): string {
    FormatDate(CivilFromDays(t / DayMs))
  }

  function FormatDate(ymd: (int, int, int)): string {
    YearText(ymd.0) + "-" + Pad(ymd.1, 2) + "-" + Pad(ymd.2, 2)
  }

  /** `YYYY-MM-DDTHH`: the part of the ISO text up to its first colon. */
  function DateHourPrefix(t: int): string {
    DateText(t) + "T" + HourText(MsOfDay(t))
  }

  /** `HH`, `mm` and `ss.sssZ` for a time of day given in milliseconds since midnight. */
  function HourText(ms: int): string {
    Pad(ms / HourMs, 2)
  }

  function MinuteText(ms: int): string {
    Pad(ms % HourMs / MinuteMs, 2)
  }

  function SecondsSuffix(ms: int): string {
    Pad(ms % MinuteMs / SecondMs, 2) + "." + Pad(ms % SecondMs, 3) + "Z"
  }

  /** `new Date(t).toISOString()`, defined only for valid dates (it throws a RangeError otherwise). */
  function IsoString(t: int): string
    requires ValidTime(t)
  {
    DateHourPrefix(t) + ":" + MinuteText(MsOfDay(t)) + ":" + SecondsSuffix(MsOfDay(t))
  }

  lemma DigitsColonFree(s: string)
    requires AllDigits(s)
    ensures ':' !in s
  {
    assert forall i :: 0 <= i < |s| ==> s[i] != ':';
  }

  lemma DateTextColonFree(t: int)
    ensures ':' !in DateText(t)
  {
    var ymd := CivilFromDays(t / DayMs);
    assert DateText(t) == FormatDate(ymd);
    var y := ymd.0;
    if 0 <= y <= 9999 {
      DigitsColonFree(Pad(y, 4));
    } else {
      DigitsColonFree(Pad(if y < 0 then -y else y, 6));
    }
    DigitsColonFree(Pad(ymd.1, 2));
    DigitsColonFree(Pad(ymd.2, 2));
  }

  /** The ISO text has exactly two colons: it is the join, on `:`, of three colon-free fields,
      the first of which is the date and the hour. */
  lemma IsoFields(t: int)
    requires ValidTime(t)
    ensures var fields := [DateHourPrefix(t), MinuteText(MsOfDay(t)), SecondsSuffix(MsOfDay(t))];
            && IsoString(t) == Join(fields, ':')
            && forall k :: 0 <= k < |fields| ==> ':' !in fields[k]
  {
    var ms := MsOfDay(t);
    var date, hh, mm := DateText(t), Pad(ms / HourMs, 2), Pad(ms % HourMs / MinuteMs, 2);
    var ss, sss := Pad(ms % MinuteMs / SecondMs, 2), Pad(ms % SecondMs, 3);
    DateTextColonFree(t);
    DigitsColonFree(hh);
    DigitsColonFree(mm);
    DigitsColonFree(ss);
    DigitsColonFree(sss);
    assert DateHourPrefix(t) == date + "T" + hh;
    assert SecondsSuffix(ms) == ss + "." + sss + "Z";
    assert ':' !in date + "T" + hh;
    assert ':' !in ss + "." + sss + "Z";
    JoinThree(DateHourPrefix(t), mm, SecondsSuffix(ms), ':');
  }

  lemma JoinThree(a: string, b: string, c: string, sep: char)
    ensures Join([a, b, c], sep) == a + [sep] + b + [sep] + c
  {
    assert [a, b, c][1..] == [b, c];
    assert [b, c][1..] == [c];
    assert Join([b, c], sep) == b + [sep] + c;
    assert Join([a, b, c], sep) == a + [sep] + (b + [sep] + c);
  }

  /** A worked example: 2024-01-01T16:00:00Z. */
  lemma IsoExample()
    ensures IsoString(1704124800000) == "2024-01-01T16:00:00.000Z"
    ensures DateHourPrefix(1704124800000) == "2024-01-01T16"
  {
    var t := 1704124800000;
    assert MsOfDay(t) == 57600000;
    DateExample();
    ClockExample();
    IsoOf(t, "2024-01-01", "16", "00", "00.000Z");
    ExampleText("2024-01-01", "16", "00", "00.000Z");
  }

  /** The ISO text from its parts. */
  lemma IsoOf(t: int, date: string, hh: string, mm: string, rest: string)
    requires ValidTime(t) && DateText(t) == date
    requires HourText(MsOfDay(t)) == hh && MinuteText(MsOfDay(t)) == mm && SecondsSuffix(MsOfDay(t)) == rest
    ensures IsoString(t) == date + "T" + hh + ":" + mm + ":" + rest
    ensures DateHourPrefix(t) == date + "T" + hh
  {
  }

  lemma ExampleText(date: string, hh: string, mm: string, rest: string)
    requires date == "2024-01-01" && hh == "16" && mm == "00" && rest == "00.000Z"
    ensures date + "T" + hh + ":" + mm + ":" + rest == "2024-01-01T16:00:00.000Z"
    ensures date + "T" + hh == "2024-01-01T16"
  {
  }

  lemma ClockExample()
    ensures HourText(57600000) == "16" && MinuteText(57600000) == "00"
    ensures SecondsSuffix(57600000) == "00.000Z"
  {
    assert 57600000 / HourMs == 16 && 57600000 % HourMs == 0 && 57600000 % MinuteMs == 0;
    assert Pad(16, 2) == "16" && Pad(0, 2) == "00" && Pad(0, 3) == "000";
  }

  lemma DateExample()
    ensures DateText(1704124800000) == "2024-01-01"
  {
    assert 1704124800000 / DayMs == 19723;
    CivilExample();
    FormatExample();
  }

  lemma FormatExample()
    ensures FormatDate((2024, 1, 1)) == "2024-01-01"
  {
    assert Pad(2, 1) == "2";
    assert Pad(20, 2) == "20";
    assert Pad(202, 3) == "202";
    assert YearText(2024) == "2024";
    assert Pad(1, 2) == "01";
  }

  lemma CivilExample()
    ensures CivilFromDays(19723) == (2024, 1, 1)
  {
    var z' := 19723 + 719468;
    assert z' / 146097 == 5;
    var doe := z' - 5 * 146097;
    assert doe == 8706;
    assert (doe - doe / 1460 + doe / 36524 - doe / 146096) / 365 == 23;
    assert 306 == doe - (365 * 23 + 23 / 4 - 23 / 100);
    assert (5 * 306 + 2) / 153 == 10;
  }
}
