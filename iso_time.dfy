/** The text `OffsetDateTime.toString` gives a time in UTC, and the order
    `String.compareTo` puts such texts in. A time is counted in milliseconds
    since the epoch, as `Instant.ofEpochMilli` counts it. */
module IsoTime {
  import opened Common

  const MillisPerDay := 86400000
  const MillisPerHour := 3600000
  const MillisPerMinute := 60000

  function Digit(d: int): char
    requires 0 <= d <= 9
  {
    "0123456789"[d]
  }

  /** The last two decimal digits of n, zero-padded. */
  function TwoDigits(n: int): string {
    [Digit(n / 10 % 10), Digit(n % 10)]
  }

  function ThreeDigits(n: int): string {
    [Digit(n / 100 % 10)] + TwoDigits(n)
  }

  function FourDigits(n: int): string {
    [Digit(n / 1000 % 10)] + ThreeDigits(n)
  }

  /** `LocalDate.toString` of a year: four digits at least, a sign for negative
      years and a plus for years past 9999. */
  function YearText(y: int): string {
    if y > 9999 then "+" + NatToDecimal(y)
    else if y >= 1000 then NatToDecimal(y)
    else if y >= 0 then FourDigits(y)
    else if y > -1000 then "-" + FourDigits(-y)
    else "-" + NatToDecimal(-y)
  }

  /** The proleptic Gregorian (year, month, day) of a day counted from
      1970-01-01. */
  function CivilFromDays(days: int): (int, int, int) {
    var z := days + 719468;
    var era := z / 146097;
    var doe := z - era * 146097;
    var yoe := (doe - doe / 1460 + doe / 36524 - doe / 146096) / 365;
    var doy := doe - (365 * yoe + yoe / 4 - yoe / 100);
    var mp := (5 * doy + 2) / 153;
    var d := doy - (153 * mp + 2) / 5 + 1;
    var m := if mp < 10 then mp + 3 else mp - 9;
    (yoe + era * 400 + (if m <= 2 then 1 else 0), m, d)
  }

  /** `LocalDate.toString`: year, month and day. */
  function DateText(days: int): string {
    var (y, m, d) := CivilFromDays(days);
    YearText(y) + "-" + TwoDigits(m) + "-" + TwoDigits(d)
  }

  /** `LocalTime.toString` of a millisecond of the day: hours and minutes
      always, then the seconds and the fraction when there are any. */
  function ClockText(ms: int): string {
    HourMinuteText(ms) + SecondsText(ms)
  }

  function HourMinuteText(ms: int): string {
    TwoDigits(ms / MillisPerHour) + ":" + TwoDigits(ms / MillisPerMinute % 60)
  }

  /** The seconds only when they or the fraction are not zero; the fraction, in
      milliseconds, only when it is not zero. */
  function SecondsText(ms: int): string {
    var second := ms / 1000 % 60;
    var milli := ms % 1000;
    if second > 0 || milli > 0 then ":" + TwoDigits(second) + (if milli > 0 then "." + ThreeDigits(milli) else "")
    else ""
  }

  /** `OffsetDateTime.toString` of a time at offset UTC. */
  function IsoText(t: int): string {
    DateText(t / MillisPerDay) + "T" + ClockText(t % MillisPerDay) + "Z"
  }

  /** `String.compareTo`: the difference of the first characters that differ,
      or else of the lengths. */
  function TextCompare(a: string, b: string): int {
    if a == [] || b == [] then |a| - |b|
    else if a[0] != b[0] then a[0] as int - b[0] as int
    else TextCompare(a[1..], b[1..])
  }

  /** Texts with a common start compare as what follows it. */
  lemma {:induction false} TextCompareCommonPrefix(p: string, x: string, y: string)
    ensures TextCompare(p + x, p + y) == TextCompare(x, y)
  {
    if p == [] {
      assert p + x == x && p + y == y;
    } else {
      TextCompareCommonPrefix(p[1..], x, y);
      assert (p + x)[0] == (p + y)[0] == p[0];
      assert (p + x)[1..] == p[1..] + x;
      assert (p + y)[1..] == p[1..] + y;
    }
  }

  /** A time splits into its day and its millisecond of the day. */
  lemma DayAndClock(t: int, day: int, ms: int)
    requires t == day * MillisPerDay + ms && 0 <= ms < MillisPerDay
    ensures t / MillisPerDay == day
    ensures t % MillisPerDay == ms
  {
  }

  /** A whole minute of the day leaves the seconds out; half a minute later
      they are written, after the same hour and minute. */
  lemma MinuteClock(ms: int)
    requires 0 <= ms < MillisPerDay - 30000 && ms % MillisPerMinute == 0
    ensures SecondsText(ms) == ""
    ensures SecondsText(ms + 30000) == ":30"
    ensures HourMinuteText(ms + 30000) == HourMinuteText(ms)
  {
    MinuteArithmetic(ms, ms / MillisPerMinute);
    assert TwoDigits(30) == "30";
  }

  /** The fields of a whole minute, and of half a minute later. */
  lemma MinuteArithmetic(ms: int, k: int)
    requires ms == k * MillisPerMinute
    ensures ms / 1000 % 60 == 0 && ms % 1000 == 0
    ensures (ms + 30000) / 1000 % 60 == 30 && (ms + 30000) % 1000 == 0
    ensures (ms + 30000) / MillisPerMinute == k && (ms + 30000) / MillisPerHour == ms / MillisPerHour
  {
    assert ms / 1000 == k * 60 && (ms + 30000) / 1000 == k * 60 + 30;
    var h := k / 60;
    assert ms == h * MillisPerHour + k % 60 * MillisPerMinute;
    HourAndRest(ms, h, k % 60 * MillisPerMinute);
    HourAndRest(ms + 30000, h, k % 60 * MillisPerMinute + 30000);
  }

  /** A millisecond of the day splits into its hour and the rest. */
  lemma HourAndRest(ms: int, hour: int, rest: int)
    requires ms == hour * MillisPerHour + rest && 0 <= rest < MillisPerHour
    ensures ms / MillisPerHour == hour
  {
  }

  /** The texts of a whole minute and of half a minute later: the first leaves
      the seconds out, the second writes them, after the same date, hour and
      minute. */
  lemma MinuteTexts(t: int, day: int, ms: int)
    requires t == day * MillisPerDay + ms
    requires 0 <= ms < MillisPerDay - 30000 && ms % MillisPerMinute == 0
    ensures IsoText(t) == DateText(day) + "T" + HourMinuteText(ms) + "Z"
    ensures IsoText(t + 30000) == DateText(day) + "T" + HourMinuteText(ms) + ":30Z"
  {
    DayAndClock(t, day, ms);
    DayAndClock(t + 30000, day, ms + 30000);
    MinuteClock(ms);
    assert ClockText(ms) == HourMinuteText(ms);
    assert ClockText(ms + 30000) == HourMinuteText(ms) + ":30";
  }

  /** Half a minute after a whole minute, the later time has the smaller text:
      ':' sorts before 'Z'. */
  lemma LaterTextSortsFirst(t: int)
    requires t % MillisPerMinute == 0
    ensures TextCompare(IsoText(t + 30000), IsoText(t)) < 0
  {
    var day := t / MillisPerDay;
    var ms := t % MillisPerDay;
    assert ms % MillisPerMinute == 0 by {
      var k := t / MillisPerMinute;
      assert t == day * MillisPerDay + ms;
      assert ms == (k - day * 1440) * MillisPerMinute;
    }
    MinuteTexts(t, day, ms);
    TextCompareCommonPrefix(DateText(day) + "T" + HourMinuteText(ms), ":30Z", "Z");
  }
}
