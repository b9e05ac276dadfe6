/** Instants and wall-clock times. An instant is an integer count of
    milliseconds, as JavaScript's `Date.getTime()` gives; a time of day is a
    count of minutes since midnight, written as date-fns' 'HH:mm'. */
module Clock {
  import opened Wrappers

  const MinuteMs: int := 60 * 1000
  const HourMs: int := 60 * MinuteMs
  const DayMs: int := 24 * HourMs
  const MinutesPerDay: int := 24 * 60

  predicate IsDigit(c: char) {
    '0' <= c <= '9'
  }

  function DigitChar(n: int): (c: char)
    requires 0 <= n < 10
    ensures IsDigit(c) && DigitValue(c) == n
  {
    ('0' as int + n) as char
  }

  function DigitValue(c: char): int
    requires IsDigit(c)
  {
    c as int - '0' as int
  }

  /** A number below 100 written with exactly two digits ("07"). */
  function TwoDigits(n: int): (s: string)
    requires 0 <= n < 100
    ensures |s| == 2 && IsDigit(s[0]) && IsDigit(s[1])
    ensures 10 * DigitValue(s[0]) + DigitValue(s[1]) == n
  {
    [DigitChar(n / 10), DigitChar(n % 10)]
  }

  /** date-fns `format(t, 'HH:mm')` of a time of day. */
  function FormatHHmm(minutes: int): (s: string)
    requires 0 <= minutes < MinutesPerDay
    ensures |s| == 5 && s[2] == ':'
  {
    TwoDigits(minutes / 60) + ":" + TwoDigits(minutes % 60)
  }

  /** Reads a strict 'HH:mm' time of day; `None` for anything else. */
  function ParseHHmm(s: string): (r: Option<int>)
    ensures r.Some? ==> 0 <= r.value < MinutesPerDay
  {
    if |s| == 5 && IsDigit(s[0]) && IsDigit(s[1]) && s[2] == ':' && IsDigit(s[3]) && IsDigit(s[4]) then
      var h := 10 * DigitValue(s[0]) + DigitValue(s[1]);
      var m := 10 * DigitValue(s[3]) + DigitValue(s[4]);
      if h < 24 && m < 60 then Some(60 * h + m) else None
    else None
  }

  lemma ParseFormatHHmm(minutes: int)
    requires 0 <= minutes < MinutesPerDay
    ensures ParseHHmm(FormatHHmm(minutes)) == Some(minutes)
  {
    var s := FormatHHmm(minutes);
    assert s[..2] == TwoDigits(minutes / 60);
    assert s[3..] == TwoDigits(minutes % 60);
  }

  lemma FormatParseHHmm(s: string)
    requires ParseHHmm(s).Some?
    ensures FormatHHmm(ParseHHmm(s).value) == s
  {
    var m := ParseHHmm(s).value;
    var t := FormatHHmm(m);
    assert t[0] == s[0] && t[1] == s[1] && t[3] == s[3] && t[4] == s[4];
  }

  /** The time of day, in minutes, of an instant on the day that starts at
      `dayStart`. */
  function MinuteOfDay(dayStart: int, t: int): (m: int)
    requires dayStart <= t < dayStart + DayMs
    ensures 0 <= m < MinutesPerDay
    ensures dayStart + m * MinuteMs <= t < dayStart + (m + 1) * MinuteMs
  {
    (t - dayStart) / MinuteMs
  }
}
