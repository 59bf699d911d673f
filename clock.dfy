/** The clock-time validator: the 24-hour "HH:MM" pattern
    ([01]\d|2[0-3]):[0-5]\d, matched against the whole string. */
module Clock {
  import opened Strings

  predicate IsDigit(c: char)
  {
    '0' <= c <= '9'
  }

  /** String.matches("([01]\\d|2[0-3]):[0-5]\\d"). */
  predicate IsValidTime(s: string)
  {
    |s| == 5 &&
    (((s[0] == '0' || s[0] == '1') && IsDigit(s[1])) || (s[0] == '2' && '0' <= s[1] <= '3')) &&
    s[2] == ':' &&
    '0' <= s[3] <= '5' && IsDigit(s[4])
  }

  function DigitValue(c: char): int
  {
    c as int - '0' as int
  }

  function DigitChar(d: nat): (c: char)
    requires d < 10
    ensures IsDigit(c) && DigitValue(c) == d
  {
    ('0' as int + d) as char
  }

  /** The zero-padded rendering of hour h and minute m. */
  function ClockString(h: nat, m: nat): (s: string)
    requires h < 24 && m < 60
  {
    [DigitChar(h / 10), DigitChar(h % 10), ':', DigitChar(m / 10), DigitChar(m % 10)]
  }

  function HourOf(s: string): int
    requires |s| == 5
  {
    10 * DigitValue(s[0]) + DigitValue(s[1])
  }

  function MinuteOf(s: string): int
    requires |s| == 5
  {
    10 * DigitValue(s[3]) + DigitValue(s[4])
  }

  function MinutesOfDay(s: string): int
    requires |s| == 5
  {
    60 * HourOf(s) + MinuteOf(s)
  }

  /** Every string the pattern accepts is the rendering of an hour 00-23
      and a minute 00-59 ... */
  lemma ValidTimeIsClockString(s: string)
    requires IsValidTime(s)
    ensures 0 <= HourOf(s) < 24 && 0 <= MinuteOf(s) < 60
    ensures s == ClockString(HourOf(s), MinuteOf(s))
  {
    var h, m := HourOf(s), MinuteOf(s);
    assert h / 10 == DigitValue(s[0]) && h % 10 == DigitValue(s[1]);
    assert m / 10 == DigitValue(s[3]) && m % 10 == DigitValue(s[4]);
  }

  /** ... and every such rendering is accepted, so the pattern holds
      exactly of the times 00:00 to 23:59. */
  lemma ClockStringIsValidTime(h: nat, m: nat)
    requires h < 24 && m < 60
    ensures IsValidTime(ClockString(h, m))
    ensures HourOf(ClockString(h, m)) == h && MinuteOf(ClockString(h, m)) == m
  {
  }

  /** On valid times, compareTo orders like the minutes since midnight
      (the comparison in the overlap test relies on this). */
  lemma ValidTimeCompare(a: string, b: string)
    requires IsValidTime(a) && IsValidTime(b)
    ensures CompareTo(a, b) < 0 <==> MinutesOfDay(a) < MinutesOfDay(b)
    ensures CompareTo(a, b) == 0 <==> MinutesOfDay(a) == MinutesOfDay(b)
  {
    assert CompareTo(a, b) == if a[0] != b[0] then a[0] as int - b[0] as int else CompareTo(a[1..], b[1..]);
    if a[0] == b[0] {
      assert CompareTo(a[1..], b[1..]) == if a[1] != b[1] then a[1] as int - b[1] as int else CompareTo(a[2..], b[2..]);
      if a[1] == b[1] {
        assert CompareTo(a[2..], b[2..]) == CompareTo(a[3..], b[3..]);
        assert CompareTo(a[3..], b[3..]) == if a[3] != b[3] then a[3] as int - b[3] as int else CompareTo(a[4..], b[4..]);
        if a[3] == b[3] {
          assert CompareTo(a[4..], b[4..]) == if a[4] != b[4] then a[4] as int - b[4] as int else CompareTo(a[5..], b[5..]);
          assert CompareTo(a[5..], b[5..]) == 0;
        }
      }
    }
  }
}
