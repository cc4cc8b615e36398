/**
 * The text of a .NET `TimeSpan` built from a whole number of milliseconds, in the
 * constant ("c") format that `TimeSpan.ToString()` uses: `[-][d.]hh:mm:ss[.fffffff]`,
 * and the eight-character clock the player shows, which is its first eight characters.
 */
module TimeText {

  /** .NET Framework's `TimeSpan.FromMilliseconds` throws an overflow exception from this magnitude on. */
  const MaxMilliseconds: int := 922_337_203_685_477

  const MillisecondsPerSecond: int := 1000
  const MillisecondsPerMinute: int := 60_000
  const MillisecondsPerHour: int := 3_600_000
  const MillisecondsPerDay: int := 86_400_000
  /** A tick is a tenth of a microsecond. */
  const TicksPerMillisecond: int := 10_000

  predicate Representable(ms: int)
  {
    -MaxMilliseconds < ms < MaxMilliseconds
  }

  function Digit(d: int): (c: char)
    requires 0 <= d < 10
    ensures '0' <= c <= '9'
  {
    ('0' as int + d) as char
  }

  function DigitValue(c: char): (d: int)
    requires '0' <= c <= '9'
    ensures 0 <= d < 10
  {
    c as int - '0' as int
  }

  lemma DigitRoundTrip(d: int)
    requires 0 <= d < 10
    ensures DigitValue(Digit(d)) == d
  {
  }

  /** Exactly `width` decimal digits of `n`, with leading zeros. */
  function Padded(n: nat, width: nat): (s: string)
    ensures |s| == width
    ensures forall i :: 0 <= i < |s| ==> '0' <= s[i] <= '9'
    decreases width
  {
    if width == 0 then [] else Padded(n / 10, width - 1) + [Digit(n % 10)]
  }

  /** The decimal digits of `n`, without leading zeros (`0` for zero). */
  function Decimal(n: nat): (s: string)
    ensures |s| >= 1
    ensures forall i :: 0 <= i < |s| ==> '0' <= s[i] <= '9'
  {
    if n < 10 then [Digit(n)] else Decimal(n / 10) + [Digit(n % 10)]
  }

  /** The value of a string of decimal digits. */
  function DigitsValue(s: string): (n: nat)
    requires forall i :: 0 <= i < |s| ==> '0' <= s[i] <= '9'
  {
    if |s| == 0 then 0 else 10 * DigitsValue(s[..|s| - 1]) + DigitValue(s[|s| - 1])
  }

  /** Two digits of padding read back as the number itself. */
  lemma PaddedTwoValue(n: nat)
    requires n < 100
    ensures DigitsValue(Padded(n, 2)) == n
  {
    var s := Padded(n, 2);
    var hi, lo := n / 10, n % 10;
    assert s == [Digit(hi), Digit(lo)];
    DigitRoundTrip(hi);
    DigitRoundTrip(lo);
    assert DigitsValue(s[..1]) == hi by {
      assert s[..1][..0] == [];
    }
    assert DigitsValue(s) == 10 * hi + lo;
  }

  /** The day count reads back as itself. */
  lemma {:induction false} DecimalValue(n: nat)
    ensures DigitsValue(Decimal(n)) == n
  {
    var s := Decimal(n);
    if n < 10 {
      assert s[..0] == [];
      DigitRoundTrip(n);
    } else {
      assert s[..|s| - 1] == Decimal(n / 10);
      DecimalValue(n / 10);
      DigitRoundTrip(n % 10);
    }
  }

  /** The parts of a span as the "c" format shows them. */
  datatype Parts = Parts(negative: bool, days: nat, hours: nat, minutes: nat, seconds: nat, ticks: nat)
  {
    predicate Valid()
    {
      hours < 24 && minutes < 60 && seconds < 60 && ticks < 10_000_000
    }
  }

  /**
   * The parts of `TimeSpan.FromMilliseconds(ms)`: the sign, and the days, hours, minutes,
   * seconds and sub-second ticks of its magnitude.
   */
  function SpanParts(ms: int): (p: Parts)
    requires Representable(ms)
    ensures p.Valid() && p.negative == (ms < 0)
  {
    var magnitude := if ms < 0 then -ms else ms;
    var time := magnitude % MillisecondsPerDay;
    Parts(ms < 0, magnitude / MillisecondsPerDay, time / MillisecondsPerHour,
          time / MillisecondsPerMinute % 60, time / MillisecondsPerSecond % 60,
          time % MillisecondsPerSecond * TicksPerMillisecond)
  }

  /** `hh:mm:ss`. */
  function Clock(hours: nat, minutes: nat, seconds: nat): (s: string)
    ensures |s| == 8 && s[2] == ':' && s[5] == ':'
    ensures s[0..2] == Padded(hours, 2) && s[3..5] == Padded(minutes, 2) && s[6..8] == Padded(seconds, 2)
  {
    Padded(hours, 2) + ":" + Padded(minutes, 2) + ":" + Padded(seconds, 2)
  }

  /**
   * The constant format: a minus sign for a negative span, the days and a dot when there
   * is at least one day, the clock, and the seven digits of ticks when the second is not
   * whole.
   */
  function Format(p: Parts): (s: string)
    ensures |s| >= 8
    ensures p.negative <==> s[0] == '-'
  {
    var s := SignText(p.negative) + (DaysText(p.days) + (Clock(p.hours, p.minutes, p.seconds) + FractionText(p.ticks)));
    assert !p.negative ==> s[0] == (DaysText(p.days) + Clock(p.hours, p.minutes, p.seconds))[0];
    s
  }

  function SignText(negative: bool): (s: string)
    ensures |s| <= 1 && (negative <==> |s| == 1) && (negative ==> s[0] == '-')
  {
    if negative then "-" else []
  }

  function DaysText(days: nat): (s: string)
    ensures days == 0 ==> s == []
    ensures days > 0 ==> s == Decimal(days) + "." && s[0] != '-'
  {
    if days > 0 then Decimal(days) + "." else []
  }

  function FractionText(ticks: nat): (s: string)
  {
    if ticks > 0 then "." + Padded(ticks, 7) else []
  }

  /** `TimeSpan.FromMilliseconds(ms).ToString()`. */
  function TimeSpanText(ms: int): (s: string)
    requires Representable(ms)
    ensures |s| >= 8
    ensures (ms < 0) <==> s[0] == '-'
  {
    Format(SpanParts(ms))
  }

  /** What the player shows: `Substring(0, 8)` of the span's text. */
  function ClockText(ms: int): (s: string)
    requires Representable(ms)
    ensures |s| == 8
  {
    TimeSpanText(ms)[..8]
  }

  /** An unsigned span of less than a day starts with its clock. */
  lemma FormatWithinDay(p: Parts)
    requires !p.negative && p.days == 0
    ensures Format(p)[..8] == Clock(p.hours, p.minutes, p.seconds)
  {
    var c := Clock(p.hours, p.minutes, p.seconds);
    assert Format(p) == c + FractionText(p.ticks);
  }

  /** Within a day, the clock is the zero-padded hours, minutes and seconds. */
  lemma ClockWithinDay(ms: int)
    requires 0 <= ms < MillisecondsPerDay
    ensures ClockText(ms)
         == Clock(ms / MillisecondsPerHour, ms / MillisecondsPerMinute % 60, ms / MillisecondsPerSecond % 60)
  {
    var p := SpanParts(ms);
    assert ms % MillisecondsPerDay == ms && ms / MillisecondsPerDay == 0;
    FormatWithinDay(p);
  }

  /** Reading back an `hh:mm:ss` clock. */
  function ParseClock(s: string): (seconds: int)
    requires |s| == 8 && s[2] == ':' && s[5] == ':'
    requires forall i :: 0 <= i < 8 && i != 2 && i != 5 ==> '0' <= s[i] <= '9'
  {
    DigitsValue(s[0..2]) * 3600 + DigitsValue(s[3..5]) * 60 + DigitsValue(s[6..8])
  }

  /** A clock of two-digit numbers is well formed and reads back as its seconds. */
  lemma ParseClockOf(hours: nat, minutes: nat, seconds: nat)
    requires hours < 100 && minutes < 100 && seconds < 100
    ensures var c := Clock(hours, minutes, seconds);
      && (forall i :: 0 <= i < 8 && i != 2 && i != 5 ==> '0' <= c[i] <= '9')
      && ParseClock(c) == hours * 3600 + minutes * 60 + seconds
  {
    var c := Clock(hours, minutes, seconds);
    assert forall i :: 0 <= i < 2 ==> c[i] == c[0..2][i] && c[3 + i] == c[3..5][i] && c[6 + i] == c[6..8][i];
    PaddedTwoValue(hours);
    PaddedTwoValue(minutes);
    PaddedTwoValue(seconds);
  }

  /** Within a day the clock loses only the milliseconds: it reads back as whole seconds. */
  lemma ClockRoundTrip(ms: int)
    requires 0 <= ms < MillisecondsPerDay
    ensures var c := ClockText(ms);
      && c[2] == ':' && c[5] == ':'
      && (forall i :: 0 <= i < 8 && i != 2 && i != 5 ==> '0' <= c[i] <= '9')
      && ParseClock(c) == ms / MillisecondsPerSecond
  {
    ClockWithinDay(ms);
    var h, m, sec := ms / MillisecondsPerHour, ms / MillisecondsPerMinute % 60, ms / MillisecondsPerSecond % 60;
    assert h < 24;
    ParseClockOf(h, m, sec);
    SecondsSplit(ms);
  }

  lemma SecondsSplit(ms: int)
    requires 0 <= ms < MillisecondsPerDay
    ensures (ms / MillisecondsPerHour) * 3600 + (ms / MillisecondsPerMinute % 60) * 60
            + ms / MillisecondsPerSecond % 60 == ms / MillisecondsPerSecond
  {
    var total := ms / 1000;
    assert ms / 60_000 == total / 60;
    assert ms / 3_600_000 == total / 3600;
    assert total / 3600 == (total / 60) / 60;
  }

  /** From one day on the clock shows the day count instead: 25 hours reads `1.01:00:`. */
  lemma ClockPastDay()
    ensures ClockText(90_000_000) == "1.01:00:"
  {
    var day := Parts(false, 1, 1, 0, 0, 0);
    assert SpanParts(90_000_000) == day;
    ExampleTexts();
    var t := Format(day);
    assert t == "1." + "01:00:00";
    assert t[..8] == "1.01:00:";
  }

  /** A negative span is signed: minus one second reads `-00:00:0`. */
  lemma ClockNegative()
    ensures ClockText(-1_000) == "-00:00:0"
  {
    var second := Parts(true, 0, 0, 0, 1, 0);
    assert SpanParts(-1_000) == second;
    ExampleTexts();
    var t := Format(second);
    assert t == "-" + "00:00:01";
    assert t[..8] == "-00:00:0";
  }

  lemma ExampleTexts()
    ensures Clock(1, 0, 0) == "01:00:00" && Clock(0, 0, 1) == "00:00:01"
    ensures DaysText(1) == "1." && SignText(true) == "-"
  {
    assert Padded(1, 2) == "01" && Padded(0, 2) == "00";
    assert Decimal(1) == "1";
  }

  /** A day or more: the text starts with the day count and a dot, not with the hours. */
  lemma DaysFirst(ms: int)
    requires MillisecondsPerDay <= ms < MaxMilliseconds
    ensures var d := Decimal(ms / MillisecondsPerDay);
      TimeSpanText(ms)[..|d| + 1] == d + "."
  {
    var p := SpanParts(ms);
    var rest := Clock(p.hours, p.minutes, p.seconds) + FractionText(p.ticks);
    assert Format(p) == DaysText(p.days) + rest;
  }
}
