/**
 * `JSTime`: millisecond time units and the formatting of a duration as a
 * short Russian string ("2д 3ч", "5ч 0мин", "1мин 30сек", "42сек").
 *
 * A duration in milliseconds is turned into a .NET `TimeSpan` of
 * `ms * 10000` ticks in 64-bit arithmetic; the string is then chosen from the
 * span's whole days, hours and minutes, whose components are computed with
 * C#'s truncating division. The lemmas at the end restate each branch in
 * milliseconds, for the durations where the tick count does not overflow.
 */
module JSTime {

  // ---------------------------------------------------------------------
  // Units

  /** Milliseconds in a second, minute, hour, day and week, and the zero duration. */
  const Second: int := 1000
  const Minute: int := Second * 60
  const Hour: int := Minute * 60
  const Day: int := Hour * 24
  const Week: int := Day * 7
  const ZeroTime: int := 0

  /** Each unit is a whole number of the next smaller one, and a positive number of milliseconds. */
  lemma UnitsNest()
    ensures 0 < Second < Minute < Hour < Day < Week
    ensures Minute % Second == 0 && Hour % Minute == 0 && Day % Hour == 0 && Week % Day == 0
    ensures Week / Day == 7 && Day / Hour == 24 && Hour / Minute == 60 && Minute / Second == 60
    ensures Week == 604_800_000
  {
  }

  // ---------------------------------------------------------------------
  // 64-bit integers and C# integer division

  const TwoTo63: int := 0x8000_0000_0000_0000

  /** `long`: a 64-bit signed integer. */
  type Long = x: int | -TwoTo63 <= x < TwoTo63

  /** The 64-bit two's complement result of an unchecked `long` operation whose exact value is `x`. */
  function Wrap64(x: int): (r: Long)
    ensures -TwoTo63 <= x < TwoTo63 ==> r == x
    ensures (r - x) % (2 * TwoTo63) == 0
  {
    (x + TwoTo63) % (2 * TwoTo63) - TwoTo63
  }

  /** C#'s `a / b` on integers: the quotient truncated toward zero. */
  function Quot(a: int, b: int): (q: int)
    requires b > 0
    ensures a >= 0 ==> q == a / b
    ensures a <= 0 ==> q <= 0
  {
    if a >= 0 then a / b else -((-a) / b)
  }

  /** C#'s `a % b` on integers: the remainder, which takes the sign of `a`. */
  function Rem(a: int, b: int): (r: int)
    requires b > 0
    ensures a >= 0 ==> r == a % b
    ensures a < 0 ==> -b < r <= 0
    ensures a == Quot(a, b) * b + r
  {
    a - Quot(a, b) * b
  }

  /** The size of an integer. */
  function IntAbs(x: int): (r: nat)
    ensures r == x || r == -x
  {
    if x < 0 then -x else x
  }

  /** A conversion `(int)x` of a double to an integer: the value truncated toward zero. */
  function Truncate(x: real): (n: int)
    ensures x >= 0.0 ==> n == x.Floor
    ensures x < 0.0 ==> n == -((-x).Floor)
    ensures IntAbs(n) as real <= (if x < 0.0 then -x else x) < IntAbs(n) as real + 1.0
  {
    if x >= 0.0 then x.Floor else -((-x).Floor)
  }

  // ---------------------------------------------------------------------
  // TimeSpan

  const TicksPerMillisecond: int := 10000
  const TicksPerSecond: int := TicksPerMillisecond * Second
  const TicksPerMinute: int := TicksPerMillisecond * Minute
  const TicksPerHour: int := TicksPerMillisecond * Hour
  const TicksPerDay: int := TicksPerMillisecond * Day

  /** A .NET `TimeSpan`: a signed 64-bit count of 100-nanosecond ticks. */
  datatype TimeSpan = TimeSpan(ticks: Long)
  {
    /** `TotalDays`: the span in days, fractions included. */
    function TotalDays(): (d: real)
      ensures d * TicksPerDay as real == ticks as real
    {
      ticks as real / TicksPerDay as real
    }

    /** `TotalHours`: the span in hours, fractions included. */
    function TotalHours(): (h: real)
      ensures h * TicksPerHour as real == ticks as real
    {
      ticks as real / TicksPerHour as real
    }

    /** `Hours`: the hours component, from -23 to 23. */
    function Hours(): (h: int)
      ensures -24 < h < 24
    {
      Rem(Quot(ticks, TicksPerHour), 24)
    }

    /** `Minutes`: the minutes component, from -59 to 59. */
    function Minutes(): (m: int)
      ensures -60 < m < 60
    {
      Rem(Quot(ticks, TicksPerMinute), 60)
    }

    /** `Seconds`: the seconds component, from -59 to 59. */
    function Seconds(): (s: int)
      ensures -60 < s < 60
    {
      Rem(Quot(ticks, TicksPerSecond), 60)
    }
  }

  /** `(int)span.TotalDays` and `(int)span.TotalHours` are the whole days and hours, truncated toward zero. */
  lemma TruncatedTotals(s: TimeSpan)
    ensures Truncate(s.TotalDays()) == Quot(s.ticks, TicksPerDay)
    ensures Truncate(s.TotalHours()) == Quot(s.ticks, TicksPerHour)
  {
    TruncatedQuotient(s.ticks, TicksPerDay);
    TruncatedQuotient(s.ticks, TicksPerHour);
  }

  /** Truncating the exact quotient of two integers is C#'s integer division. */
  lemma TruncatedQuotient(a: int, b: int)
    requires b > 0
    ensures Truncate(a as real / b as real) == Quot(a, b)
  {
    if a >= 0 {
      FloorOfQuotient(a, b);
    } else {
      FloorOfQuotient(-a, b);
      assert -(a as real / b as real) == (-a) as real / b as real;
    }
  }

  /** For a natural `n`, the floor of `n / b` over the reals is the integer quotient. */
  lemma FloorOfQuotient(n: nat, b: int)
    requires b > 0
    ensures (n as real / b as real).Floor == n / b
  {
    var q := n / b;
    assert q * b <= n < q * b + b;
    assert (q * b) as real == q as real * b as real;
    assert (q * b + b) as real == (q as real + 1.0) * b as real;
    QuotientFloor(n as real, b as real, q);
  }

  /** `q` is the floor of `x / y` when `q * y <= x < (q + 1) * y`. */
  lemma QuotientFloor(x: real, y: real, q: int)
    requires y > 0.0 && q as real * y <= x < (q as real + 1.0) * y
    ensures (x / y).Floor == q
  {
    var u := x / y;
    assert u * y == x;
    assert (u - q as real) * y == x - q as real * y;
    assert (q as real + 1.0 - u) * y == (q as real + 1.0) * y - x;
    FactorSign(u - q as real, y);
    FactorSign(q as real + 1.0 - u, y);
  }

  /** A product with a positive factor has the sign of the other factor. */
  lemma FactorSign(u: real, y: real)
    requires y > 0.0
    ensures u * y >= 0.0 ==> u >= 0.0
    ensures u * y > 0.0 ==> u > 0.0
  {
    if u < 0.0 {
      assert u * y < 0.0;
    }
  }

  // ---------------------------------------------------------------------
  // Numbers as text

  function Digit(d: int): char
    requires 0 <= d < 10
  {
    "0123456789"[d]
  }

  predicate IsDigit(c: char) {
    '0' <= c <= '9'
  }

  function DigitValue(c: char): int
    requires IsDigit(c)
  {
    c as int - '0' as int
  }

  /** The decimal digits of `n`, without leading zeros. */
  function NatToString(n: nat): (s: string)
    ensures |s| >= 1 && (forall i | 0 <= i < |s| :: IsDigit(s[i]))
    ensures n > 0 ==> s[0] != '0'
    ensures n < 10 <==> |s| == 1
  {
    if n < 10 then [Digit(n)] else NatToString(n / 10) + [Digit(n % 10)]
  }

  /** `int.ToString()`: a minus sign before the digits of a negative number. */
  function IntToString(n: int): (s: string)
    ensures |s| >= 1
    ensures n < 0 <==> s[0] == '-'
    ensures n >= 0 ==> IsDigit(s[0])
    ensures forall i | 1 <= i < |s| :: IsDigit(s[i])
  {
    if n < 0 then "-" + NatToString(-n) else NatToString(n)
  }

  /** The number a string of decimal digits spells. */
  function ParseNat(s: string): nat
    requires forall i | 0 <= i < |s| :: IsDigit(s[i])
  {
    if |s| == 0 then 0 else ParseNat(s[..|s| - 1]) * 10 + DigitValue(s[|s| - 1])
  }

  /** The number a string of digits spells, negative after a minus sign. */
  function ParseInt(s: string): int
    requires |s| >= 1
    requires forall i | 1 <= i < |s| :: IsDigit(s[i])
    requires s[0] == '-' || IsDigit(s[0])
  {
    if s[0] == '-' then -(ParseNat(s[1..]) as int) else ParseNat(s)
  }

  /** Reading back the digits of `n` gives `n`. */
  lemma {:induction false} ParseNatToString(n: nat)
    ensures ParseNat(NatToString(n)) == n
  {
    var s := NatToString(n);
    if n >= 10 {
      ParseNatToString(n / 10);
      assert s[..|s| - 1] == NatToString(n / 10);
    }
  }

  /** Reading back the text of `n` gives `n`: the text determines the number. */
  lemma IntToStringRoundTrip(n: int)
    ensures ParseInt(IntToString(n)) == n
  {
    var s := IntToString(n);
    if n < 0 {
      assert s == "-" + NatToString(-n);
      SignedRoundTrip(-n);
      assert ParseInt(s) == n;
    } else {
      assert s == NatToString(n) && s[0] != '-';
      assert ParseInt(s) == ParseNat(s);
      ParseNatToString(n);
    }
  }

  /** Reading back a minus sign and the digits of `k` gives `-k`. */
  lemma SignedRoundTrip(k: nat)
    ensures ParseInt("-" + NatToString(k)) == -(k as int)
  {
    var t := NatToString(k);
    assert ("-" + t)[1..] == t;
    ParseNatToString(k);
  }

  /** Different numbers have different texts. */
  lemma IntToStringInjective(a: int, b: int)
    requires IntToString(a) == IntToString(b)
    ensures a == b
  {
    IntToStringRoundTrip(a);
    IntToStringRoundTrip(b);
  }

  // ---------------------------------------------------------------------
  // ToTimeString

  /** `ToTimeString(Int64)`: the duration `time` in milliseconds, as a span of `time * 10000` ticks. */
  function ToTimeString(time: Long): string {
    ToTimeStringSpan(SpanOf(time))
  }

  /**
   * `ToTimeString(TimeSpan)`: whole days and hours from a day on, whole
   * hours and minutes from an hour on, minutes and seconds from a minute on
   * (by the minutes component), and seconds otherwise.
   */
  function ToTimeStringSpan(s: TimeSpan): string {
    if s.TotalDays() >= 1.0 then IntToString(Truncate(s.TotalDays())) + "д " + IntToString(s.Hours()) + "ч"
    else if s.TotalHours() >= 1.0 then IntToString(Truncate(s.TotalHours())) + "ч " + IntToString(s.Minutes()) + "мин"
    else if s.Minutes() >= 1 then IntToString(s.Minutes()) + "мин " + IntToString(s.Seconds()) + "сек"
    else IntToString(s.Seconds()) + "сек"
  }

  /** The longest duration in milliseconds whose tick count fits in a `long`. */
  const MaxMillis: int := (TwoTo63 - 1) / TicksPerMillisecond

  /** The span `ToTimeString(Int64)` builds from a duration in milliseconds. */
  function SpanOf(time: Long): TimeSpan {
    TimeSpan(Wrap64(time * TicksPerMillisecond))
  }

  /** Within `MaxMillis` the tick count is exact and each component is the millisecond count divided down. */
  lemma SpanOfMillis(time: Long)
    requires -MaxMillis <= time <= MaxMillis
    ensures SpanOf(time).ticks == time * TicksPerMillisecond
    ensures Quot(SpanOf(time).ticks, TicksPerDay) == Quot(time, Day)
    ensures Quot(SpanOf(time).ticks, TicksPerHour) == Quot(time, Hour)
    ensures Quot(SpanOf(time).ticks, TicksPerMinute) == Quot(time, Minute)
    ensures Quot(SpanOf(time).ticks, TicksPerSecond) == Quot(time, Second)
  {
    if time >= 0 {
      ScaledQuotients(time);
    } else {
      ScaledQuotients(-time);
    }
  }

  /** Dividing `n * 10000` ticks by a unit's ticks is dividing `n` milliseconds by the unit. */
  lemma ScaledQuotients(n: nat)
    ensures (n * TicksPerMillisecond) / TicksPerDay == n / Day
    ensures (n * TicksPerMillisecond) / TicksPerHour == n / Hour
    ensures (n * TicksPerMillisecond) / TicksPerMinute == n / Minute
    ensures (n * TicksPerMillisecond) / TicksPerSecond == n / Second
  {
  }

  /** The components of the span of a non-negative duration, in milliseconds. */
  lemma ComponentsOfMillis(time: Long)
    requires 0 <= time <= MaxMillis
    ensures Truncate(SpanOf(time).TotalDays()) == time / Day
    ensures Truncate(SpanOf(time).TotalHours()) == time / Hour
    ensures SpanOf(time).Hours() == time / Hour % 24
    ensures SpanOf(time).Minutes() == time / Minute % 60
    ensures SpanOf(time).Seconds() == time / Second % 60
  {
    SpanOfMillis(time);
    TruncatedTotals(SpanOf(time));
  }

  /** The seconds component of the span of a negative duration is negative or zero. */
  lemma ComponentsOfNegativeMillis(time: Long)
    requires -MaxMillis <= time < 0
    ensures SpanOf(time).ticks < 0
    ensures SpanOf(time).Minutes() <= 0
    ensures SpanOf(time).Seconds() == -((-time) / Second % 60)
  {
    SpanOfMillis(time);
  }

  /** `TotalDays` reaches one exactly when the span holds a day's ticks, and likewise for hours. */
  lemma TotalsReachOne(s: TimeSpan)
    ensures s.TotalDays() >= 1.0 <==> s.ticks >= TicksPerDay
    ensures s.TotalHours() >= 1.0 <==> s.ticks >= TicksPerHour
  {
  }

  /** From a day on, the text is the whole days and the hours past them. */
  lemma ToTimeStringDays(time: Long)
    requires Day <= time <= MaxMillis
    ensures ToTimeString(time) == IntToString(time / Day) + "д " + IntToString(time / Hour % 24) + "ч"
  {
    ComponentsOfMillis(time);
    TotalsReachOne(SpanOf(time));
  }

  /** From an hour to a day, the text is the whole hours and the minutes past them. */
  lemma ToTimeStringHours(time: Long)
    requires Hour <= time < Day
    ensures ToTimeString(time) == IntToString(time / Hour) + "ч " + IntToString(time / Minute % 60) + "мин"
  {
    ComponentsOfMillis(time);
    TotalsReachOne(SpanOf(time));
  }

  /** From a minute to an hour, the text is the whole minutes and the seconds past them. */
  lemma ToTimeStringMinutes(time: Long)
    requires Minute <= time < Hour
    ensures ToTimeString(time) == IntToString(time / Minute) + "мин " + IntToString(time / Second % 60) + "сек"
  {
    assert time / Minute % 60 == time / Minute;
    ComponentsOfMillis(time);
    TotalsReachOne(SpanOf(time));
  }

  /** Under a minute, the text is the whole seconds; the milliseconds past them are dropped. */
  lemma ToTimeStringSeconds(time: Long)
    requires 0 <= time < Minute
    ensures ToTimeString(time) == IntToString(time / Second) + "сек"
  {
    assert time / Minute % 60 == 0;
    assert time / Second % 60 == time / Second;
    ComponentsOfMillis(time);
    TotalsReachOne(SpanOf(time));
  }

  /**
   * A negative duration is shown as its seconds component alone, negative
   * or zero: its whole minutes, hours and days are dropped.
   */
  lemma ToTimeStringNegative(time: Long)
    requires -MaxMillis <= time < 0
    ensures ToTimeString(time) == IntToString(-((-time) / Second % 60)) + "сек"
  {
    ComponentsOfNegativeMillis(time);
    TotalsReachOne(SpanOf(time));
  }
}
