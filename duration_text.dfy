/**
 Display of a remaining duration (`ProgressEstimator.TruncateSimple` and
 `ProgressEstimator.TruncateRobust`), together with the part of .NET's
 `TimeSpan` text form that they meet.

 A `TimeSpan` is its number of 100 ns ticks. Only non-negative spans occur
 (a remaining time is never negative), so the sign of the text form is not
 modelled. `TimeSpan.ToString()` renders `[d.]hh:mm:ss[.fffffff]`; parsing
 accepts exactly that shape (days optional, two-digit hours, minutes and
 seconds, one to seven fraction digits) and rejects everything else.
 A null string is `None`.
 */
module DurationText {
  import opened Wrappers

  const TicksPerSecond: nat := 10_000_000
  const TicksPerMinute: nat := 600_000_000
  const TicksPerHour: nat := 36_000_000_000
  const TicksPerDay: nat := 864_000_000_000

  /** `TimeSpan.MaxValue.Ticks`, which is `long.MaxValue`. */
  const MaxTicks: nat := 9_223_372_036_854_775_807

  /** A non-negative `TimeSpan`, as its ticks. */
  type TimeSpan = t: nat | t <= MaxTicks

  // ---------------------------------------------------------------------
  // Decimal digits

  predicate IsDigit(c: char)
  {
    '0' <= c <= '9'
  }

  predicate AllDigits(s: string)
  {
    forall i :: 0 <= i < |s| ==> IsDigit(s[i])
  }

  function DigitChar(d: nat): (c: char)
    requires d < 10
    ensures IsDigit(c)
  {
    (48 + d) as char
  }

  function DigitValue(c: char): (d: nat)
    requires IsDigit(c)
    ensures d < 10
  {
    c as int - 48
  }

  function Pow10(k: nat): (r: nat)
    ensures r >= 1
  {
    if k == 0 then 1 else 10 * Pow10(k - 1)
  }

  /** The decimal digits of `n` without leading zeros (`"0"` for zero). */
  function Decimal(n: nat): (r: string)
    ensures 0 < |r| && AllDigits(r)
  {
    if n < 10 then [DigitChar(n)] else Decimal(n / 10) + [DigitChar(n % 10)]
  }

  /** The number a string of digits denotes. */
  function ValueOf(s: string): nat
    requires AllDigits(s)
  {
    if s == [] then 0 else 10 * ValueOf(s[..|s| - 1]) + DigitValue(s[|s| - 1])
  }

  function Zeros(k: nat): (r: string)
    ensures |r| == k && AllDigits(r)
  {
    seq(k, _ => '0')
  }

  /** `n.ToString("D" + width)`: the digits of `n`, zero-padded on the left
      to at least `width` characters. */
  function PadDigits(n: nat, width: nat): (r: string)
    ensures AllDigits(r) && |r| >= width
  {
    var d := Decimal(n);
    if |d| >= width then d else Zeros(width - |d|) + d
  }

  lemma {:induction false} DecimalValue(n: nat)
    ensures ValueOf(Decimal(n)) == n
  {
    if n >= 10 {
      DecimalValue(n / 10);
      var d := Decimal(n);
      assert d[..|d| - 1] == Decimal(n / 10);
    }
  }

  lemma {:induction false} DecimalLength(n: nat, k: nat)
    requires 0 < k && n < Pow10(k)
    ensures |Decimal(n)| <= k
  {
    if n >= 10 {
      DecimalLength(n / 10, k - 1);
    }
  }

  lemma {:induction false} ValueOfZeros(k: nat)
    ensures ValueOf(Zeros(k)) == 0
  {
    if k > 0 {
      assert Zeros(k)[..k - 1] == Zeros(k - 1);
      ValueOfZeros(k - 1);
    }
  }

  lemma {:induction false} ValueOfZerosThen(k: nat, d: string)
    requires AllDigits(d)
    ensures ValueOf(Zeros(k) + d) == ValueOf(d)
  {
    if d == [] {
      assert Zeros(k) + d == Zeros(k);
      ValueOfZeros(k);
    } else {
      var s := Zeros(k) + d;
      assert s[..|s| - 1] == Zeros(k) + d[..|d| - 1];
      ValueOfZerosThen(k, d[..|d| - 1]);
    }
  }

  /** A number of two or more digits is written without a leading zero. */
  lemma {:induction false} DecimalNoLeadingZero(n: nat)
    ensures |Decimal(n)| >= 2 <==> n >= 10
    ensures n >= 10 ==> Decimal(n)[0] != '0'
  {
    if n >= 10 {
      DecimalNoLeadingZero(n / 10);
    }
  }

  /** Zero-padding reads back as the same number, and a number with fewer
      digits than the width takes exactly the width. */
  lemma PadDigitsValue(n: nat, width: nat)
    ensures ValueOf(PadDigits(n, width)) == n
    ensures 0 < width && n < Pow10(width) ==> |PadDigits(n, width)| == width
  {
    DecimalValue(n);
    if |Decimal(n)| < width {
      ValueOfZerosThen(width - |Decimal(n)|, Decimal(n));
    }
    if 0 < width && n < Pow10(width) {
      DecimalLength(n, width);
    }
  }

  // ---------------------------------------------------------------------
  // Searching for the decimal separator

  /** `s.IndexOf(c)`: the first position of `c`, or -1. */
  function IndexOf(s: string, c: char): (i: int)
    ensures -1 <= i < |s|
    ensures i == -1 <==> c !in s
    ensures 0 <= i ==> s[i] == c && c !in s[..i]
  {
    if s == [] then -1
    else if s[0] == c then 0
    else
      var j := IndexOf(s[1..], c);
      assert s == [s[0]] + s[1..];
      if j == -1 then -1
      else
        assert s[..j + 1] == [s[0]] + s[1..][..j];
        j + 1
  }

  // ---------------------------------------------------------------------
  // The TimeSpan text form

  /** `ts.Hours`, `ts.Minutes`, `ts.Seconds`: the components below a day. */
  function Hours(t: nat): nat { (t / TicksPerHour) % 24 }
  function Minutes(t: nat): nat { (t / TicksPerMinute) % 60 }
  function Seconds(t: nat): nat { (t / TicksPerSecond) % 60 }

  /** `hh:mm:ss` and the optional `.fffffff` of a span shorter than a day. */
  function FormatClock(t: nat): string
  {
    PadDigits(Hours(t), 2) + ":" + PadDigits(Minutes(t), 2) + ":" + PadDigits(Seconds(t), 2) + FractionText(t)
  }

  /** `.fffffff`, the seven-digit ticks below a second, left out when
      there are none. */
  function FractionText(t: nat): string
  {
    var fraction := t % TicksPerSecond;
    if fraction > 0 then "." + PadDigits(fraction, 7) else ""
  }

  /** `TimeSpan.ToString()`: `[d.]hh:mm:ss[.fffffff]`. */
  function FormatTimeSpan(t: TimeSpan): string
  {
    var days := t / TicksPerDay;
    (if days > 0 then Decimal(days) + "." else "") + FormatClock(t)
  }

  function TwoDigits(a: char, b: char): nat
    requires IsDigit(a) && IsDigit(b)
  {
    10 * DigitValue(a) + DigitValue(b)
  }

  /** `c` starts with `dd:dd:dd`. */
  predicate ParseClockDigits(c: string)
  {
    && 8 <= |c| && IsDigit(c[0]) && IsDigit(c[1]) && c[2] == ':' && IsDigit(c[3]) && IsDigit(c[4])
    && c[5] == ':' && IsDigit(c[6]) && IsDigit(c[7])
  }

  /** Parses `hh:mm:ss[.f…]` into ticks; the one to seven fraction digits
      are tenths, hundredths, … of a second, so they are read as seven
      digits with zeros filled in on the right. */
  function ParseClock(c: string): Option<nat>
  {
    if !ParseClockDigits(c) then None
    else
      var h, m, s := TwoDigits(c[0], c[1]), TwoDigits(c[3], c[4]), TwoDigits(c[6], c[7]);
      if h > 23 || m > 59 || s > 59 then None
      else
        var whole := h * TicksPerHour + m * TicksPerMinute + s * TicksPerSecond;
        if |c| == 8 then Some(whole)
        else if c[8] == '.' && 9 < |c| <= 16 && AllDigits(c[9..]) then
          Some(whole + ValueOf(c[9..] + Zeros(16 - |c|)))
        else None
  }

  /** The ticks a text of the shape `[d.]hh:mm:ss[.fffffff]` denotes; a
      leading run of digits before the first `.` is a day count. */
  function SpanTicks(s: string): Option<nat>
  {
    var dot := IndexOf(s, '.');
    if 0 < dot && AllDigits(s[..dot]) then DaysPlus(ValueOf(s[..dot]), ParseClock(s[dot + 1..]))
    else ParseClock(s)
  }

  /** A day count added to a parsed clock. */
  function DaysPlus(days: nat, clock: Option<nat>): Option<nat>
  {
    match clock
    case None => None
    case Some(c) => Some(days * TicksPerDay + c)
  }

  /** `TimeSpan.TryParse` on the shape `[d.]hh:mm:ss[.fffffff]`; `None`
      for anything else and for spans beyond `TimeSpan.MaxValue`. What it
      accepts is stated by `ParseTimeSpanShape`. */
  function ParseTimeSpan(s: string): Option<TimeSpan>
  {
    match SpanTicks(s)
    case Some(t) => if t <= MaxTicks then Some(t) else None
    case None => None
  }

  /** The clock `hh:mm:ss[.f…]`, described by position: hours 00 to 23,
      minutes and seconds 00 to 59, then nothing or a `.` with one to seven
      digits. */
  predicate ClockForm(c: string)
  {
    && (|c| == 8 || (10 <= |c| <= 16 && c[8] == '.' && AllDigits(c[9..])))
    && IsDigit(c[0]) && IsDigit(c[1]) && c[2] == ':' && IsDigit(c[3]) && IsDigit(c[4])
    && c[5] == ':' && IsDigit(c[6]) && IsDigit(c[7])
    && (c[0] <= '1' || (c[0] == '2' && c[1] <= '3'))
    && c[3] <= '5' && c[6] <= '5'
  }

  /** The text form `[d.]hh:mm:ss[.fffffff]`, described by position: a clock,
      or a numeral, a `.` and a clock. */
  predicate TextForm(s: string)
  {
    || ClockForm(s)
    || exists k :: 0 < k < |s| && s[k] == '.' && AllDigits(s[..k]) && ClockForm(s[k + 1..])
  }

  // ---------------------------------------------------------------------
  // Truncation

  /** `char.IsWhiteSpace`: the Unicode separators and the control
      characters U+0009 to U+000D and U+0085. */
  predicate IsWhiteSpace(c: char)
  {
    || '\U{0009}' <= c <= '\U{000D}' || c == '\U{0020}' || c == '\U{0085}' || c == '\U{00A0}'
    || c == '\U{1680}' || '\U{2000}' <= c <= '\U{200A}' || c == '\U{2028}' || c == '\U{2029}'
    || c == '\U{202F}' || c == '\U{205F}' || c == '\U{3000}'
  }

  /** `string.IsNullOrWhiteSpace` for a non-null string. */
  predicate WhiteSpaceOnly(s: string)
  {
    forall i :: 0 <= i < |s| ==> IsWhiteSpace(s[i])
  }

  /** `TruncateSimple`: everything before the first `.`; null and the empty
      string come back as they are. */
  function TruncateSimple(s: Option<string>): (r: Option<string>)
    ensures s.None? <==> r.None?
    ensures s.Some? ==> r.value <= s.value && '.' !in r.value
    ensures s.Some? && |r.value| < |s.value| ==> s.value[|r.value|] == '.'
    ensures s.Some? && '.' !in s.value ==> r == s
  {
    match s
    case None => None
    case Some(str) =>
      if str == [] then s
      else
        var idx := IndexOf(str, '.');
        if idx >= 0 then Some(str[..idx]) else s
  }

  /** The hours, minutes and seconds of a span, hours not wrapped at a day:
      `$"{(long)ts.TotalHours:D2}:{ts.Minutes:D2}:{ts.Seconds:D2}"`. */
  function RenderHours(t: TimeSpan): string
  {
    PadDigits(t / TicksPerHour, 2) + ":" + PadDigits(Minutes(t), 2) + ":" + PadDigits(Seconds(t), 2)
  }

  /** `TruncateRobust`: null, empty and blank strings come back as they are;
      a parseable span is re-rendered with total hours; anything else falls
      back to `TruncateSimple`. */
  function TruncateRobust(s: Option<string>): (r: Option<string>)
    ensures s.None? || WhiteSpaceOnly(s.value) ==> r == s
    ensures s.Some? && !WhiteSpaceOnly(s.value) && ParseTimeSpan(s.value).Some? ==>
      r == Some(RenderHours(ParseTimeSpan(s.value).value))
    ensures s.Some? && !WhiteSpaceOnly(s.value) && ParseTimeSpan(s.value).None? ==> r == TruncateSimple(s)
  {
    match s
    case None => s
    case Some(str) =>
      if WhiteSpaceOnly(str) then s
      else match ParseTimeSpan(str)
        case Some(ts) => Some(RenderHours(ts))
        case None => TruncateSimple(s)
  }

  // ---------------------------------------------------------------------
  // The text form reads back as the span it was written from

  /** A span splits into whole days, the hours, minutes and seconds below a
      day, and the ticks below a second. */
  lemma Components(t: nat)
    ensures t == (t / TicksPerDay) * TicksPerDay + Hours(t) * TicksPerHour
                 + Minutes(t) * TicksPerMinute + Seconds(t) * TicksPerSecond + t % TicksPerSecond
    ensures t % TicksPerDay == Hours(t) * TicksPerHour + Minutes(t) * TicksPerMinute
                 + Seconds(t) * TicksPerSecond + t % TicksPerSecond
    ensures t - t % TicksPerSecond == (t / TicksPerHour) * TicksPerHour
                 + Minutes(t) * TicksPerMinute + Seconds(t) * TicksPerSecond
  {
    assert t / TicksPerSecond / 60 == t / TicksPerMinute;
    assert t % TicksPerMinute == Seconds(t) * TicksPerSecond + t % TicksPerSecond;
    assert t / TicksPerMinute / 60 == t / TicksPerHour;
    assert t % TicksPerHour == Minutes(t) * TicksPerMinute + t % TicksPerMinute;
    assert t / TicksPerHour / 24 == t / TicksPerDay;
    assert t % TicksPerDay == Hours(t) * TicksPerHour + t % TicksPerHour;
  }

  /** A two-digit string read digit by digit is its value. */
  lemma TwoDigitsValue(d: string)
    requires |d| == 2 && AllDigits(d)
    ensures TwoDigits(d[0], d[1]) == ValueOf(d)
  {
    assert d[..|d| - 1] == [d[0]];
    assert [d[0]][..0] == [];
    assert ValueOf([d[0]]) == DigitValue(d[0]);
  }

  lemma PadTwo(n: nat)
    requires n < 100
    ensures |PadDigits(n, 2)| == 2
    ensures TwoDigits(PadDigits(n, 2)[0], PadDigits(n, 2)[1]) == n
  {
    PadDigitsValue(n, 2);
    TwoDigitsValue(PadDigits(n, 2));
  }

  /** Where the pieces of `hh:mm:ss…` sit. */
  lemma ClockLayout(hh: string, mm: string, ss: string, rest: string)
    requires |hh| == |mm| == |ss| == 2 && AllDigits(hh) && AllDigits(mm) && AllDigits(ss)
    ensures var c := hh + ":" + mm + ":" + ss + rest;
      && ParseClockDigits(c) && |c| == 8 + |rest| && c[8..] == rest
      && TwoDigits(c[0], c[1]) == TwoDigits(hh[0], hh[1])
      && TwoDigits(c[3], c[4]) == TwoDigits(mm[0], mm[1])
      && TwoDigits(c[6], c[7]) == TwoDigits(ss[0], ss[1])
  {
    var c := hh + ":" + mm + ":" + ss + rest;
    assert c[0] == hh[0] && c[1] == hh[1] && c[2] == ':';
    assert c[3] == mm[0] && c[4] == mm[1] && c[5] == ':';
    assert c[6] == ss[0] && c[7] == ss[1];
  }

  /** The fraction part `.fffffff` reads back as the ticks below a second. */
  lemma FractionShape(t: nat)
    ensures var rest := FractionText(t);
      || (rest == [] && t % TicksPerSecond == 0)
      || (|rest| == 8 && rest[0] == '.' && AllDigits(rest[1..]) && ValueOf(rest[1..]) == t % TicksPerSecond)
  {
    var f := t % TicksPerSecond;
    if f > 0 {
      assert Pow10(7) == TicksPerSecond by {
        assert Pow10(2) == 100;
        assert Pow10(4) == 10000;
        assert Pow10(6) == 1000000;
      }
      PadDigitsValue(f, 7);
      assert ("." + PadDigits(f, 7))[1..] == PadDigits(f, 7);
    }
  }

  /** The pieces of the clock text: three two-digit fields and the
      fraction. */
  lemma ClockPieces(t: nat)
    ensures var hh, mm, ss := PadDigits(Hours(t), 2), PadDigits(Minutes(t), 2), PadDigits(Seconds(t), 2);
      && |hh| == |mm| == |ss| == 2
      && TwoDigits(hh[0], hh[1]) == Hours(t) <= 23
      && TwoDigits(mm[0], mm[1]) == Minutes(t) <= 59
      && TwoDigits(ss[0], ss[1]) == Seconds(t) <= 59
  {
    PadTwo(Hours(t));
    PadTwo(Minutes(t));
    PadTwo(Seconds(t));
  }

  /** How `hh:mm:ss` followed by nothing or by `.fffffff` parses. */
  lemma ParseClockLayout(hh: string, mm: string, ss: string, rest: string)
    requires |hh| == |mm| == |ss| == 2 && AllDigits(hh) && AllDigits(mm) && AllDigits(ss)
    requires TwoDigits(hh[0], hh[1]) <= 23 && TwoDigits(mm[0], mm[1]) <= 59 && TwoDigits(ss[0], ss[1]) <= 59
    requires rest == [] || (|rest| == 8 && rest[0] == '.' && AllDigits(rest[1..]))
    ensures ParseClock(hh + ":" + mm + ":" + ss + rest) ==
      Some(TwoDigits(hh[0], hh[1]) * TicksPerHour + TwoDigits(mm[0], mm[1]) * TicksPerMinute
        + TwoDigits(ss[0], ss[1]) * TicksPerSecond + (if rest == [] then 0 else ValueOf(rest[1..])))
  {
    ClockLayout(hh, mm, ss, rest);
    var c := hh + ":" + mm + ":" + ss + rest;
    if rest != [] {
      assert c[9..] == rest[1..];
      assert c[9..] + Zeros(16 - |c|) == rest[1..];
    }
  }

  /** `hh:mm:ss` and an optional `.fffffff` read back as the numbers they
      were written from. */
  lemma ParseClockOf(c: string, hh: string, mm: string, ss: string, rest: string, h: nat, m: nat, sec: nat, f: nat)
    requires c == hh + ":" + mm + ":" + ss + rest
    requires |hh| == |mm| == |ss| == 2 && AllDigits(hh) && AllDigits(mm) && AllDigits(ss)
    requires TwoDigits(hh[0], hh[1]) == h <= 23 && TwoDigits(mm[0], mm[1]) == m <= 59
    requires TwoDigits(ss[0], ss[1]) == sec <= 59
    requires (rest == [] && f == 0) || (|rest| == 8 && rest[0] == '.' && AllDigits(rest[1..]) && ValueOf(rest[1..]) == f)
    ensures ParseClock(c) == Some(h * TicksPerHour + m * TicksPerMinute + sec * TicksPerSecond + f)
  {
    ParseClockLayout(hh, mm, ss, rest);
  }

  /** The clock text reads back as its hours, minutes, seconds and
      ticks. */
  lemma ClockValue(t: nat)
    ensures ParseClock(FormatClock(t)) ==
      Some(Hours(t) * TicksPerHour + Minutes(t) * TicksPerMinute + Seconds(t) * TicksPerSecond + t % TicksPerSecond)
  {
    ClockPieces(t);
    FractionShape(t);
    ParseClockOf(FormatClock(t), PadDigits(Hours(t), 2), PadDigits(Minutes(t), 2), PadDigits(Seconds(t), 2),
      FractionText(t), Hours(t), Minutes(t), Seconds(t), t % TicksPerSecond);
  }

  /** The clock part of the text form parses back to the span below a day. */
  lemma ParseFormatClock(t: nat)
    ensures ParseClock(FormatClock(t)) == Some(t % TicksPerDay)
  {
    ClockValue(t);
    BelowDay(ParseClock(FormatClock(t)), t);
  }

  lemma BelowDay(x: Option<nat>, t: nat)
    requires x == Some(Hours(t) * TicksPerHour + Minutes(t) * TicksPerMinute + Seconds(t) * TicksPerSecond + t % TicksPerSecond)
    ensures x == Some(t % TicksPerDay)
  {
    Components(t);
  }

  /** `IndexOf` finds the first occurrence. */
  lemma IndexOfFirst(s: string, c: char, k: nat)
    requires k < |s| && s[k] == c && c !in s[..k]
    ensures IndexOf(s, c) == k
  {
    assert c in s;
  }

  /** A text without days: the first `.` (if any) comes after the `hh:`
      part, so no day count precedes it, and the whole text is the clock. */
  lemma NoDaysPrefix(c: string)
    requires ParseClockDigits(c)
    ensures SpanTicks(c) == ParseClock(c)
  {
    var dot := IndexOf(c, '.');
    if 0 < dot && dot > 2 {
      assert c[..dot][2] == ':';
    }
  }

  /** A text whose first `.` follows a numeral denotes that many days plus
      the clock after the `.`. */
  lemma SpanTicksAt(s: string, k: nat)
    requires 0 < k < |s| && s[k] == '.' && AllDigits(s[..k])
    ensures SpanTicks(s) == DaysPlus(ValueOf(s[..k]), ParseClock(s[k + 1..]))
  {
    assert '.' !in s[..k] by {
      assert forall i :: 0 <= i < k ==> IsDigit(s[..k][i]);
    }
    IndexOfFirst(s, '.', k);
  }

  /** A text `d.c` with a numeral `d` denotes `d` days plus the clock `c`. */
  lemma SplitTicks(d: string, c: string)
    requires 0 < |d| && AllDigits(d)
    ensures SpanTicks(d + "." + c) == DaysPlus(ValueOf(d), ParseClock(c))
  {
    var s := d + "." + c;
    assert s[..|d|] == d;
    assert s[|d| + 1..] == c;
    SpanTicksAt(s, |d|);
  }

  lemma FormatWithDays(t: TimeSpan)
    requires t / TicksPerDay > 0
    ensures FormatTimeSpan(t) == Decimal(t / TicksPerDay) + "." + FormatClock(t)
  {
  }

  /** With a day count, the text splits at the first `.` into the days
      and the clock. */
  lemma SplitWithDays(t: TimeSpan)
    requires t / TicksPerDay > 0
    ensures SpanTicks(FormatTimeSpan(t)) == DaysPlus(ValueOf(Decimal(t / TicksPerDay)), ParseClock(FormatClock(t)))
  {
    FormatWithDays(t);
    SplitTicks(Decimal(t / TicksPerDay), FormatClock(t));
  }

  lemma ParseWithDays(t: TimeSpan)
    requires t / TicksPerDay > 0
    ensures SpanTicks(FormatTimeSpan(t)) == Some(t)
  {
    SplitWithDays(t);
    DecimalValue(t / TicksPerDay);
    ParseFormatClock(t);
    DaysPlusWhole(SpanTicks(FormatTimeSpan(t)), ValueOf(Decimal(t / TicksPerDay)), ParseClock(FormatClock(t)), t);
  }

  /** Whole days plus the remainder below a day give back the span. */
  lemma DaysPlusWhole(x: Option<nat>, days: nat, clock: Option<nat>, t: nat)
    requires x == DaysPlus(days, clock) && days == t / TicksPerDay && clock == Some(t % TicksPerDay)
    ensures x == Some(t)
  {
  }

  /** The clock text starts with `dd:dd:dd`. */
  lemma ClockDigits(t: nat)
    ensures ParseClockDigits(FormatClock(t))
  {
    ClockPieces(t);
    ClockLayout(PadDigits(Hours(t), 2), PadDigits(Minutes(t), 2), PadDigits(Seconds(t), 2), FractionText(t));
  }

  /** Without a day count, the text is the clock alone. */
  lemma ParseWithoutDays(t: TimeSpan)
    requires t / TicksPerDay == 0
    ensures SpanTicks(FormatTimeSpan(t)) == Some(t)
  {
    assert FormatTimeSpan(t) == FormatClock(t);
    ClockDigits(t);
    NoDaysPrefix(FormatClock(t));
    ParseFormatClock(t);
    ClockOnly(SpanTicks(FormatTimeSpan(t)), ParseClock(FormatClock(t)), t);
  }

  /** A span below a day is its remainder below a day. */
  lemma ClockOnly(x: Option<nat>, clock: Option<nat>, t: nat)
    requires x == clock && clock == Some(t % TicksPerDay) && t / TicksPerDay == 0
    ensures x == Some(t)
  {
  }

  /** The text form of every span parses back to that span. */
  lemma ParseFormatTimeSpan(t: TimeSpan)
    ensures ParseTimeSpan(FormatTimeSpan(t)) == Some(t)
  {
    if t / TicksPerDay > 0 {
      ParseWithDays(t);
    } else {
      ParseWithoutDays(t);
    }
  }

  /** The clock parser accepts exactly the clock form. */
  lemma ParseClockShape(c: string)
    ensures ParseClock(c).Some? <==> ClockForm(c)
  {
    if ParseClockDigits(c) {
      assert TwoDigits(c[0], c[1]) <= 23 <==> (c[0] <= '1' || (c[0] == '2' && c[1] <= '3'));
      assert TwoDigits(c[3], c[4]) <= 59 <==> c[3] <= '5';
      assert TwoDigits(c[6], c[7]) <= 59 <==> c[6] <= '5';
    }
  }

  /** `TryParse` succeeds exactly on the text form, when the span it denotes
      fits in a `TimeSpan`, and then returns that span; every text of that
      form denotes some span. */
  lemma ParseTimeSpanShape(s: string)
    ensures TextForm(s) ==> SpanTicks(s).Some?
    ensures ParseTimeSpan(s).Some? <==> TextForm(s) && SpanTicks(s).value <= MaxTicks
    ensures ParseTimeSpan(s).Some? ==> ParseTimeSpan(s).value == SpanTicks(s).value
  {
    TextFormDenotes(s);
    DenotesTextForm(s);
  }

  lemma TextFormDenotes(s: string)
    ensures TextForm(s) ==> SpanTicks(s).Some?
  {
    if ClockForm(s) {
      NoDaysPrefix(s);
      ParseClockShape(s);
    } else if TextForm(s) {
      var k :| 0 < k < |s| && s[k] == '.' && AllDigits(s[..k]) && ClockForm(s[k + 1..]);
      SpanTicksAt(s, k);
      ParseClockShape(s[k + 1..]);
    }
  }

  lemma DenotesTextForm(s: string)
    ensures SpanTicks(s).Some? ==> TextForm(s)
  {
    var dot := IndexOf(s, '.');
    if 0 < dot && AllDigits(s[..dot]) {
      ParseClockShape(s[dot + 1..]);
    } else {
      ParseClockShape(s);
    }
  }

  /** The text form starts with a digit, so it is never blank. */
  lemma FormatNotBlank(t: TimeSpan)
    ensures 0 < |FormatTimeSpan(t)| && IsDigit(FormatTimeSpan(t)[0])
    ensures !WhiteSpaceOnly(FormatTimeSpan(t))
  {
    var s := FormatTimeSpan(t);
    if t / TicksPerDay > 0 {
      assert s[0] == Decimal(t / TicksPerDay)[0];
    } else {
      PadTwo(Hours(t));
      assert s[0] == PadDigits(Hours(t), 2)[0];
    }
    assert !IsWhiteSpace(s[0]);
  }

  /** The robust truncation of a span's text form is that span rendered
      with total hours. */
  lemma TruncateRobustOfFormat(t: TimeSpan)
    ensures TruncateRobust(Some(FormatTimeSpan(t))) == Some(RenderHours(t))
  {
    FormatNotBlank(t);
    ParseFormatTimeSpan(t);
  }

  /** Where the fields of `H…H:mm:ss` sit. */
  lemma RenderLayout(r: string, hh: string, mm: string, ss: string)
    requires r == hh + ":" + mm + ":" + ss && |mm| == |ss| == 2
    ensures var k := |r| - 6;
      && k == |hh| && r[..k] == hh && r[k] == ':' && r[k + 3] == ':'
      && r[k + 1] == mm[0] && r[k + 2] == mm[1] && r[k + 4] == ss[0] && r[k + 5] == ss[1]
  {
    assert r[..|hh|] == hh;
  }

  /** What `RenderHours` shows: the total hours (not wrapped at a day;
      exactly two digits below 100 hours, and no leading zero from 10 hours
      on), then two-digit minutes and seconds. */
  lemma RenderHoursParts(t: TimeSpan)
    ensures var r := RenderHours(t); var k := |r| - 6;
      && k >= 2 && AllDigits(r[..k]) && ValueOf(r[..k]) == t / TicksPerHour
      && r[k] == ':' && r[k + 3] == ':'
      && IsDigit(r[k + 1]) && IsDigit(r[k + 2]) && IsDigit(r[k + 4]) && IsDigit(r[k + 5])
      && TwoDigits(r[k + 1], r[k + 2]) == Minutes(t) < 60
      && TwoDigits(r[k + 4], r[k + 5]) == Seconds(t) < 60
    ensures t / TicksPerHour < 100 ==> |RenderHours(t)| == 8
    ensures t / TicksPerHour >= 10 ==> RenderHours(t)[0] != '0'
  {
    var hh := PadDigits(t / TicksPerHour, 2);
    var mm := PadDigits(Minutes(t), 2);
    var ss := PadDigits(Seconds(t), 2);
    PadDigitsValue(t / TicksPerHour, 2);
    assert Pow10(2) == 100;
    DecimalNoLeadingZero(t / TicksPerHour);
    PadTwo(Minutes(t));
    PadTwo(Seconds(t));
    RenderLayout(RenderHours(t), hh, mm, ss);
  }

  /** Those fields together make up the span without its fraction of a
      second. */
  lemma RenderHoursTotal(t: TimeSpan)
    ensures (t / TicksPerHour) * TicksPerHour + Minutes(t) * TicksPerMinute + Seconds(t) * TicksPerSecond
      == t - t % TicksPerSecond
  {
    Components(t);
  }

  /** Text that is not a span falls back to cutting at the first `.`;
      blank text is kept as it is. */
  lemma ExampleFallback()
    ensures TruncateRobust(Some("1.5 h")) == Some("1")
    ensures TruncateRobust(Some("")) == Some("")
    ensures TruncateRobust(Some(" ")) == Some(" ")
  {
    var s := "1.5 h";
    assert !IsWhiteSpace(s[0]);
    IndexOfFirst(s, '.', 1);
    assert s[2..] == "5 h";
    assert ParseClock(s[2..]) == None;
    assert SpanTicks(s) == None;
    assert s[..1] == "1";
  }

  /** A 125-hour span keeps all three hour digits, and five seconds render
      as `00:00:05`. */
  lemma ExampleRenderHours()
    ensures RenderHours(125 * TicksPerHour) == "125:00:00"
    ensures RenderHours(5 * TicksPerSecond) == "00:00:05"
  {
    ExamplePads();
    ExampleFields();
  }

  lemma ExamplePads()
    ensures PadDigits(125, 2) == "125" && PadDigits(0, 2) == "00" && PadDigits(5, 2) == "05"
  {
    assert Decimal(12) == "12";
    assert Decimal(125) == "125";
    assert Zeros(1) == "0";
  }

  lemma ExampleFields()
    ensures 125 * TicksPerHour / TicksPerHour == 125
    ensures Minutes(125 * TicksPerHour) == 0 && Seconds(125 * TicksPerHour) == 0
    ensures 5 * TicksPerSecond / TicksPerHour == 0
    ensures Minutes(5 * TicksPerSecond) == 0 && Seconds(5 * TicksPerSecond) == 5
  {
  }

  /** The zero span is rendered as `00:00:00`. */
  lemma RenderZero()
    ensures RenderHours(0) == "00:00:00"
  {
    assert PadDigits(0, 2) == "00";
  }
}
