/**
 * `UtcTimeStampConvertor`: timestamps to and from the FIX UTCTimestamp text
 * YYYYMMDD-HH:MM:SS[.fraction].
 */
module Timestamp {
  import opened Calendar
  import opened IntText
  import PreciseNumber

  const NANOS_PER_SEC: int := 1_000_000_000
  const NANOS_PER_DAY: int := 86_400_000_000_000

  // A Julian day number and nanoseconds since midnight.
  datatype Stamp = Stamp(date: int, time: int)

  // PRECISION_FACTOR: nanoseconds in one unit of the p-digit fraction.
  function Factor(p: nat): (f: int)
    requires p <= 9
    ensures f > 0
  {
    match p
    case 0 => 1_000_000_000
    case 1 => 100_000_000
    case 2 => 10_000_000
    case 3 => 1_000_000
    case 4 => 100_000
    case 5 => 10_000
    case 6 => 1_000
    case 7 => 100
    case 8 => 10
    case _ => 1
  }

  datatype Clock = Clock(hour: int, minute: int, second: int, fraction: int)

  function GetHMS(time: nat, p: nat): Clock
    requires p <= 9
  {
    var ticks := time / NANOS_PER_SEC;
    Clock(ticks / 3600, ticks / 60 % 60, ticks % 60, time % NANOS_PER_SEC / Factor(p))
  }

  function MakeHMS(hour: int, minute: int, second: int, nanos: int): int {
    NANOS_PER_SEC * (3600 * hour + 60 * minute + second) + nanos
  }

  predicate Normalised(ts: Stamp) { ts.date >= -32044 && 0 <= ts.time < NANOS_PER_DAY }

  // The timestamp cut to p fractional digits.
  function Truncated(ts: Stamp, p: nat): Stamp
    requires p <= 9
  {
    Stamp(ts.date, ts.time - ts.time % Factor(p))
  }

  // ----- the text -----

  function Zeros(v: int, width: nat): string
    requires |Text(v)| <= width
  {
    Padded(v, width, '0')
  }

  // A sign takes one of the places.
  lemma FitsIn(v: int, width: nat)
    requires width > 1 || (width > 0 && v >= 0)
    ensures |Text(v)| <= width <==> (if v < 0 then -v < Pow10(width - 1) else v < Pow10(width))
  {
    if v < 0 {
      DecimalLength(-v, width - 1);
    } else {
      DecimalLength(v, width);
    }
  }

  // The year fits four digits, the other parts two and the fraction p.
  predicate Fits(d: Date, c: Clock, p: nat) {
    && |Text(d.year)| <= 4 && |Text(d.month)| <= 2 && |Text(d.day)| <= 2
    && |Text(c.hour)| <= 2 && |Text(c.minute)| <= 2 && |Text(c.second)| <= 2
    && (p > 0 ==> |Text(c.fraction)| <= p)
  }

  function DateText(d: Date): string
    requires |Text(d.year)| <= 4 && |Text(d.month)| <= 2 && |Text(d.day)| <= 2
  {
    Zeros(d.year, 4) + Zeros(d.month, 2) + Zeros(d.day, 2)
  }

  function ClockText(c: Clock): string
    requires |Text(c.hour)| <= 2 && |Text(c.minute)| <= 2 && |Text(c.second)| <= 2
  {
    Zeros(c.hour, 2) + [':'] + Zeros(c.minute, 2) + [':'] + Zeros(c.second, 2)
  }

  function PartsText(d: Date, c: Clock, p: nat): string
    requires Fits(d, c, p)
  {
    DateText(d) + ['-'] + ClockText(c) + if p > 0 then ['.'] + Zeros(c.fraction, p) else []
  }

  predicate Printable(ts: Stamp, p: nat)
    requires p <= 9
  {
    ts.date >= -32044 && ts.time >= 0 && Fits(GetYMD(ts.date), GetHMS(ts.time, p), p)
  }

  function StampText(ts: Stamp, p: nat): string
    requires p <= 9 && Printable(ts, p)
  {
    PartsText(GetYMD(ts.date), GetHMS(ts.time, p), p)
  }

  lemma ClockBounds(time: nat, p: nat)
    requires time < NANOS_PER_DAY && p <= 9
    ensures var c := GetHMS(time, p);
      0 <= c.hour <= 23 && 0 <= c.minute <= 59 && 0 <= c.second <= 59
      && 0 <= c.fraction && c.fraction * Factor(p) == time % NANOS_PER_SEC - time % Factor(p)
      && MakeHMS(c.hour, c.minute, c.second, c.fraction * Factor(p)) == time - time % Factor(p)
  {
    var ticks := time / NANOS_PER_SEC;
    TicksSplit(ticks);
    FractionExact(time, p);
    hide Factor;
    assert time == NANOS_PER_SEC * ticks + time % NANOS_PER_SEC;
  }

  lemma TicksSplit(ticks: nat)
    ensures 3600 * (ticks / 3600) + 60 * (ticks / 60 % 60) + ticks % 60 == ticks
  {
    assert ticks / 3600 == ticks / 60 / 60;
  }

  lemma UnitsPerSecond(p: nat) returns (units: nat)
    requires p <= 9
    ensures Factor(p) * units == NANOS_PER_SEC && units > 0
  {
    units := NANOS_PER_SEC / Factor(p);
  }

  lemma FractionExact(time: nat, p: nat)
    requires p <= 9
    ensures time % NANOS_PER_SEC / Factor(p) * Factor(p) == time % NANOS_PER_SEC - time % Factor(p)
  {
    hide Factor;
    var units := UnitsPerSecond(p);
    RemainderOfRemainder(time, Factor(p), units);
    PreciseNumber.QuotientBounds(time % NANOS_PER_SEC, Factor(p));
  }

  lemma RemainderOfRemainder(t: int, f: int, q: int)
    requires f > 0 && q > 0 && f * q > 0
    ensures t % (f * q) % f == t % f
  {
    var m := f * q;
    var k, n := t / m, t % m;
    assert t == m * k + n;
    assert m * k == q * k * f;
    assert n == n / f * f + n % f;
    assert t == (q * k + n / f) * f + n % f;
    PreciseNumber.RemainderUnique(t, f, q * k + n / f, n % f);
  }

  lemma FactorOfPower(p: nat)
    requires 0 < p <= 9
    ensures Factor(p) * Pow10(p) == NANOS_PER_SEC
  {
  }

  lemma FractionFits(nanos: nat, p: nat)
    requires 0 < p <= 9 && nanos < NANOS_PER_SEC
    ensures nanos / Factor(p) < Pow10(p)
  {
    hide Factor, Pow10;
    FactorOfPower(p);
    assert (Pow10(p) - 1) * Factor(p) + Factor(p) == NANOS_PER_SEC;
    PreciseNumber.QuotientUnique(nanos, Factor(p), Pow10(p) - 1);
  }

  // Every part fits its field, at every precision, exactly for the years -999 to 9999 and times
  // below 100 hours.
  lemma PrintableExactly(ts: Stamp, p: nat)
    requires p <= 9 && ts.date >= -32044 && ts.time >= 0
    ensures Printable(ts, p) <==> -999 <= GetYMD(ts.date).year <= 9999 && ts.time < 360_000 * NANOS_PER_SEC
  {
    hide GetYMD, GetHMS, JulianDate, Text, Factor, Pow10;
    var d, c := GetYMD(ts.date), GetHMS(ts.time, p);
    DateReads(ts.date);
    ClockParts(ts.time, p);
    SmallPowers();
    FitsIn(d.year, 4);
    FitsIn(d.month, 2);
    FitsIn(d.day, 2);
    FitsIn(c.hour, 2);
    FitsIn(c.minute, 2);
    FitsIn(c.second, 2);
    if p > 0 {
      FitsIn(c.fraction, p);
    }
  }

  lemma SmallPowers()
    ensures Pow10(2) == 100 && Pow10(3) == 1000 && Pow10(4) == 10000
  {
    assert Pow10(2) == 100;
    assert Pow10(3) == 1000;
  }

  lemma ClockParts(time: nat, p: nat)
    requires p <= 9
    ensures var c := GetHMS(time, p);
      && 0 <= c.minute <= 59 && 0 <= c.second <= 59 && 0 <= c.hour
      && (c.hour < 100 <==> time < 360_000 * NANOS_PER_SEC)
      && (c.hour < 24 <==> time < NANOS_PER_DAY)
      && 0 <= c.fraction && (p > 0 ==> c.fraction < Pow10(p))
  {
    if p > 0 {
      FractionFits(time % NANOS_PER_SEC, p);
    }
    hide Factor, Pow10;
    PreciseNumber.QuotientUnique(time % NANOS_PER_SEC, Factor(p), 0);
  }

  // ----- printing -----

  // Appends the padded number to a buffer filled up to `at`.
  method AppendNumber(buf: array<char>, at: nat, width: nat, v: int)
    requires |Text(v)| <= width && at + width <= buf.Length
    modifies buf
    ensures buf[..at + width] == old(buf[..at]) + Zeros(v, width)
  {
    hide Text, Padded;
    IntegerToStringPadded(buf, at, width, v, '0');
    assert buf[..at + width] == buf[..at] + buf[at..at + width];
  }

  method AppendChar(buf: array<char>, at: nat, c: char)
    requires at < buf.Length
    modifies buf
    ensures buf[..at + 1] == old(buf[..at]) + [c]
  {
    buf[at] := c;
  }

  method AppendDate(buf: array<char>, d: Date)
    requires |Text(d.year)| <= 4 && |Text(d.month)| <= 2 && |Text(d.day)| <= 2 && buf.Length >= 8
    modifies buf
    ensures buf[..8] == DateText(d)
  {
    hide Text, Zeros;
    AppendNumber(buf, 0, 4, d.year);
    AppendNumber(buf, 4, 2, d.month);
    AppendNumber(buf, 6, 2, d.day);
  }

  method AppendClock(buf: array<char>, c: Clock)
    requires |Text(c.hour)| <= 2 && |Text(c.minute)| <= 2 && |Text(c.second)| <= 2 && buf.Length >= 17
    modifies buf
    ensures buf[..17] == old(buf[..9]) + ClockText(c)
  {
    hide Text, Zeros;
    ghost var before := buf[..9];
    AppendNumber(buf, 9, 2, c.hour);
    AppendChar(buf, 11, ':');
    AppendNumber(buf, 12, 2, c.minute);
    AppendChar(buf, 14, ':');
    AppendNumber(buf, 15, 2, c.second);
    assert buf[..17] == before + ClockText(c);
  }

  method PrintParts(d: Date, c: Clock, p: nat) returns (s: string)
    requires p <= 9 && Fits(d, c, p)
    ensures s == PartsText(d, c, p)
  {
    hide Text, Zeros, DateText, ClockText;
    var buf := new char[27];
    AppendDate(buf, d);
    AppendChar(buf, 8, '-');
    AppendClock(buf, c);
    s := buf[..17];
    if p > 0 {
      AppendChar(buf, 17, '.');
      AppendNumber(buf, 18, p, c.fraction);
      assert buf[..18 + p] == s + (['.'] + Zeros(c.fraction, p));
      s := buf[..18 + p];
    }
  }

  function Clamped(precision: int): (p: nat)
    ensures p <= 9 && (0 <= precision <= 9 ==> p == precision)
    ensures (precision <= 0 ==> p == 0) && (precision >= 9 ==> p == 9)
  {
    if precision < 0 then 0 else if precision > 9 then 9 else precision
  }

  // `convert(value, precision)`, with the precision clamped to 0..9. A part too wide for its field
  // would be written before the start of the field.
  method Print(ts: Stamp, precision: int) returns (s: string)
    requires Printable(ts, Clamped(precision))
    ensures s == StampText(ts, Clamped(precision))
  {
    hide GetYMD, GetHMS, Fits, PartsText;
    var p := Clamped(precision);
    s := PrintParts(GetYMD(ts.date), GetHMS(ts.time, p), p);
  }

  // ----- parsing -----

  datatype Parsed = Malformed | Parsed(stamp: Stamp)

  // Digits and separators are in place.
  ghost predicate Shaped(s: string) {
    && 17 <= |s| <= 27
    && AllDigits(s[0..8]) && s[8] == '-' && AllDigits(s[9..11]) && s[11] == ':'
    && AllDigits(s[12..14]) && s[14] == ':' && AllDigits(s[15..17])
    && (|s| > 17 ==> s[17] == '.' && AllDigits(s[18..]))
  }

  lemma DateDigits(s: string)
    requires Shaped(s)
    ensures AllDigits(s[0..4]) && AllDigits(s[4..6]) && AllDigits(s[6..8])
  {
    assert forall i :: 0 <= i < 8 ==> s[i] == s[0..8][i];
  }

  // What a text means: its parts, if each is in range.
  ghost function Meaning(s: string): Parsed {
    if !Shaped(s) then Malformed
    else
      DateDigits(s);
      var year, mon, mday := Value(s[0..4]), Value(s[4..6]), Value(s[6..8]);
      var hour, min, sec := Value(s[9..11]), Value(s[12..14]), Value(s[15..17]);
      if mon < 1 || mon > 12 || mday < 1 || mday > 31 || hour > 23 || min > 59 || sec > 60 then Malformed
      else
        var nanos := if |s| == 17 then 0 else Value(s[18..]) * Factor(|s| - 18);
        Parsed(Stamp(JulianDate(year, mon, mday), MakeHMS(hour, min, sec, nanos)))
  }

  // A run of digit checks.
  method CheckDigits(s: string, lo: nat, hi: nat) returns (ok: bool)
    requires lo <= hi <= |s|
    ensures ok == AllDigits(s[lo..hi])
  {
    for i := lo to hi
      invariant AllDigits(s[lo..i])
    {
      if !IsDigit(s[i]) {
        assert s[lo..hi][i - lo] == s[i];
        return false;
      }
      assert s[lo..i + 1] == s[lo..i] + [s[i]];
    }
    return true;
  }

  lemma NextDigit(s: string, lo: nat, i: nat, hi: nat)
    requires lo <= i < hi <= |s| && AllDigits(s[lo..hi])
    ensures IsDigit(s[i]) && AllDigits(s[lo..i]) && AllDigits(s[lo..i + 1])
    ensures Value(s[lo..i + 1]) == 10 * Value(s[lo..i]) + DigitValue(s[i])
  {
    var run, t := s[lo..hi], s[lo..i + 1];
    assert run[i - lo] == s[i];
    assert forall k :: 0 <= k <= i - lo ==> t[k] == run[k];
    assert t[..|t| - 1] == s[lo..i];
    hide Value;
    ValueOfLast(t);
  }

  // The accumulation `n = 10 * n + c - '0'` over a run of digits.
  method ReadNumber(s: string, lo: nat, hi: nat) returns (n: int)
    requires lo <= hi <= |s| && AllDigits(s[lo..hi])
    ensures n == Value(s[lo..hi])
  {
    n := 0;
    assert s[lo..lo] == [] && AllDigits([]) && Value([]) == 0;
    hide Value, AllDigits;
    for i := lo to hi
      invariant AllDigits(s[lo..i]) && n == Value(s[lo..i])
    {
      NextDigit(s, lo, i, hi);
      n := 10 * n + DigitValue(s[i]);
    }
  }

  method CheckShape(s: string) returns (ok: bool)
    ensures ok == Shaped(s)
  {
    if |s| < 17 || |s| > 27 {
      return false;
    }
    hide AllDigits;
    ok := CheckDigits(s, 0, 8);
    if !ok || s[8] != '-' {
      return false;
    }
    ok := CheckDigits(s, 9, 11);
    if !ok || s[11] != ':' {
      return false;
    }
    ok := CheckDigits(s, 12, 14);
    if !ok || s[14] != ':' {
      return false;
    }
    ok := CheckDigits(s, 15, 17);
    if !ok {
      return false;
    }
    if |s| > 17 {
      if s[17] != '.' {
        return false;
      }
      ok := CheckDigits(s, 18, |s|);
      assert s[18..|s|] == s[18..];
    }
  }

  // `convert(text)`: the stamp the text means, or the conversion error.
  method Parse(s: string) returns (r: Parsed)
    ensures r == Meaning(s)
  {
    var ok := CheckShape(s);
    if !ok {
      return Malformed;
    }
    DateDigits(s);
    var year := ReadNumber(s, 0, 4);
    var mon := ReadNumber(s, 4, 6);
    if mon < 1 || 12 < mon {
      return Malformed;
    }
    var mday := ReadNumber(s, 6, 8);
    if mday < 1 || 31 < mday {
      return Malformed;
    }
    var hour := ReadNumber(s, 9, 11);
    if 23 < hour {
      return Malformed;
    }
    var min := ReadNumber(s, 12, 14);
    if 59 < min {
      return Malformed;
    }
    var sec := ReadNumber(s, 15, 17);
    if 60 < sec {
      return Malformed;
    }
    hide JulianDate, MakeHMS, Value, Shaped, Factor;
    if |s| == 17 {
      return Parsed(Stamp(JulianDate(year, mon, mday), MakeHMS(hour, min, sec, 0)));
    }
    assert s[18..|s|] == s[18..];
    var fraction := ReadNumber(s, 18, |s|);
    r := Parsed(Stamp(JulianDate(year, mon, mday), MakeHMS(hour, min, sec, fraction * Factor(|s| - 18))));
  }

  // ----- the round trip -----

  lemma ZerosRead(v: nat, width: nat)
    requires |Text(v)| <= width
    ensures |Zeros(v, width)| == width && AllDigits(Zeros(v, width)) && Value(Zeros(v, width)) == v
  {
    ValueOfDecimal(v);
    RepeatAt('0', width - |Text(v)|);
    LeadingZeros(width - |Text(v)|, Decimal(v));
  }

  // A text laid out from its parts reads back as those parts.
  lemma LaidOut(y: string, mo: string, d: string, h: string, mi: string, sec: string, frac: string, p: nat)
    requires |y| == 4 && |mo| == |d| == |h| == |mi| == |sec| == 2 && |frac| == p <= 9
    requires AllDigits(y) && AllDigits(mo) && AllDigits(d) && AllDigits(h) && AllDigits(mi) && AllDigits(sec) && AllDigits(frac)
    ensures var s := (y + mo + d) + ['-'] + (h + [':'] + mi + [':'] + sec) + if p > 0 then ['.'] + frac else [];
      && |s| == (if p > 0 then 18 + p else 17) && Shaped(s)
      && s[0..4] == y && s[4..6] == mo && s[6..8] == d && s[9..11] == h && s[12..14] == mi && s[15..17] == sec
      && (p > 0 ==> s[18..] == frac)
  {
    var s := (y + mo + d) + ['-'] + (h + [':'] + mi + [':'] + sec) + if p > 0 then ['.'] + frac else [];
    assert s[0..8] == y + mo + d;
    assert s[9..11] == h && s[12..14] == mi && s[15..17] == sec;
    assert s[0..4] == y && s[4..6] == mo && s[6..8] == d;
    assert p > 0 ==> s[18..] == frac;
  }

  // A printed date and clock, whatever they are, read back as themselves.
  lemma PartsRead(d: Date, c: Clock, p: nat)
    requires p <= 9 && 0 <= d.year && 1 <= d.month <= 12 && 1 <= d.day <= 31
    requires 0 <= c.hour <= 23 && 0 <= c.minute <= 59 && 0 <= c.second <= 59 && 0 <= c.fraction
    requires Fits(d, c, p)
    ensures Meaning(PartsText(d, c, p))
         == Parsed(Stamp(JulianDate(d.year, d.month, d.day),
                         MakeHMS(c.hour, c.minute, c.second, if p > 0 then c.fraction * Factor(p) else 0)))
  {
    hide JulianDate, Text, Zeros, Value, AllDigits, Shaped, MakeHMS, Factor;
    ZerosRead(d.year, 4);
    ZerosRead(d.month, 2);
    ZerosRead(d.day, 2);
    ZerosRead(c.hour, 2);
    ZerosRead(c.minute, 2);
    ZerosRead(c.second, 2);
    NoDigits();
    if p > 0 {
      ZerosRead(c.fraction, p);
    }
    LaidOut(Zeros(d.year, 4), Zeros(d.month, 2), Zeros(d.day, 2), Zeros(c.hour, 2), Zeros(c.minute, 2), Zeros(c.second, 2),
            if p > 0 then Zeros(c.fraction, p) else [], p);
  }

  lemma NoDigits()
    ensures AllDigits([])
  {
  }

  lemma SignIsNoDigit(v: int, width: nat)
    requires v < 0 && |Text(v)| <= width
    ensures |Zeros(v, width)| == width && !AllDigits(Zeros(v, width))
  {
    var k := width - |Text(v)|;
    RepeatAt('0', k);
    assert Zeros(v, width)[k] == '-';
  }

  // A year before 0 or an hour past 23 can be printed and not read.
  lemma NegativeYearUnreadable(d: Date, c: Clock, p: nat)
    requires Fits(d, c, p) && d.year < 0
    ensures Meaning(PartsText(d, c, p)).Malformed?
  {
    hide Text, Zeros, Value, ClockText;
    var s, year := PartsText(d, c, p), Zeros(d.year, 4);
    SignIsNoDigit(d.year, 4);
    assert s[0..4] == year;
    if Shaped(s) {
      DateDigits(s);
    }
  }

  lemma LateHourUnreadable(d: Date, c: Clock, p: nat)
    requires p <= 9 && 0 <= d.year && 0 <= d.month && 0 <= d.day
    requires 24 <= c.hour && 0 <= c.minute && 0 <= c.second && 0 <= c.fraction
    requires Fits(d, c, p)
    ensures Meaning(PartsText(d, c, p)).Malformed?
  {
    hide JulianDate, Text, Zeros, Value, AllDigits, Shaped, MakeHMS, Factor;
    ZerosRead(d.year, 4);
    ZerosRead(d.month, 2);
    ZerosRead(d.day, 2);
    ZerosRead(c.hour, 2);
    ZerosRead(c.minute, 2);
    ZerosRead(c.second, 2);
    NoDigits();
    if p > 0 {
      ZerosRead(c.fraction, p);
    }
    LaidOut(Zeros(d.year, 4), Zeros(d.month, 2), Zeros(d.day, 2), Zeros(c.hour, 2), Zeros(c.minute, 2), Zeros(c.second, 2),
            if p > 0 then Zeros(c.fraction, p) else [], p);
  }

  // Parsing undoes printing, up to the printed precision.
  lemma ParseOfPrint(ts: Stamp, p: nat)
    requires p <= 9 && Normalised(ts) && 0 <= GetYMD(ts.date).year <= 9999
    ensures Printable(ts, p) && Meaning(StampText(ts, p)) == Parsed(Truncated(ts, p))
  {
    hide GetYMD, GetHMS, JulianDate, Fits, PartsText, Meaning, MakeHMS, Factor;
    PrintableExactly(ts, p);
    var d, c := GetYMD(ts.date), GetHMS(ts.time, p);
    DateReads(ts.date);
    ClockBounds(ts.time, p);
    NoFraction(ts.time);
    PartsRead(d, c, p);
    assert MakeHMS(c.hour, c.minute, c.second, if p > 0 then c.fraction * Factor(p) else 0) == Truncated(ts, p).time;
  }

  // Among everything that can be printed, what reads back are the normalised times from year 0 on.
  lemma ReadsBackExactly(ts: Stamp, p: nat)
    requires p <= 9 && Printable(ts, p)
    ensures var readable := GetYMD(ts.date).year >= 0 && ts.time < NANOS_PER_DAY;
      Meaning(StampText(ts, p)) == if readable then Parsed(Truncated(ts, p)) else Malformed
  {
    hide GetYMD, GetHMS, JulianDate, Fits, PartsText, Meaning, MakeHMS, Factor;
    PrintableExactly(ts, p);
    DateReads(ts.date);
    ClockParts(ts.time, p);
    var d, c := GetYMD(ts.date), GetHMS(ts.time, p);
    if d.year < 0 {
      NegativeYearUnreadable(d, c, p);
    } else if ts.time >= NANOS_PER_DAY {
      LateHourUnreadable(d, c, p);
    } else {
      ParseOfPrint(ts, p);
    }
  }

  lemma DateReads(j: int)
    requires j >= -32044
    ensures var d := GetYMD(j); 1 <= d.month <= 12 && 1 <= d.day <= 31 && JulianDate(d.year, d.month, d.day) == j
  {
    JulianRoundTrip(j);
    hide GetYMD, JulianDate, Leap;
  }

  lemma NoFraction(time: nat)
    ensures GetHMS(time, 0).fraction * Factor(0) == 0
  {
  }

  // ----- printing what was parsed -----

  function FractionDigits(s: string): (p: nat)
    ensures p <= |s|
  {
    if |s| <= 18 then 0 else |s| - 18
  }

  // The text names a day of its month and an ordinary second, and its point, if any, is followed by
  // digits.
  ghost predicate Exact(s: string)
    requires Shaped(s)
  {
    DateDigits(s);
    Value(s[6..8]) <= DaysIn(Value(s[0..4]), Value(s[4..6])) && Value(s[15..17]) <= 59 && |s| != 18
  }

  lemma ZerosOfValue(s: string)
    requires s != [] && AllDigits(s)
    ensures |Text(Value(s))| <= |s| && Zeros(Value(s), |s|) == s
  {
    PaddedOfValue(s);
  }

  lemma {:induction false} ValueBound(s: string)
    requires AllDigits(s)
    ensures Value(s) < Pow10(|s|)
  {
    if s != [] {
      ValueBound(s[..|s| - 1]);
    }
  }

  // The clock takes apart what it put together.
  lemma ClockRoundTrip(hour: nat, minute: nat, second: nat, fraction: nat, p: nat)
    requires p <= 9 && minute <= 59 && second <= 59 && fraction * Factor(p) < NANOS_PER_SEC
    ensures GetHMS(MakeHMS(hour, minute, second, fraction * Factor(p)), p) == Clock(hour, minute, second, fraction)
  {
    hide Factor;
    var nanos, ticks := fraction * Factor(p), 3600 * hour + 60 * minute + second;
    var time := NANOS_PER_SEC * ticks + nanos;
    NanosSplit(time, ticks, nanos);
    TicksRoundTrip(hour, minute, second);
    WholeUnits(fraction, Factor(p));
  }

  lemma NanosSplit(time: nat, ticks: nat, nanos: nat)
    requires time == NANOS_PER_SEC * ticks + nanos && nanos < NANOS_PER_SEC
    ensures time / NANOS_PER_SEC == ticks && time % NANOS_PER_SEC == nanos
  {
    PreciseNumber.QuotientUnique(time, NANOS_PER_SEC, ticks);
    PreciseNumber.RemainderUnique(time, NANOS_PER_SEC, ticks, nanos);
  }

  lemma TicksRoundTrip(hour: nat, minute: nat, second: nat)
    requires minute <= 59 && second <= 59
    ensures var ticks := 3600 * hour + 60 * minute + second;
      ticks / 3600 == hour && ticks / 60 % 60 == minute && ticks % 60 == second
  {
    assert (3600 * hour + 60 * minute + second) / 60 == 60 * hour + minute;
  }

  lemma WholeUnits(n: nat, f: nat)
    requires f > 0
    ensures n * f / f == n
  {
    PreciseNumber.QuotientUnique(n * f, f, n);
  }

  lemma FractionBelowSecond(fraction: nat, p: nat)
    requires 0 < p <= 9 && fraction < Pow10(p)
    ensures fraction * Factor(p) < NANOS_PER_SEC
  {
    hide Factor, Pow10;
    FactorOfPower(p);
    PreciseNumber.ScaleMonotone(fraction + 1, Pow10(p), Factor(p));
  }

  // A shaped text, cut into its fields and separators.
  lemma CutUp(s: string)
    requires Shaped(s) && |s| != 18
    ensures s == s[0..4] + s[4..6] + s[6..8] + ['-'] + (s[9..11] + [':'] + s[12..14] + [':'] + s[15..17])
                 + if |s| > 17 then ['.'] + s[18..] else []
  {
  }

  // The parts the text names.
  ghost function DateIn(s: string): Date
    requires Shaped(s)
  {
    DateDigits(s);
    Date(Value(s[0..4]), Value(s[4..6]), Value(s[6..8]))
  }

  ghost function ClockIn(s: string): Clock
    requires Shaped(s)
  {
    Clock(Value(s[9..11]), Value(s[12..14]), Value(s[15..17]), if |s| <= 18 then 0 else Value(s[18..]))
  }

  lemma PartsOfText(s: string)
    requires Shaped(s) && |s| != 18
    ensures Fits(DateIn(s), ClockIn(s), FractionDigits(s)) && PartsText(DateIn(s), ClockIn(s), FractionDigits(s)) == s
  {
    hide Value, Text, Zeros, AllDigits;
    DateDigits(s);
    CutUp(s);
    ZerosOfValue(s[0..4]);
    ZerosOfValue(s[4..6]);
    ZerosOfValue(s[6..8]);
    ZerosOfValue(s[9..11]);
    ZerosOfValue(s[12..14]);
    ZerosOfValue(s[15..17]);
    if |s| > 18 {
      ZerosOfValue(s[18..]);
    }
  }

  // What an exact text means has the parts it names.
  lemma ExactParts(s: string)
    requires Meaning(s).Parsed? && Exact(s)
    ensures var ts, p := Meaning(s).stamp, FractionDigits(s);
      p <= 9 && ts.date >= -32044 && ts.time >= 0 && GetYMD(ts.date) == DateIn(s) && GetHMS(ts.time, p) == ClockIn(s)
  {
    var d, c, p := DateIn(s), ClockIn(s), FractionDigits(s);
    if p > 0 {
      ValueBound(s[18..]);
      FractionBelowSecond(c.fraction, p);
    }
    assert Valid(d);
    hide Value, JulianDate, GetYMD, GetHMS, Factor, Pow10, AllDigits, Leap, DaysIn, Valid;
    DateRoundTrip(d);
    ClockRoundTrip(c.hour, c.minute, c.second, c.fraction, p);
  }

  lemma ZerosLength(v: int, width: nat)
    requires |Text(v)| <= width
    ensures |Zeros(v, width)| == width
  {
    RepeatAt('0', width - |Text(v)|);
  }

  // Where the parts stand in a printed text.
  lemma PartsStand(d: Date, c: Clock, p: nat)
    requires Fits(d, c, p)
    ensures var s := PartsText(d, c, p);
      && |s| == (if p > 0 then 18 + p else 17)
      && s[0..4] == Zeros(d.year, 4) && s[4..6] == Zeros(d.month, 2) && s[6..8] == Zeros(d.day, 2) && s[8] == '-'
      && s[9..11] == Zeros(c.hour, 2) && s[11] == ':' && s[12..14] == Zeros(c.minute, 2) && s[14] == ':'
      && s[15..17] == Zeros(c.second, 2) && (p > 0 ==> s[17] == '.' && s[18..] == Zeros(c.fraction, p))
  {
    hide Text, Zeros;
    ZerosLength(d.year, 4);
    ZerosLength(d.month, 2);
    ZerosLength(d.day, 2);
    ZerosLength(c.hour, 2);
    ZerosLength(c.minute, 2);
    ZerosLength(c.second, 2);
    if p > 0 {
      ZerosLength(c.fraction, p);
    }
  }

  // Only exact texts are ever printed.
  lemma PrintedIsExact(s: string, d: Date, c: Clock, p: nat)
    requires Shaped(s) && Fits(d, c, p) && PartsText(d, c, p) == s
    requires 1 <= d.month <= 12 && 1 <= d.day <= DaysIn(d.year, d.month) && 0 <= c.second <= 59
    ensures Exact(s)
  {
    hide Text, Zeros, PartsText, DaysIn, Value, Leap;
    DateDigits(s);
    PartsStand(d, c, p);
    if d.year < 0 {
      SignIsNoDigit(d.year, 4);
    }
    ZerosRead(d.year, 4);
    ZerosRead(d.month, 2);
    ZerosRead(d.day, 2);
    ZerosRead(c.second, 2);
  }

  // Printing undoes parsing exactly for the exact texts: at its own number of fraction digits the
  // stamp an accepted text means prints as that text if and only if the text names a day of its
  // month, no leap second, and has no bare point at its end.
  lemma PrintOfParseExactly(s: string)
    requires Meaning(s).Parsed?
    ensures Shaped(s) && FractionDigits(s) <= 9
    ensures var ts, p := Meaning(s).stamp, FractionDigits(s);
      (Printable(ts, p) && StampText(ts, p) == s) <==> Exact(s)
  {
    var ts, p := Meaning(s).stamp, FractionDigits(s);
    hide Value, JulianDate, GetYMD, GetHMS, Factor, AllDigits, Exact, Fits, PartsText;
    if Exact(s) {
      ExactParts(s);
      LengthOfExact(s);
      PartsOfText(s);
    } else if Printable(ts, p) && StampText(ts, p) == s {
      DateIsValid(ts.date);
      ClockParts(ts.time, p);
      PrintedIsExact(s, GetYMD(ts.date), GetHMS(ts.time, p), p);
    }
  }

  lemma LengthOfExact(s: string)
    requires Shaped(s) && Exact(s)
    ensures |s| != 18
  {
  }

  lemma DateIsValid(j: int)
    requires j >= -32044
    ensures var d := GetYMD(j); 1 <= d.month <= 12 && 1 <= d.day <= DaysIn(d.year, d.month)
  {
    JulianRoundTrip(j);
    hide GetYMD, JulianDate, DaysIn;
  }

  lemma SampleNumbers()
    ensures Text(2024) == "2024" && Text(3) == "3" && Text(15) == "15" && Text(13) == "13"
    ensures Text(45) == "45" && Text(56) == "56" && Text(789) == "789"
  {
    DecimalStep(2024);
    DecimalStep(202);
    DecimalStep(789);
    assert Decimal(20) == "20" && Decimal(78) == "78";
    assert Decimal(202) == "202";
  }

  lemma SampleFields()
    ensures |Text(2024)| == 4 && |Text(3)| == 1 && |Text(789)| == 3
    ensures |Text(15)| == |Text(13)| == |Text(45)| == |Text(56)| == 2
    ensures Zeros(2024, 4) == "2024" && Zeros(3, 2) == "03" && Zeros(15, 2) == "15" && Zeros(789, 3) == "789"
    ensures Zeros(13, 2) == "13" && Zeros(45, 2) == "45" && Zeros(56, 2) == "56"
  {
    SampleNumbers();
    hide Text;
    assert Repeat('0', 0) == "" && Repeat('0', 1) == "0";
    hide Repeat;
  }

  lemma SampleParts()
    ensures var d, c := Date(2024, 3, 15), Clock(13, 45, 56, 789);
      Fits(d, c, 3) && PartsText(d, c, 3) == "20240315-13:45:56.789"
  {
    hide Text, Zeros;
    SampleFields();
    assert DateText(Date(2024, 3, 15)) == "20240315";
    assert ClockText(Clock(13, 45, 56, 789)) == "13:45:56";
  }

  // A quarter to two in the afternoon on 15 March 2024, to the millisecond.
  lemma SampleText()
    ensures var ts := Stamp(2460385, MakeHMS(13, 45, 56, 789_000_000));
      Printable(ts, 3) && StampText(ts, 3) == "20240315-13:45:56.789"
  {
    SampleDay();
    assert Factor(3) == 1_000_000 && MakeHMS(13, 45, 56, 789_000_000) >= 0;
    hide GetYMD, GetHMS, MakeHMS, Fits, PartsText, Factor;
    ClockRoundTrip(13, 45, 56, 789, 3);
    SampleParts();
  }

  lemma SampleDay()
    ensures GetYMD(2460385) == Date(2024, 3, 15)
  {
    assert JulianDate(2024, 3, 15) == 2460385;
    assert Valid(Date(2024, 3, 15));
    hide GetYMD, JulianDate, Valid;
    DateRoundTrip(Date(2024, 3, 15));
  }

  // ----- texts and stamps that do not survive -----

  // Midnight at the end of 1 January 1970 prints as hour 24, which the parser refuses.
  lemma MidnightUnreadable()
    ensures var ts := Stamp(2440588, NANOS_PER_DAY); Printable(ts, 0) && Meaning(StampText(ts, 0)) == Malformed
  {
    hide GetYMD, GetHMS, Fits, PartsText, Meaning;
    var ts := Stamp(2440588, NANOS_PER_DAY);
    StartOf1970();
    PrintableExactly(ts, 0);
    ReadsBackExactly(ts, 0);
  }

  lemma TwoDigitsAt(s: string, i: nat)
    requires i + 2 <= |s| && IsDigit(s[i]) && IsDigit(s[i + 1])
    ensures AllDigits(s[i..i + 2]) && Value(s[i..i + 2]) == 10 * DigitValue(s[i]) + DigitValue(s[i + 1])
  {
    var t := s[i..i + 2];
    assert t[..1] == [s[i]] && t[..1][..0] == [];
    assert Value(t[..1]) == DigitValue(s[i]);
  }

  lemma ShapeOf(s: string)
    requires |s| == 17 || (|s| == 18 && s[17] == '.')
    requires (forall k :: 0 <= k < 8 ==> IsDigit(s[k])) && s[8] == '-' && s[11] == s[14] == ':'
    requires IsDigit(s[9]) && IsDigit(s[10]) && IsDigit(s[12]) && IsDigit(s[13]) && IsDigit(s[15]) && IsDigit(s[16])
    ensures Shaped(s)
  {
    TwoDigitsAt(s, 9);
    TwoDigitsAt(s, 12);
    TwoDigitsAt(s, 15);
    hide Value;
  }

  // A text for a day of February in the first minute of the day: any day number from 1 to 31 and any
  // second from 0 to 60 is accepted, and no other.
  lemma FebruaryText(s: string)
    requires |s| == 17 || (|s| == 18 && s[17] == '.')
    requires s[..6] == "202302" && s[8..15] == "-00:00:"
    requires IsDigit(s[6]) && IsDigit(s[7]) && IsDigit(s[15]) && IsDigit(s[16])
    ensures Shaped(s)
    ensures Meaning(s).Parsed? <==>
      1 <= 10 * DigitValue(s[6]) + DigitValue(s[7]) <= 31 && 10 * DigitValue(s[15]) + DigitValue(s[16]) <= 60
    ensures Exact(s) ==>
      10 * DigitValue(s[6]) + DigitValue(s[7]) <= 29 && 10 * DigitValue(s[15]) + DigitValue(s[16]) <= 59 && |s| == 17
  {
    assert forall k :: 0 <= k < 6 ==> s[k] == s[..6][k];
    assert forall k :: 8 <= k < 15 ==> s[k] == s[8..15][k - 8];
    assert s[11] == ':' && s[14] == ':';
    ShapeOf(s);
    TwoDigitsAt(s, 4);
    TwoDigitsAt(s, 6);
    TwoDigitsAt(s, 9);
    TwoDigitsAt(s, 12);
    TwoDigitsAt(s, 15);
    hide Value, JulianDate, MakeHMS, Factor, Shaped, AllDigits;
  }

  // 30 February, second 60 and a bare point are accepted and printed as something else; day 32 and
  // second 61 are refused.
  lemma InexactTextsAccepted()
    ensures forall s :: s in ["20230230-00:00:00", "20230201-00:00:60", "20230201-00:00:00."] ==>
      Meaning(s).Parsed? && !Exact(s)
    ensures Meaning("20230232-00:00:00").Malformed? && Meaning("20230201-00:00:61").Malformed?
  {
    hide Meaning, Exact, Shaped;
    var thirtieth, leapSecond, barePoint := "20230230-00:00:00", "20230201-00:00:60", "20230201-00:00:00.";
    assert thirtieth[..6] == leapSecond[..6] == barePoint[..6] == "202302";
    assert thirtieth[8..15] == leapSecond[8..15] == barePoint[8..15] == "-00:00:";
    FebruaryText(thirtieth);
    FebruaryText(leapSecond);
    FebruaryText(barePoint);
    LateTextsRefused();
  }

  lemma LateTextsRefused()
    ensures Meaning("20230232-00:00:00").Malformed? && Meaning("20230201-00:00:61").Malformed?
  {
    hide Meaning, Exact, Shaped;
    var lateDay, lateSecond := "20230232-00:00:00", "20230201-00:00:61";
    assert lateDay[..6] == lateSecond[..6] == "202302";
    assert lateDay[8..15] == lateSecond[8..15] == "-00:00:";
    FebruaryText(lateDay);
    FebruaryText(lateSecond);
  }

  // At nine digits nothing is lost.
  lemma NinthDigitIsExact(ts: Stamp)
    ensures Truncated(ts, 9) == ts
  {
  }
}
