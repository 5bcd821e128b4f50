/**
 * Integers as text: the printer that writes two digits at a time from the end of a buffer, and
 * the parser that guards against overflow in the unsigned type it accumulates in.
 */
module IntText {

  // ----- decimal notation -----

  function Digit(d: int): char
    requires 0 <= d < 10
  {
    ('0' as int + d) as char
  }

  // `unsigned(c - '0') <= 9`
  predicate IsDigit(c: char) { '0' <= c <= '9' }

  function DigitValue(c: char): int
    requires IsDigit(c)
  {
    c as int - '0' as int
  }

  function Decimal(n: nat): (s: string)
    ensures |s| >= 1
  {
    if n < 10 then [Digit(n)] else Decimal(n / 10) + [Digit(n % 10)]
  }

  function Text(v: int): (s: string)
    ensures |s| >= 1
  {
    if v < 0 then ['-'] + Decimal(-v) else Decimal(v)
  }

  ghost predicate AllDigits(s: string) { forall i :: 0 <= i < |s| ==> IsDigit(s[i]) }

  function Value(s: string): (v: int)
    requires AllDigits(s)
    ensures v >= 0
  {
    if s == [] then 0 else 10 * Value(s[..|s| - 1]) + DigitValue(s[|s| - 1])
  }

  lemma {:induction false} ValueOfDecimal(n: nat)
    ensures AllDigits(Decimal(n)) && Value(Decimal(n)) == n
  {
    if n >= 10 {
      ValueOfDecimal(n / 10);
      var s := Decimal(n);
      assert s[..|s| - 1] == Decimal(n / 10);
    }
  }

  // No leading zero: decimal notation is the ordinary one.
  lemma {:induction false} DecimalCanonical(n: nat)
    ensures n > 0 ==> Decimal(n)[0] != '0'
    ensures Decimal(n)[0] != '-'
  {
    if n >= 10 {
      DecimalCanonical(n / 10);
    }
  }

  function Pow10(k: nat): nat { if k == 0 then 1 else 10 * Pow10(k - 1) }

  lemma {:induction false} DecimalLength(n: nat, k: nat)
    requires k > 0
    ensures |Decimal(n)| <= k <==> n < Pow10(k)
  {
    Pow10Positive(k - 1);
    if n >= 10 && k > 1 {
      DecimalLength(n / 10, k - 1);
    }
  }

  lemma {:induction false} Pow10Positive(k: nat)
    ensures Pow10(k) >= 1
  {
    if k > 0 {
      Pow10Positive(k - 1);
    }
  }

  // ----- the digit pair table -----

  // The table, one row of the source's literal per tens digit.
  function PairRow(tens: int): (row: string)
    requires 0 <= tens < 10
    ensures |row| == 20
  {
    match tens
    case 0 => "00010203040506070809"
    case 1 => "10111213141516171819"
    case 2 => "20212223242526272829"
    case 3 => "30313233343536373839"
    case 4 => "40414243444546474849"
    case 5 => "50515253545556575859"
    case 6 => "60616263646566676869"
    case 7 => "70717273747576777879"
    case 8 => "80818283848586878889"
    case _ => "90919293949596979899"
  }

  function DigitPairs(i: int): char
    requires 0 <= i < 200
  {
    PairRow(i / 20)[i % 20]
  }

  // A row of the table: the tens digit before each ones digit.
  function RowOf(c: char): (row: string)
    ensures |row| == 20
  {
    [c, '0', c, '1', c, '2', c, '3', c, '4', c, '5', c, '6', c, '7', c, '8', c, '9']
  }

  lemma RowOfAt(c: char, ones: int)
    requires 0 <= ones < 10
    ensures RowOf(c)[2 * ones] == c && RowOf(c)[2 * ones + 1] == Digit(ones)
  {
    match ones
    case 0 =>
    case 1 =>
    case 2 =>
    case 3 =>
    case 4 =>
    case 5 =>
    case 6 =>
    case 7 =>
    case 8 =>
    case _ =>
  }

  lemma PairRowIs(tens: int)
    requires 0 <= tens < 10
    ensures PairRow(tens) == RowOf(Digit(tens))
  {
  }

  lemma PairAt(p: nat)
    requires p < 100
    ensures DigitPairs(2 * p) == Digit(p / 10) && DigitPairs(2 * p + 1) == Digit(p % 10)
  {
    hide PairRow, RowOf, Digit;
    PairRowIs(p / 10);
    RowOfAt(Digit(p / 10), p % 10);
    assert 2 * p / 20 == p / 10 && 2 * p % 20 == 2 * (p % 10);
    assert (2 * p + 1) / 20 == p / 10 && (2 * p + 1) % 20 == 2 * (p % 10) + 1;
  }

  lemma DivideTwice(n: nat)
    ensures n / 10 / 10 == n / 100 && n / 10 % 10 == n % 100 / 10 && n % 10 == n % 100 % 10
  {
  }

  // The two characters the table gives for p.
  function Pair(p: int): (pair: string)
    requires 0 <= p < 100
    ensures |pair| == 2
  {
    [DigitPairs(2 * p), DigitPairs(2 * p + 1)]
  }

  // Two digits at a time agrees with one at a time.
  lemma TwoDigits(n: nat)
    requires n >= 100
    ensures Decimal(n) == Decimal(n / 100) + Pair(n % 100)
  {
    hide DigitPairs, Decimal, Digit;
    DecimalStep(n);
    DecimalStep(n / 10);
    DivideTwice(n);
    PairAt(n % 100);
    assert Pair(n % 100) == [Digit(n % 100 / 10)] + [Digit(n % 10)];
  }

  lemma DecimalStep(n: nat)
    requires n >= 10
    ensures Decimal(n) == Decimal(n / 10) + [Digit(n % 10)]
  {
  }

  lemma OneDigit(n: nat)
    requires n < 10
    ensures Decimal(n) == [Digit(n)]
  {
  }

  lemma LastTwoDigits(n: nat)
    requires 10 <= n < 100
    ensures Decimal(n) == Pair(n)
  {
    hide DigitPairs, Decimal, Digit;
    OneDigit(n / 10);
    DecimalStep(n);
    PairAt(n);
    assert Pair(n) == [Digit(n / 10)] + [Digit(n % 10)];
  }

  // ----- printing -----

  // The number of characters of the text, counted four digits at a time.
  method NumberOfSymbolsIn(value: int) returns (symbols: nat)
    ensures symbols == |Text(value)|
  {
    var number := if value < 0 then -value else value;
    ghost var start := number;
    symbols := 0;
    while number > 9999
      invariant number >= 0 && symbols + |Decimal(number)| == |Decimal(start)|
    {
      FourDigits(number);
      symbols := symbols + 4;
      number := number / 10000;
    }
    SmallLengths(number);
    if number > 99 {
      if number > 999 {
        symbols := symbols + 4;
      } else {
        symbols := symbols + 3;
      }
    } else {
      if number > 9 {
        symbols := symbols + 2;
      } else {
        symbols := symbols + 1;
      }
    }
    if value < 0 {
      symbols := symbols + 1;
    }
  }

  lemma FourDigits(n: nat)
    requires n > 9999
    ensures |Decimal(n)| == |Decimal(n / 10000)| + 4
  {
    TwoDigits(n);
    TwoDigits(n / 100);
    hide DigitPairs, Decimal;
    assert n / 100 / 100 == n / 10000;
  }

  lemma SmallLengths(n: nat)
    requires n <= 9999
    ensures |Decimal(n)| == if n > 999 then 4 else if n > 99 then 3 else if n > 9 then 2 else 1
  {
    hide DigitPairs;
    if n > 99 {
      TwoDigits(n);
    }
    if n > 999 {
      LastTwoDigits(n / 100);
    }
  }

  // The two stores of a digit pair in front of position p.
  method PutPair(buf: array<char>, p: nat, end: nat, pos: int) returns (q: nat)
    requires 2 <= p <= end <= buf.Length && 0 <= pos < 100
    modifies buf
    ensures q == p - 2 && buf[q..end] == Pair(pos) + old(buf[p..end])
    ensures buf[..q] == old(buf[..q]) && buf[end..] == old(buf[end..])
  {
    hide DigitPairs;
    q := p - 1;
    buf[q] := DigitPairs(2 * pos + 1);
    q := q - 1;
    buf[q] := DigitPairs(2 * pos);
  }

  // The store of one character in front of position p.
  method PutChar(buf: array<char>, p: nat, end: nat, c: char) returns (q: nat)
    requires 1 <= p <= end <= buf.Length
    modifies buf
    ensures q == p - 1 && buf[q..end] == [c] + old(buf[p..end])
    ensures buf[..q] == old(buf[..q]) && buf[end..] == old(buf[end..])
  {
    q := p - 1;
    buf[q] := c;
  }

  // The loop of the printer: pairs from the low end until at most two digits are left.
  method PutPairs(buf: array<char>, end: nat, n: nat) returns (p: nat, number: nat)
    requires |Decimal(n)| <= end <= buf.Length
    modifies buf
    ensures number <= 99 && p <= end && |Decimal(number)| <= p
    ensures Decimal(number) + buf[p..end] == Decimal(n)
    ensures buf[..p] == old(buf[..p]) && buf[end..] == old(buf[end..])
  {
    hide Decimal, Pair;
    p, number := end, n;
    while number > 99
      invariant p <= end && |Decimal(number)| <= p
      invariant Decimal(number) + buf[p..end] == Decimal(n)
      invariant buf[..p] == old(buf[..p]) && buf[end..] == old(buf[end..])
    {
      TwoDigits(number);
      ghost var tail, prefix := buf[p..end], buf[..p];
      var pos := number % 100;
      number := number / 100;
      p := PutPair(buf, p, end, pos);
      assert Decimal(number) + (Pair(pos) + tail) == Decimal(number) + Pair(pos) + tail;
      assert buf[..p] == prefix[..p];
    }
  }

  // The digits of a number, written so that they end at `end`.
  method PutDigits(buf: array<char>, end: nat, n: nat) returns (p: nat)
    requires |Decimal(n)| <= end <= buf.Length
    modifies buf
    ensures p == end - |Decimal(n)| && buf[p..end] == Decimal(n)
    ensures buf[..p] == old(buf[..p]) && buf[end..] == old(buf[end..])
  {
    var number;
    p, number := PutPairs(buf, end, n);
    ghost var prefix, tail := buf[..p], buf[p..end];
    if number > 9 {
      LastTwoDigits(number);
      hide Decimal, DigitPairs;
      p := PutPair(buf, p, end, number);
    } else {
      OneDigit(number);
      hide Decimal;
      p := PutChar(buf, p, end, Digit(number));
    }
    assert buf[p..end] == Decimal(n);
    assert buf[..p] == prefix[..p];
  }

  // Writes the text of t so that it ends at position `end` of the buffer; returns where it starts.
  method IntegerToString(buf: array<char>, end: nat, t: int) returns (p: nat)
    requires |Text(t)| <= end <= buf.Length
    modifies buf
    ensures p == end - |Text(t)| && buf[p..end] == Text(t)
    ensures buf[..p] == old(buf[..p]) && buf[end..] == old(buf[end..])
  {
    hide Decimal;
    var number := if t < 0 then -t else t;
    p := PutDigits(buf, end, number);
    if t < 0 {
      ghost var before := p;
      p := PutChar(buf, p, end, '-');
      assert buf[..p] == old(buf[..before])[..p];
    }
  }

  function Repeat(c: char, n: nat): string { if n == 0 then [] else [c] + Repeat(c, n - 1) }

  lemma {:induction false} RepeatAt(c: char, n: nat)
    ensures |Repeat(c, n)| == n && forall i :: 0 <= i < n ==> Repeat(c, n)[i] == c
  {
    if n > 0 {
      RepeatAt(c, n - 1);
    }
  }

  function Padded(v: int, width: nat, pad: char): string
    requires |Text(v)| <= width
  {
    Repeat(pad, width - |Text(v)|) + Text(v)
  }

  lemma {:induction false} LeadingZeros(k: nat, s: string)
    requires AllDigits(s)
    ensures AllDigits(Repeat('0', k) + s) && Value(Repeat('0', k) + s) == Value(s)
    decreases |s|, k
  {
    RepeatAt('0', k);
    var t := Repeat('0', k) + s;
    if s != [] {
      assert t[..|t| - 1] == Repeat('0', k) + s[..|s| - 1];
      LeadingZeros(k, s[..|s| - 1]);
    } else if k > 0 {
      RepeatAt('0', k - 1);
      assert t[..|t| - 1] == Repeat('0', k - 1) + [];
      LeadingZeros(k - 1, []);
    }
  }

  lemma RepeatLast(c: char, n: nat)
    ensures Repeat(c, n) + [c] == Repeat(c, n + 1)
  {
    RepeatAt(c, n);
    RepeatAt(c, n + 1);
  }

  lemma PaddedExtends(t: string, c: char)
    requires t != [] && AllDigits(t) && IsDigit(c)
    requires |Decimal(Value(t))| <= |t| && Repeat('0', |t| - |Decimal(Value(t))|) + Decimal(Value(t)) == t
    ensures var v := 10 * Value(t) + DigitValue(c);
      |Decimal(v)| <= |t| + 1 && Repeat('0', |t| + 1 - |Decimal(v)|) + Decimal(v) == t + [c]
  {
    var n, d := Value(t), DigitValue(c);
    assert Digit(d) == c;
    if n == 0 {
      OneDigit(0);
      OneDigit(d);
      assert Decimal(0) == ['0'];
      RepeatLast('0', |t| - 1);
    } else {
      DecimalStep(10 * n + d);
      assert (10 * n + d) / 10 == n && (10 * n + d) % 10 == d;
    }
    hide Decimal, Value, Repeat, Digit;
  }

  lemma ValueOfLast(s: string)
    requires s != [] && AllDigits(s)
    ensures Value(s) == 10 * Value(s[..|s| - 1]) + DigitValue(s[|s| - 1])
  {
  }

  lemma PaddedDigit(c: char)
    requires IsDigit(c)
    ensures AllDigits([c]) && |Text(Value([c]))| == 1 && Padded(Value([c]), 1, '0') == [c]
  {
    ValueOfLast([c]);
    OneDigit(DigitValue(c));
    RepeatAt('0', 0);
  }

  // A digit string is its value's decimal text behind leading zeros.
  lemma {:induction false} PaddedOfValue(s: string)
    requires s != [] && AllDigits(s)
    ensures |Text(Value(s))| <= |s| && Padded(Value(s), |s|, '0') == s
    decreases |s|
  {
    hide Decimal, Repeat, Value, Digit;
    var t, c := s[..|s| - 1], s[|s| - 1];
    assert s == t + [c];
    if t == [] {
      PaddedDigit(c);
    } else {
      PaddedOfValue(t);
      PaddedExtends(t, c);
      ValueOfLast(s);
    }
  }

  // The text right-aligned in buf[start..start + width], filled with the padding character.
  method IntegerToStringPadded(buf: array<char>, start: nat, width: nat, t: int, pad: char)
    requires |Text(t)| <= width && start + width <= buf.Length
    modifies buf
    ensures buf[start..start + width] == Padded(t, width, pad)
    ensures buf[..start] == old(buf[..start]) && buf[start + width..] == old(buf[start + width..])
  {
    hide Decimal, Text, Repeat;
    var end := start + width;
    var p := IntegerToString(buf, end, t);
    ghost var prefix := buf[..p];
    PadLeft(buf, start, p, end, pad);
    assert buf[..start] == prefix[..start] == old(buf[..start]);
  }

  // The padding loop: fill everything from `start` up to p.
  method PadLeft(buf: array<char>, start: nat, from: nat, end: nat, pad: char)
    requires start <= from <= end <= buf.Length
    modifies buf
    ensures buf[start..end] == Repeat(pad, from - start) + old(buf[from..end])
    ensures buf[..start] == old(buf[..start]) && buf[end..] == old(buf[end..])
  {
    hide Repeat;
    var p := from;
    while p > start
      invariant start <= p <= from
      invariant forall i :: p <= i < from ==> buf[i] == pad
      invariant forall i :: 0 <= i < buf.Length && !(p <= i < from) ==> buf[i] == old(buf[i])
    {
      p := p - 1;
      buf[p] := pad;
    }
    RepeatAt(pad, from - start);
    assert buf[start..from] == Repeat(pad, from - start);
    assert buf[from..end] == old(buf[from..end]);
    assert buf[start..end] == buf[start..from] + buf[from..end];
  }
}
