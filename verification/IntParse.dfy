/**
 * `IntTConvertor`: integers of the engine's three integer types to and from text.
 */
module IntParse {
  import opened IntText

  // The instantiations of the convertor: int, int64_t and uint64_t.
  datatype IntType = Int32 | Int64 | UInt64 {
    predicate Signed() { !UInt64? }

    function Max(): int {
      match this
      case Int32 => 0x7fff_ffff
      case Int64 => 0x7fff_ffff_ffff_ffff
      case UInt64 => 0xffff_ffff_ffff_ffff
    }

    function Min(): int { if UInt64? then 0 else -Max() - 1 }

    // One more than the largest value of the unsigned type of the same width.
    function Modulus(): int { if Int32? then 0x1_0000_0000 else 0x1_0000_0000_0000_0000 }

    // numeric_limits<T>::digits10
    function Digits10(): nat {
      match this
      case Int32 => 9
      case Int64 => 18
      case UInt64 => 19
    }
  }

  datatype Parsed = Rejected | Accepted(value: int)

  // An optional minus, for signed types only, then digits whose value fits the type.
  ghost function Meaning(ty: IntType, s: string): Parsed {
    var negative := s != [] && s[0] == '-';
    var digits := if negative then s[1..] else s;
    if digits == [] || !AllDigits(digits) || (negative && !ty.Signed()) then Rejected
    else
      var v := if negative then -Value(digits) else Value(digits);
      if ty.Min() <= v <= ty.Max() then Accepted(v) else Rejected
  }

  // Each further digit multiplies the value by at least ten.
  lemma {:induction false} ValueGrows(s: string, k: nat)
    requires AllDigits(s) && k < |s|
    ensures AllDigits(s[..k]) && Value(s) >= 10 * Value(s[..k])
  {
    var last := |s| - 1;
    if k < last {
      ValueGrows(s[..last], k);
      assert s[..last][..k] == s[..k];
    }
  }

  lemma ValueExtends(s: string, i: nat)
    requires i < |s| && AllDigits(s[..i]) && IsDigit(s[i])
    ensures AllDigits(s[..i + 1]) && Value(s[..i + 1]) == 10 * Value(s[..i]) + DigitValue(s[i])
  {
    assert s[..i + 1][..i] == s[..i];
  }

  // A prefix beyond Max/10 with a digit still to come cannot fit, with either sign.
  lemma TooLarge(ty: IntType, digits: string, i: nat)
    requires i < |digits| && AllDigits(digits[..i]) && Value(digits[..i]) > ty.Max() / 10
    ensures AllDigits(digits) ==> Value(digits) > ty.Max() && -Value(digits) < ty.Min()
  {
    if AllDigits(digits) {
      ValueGrows(digits, i);
      hide Value;
    }
  }

  // A wrapped sum shows as a decrease, and happens only beyond the type's range.
  lemma WrapShows(ty: IntType, x: nat, d: nat)
    requires x <= ty.Max() / 10 && d <= 9
    ensures var nx := (10 * x + d) % ty.Modulus();
      if 10 * x + d < ty.Modulus() then nx == 10 * x + d >= x else nx < x && 10 * x + d > ty.Max()
  {
  }

  lemma PrefixTooLarge(ty: IntType, digits: string, i: nat)
    requires i < |digits| && AllDigits(digits[..i + 1]) && Value(digits[..i + 1]) > ty.Max() && ty.UInt64?
    ensures AllDigits(digits) ==> Value(digits) > ty.Max()
  {
    if AllDigits(digits) && i + 1 < |digits| {
      ValueGrows(digits, i + 1);
    }
    if i + 1 == |digits| {
      assert digits[..i + 1] == digits;
    }
  }

  // The digit loop: the value of the digits, or a refusal that the digits deserve.
  method ParseDigits(ty: IntType, digits: string) returns (ok: bool, x: int)
    requires digits != []
    ensures ok ==> AllDigits(digits) && x == Value(digits)
    ensures !ok && AllDigits(digits) ==> Value(digits) > ty.Max() && -Value(digits) < ty.Min()
  {
    x := 0;
    var nx := 0;
    var i := 0;
    assert digits[..0] == [];
    while i < |digits|
      invariant 0 <= i <= |digits|
      invariant AllDigits(digits[..i]) && x == Value(digits[..i])
    {
      if x > ty.Max() / 10 {
        TooLarge(ty, digits, i);
        return false, x;
      }
      var c := digits[i];
      if !IsDigit(c) {
        return false, x;
      }
      ValueExtends(digits, i);
      WrapShows(ty, x, DigitValue(c));
      hide Value;
      nx := (10 * x + DigitValue(c)) % ty.Modulus();
      if nx < x {
        PrefixTooLarge(ty, digits, i);
        return false, x;
      }
      x := nx;
      i := i + 1;
    }
    assert digits[..|digits|] == digits;
    ok := true;
  }

  // Accepts exactly the texts that denote a value of the type.
  method Parse(ty: IntType, s: string) returns (r: Parsed)
    ensures r == Meaning(ty, s)
  {
    if |s| == 0 {
      return Rejected;
    }
    if s[0] == '-' && !ty.Signed() {
      return Rejected;
    }
    var isNegative := s[0] == '-';
    var digits := if isNegative then s[1..] else s;
    if digits == [] {
      return Rejected;
    }
    var ok, x := ParseDigits(ty, digits);
    hide Value;
    if !ok {
      return Rejected;
    }
    if isNegative {
      if x > -ty.Min() {
        return Rejected;
      }
      x := -x;
    } else if x > ty.Max() {
      return Rejected;
    }
    r := Accepted(x);
  }

  // ----- printing and back -----

  lemma ParsePrint(ty: IntType, v: int)
    requires ty.Min() <= v <= ty.Max()
    ensures Meaning(ty, Text(v)) == Accepted(v)
  {
    var n := if v < 0 then -v else v;
    ValueOfDecimal(n);
    DecimalCanonical(n);
    hide Value, Decimal;
    if v < 0 {
      assert Text(v)[1..] == Decimal(n);
    }
  }

  // No leading zero, and no minus before a zero.
  predicate Canonical(s: string) {
    var negative := s != [] && s[0] == '-';
    var digits := if negative then s[1..] else s;
    digits != [] && (digits[0] == '0' ==> |digits| == 1 && !negative)
  }

  lemma DecimalOfValue(digits: string)
    requires digits != [] && AllDigits(digits)
    ensures Decimal(Value(digits)) == digits <==> (digits[0] == '0' ==> |digits| == 1)
  {
    PaddedOfValue(digits);
    var n := Value(digits);
    var k := |digits| - |Decimal(n)|;
    RepeatAt('0', k);
    DecimalCanonical(n);
    if k > 0 {
      assert digits[0] == '0';
    } else {
      assert Repeat('0', 0) == [];
      if n == 0 {
        OneDigit(0);
      }
    }
    hide Decimal, Value, Repeat;
  }

  // Printing what was parsed gives the text back exactly when it has no leading zero and is not a
  // negative zero.
  lemma PrintParseExactly(ty: IntType, s: string)
    requires Meaning(ty, s).Accepted?
    ensures Text(Meaning(ty, s).value) == s <==> Canonical(s)
  {
    var negative := s[0] == '-';
    var digits := if negative then s[1..] else s;
    var n := Value(digits);
    DecimalOfValue(digits);
    DecimalCanonical(n);
    ValueZero(digits);
    hide Value, Decimal;
    if negative {
      assert s == ['-'] + digits;
      assert n > 0 ==> Text(-n)[1..] == Decimal(n);
    }
  }

  lemma ValueZero(digits: string)
    requires digits != [] && AllDigits(digits)
    ensures Value(digits) == 0 ==> digits[0] == '0'
  {
    PaddedOfValue(digits);
    if Value(digits) == 0 {
      OneDigit(0);
      RepeatAt('0', |digits| - 1);
    }
  }

  // The texts of a value: its decimal text behind any number of zeros, with a minus in front for
  // signed types when the value is negative or zero.
  ghost predicate Denotes(ty: IntType, s: string, v: int) {
    exists k: nat ::
      || (v >= 0 && s == Repeat('0', k) + Decimal(v))
      || (v <= 0 && ty.Signed() && s == ['-'] + Repeat('0', k) + Decimal(-v))
  }

  lemma ZerosThenDecimal(k: nat, n: nat)
    ensures var s := Repeat('0', k) + Decimal(n); s != [] && s[0] != '-' && AllDigits(s) && Value(s) == n
  {
    ValueOfDecimal(n);
    DecimalCanonical(n);
    RepeatAt('0', k);
    LeadingZeros(k, Decimal(n));
    hide Decimal, Value, Repeat;
  }

  // The parser accepts exactly the texts of the values of the type, each as that value.
  lemma MeaningExactly(ty: IntType, s: string, v: int)
    ensures Meaning(ty, s) == Accepted(v) <==> ty.Min() <= v <= ty.Max() && Denotes(ty, s, v)
  {
    if Meaning(ty, s) == Accepted(v) {
      MeaningDenotes(ty, s);
    }
    if ty.Min() <= v <= ty.Max() && Denotes(ty, s, v) {
      var k: nat :|
        || (v >= 0 && s == Repeat('0', k) + Decimal(v))
        || (v <= 0 && ty.Signed() && s == ['-'] + Repeat('0', k) + Decimal(-v));
      DenotedIsAccepted(ty, s, v, k);
    }
  }

  lemma DenotedBy(ty: IntType, s: string, v: int, k: nat)
    requires
      || (v >= 0 && s == Repeat('0', k) + Decimal(v))
      || (v <= 0 && ty.Signed() && s == ['-'] + Repeat('0', k) + Decimal(-v))
    ensures Denotes(ty, s, v)
  {
  }

  lemma PaddedDigits(digits: string) returns (k: nat)
    requires digits != [] && AllDigits(digits)
    ensures digits == Repeat('0', k) + Decimal(Value(digits))
  {
    hide Decimal, Value, Repeat;
    PaddedOfValue(digits);
    k := |digits| - |Decimal(Value(digits))|;
  }

  lemma MeaningDenotes(ty: IntType, s: string)
    requires Meaning(ty, s).Accepted?
    ensures Denotes(ty, s, Meaning(ty, s).value)
  {
    hide Decimal, Value, Repeat, Denotes, AllDigits;
    var negative := s[0] == '-';
    var digits := if negative then s[1..] else s;
    var k := PaddedDigits(digits);
    var n := Value(digits);
    if negative {
      assert s == ['-'] + digits;
      assert ['-'] + (Repeat('0', k) + Decimal(n)) == ['-'] + Repeat('0', k) + Decimal(n);
    }
    DenotedBy(ty, s, if negative then -n else n, k);
  }

  lemma DenotedIsAccepted(ty: IntType, s: string, v: int, k: nat)
    requires ty.Min() <= v <= ty.Max()
    requires
      || (v >= 0 && s == Repeat('0', k) + Decimal(v))
      || (v <= 0 && ty.Signed() && s == ['-'] + Repeat('0', k) + Decimal(-v))
    ensures Meaning(ty, s) == Accepted(v)
  {
    hide Decimal, Value, Repeat;
    if v >= 0 && s == Repeat('0', k) + Decimal(v) {
      ZerosThenDecimal(k, v);
    } else {
      ZerosThenDecimal(k, -v);
      assert s[1..] == Repeat('0', k) + Decimal(-v);
    }
  }

  function PowerOfTwo(n: nat): nat { if n == 0 then 1 else 2 * PowerOfTwo(n - 1) }

  lemma {:induction false} PowersMultiply(m: nat, n: nat)
    ensures PowerOfTwo(m + n) == PowerOfTwo(m) * PowerOfTwo(n)
  {
    if n > 0 {
      PowersMultiply(m, n - 1);
    }
  }

  lemma Powers()
    ensures PowerOfTwo(31) == 0x8000_0000
    ensures PowerOfTwo(63) == 0x8000_0000_0000_0000
  {
    PowersMultiply(15, 16);
    PowersMultiply(31, 32);
    PowersMultiply(16, 16);
    PowersMultiply(8, 8);
    PowersMultiply(8, 7);
    assert PowerOfTwo(4) == 16;
    PowersMultiply(4, 4);
    PowersMultiply(4, 3);
  }

  // The ranges of a 32-bit and a 64-bit two's complement integer and of an unsigned 64-bit one.
  lemma Ranges()
    ensures Int32.Min() == 0 - PowerOfTwo(31) && Int32.Max() == PowerOfTwo(31) - 1 && Int32.Modulus() == PowerOfTwo(32)
    ensures Int64.Min() == 0 - PowerOfTwo(63) && Int64.Max() == PowerOfTwo(63) - 1 && Int64.Modulus() == PowerOfTwo(64)
    ensures UInt64.Min() == 0 && UInt64.Max() == PowerOfTwo(64) - 1 && UInt64.Modulus() == PowerOfTwo(64)
  {
    Powers();
    assert PowerOfTwo(32) == 2 * PowerOfTwo(31) && PowerOfTwo(64) == 2 * PowerOfTwo(63);
  }

  // digits10 + 2 characters are always enough.
  lemma BufferSuffices(ty: IntType, v: int)
    requires ty.Min() <= v <= ty.Max()
    ensures |Text(v)| <= ty.Digits10() + 2
  {
    var n := if v < 0 then -v else v;
    var k := if ty.UInt64? then 20 else ty.Digits10() + 1;
    assert n < Pow10(k) by { PowersOfTen(); }
    DecimalLength(n, k);
    hide Decimal, Pow10;
  }

  lemma PowersOfTen()
    ensures Pow10(10) == 10_000_000_000
    ensures Pow10(19) == 10_000_000_000_000_000_000
    ensures Pow10(20) == 100_000_000_000_000_000_000
  {
    assert Pow10(5) == 100_000;
    assert Pow10(10) == 10_000_000_000;
    assert Pow10(15) == 1_000_000_000_000_000;
  }

  // `convert`: print into a stack buffer of digits10 + 2 characters and take the tail.
  method Convert(ty: IntType, value: int) returns (s: string)
    requires ty.Min() <= value <= ty.Max()
    ensures s == Text(value)
  {
    BufferSuffices(ty, value);
    var size := ty.Digits10() + 2;
    var buffer := new char[size];
    var start := IntegerToString(buffer, size, value);
    s := buffer[start..];
    assert buffer[start..] == buffer[start..size];
  }
}
