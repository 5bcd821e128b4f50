/**
 * The scaled-integer arithmetic of `PreciseNumber`. A number is its `smallestUnit`: an unbounded
 * integer counting 1/K parts. Division is GMP's, which truncates toward zero.
 */
module PreciseNumber {

  const K: int := 10_000_000_000

  function Abs(a: int): nat { if a < 0 then -a else a }

  // GMP quotient: magnitude rounded down, sign restored.
  function TruncDiv(a: int, b: int): int
    requires b != 0
  {
    var q := Abs(a) / Abs(b);
    if (a < 0) == (b < 0) then q else -q
  }

  function Mul(a: int, b: int): int { TruncDiv(a * b, K) }

  // `operator/`: dividing by zero yields zero.
  function Div(a: int, b: int): int { if b == 0 then 0 else TruncDiv(a * K, b) }

  // `operator/=`: dividing by zero leaves the number as it was.
  function DivAssign(a: int, b: int): int { if b == 0 then a else TruncDiv(a * K, b) }

  function Fmod(a: int, b: int): int { if b == 0 then 0 else a - TruncDiv(a, b) * b }

  function Min(a: int, b: int): int { if a < b then a else b }

  // a / b rounded up, for the error bounds.
  function CeilDiv(a: nat, b: nat): nat
    requires b > 0
  {
    (a + b - 1) / b
  }

  lemma ScaleMonotone(a: int, b: int, d: int)
    requires a <= b && 0 <= d
    ensures a * d <= b * d
  {
  }

  lemma QuotientBounds(n: int, d: int)
    requires d > 0
    ensures n / d * d <= n < n / d * d + d
  {
    assert n == n / d * d + n % d;
  }

  // GMP division leaves a remainder smaller than the divisor and on the dividend's side of zero;
  // no other quotient does.
  lemma TruncDivExactly(a: int, b: int, q: int)
    requires b != 0
    ensures q == TruncDiv(a, b) <==>
      var r := a - q * b; Abs(r) < Abs(b) && (a > 0 ==> r >= 0) && (a < 0 ==> r <= 0)
  {
    var m, d := Abs(a), Abs(b);
    var p := if (a < 0) == (b < 0) then q else -q;
    SignedProduct(a, b, q);
    MagnitudeQuotient(m, d, p);
    if a == 0 {
      NoMultipleBelow(q, b);
    } else {
      RemainderBySign(a, b, q * b, p * d);
    }
  }

  lemma NoMultipleBelow(q: int, b: int)
    requires b != 0
    ensures Abs(q * b) < Abs(b) <==> q == 0
  {
    if q >= 1 {
      ScaleMonotone(1, q, Abs(b));
    } else if q <= -1 {
      ScaleMonotone(1, -q, Abs(b));
    }
    SignedProduct(1, b, q);
  }

  lemma RemainderBySign(a: int, b: int, product: int, magnitude: int)
    requires a != 0 && product == if a < 0 then -magnitude else magnitude
    ensures 0 <= Abs(a) - magnitude < Abs(b) <==>
      var r := a - product; Abs(r) < Abs(b) && (a > 0 ==> r >= 0) && (a < 0 ==> r <= 0)
  {
  }

  lemma SignedProduct(a: int, b: int, q: int)
    ensures var p := if (a < 0) == (b < 0) then q else -q; q * b == if a < 0 then -(p * Abs(b)) else p * Abs(b)
  {
    if b < 0 {
      assert q * b == -(q * -b);
      assert (-q) * -b == -(q * -b);
    } else {
      assert (-q) * b == -(q * b);
    }
  }

  lemma MagnitudeQuotient(m: nat, d: nat, p: int)
    requires d > 0
    ensures p == m / d <==> 0 <= m - p * d < d
  {
    QuotientBounds(m, d);
    QuotientUnique(m, d, p);
  }

  // A quotient is the only multiple count that fits.
  lemma QuotientUnique(n: int, d: int, q: int)
    requires d > 0
    ensures q * d <= n ==> q <= n / d
    ensures n < q * d + d ==> n / d <= q
  {
    QuotientBounds(n, d);
    var r := n / d;
    if r < q {
      ScaleMonotone(r + 1, q, d);
    } else if q < r {
      ScaleMonotone(q + 1, r, d);
    }
  }

  lemma RemainderUnique(n: int, d: int, q: int, r: int)
    requires d > 0 && n == q * d + r && 0 <= r < d
    ensures n % d == r
  {
    QuotientUnique(n, d, q);
  }

  // The operators in plain integers: the scaled product and quotient are off by less than one unit
  // of the divisor, on the side of zero. A zero divisor gives zero to `/` and leaves `/=` alone.
  lemma MulExactly(a: int, b: int, c: int)
    ensures c == Mul(a, b) <==>
      var r := a * b - c * K; Abs(r) < K && (a * b > 0 ==> r >= 0) && (a * b < 0 ==> r <= 0)
  {
    TruncDivExactly(a * b, K, c);
    hide TruncDiv;
  }

  lemma DivExactly(a: int, b: int, c: int)
    ensures b == 0 ==> Div(a, b) == 0 && DivAssign(a, b) == a
    ensures b != 0 ==> Div(a, b) == DivAssign(a, b)
    ensures b != 0 ==> (c == Div(a, b) <==>
      var r := a * K - c * b; Abs(r) < Abs(b) && (a > 0 ==> r >= 0) && (a < 0 ==> r <= 0))
  {
    if b != 0 {
      TruncDivExactly(a * K, b, c);
      hide TruncDiv;
    }
  }

  lemma MulBounds(a: int, b: int)
    requires 0 <= a && 0 <= b
    ensures Mul(a, b) >= 0
    ensures Mul(a, b) * K <= a * b < Mul(a, b) * K + K
  {
    assert a * b >= 0;
  }

  lemma DivBounds(a: int, b: int)
    requires 0 <= a && 0 < b
    ensures Div(a, b) == DivAssign(a, b) >= 0
    ensures Div(a, b) * b <= a * K < Div(a, b) * b + b
  {
    var n := a * K;
    assert Div(a, b) == n / b;
    QuotientBounds(n, b);
    QuotientUnique(n, b, 0);
  }

  lemma MulMonotone(a: int, b: int, p: int)
    requires 0 <= a <= b && 0 <= p
    ensures 0 <= Mul(a, p) <= Mul(b, p)
  {
    MulBounds(a, p);
    MulBounds(b, p);
    assert a * p <= b * p;
  }

  lemma DivMonotone(a: int, b: int, p: int)
    requires 0 <= a <= b && 0 < p
    ensures 0 <= Div(a, p) <= Div(b, p)
  {
    DivBounds(a, p);
    DivBounds(b, p);
    QuotientUnique(b * K, p, Div(a, p));
  }

  // Truncation never creates value: neither order of scaling down and up exceeds the start.
  lemma MulAfterDiv(x: int, p: int)
    requires 0 <= x && 0 < p
    ensures 0 <= Mul(Div(x, p), p) <= x
  {
    DivBounds(x, p);
    MulBounds(Div(x, p), p);
  }

  lemma DivAfterMul(x: int, p: int)
    requires 0 <= x && 0 < p
    ensures 0 <= Div(Mul(x, p), p) <= x
  {
    MulBounds(x, p);
    DivBounds(Mul(x, p), p);
    QuotientUnique(Mul(x, p) * K, p, x);
  }

  // A nonnegative factor leaves a positive product only of a positive number, and a factor of at
  // most one cannot enlarge a nonnegative number.
  lemma MulPositive(a: int, b: int)
    requires 0 <= b && Mul(a, b) > 0
    ensures a > 0
  {
    if a <= 0 {
      ScaleMonotone(a, 0, b);
    }
  }

  lemma MulAtMostOne(a: int, f: int)
    requires 0 <= a && f <= K
    ensures Mul(a, f) <= a
  {
    if f < 0 {
      assert a * f <= 0;
    } else {
      MulBounds(a, f);
      ScaleMonotone(f, K, a);
      assert Mul(a, f) * K <= a * K;
    }
  }

  // Negation as the worker writes it: times PreciseNumber{"-1"}.
  lemma MulMinusOne(a: int)
    ensures Mul(a, -K) == -a
  {
    assert Abs(a * -K) == Abs(a) * K;
  }

  lemma FmodOfNonnegative(a: int, b: int)
    requires 0 <= a && 0 <= b
    ensures 0 <= Fmod(a, b) <= a
    ensures b > 0 ==> Fmod(a, b) == a % b
    ensures b > 0 ==> Fmod(a - Fmod(a, b), b) == 0
  {
    if b > 0 {
      QuotientBounds(a, b);
      var q := a / b;
      assert a % b == a - q * b;
      QuotientUnique(a, b, 0);
      assert a - Fmod(a, b) == q * b >= 0;
      QuotientUnique(q * b, b, q);
    }
  }
}
