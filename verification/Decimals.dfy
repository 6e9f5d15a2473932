/** Finite decimal numbers as the platform's arithmetic handles them: an integer coefficient, a
    power-of-ten exponent, and a context of 28 significant digits. */
module Decimals {

  datatype Result<+T, +E> = Ok(value: T) | Err(error: E)

  /** The number coeff * 10^exp. */
  datatype Dec = Dec(coeff: int, exp: int)

  const PRECISION: nat := 28

  // ---- Powers of ten and digit counts -----------------------------------------------------------

  function Pow10(n: nat): (p: nat)
    ensures p >= 1
  {
    if n == 0 then 1 else 10 * Pow10(n - 1)
  }

  lemma {:induction false} Pow10Add(a: nat, b: nat)
    ensures Pow10(a + b) == Pow10(a) * Pow10(b)
  {
    if a > 0 {
      Pow10Add(a - 1, b);
      assert Pow10(a + b) == 10 * Pow10(a + b - 1);
      assert 10 * (Pow10(a - 1) * Pow10(b)) == (10 * Pow10(a - 1)) * Pow10(b);
    }
  }

  lemma {:induction false} Pow10Monotone(a: nat, b: nat)
    requires a <= b
    ensures Pow10(a) <= Pow10(b)
    decreases b - a
  {
    if a < b {
      Pow10Monotone(a, b - 1);
    }
  }

  function Abs(x: int): nat {
    if x < 0 then -x else x
  }

  /** How many decimal digits a coefficient has; zero has one. */
  function Digits(n: nat): (d: nat)
    ensures d >= 1
  {
    if n < 10 then 1 else 1 + Digits(n / 10)
  }

  lemma {:induction false} DigitsBounds(n: nat)
    ensures n < Pow10(Digits(n))
    ensures n > 0 ==> Pow10(Digits(n) - 1) <= n
  {
    if n >= 10 {
      DigitsBounds(n / 10);
      assert Pow10(Digits(n)) == 10 * Pow10(Digits(n / 10));
      assert Pow10(Digits(n) - 1) == 10 * Pow10(Digits(n / 10) - 1);
    }
  }

  /** A number has at most k digits exactly when it is below 10^k. */
  lemma DigitsAtMost(n: nat, k: nat)
    requires k >= 1
    ensures Digits(n) <= k <==> n < Pow10(k)
  {
    DigitsBounds(n);
    if Digits(n) <= k {
      Pow10Monotone(Digits(n), k);
    } else {
      Pow10Monotone(k, Digits(n) - 1);
    }
  }

  // ---- Values ------------------------------------------------------------------------------------

  /** The coefficient of the same number at a smaller exponent. */
  function Rescaled(d: Dec, exp: int): int
    requires exp <= d.exp
  {
    d.coeff * Pow10(d.exp - exp)
  }

  function Lower(a: int, b: int): int {
    if a <= b then a else b
  }

  predicate SameValue(a: Dec, b: Dec) {
    Rescaled(a, Lower(a.exp, b.exp)) == Rescaled(b, Lower(a.exp, b.exp))
  }

  predicate AtMost(a: Dec, b: Dec) {
    Rescaled(a, Lower(a.exp, b.exp)) <= Rescaled(b, Lower(a.exp, b.exp))
  }

  lemma RescaleTwice(d: Dec, x: int, y: int)
    requires y <= x <= d.exp
    ensures Rescaled(d, y) == Rescaled(d, x) * Pow10(x - y)
  {
    Pow10Add(d.exp - x, x - y);
    assert d.coeff * (Pow10(d.exp - x) * Pow10(x - y)) == d.coeff * Pow10(d.exp - x) * Pow10(x - y);
  }

  // ---- Products ------------------------------------------------------------------------------------

  lemma MulNonNegative(a: int, b: int)
    requires a >= 0 && b >= 0
    ensures a * b >= 0
  {
  }

  /** Multiples of p are at least p apart. */
  lemma MulStep(a: int, b: int, p: int)
    requires a < b && p >= 0
    ensures a * p + p <= b * p
  {
    MulNonNegative(b - a - 1, p);
    assert (b - a - 1) * p == b * p - a * p - p;
  }

  lemma MulMonotone(a: int, b: int, p: nat)
    requires a <= b
    ensures a * p <= b * p
  {
    MulNonNegative(b - a, p);
    assert (b - a) * p == b * p - a * p;
  }

  lemma DivUnique(n: nat, p: nat, q: nat, r: nat)
    requires p >= 1 && n == q * p + r && r < p
    ensures n / p == q && n % p == r
  {
    var q', r' := n / p, n % p;
    assert n == q' * p + r' by {
      assert n == p * q' + r';
    }
    if q' < q {
      MulStep(q', q, p);
    } else if q < q' {
      MulStep(q, q', p);
    }
  }

  lemma DivMultiple(m: nat, p: nat)
    requires p >= 1
    ensures m * p / p == m && m * p % p == 0
  {
    MulNonNegative(m, p);
    DivUnique(m * p, p, m, 0);
  }

  // ---- Rounding ----------------------------------------------------------------------------------

  /** Divide by p and round half up, ties away from zero. */
  function HalfUp(c: int, p: nat): int
    requires p >= 1
  {
    var q := Abs(c) / p;
    var up := if 2 * (Abs(c) % p) >= p then q + 1 else q;
    if c < 0 then -up else up
  }

  /** Divide by p and round half to even: what the context does to excess digits. */
  function HalfEven(c: int, p: nat): int
    requires p >= 1
  {
    var q := Abs(c) / p;
    var r := Abs(c) % p;
    var even := if 2 * r > p || (2 * r == p && q % 2 == 1) then q + 1 else q;
    if c < 0 then -even else even
  }

  /** m is the integer nearest to c / p, and of two equally near ones the one away from zero. */
  predicate NearestAway(c: int, p: nat, m: int) {
    && 2 * Abs(m * p - c) <= p
    && (2 * Abs(m * p - c) == p ==> Abs(m * p) > Abs(c))
  }

  lemma HalfUpIsNearestAway(c: int, p: nat)
    requires p >= 1
    ensures NearestAway(c, p, HalfUp(c, p))
  {
    var q, r := Abs(c) / p, Abs(c) % p;
    assert Abs(c) == q * p + r;
    assert (q + 1) * p == q * p + p;
    assert (-q) * p == -(q * p) && (-(q + 1)) * p == -(q * p) - p;
  }

  /** There is only one such integer. */
  lemma NearestAwayIsUnique(c: int, p: nat, m: int, n: int)
    requires p >= 1 && NearestAway(c, p, m) && NearestAway(c, p, n)
    ensures m == n
  {
    if m < n {
      NoTwoNearest(c, p, m, n);
    } else if n < m {
      NoTwoNearest(c, p, n, m);
    }
  }

  lemma NoTwoNearest(c: int, p: nat, m: int, n: int)
    requires p >= 1 && m < n && NearestAway(c, p, m)
    ensures !NearestAway(c, p, n)
  {
    MulStep(m, n, p);
    if NearestAway(c, p, n) {
      assert n * p == m * p + p;
      if m >= 0 {
        MulNonNegative(m, p);
      } else {
        MulNonNegative(-(m + 1), p);
      }
    }
  }

  lemma HalfUpMonotone(c: int, d: int, p: nat)
    requires p >= 1 && c <= d
    ensures HalfUp(c, p) <= HalfUp(d, p)
  {
    HalfUpIsNearestAway(c, p);
    HalfUpIsNearestAway(d, p);
    var m, n := HalfUp(c, p), HalfUp(d, p);
    if n < m {
      MulStep(n, m, p);
    }
  }

  /** A whole multiple rounds to itself under either rule. */
  lemma RoundingMultiples(m: int, p: nat)
    requires p >= 1
    ensures HalfUp(m * p, p) == m && HalfEven(m * p, p) == m
  {
    assert Abs(m * p) == Abs(m) * p by {
      if m < 0 {
        assert m * p == -((-m) * p);
      }
    }
    DivMultiple(Abs(m), p);
    if m < 0 {
      assert m * p < 0 by { assert m * p == -((-m) * p) && (-m) * p >= p by { assert (-m) * p >= 1 * p; } }
    } else {
      assert m * p >= 0;
    }
  }

  // ---- The context ---------------------------------------------------------------------------------

  /** A coefficient with more than `digits` digits is rounded half to even to that many. */
  function RoundTo(d: Dec, digits: nat): Dec
    requires digits >= 1
  {
    var n := Digits(Abs(d.coeff));
    if n <= digits then d
    else
      var rounded := HalfEven(d.coeff, Pow10(n - digits));
      if Abs(rounded) == Pow10(digits) then Dec(rounded / 10, d.exp + (n - digits) + 1)
      else Dec(rounded, d.exp + (n - digits))
  }

  /** What the context does to every result. */
  function Fix(d: Dec): Dec {
    RoundTo(d, PRECISION)
  }

  function Scaleb(d: Dec, by10: int): Dec {
    Fix(Dec(d.coeff, d.exp + by10))
  }

  datatype ArithmeticError = InvalidOperation

  /** Rounded half up to the exponent `exp`; more than 28 digits is an invalid operation. */
  function QuantizeTo(d: Dec, exp: int): Result<Dec, ArithmeticError> {
    var coeff := if d.exp >= exp then Rescaled(d, exp) else HalfUp(d.coeff, Pow10(exp - d.exp));
    if Digits(Abs(coeff)) <= PRECISION then Ok(Dec(coeff, exp)) else Err(InvalidOperation)
  }

  /** Rounding keeps a number that fits, and gives any other exactly the digits asked for. */
  lemma RoundToDigits(d: Dec, digits: nat)
    requires digits >= 1
    ensures Abs(d.coeff) < Pow10(digits) ==> RoundTo(d, digits) == d
    ensures Abs(d.coeff) >= Pow10(digits) ==>
      Pow10(digits - 1) <= Abs(RoundTo(d, digits).coeff) < Pow10(digits) && RoundTo(d, digits).exp > d.exp
  {
    var c := Abs(d.coeff);
    DigitsAtMost(c, digits);
    if c >= Pow10(digits) {
      var k := Digits(c) - digits;
      DigitsBounds(c);
      Pow10Add(digits - 1, k);
      Pow10Add(digits, k);
      HalfEvenBounds(d.coeff, Pow10(k), Pow10(digits - 1), Pow10(digits));
    }
  }

  lemma HalfEvenBounds(c: int, p: nat, lo: nat, hi: nat)
    requires p >= 1 && lo * p <= Abs(c) < hi * p
    ensures lo <= Abs(HalfEven(c, p)) <= hi
  {
    QuotientBounds(Abs(c), p, lo, hi);
  }

  lemma QuotientBounds(c: nat, p: nat, lo: nat, hi: nat)
    requires p >= 1 && lo * p <= c < hi * p
    ensures lo <= c / p < hi
  {
    assert c == c / p * p + c % p by {
      assert c == p * (c / p) + c % p;
    }
    if c / p < lo {
      MulStep(c / p, lo, p);
    }
    if c / p > hi {
      MulStep(hi, c / p, p);
    }
  }
}
