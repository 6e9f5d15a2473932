/** Amounts of any length: what the context's own rounding does before the rounding point. */
module MoneyRounding {
  import opened Decimals
  import opened Money

  /** What the context makes of a whole number: 28 significant digits, half to even. */
  function InContext(c: int): int {
    var n := Digits(Abs(c));
    if n <= PRECISION then c else HalfEven(c, Pow10(n - PRECISION)) * Pow10(n - PRECISION)
  }

  // ---- Half to even ----------------------------------------------------------------------------------

  lemma HalfEvenOdd(c: int, p: nat)
    requires p >= 1
    ensures HalfEven(-c, p) == -HalfEven(c, p)
  {
  }

  lemma HalfEvenMonotone(c: nat, d: nat, p: nat)
    requires p >= 1 && c <= d
    ensures HalfEven(c, p) <= HalfEven(d, p)
  {
    var q, r, q', r' := c / p, c % p, d / p, d % p;
    assert c == p * q + r && d == p * q' + r';
    if q' < q {
      MulStep(q', q, p);
    }
  }

  /** The even rounding of a quotient with its rest. */
  function Even(quotient: nat, rest: nat, p: nat): nat {
    if 2 * rest > p || (2 * rest == p && quotient % 2 == 1) then quotient + 1 else quotient
  }

  lemma HalfEvenIs(c: int, p: nat, quotient: nat, rest: nat)
    requires p >= 1 && rest < p && Abs(c) == quotient * p + rest
    ensures HalfEven(c, p) == if c < 0 then 0 - Even(quotient, rest, p) else Even(quotient, rest, p)
  {
    DivUnique(Abs(c), p, quotient, rest);
  }

  lemma HalfEvenScale(c: int, p: nat, q: nat)
    requires p >= 1 && q >= 1
    ensures p * q >= 1 && HalfEven(c * q, p * q) == HalfEven(c, p)
  {
    hide HalfEven, Even, Abs;
    var quotient, rest := Abs(c) / p, Abs(c) % p;
    Division(Abs(c), p);
    ScaleDivision(c, p, q, quotient, rest);
    EvenScale(quotient, rest, p, q);
    SignScale(c, q);
    HalfEvenIs(c, p, quotient, rest);
    HalfEvenIs(c * q, p * q, quotient, rest * q);
  }

  lemma EvenScale(quotient: nat, rest: nat, p: nat, q: nat)
    requires q >= 1 && rest * q >= 0 && p * q >= 0
    ensures Even(quotient, rest * q, p * q) == Even(quotient, rest, p)
  {
    CompareScaled(2 * rest, p, q);
    MulAssociates(2, rest, q);
  }

  lemma SignScale(c: int, q: nat)
    requires q >= 1
    ensures c * q < 0 <==> c < 0
  {
    CompareScaled(0, c, q);
  }

  lemma Division(n: nat, p: nat)
    requires p >= 1
    ensures n == n / p * p + n % p
  {
    assert n == p * (n / p) + n % p;
  }

  lemma ScaleDivision(c: int, p: nat, q: nat, quotient: nat, rest: nat)
    requires q >= 1 && rest < p && Abs(c) == quotient * p + rest
    ensures p * q >= 1 && 0 <= rest * q < p * q && Abs(c * q) == quotient * (p * q) + rest * q
  {
    AbsScale(c, q);
    MulNonNegative(rest, q);
    MulStep(rest, p, q);
    MulAssociates(quotient, p, q);
    Distribute(quotient * p, rest, q);
  }

  lemma Distribute(a: int, b: int, q: int)
    ensures (a + b) * q == a * q + b * q
  {
  }

  lemma CompareScaled(a: int, b: int, q: nat)
    requires q >= 1
    ensures a * q > b * q <==> a > b
    ensures a * q == b * q <==> a == b
  {
    if a < b {
      MulStep(a, b, q);
    } else if b < a {
      MulStep(b, a, q);
    }
  }

  // ---- The context on values -------------------------------------------------------------------------

  /** More trailing zeros do not change what the context makes of a number. */
  lemma InContextScale(c: int, j: nat)
    ensures InContext(c * Pow10(j)) == InContext(c) * Pow10(j)
  {
    hide HalfEven;
    var n := Digits(Abs(c));
    AbsScale(c, Pow10(j));
    if c == 0 {
      assert Digits(0) == 1;
    } else {
      DigitsScale(Abs(c), j);
      hide Digits;
      if n > PRECISION {
        var k := n - PRECISION;
        Pow10Add(k, j);
        HalfEvenScale(c, Pow10(k), Pow10(j));
        MulAssociates(HalfEven(c, Pow10(k)), Pow10(k), Pow10(j));
      } else if n + j > PRECISION {
        var k := n + j - PRECISION;
        Pow10Add(j - k, k);
        MulAssociates(c, Pow10(j - k), Pow10(k));
        RoundingMultiples(c * Pow10(j - k), Pow10(k));
      }
    }
  }

  lemma DigitsScale(n: nat, j: nat)
    requires n > 0
    ensures Digits(n * Pow10(j)) == Digits(n) + j
  {
    var d := Digits(n);
    DigitsBounds(n);
    Pow10Add(d, j);
    Pow10Add(d - 1, j);
    MulStep(n, Pow10(d), Pow10(j));
    MulMonotone(Pow10(d - 1), n, Pow10(j));
    DigitsAtMost(n * Pow10(j), d + j);
    if d + j > 1 {
      DigitsAtMost(n * Pow10(j), d + j - 1);
    }
  }

  /** The context's result, at any smaller exponent, is what the context makes of the number there. */
  lemma FixValue(d: Dec, x: int)
    requires x <= d.exp
    ensures x <= Fix(d).exp && Rescaled(Fix(d), x) == InContext(Rescaled(d, x))
  {
    hide HalfEven;
    InContextScale(d.coeff, d.exp - x);
    FixIsInContext(d);
    FixFiner(d);
    RescaleTwice(Fix(d), d.exp, x);
  }

  lemma FixFiner(d: Dec)
    ensures d.exp <= Fix(d).exp
  {
    FixCases(d);
  }

  lemma FixIsInContext(d: Dec)
    ensures d.exp <= Fix(d).exp && Rescaled(Fix(d), d.exp) == InContext(d.coeff)
  {
    hide HalfEven;
    var n := Digits(Abs(d.coeff));
    assert Pow10(0) == 1;
    if n > PRECISION {
      var k := n - PRECISION;
      var rounded := HalfEven(d.coeff, Pow10(k));
      if Abs(rounded) == Pow10(PRECISION) {
        Pow10Add(k, 1);
        assert Pow10(1) == 10;
        CarryTenth(rounded, Pow10(k));
      }
    }
  }

  /** A carry into a 29th digit is moved into the exponent without loss. */
  lemma CarryTenth(rounded: int, p: nat)
    requires Abs(rounded) == Pow10(PRECISION)
    ensures rounded / 10 * (p * 10) == rounded * p
  {
    Tenth(rounded);
    var tenth := rounded / 10;
    hide Pow10;
    assert tenth * (p * 10) == tenth * 10 * p by {
      MulAssociates(tenth, 10, p);
    }
  }

  lemma Tenth(rounded: int)
    requires Abs(rounded) == Pow10(PRECISION)
    ensures rounded == rounded / 10 * 10
  {
    hide Pow10;
    PowerIsTenfold();
    var part: int := Pow10(PRECISION - 1);
    assert rounded == 10 * part || rounded == 10 * -part;
  }

  lemma PowerIsTenfold()
    ensures Pow10(PRECISION) == 10 * Pow10(PRECISION - 1)
  {
  }

  lemma InContextMonotoneUp(a: nat, b: nat)
    requires a <= b
    ensures 0 <= InContext(a) <= InContext(b)
  {
    hide InContext, HalfEven, Pow10;
    LongIs(a);
    LongIs(b);
    DigitsGrow(a, b);
    var m, n := Digits(a), Digits(b);
    if n > PRECISION && m == n {
      SameLength(a, b, n - PRECISION);
    } else if n > PRECISION && m > PRECISION {
      Pow10Monotone(m, n - 1);
    } else if n > PRECISION {
      LimitIsDigits(a);
      Pow10Monotone(PRECISION, n - 1);
    }
  }

  lemma DigitsGrow(a: nat, b: nat)
    requires a <= b
    ensures Digits(a) <= Digits(b)
  {
    DigitsBounds(b);
    DigitsAtMost(a, Digits(b));
  }

  lemma SameLength(a: nat, b: nat, k: nat)
    requires a <= b
    ensures HalfEven(a, Pow10(k)) * Pow10(k) <= HalfEven(b, Pow10(k)) * Pow10(k)
  {
    hide HalfEven;
    HalfEvenMonotone(a, b, Pow10(k));
    MulMonotone(HalfEven(a, Pow10(k)), HalfEven(b, Pow10(k)), Pow10(k));
  }

  /** A long number stays within its own power of ten. */
  lemma LongIs(c: nat)
    ensures Digits(c) <= PRECISION ==> InContext(c) == c
    ensures Digits(c) > PRECISION ==>
      && InContext(c) == HalfEven(c, Pow10(Digits(c) - PRECISION)) * Pow10(Digits(c) - PRECISION)
      && Pow10(Digits(c) - 1) <= InContext(c) <= Pow10(Digits(c))
  {
    hide HalfEven;
    var n := Digits(c);
    if n > PRECISION {
      LongBounds(c);
    }
  }

  lemma LongBounds(c: nat)
    requires Digits(c) > PRECISION
    ensures var k := Digits(c) - PRECISION;
      Pow10(Digits(c) - 1) <= HalfEven(c, Pow10(k)) * Pow10(k) <= Pow10(Digits(c))
  {
    hide HalfEven, Digits, Pow10;
    var k := Digits(c) - PRECISION;
    var p, lo, hi := Pow10(k), Pow10(PRECISION - 1), Pow10(PRECISION);
    LimitIsDigits(c);
    DigitsBounds(c);
    Pow10Add(PRECISION - 1, k);
    Pow10Add(PRECISION, k);
    HalfEvenBounds(c, p, lo, hi);
    HalfEvenPositive(c, p);
    MulMonotone(lo, HalfEven(c, p), p);
    MulMonotone(HalfEven(c, p), hi, p);
  }

  lemma HalfEvenPositive(c: nat, p: nat)
    requires p >= 1
    ensures HalfEven(c, p) >= 0
  {
  }

  lemma InContextOdd(c: int)
    ensures InContext(-c) == -InContext(c)
  {
    var n := Digits(Abs(c));
    assert Abs(-c) == Abs(c);
    if n > PRECISION {
      HalfEvenOdd(c, Pow10(n - PRECISION));
      hide HalfEven;
      assert -HalfEven(c, Pow10(n - PRECISION)) * Pow10(n - PRECISION)
        == -(HalfEven(c, Pow10(n - PRECISION)) * Pow10(n - PRECISION));
    }
  }

  lemma InContextMonotone(a: int, b: int)
    requires a <= b
    ensures InContext(a) <= InContext(b)
  {
    hide InContext;
    InContextOdd(a);
    InContextOdd(b);
    if a >= 0 {
      InContextMonotoneUp(a, b);
    } else if b <= 0 {
      InContextMonotoneUp(-b, -a);
    } else {
      InContextMonotoneUp(0, b);
      InContextMonotoneUp(0, -a);
    }
  }

  /** The context keeps the order of any two numbers. */
  lemma FixMonotone(a: Dec, b: Dec)
    requires AtMost(a, b)
    ensures AtMost(Fix(a), Fix(b))
  {
    hide Fix, InContext;
    var x := Lower(a.exp, b.exp);
    FixValue(a, x);
    FixValue(b, x);
    InContextMonotone(Rescaled(a, x), Rescaled(b, x));
    AtMostFrom(Fix(a), Fix(b), x);
  }

  lemma AtMostFrom(a: Dec, b: Dec, low: int)
    requires low <= a.exp && low <= b.exp && Rescaled(a, low) <= Rescaled(b, low)
    ensures AtMost(a, b)
  {
    var x := Lower(a.exp, b.exp);
    RescaleTwice(a, x, low);
    RescaleTwice(b, x, low);
    if Rescaled(b, x) < Rescaled(a, x) {
      MulStep(Rescaled(b, x), Rescaled(a, x), Pow10(x - low));
    }
  }

  // ---- The rounding point, for every amount ------------------------------------------------------------

  /** The amount as the context hands it to the rounding point. */
  function Shifted(d: Dec, e: nat): Dec {
    Fix(Dec(d.coeff, d.exp + e))
  }

  lemma ToMinorOfShifted(d: Dec, e: nat)
    ensures ToMinorOf(d, e) == ToMinorOf(Shifted(d, e), 0) && Abs(Shifted(d, e).coeff) < Limit()
  {
    var f := Shifted(d, e);
    FixCases(Dec(d.coeff, d.exp + e));
    FixCases(f);
    hide Fix;
    assert Dec(f.coeff, f.exp + 0) == f;
  }

  /** A larger amount never converts to fewer minor units, however many digits either has. */
  lemma ToMinorIsMonotone(a: Dec, b: Dec, e: nat)
    requires AtMost(a, b) && ToMinorOf(a, e).Ok? && ToMinorOf(b, e).Ok?
    ensures ToMinorOf(a, e).value <= ToMinorOf(b, e).value
  {
    ToMinorOfShifted(a, e);
    ToMinorOfShifted(b, e);
    ShiftMonotone(a, b, e);
    hide ToMinorOf, Shifted, AtMost;
    ShortIsMonotone(Shifted(a, e), Shifted(b, e), 0);
  }

  lemma ShiftMonotone(a: Dec, b: Dec, e: nat)
    requires AtMost(a, b)
    ensures AtMost(Shifted(a, e), Shifted(b, e))
  {
    hide Fix;
    FixMonotone(Dec(a.coeff, a.exp + e), Dec(b.coeff, b.exp + e));
  }

  /** With c the digits of the amount and P the number of its units in one minor unit: rounding c to 28
      digits carries what is left over c / P across one half of P, in either direction. */
  predicate CrossesHalf(d: Dec, e: nat) {
    var c, n := Abs(d.coeff), Digits(Abs(d.coeff));
    && n > PRECISION && d.exp + e < 0
    && var P := Pow10(-(d.exp + e));
    var left := HalfEven(c, Pow10(n - PRECISION)) * Pow10(n - PRECISION) - c / P * P;
    (2 * (c % P) >= P) != (2 * left >= P)
  }

  /** For every amount, of any number of digits: what conversion answers is the nearest integer, ties
      away from zero, exactly when the context's rounding does not cross a half. */
  lemma NearestExactly(d: Dec, e: nat)
    requires ToMinorOf(d, e).Ok?
    ensures IsNearestMinor(d, e, ToMinorOf(d, e).value) <==> !CrossesHalf(d, e)
  {
    var n := Digits(Abs(d.coeff));
    LimitIsDigits(Abs(d.coeff));
    if n <= PRECISION {
      ToMinorIsNearest(d, e, ToMinorOf(d, e).value);
    } else {
      LongFits(d, e);
      hide ToMinorOf, Digits, HalfEven, IsNearestMinor, CrossesHalf;
      var E := d.exp + e;
      var p, P, R := Pow10(n - PRECISION), Pow10(-E), Pow10(-E - (n - PRECISION));
      Pow10Add(-E - (n - PRECISION), n - PRECISION);
      assert P == R * p;
      LongMinor(d, e);
      NearestIsHalfUp(d, e, ToMinorOf(d, e).value);
      TwoRoundings(Abs(d.coeff), p, R, P);
      CrossesIs(d, e, P);
      SameSign(d.coeff, p, P);
    }
  }

  lemma CrossesIs(d: Dec, e: nat, P: nat)
    requires Digits(Abs(d.coeff)) > PRECISION && d.exp + e < 0 && P == Pow10(-(d.exp + e))
    ensures var c, p := Abs(d.coeff), Pow10(Digits(Abs(d.coeff)) - PRECISION);
      CrossesHalf(d, e) <==> (2 * (c % P) >= P) != (2 * (HalfEven(c, p) * p - c / P * P) >= P)
  {
  }

  /** A long amount is answered only if its exponent leaves the context's 28 digits room. */
  lemma LongFits(d: Dec, e: nat)
    requires ToMinorOf(d, e).Ok? && Digits(Abs(d.coeff)) > PRECISION
    ensures d.exp + e < 0 && Digits(Abs(d.coeff)) - PRECISION <= -(d.exp + e)
  {
    hide HalfEven, Pow10;
    var n, E := Digits(Abs(d.coeff)), d.exp + e;
    var f := Shifted(d, e);
    LimitIsDigits(Abs(d.coeff));
    FixCases(Dec(d.coeff, E));
    FixExponent(Dec(d.coeff, E));
    hide Digits, Fix;
    if f.exp > 0 {
      FixCases(f);
      AbsScale(f.coeff, Pow10(f.exp));
      Pow10Monotone(1, f.exp);
      MulMonotone(Pow10(PRECISION - 1), Abs(f.coeff), Pow10(f.exp));
      TimesTen(Pow10(f.exp));
      LimitIsDigits(Abs(Rescaled(f, 0)));
    }
  }

  lemma TimesTen(p: nat)
    requires p >= Pow10(1)
    ensures Pow10(PRECISION - 1) * p >= Limit()
  {
    Pow10Add(PRECISION - 1, 1);
    MulMonotone(Pow10(1), p, Pow10(PRECISION - 1));
    assert Pow10(PRECISION - 1) * p == p * Pow10(PRECISION - 1);
  }

  lemma FixExponent(d: Dec)
    requires Digits(Abs(d.coeff)) > PRECISION
    ensures Fix(d).exp >= d.exp + (Digits(Abs(d.coeff)) - PRECISION)
  {
  }

  /** The answer for a long amount is the context's rounding, rounded again. */
  lemma LongMinor(d: Dec, e: nat)
    requires ToMinorOf(d, e).Ok? && d.exp + e < 0 && Digits(Abs(d.coeff)) > PRECISION
    ensures var p := Pow10(Digits(Abs(d.coeff)) - PRECISION);
      ToMinorOf(d, e).value == HalfUp(HalfEven(d.coeff, p) * p, Pow10(-(d.exp + e)))
  {
    var E, f := d.exp + e, Shifted(d, e);
    FixValue(Dec(d.coeff, E), E);
    assert Rescaled(Dec(d.coeff, E), E) == d.coeff by {
      assert Pow10(0) == 1;
    }
    ToMinorOfShifted(d, e);
    ToMinorIsMinor(f, 0);
    hide ToMinorOf, Digits, HalfEven, HalfUp, Fix;
    MinorAt(f, 0, E);
  }

  lemma NearestIsHalfUp(d: Dec, e: nat, m: int)
    requires d.exp + e < 0
    ensures IsNearestMinor(d, e, m) <==> m == HalfUp(d.coeff, Pow10(-(d.exp + e)))
  {
    var p := Pow10(-(d.exp + e));
    HalfUpIsNearestAway(d.coeff, p);
    if NearestAway(d.coeff, p, m) {
      NearestAwayIsUnique(d.coeff, p, m, HalfUp(d.coeff, p));
    }
  }

  /** Rounding to multiples of p first stays between the neighbouring multiples of R * p, and decides
      differently exactly when it crosses the middle. */
  lemma TwoRoundings(c: nat, p: nat, R: nat, P: nat)
    requires p >= 1 && R >= 1 && P == R * p && P >= 1
    ensures HalfUp(HalfEven(c, p) * p, P) == HalfUp(c, P) <==>
      ((2 * (c % P) >= P) == (2 * (HalfEven(c, p) * p - c / P * P) >= P))
  {
    hide HalfEven, HalfUp;
    BetweenMultiples(c, p, R, P);
    MulNonNegative(c / P, P);
    Division(c, P);
    HalfUpNear(c, P, c / P, c % P);
    HalfUpNear(HalfEven(c, p) * p, P, c / P, HalfEven(c, p) * p - c / P * P);
  }

  lemma HalfUpNear(v: nat, P: nat, b: nat, left: nat)
    requires P >= 1 && v == b * P + left && left <= P
    ensures HalfUp(v, P) == if 2 * left >= P then b + 1 else b
  {
    if left < P {
      DivUnique(v, P, b, left);
    } else {
      assert v == (b + 1) * P + 0;
      DivUnique(v, P, b + 1, 0);
    }
  }

  lemma BetweenMultiples(c: nat, p: nat, R: nat, P: nat)
    requires p >= 1 && R >= 1 && P == R * p && P >= 1
    ensures c / P * P <= HalfEven(c, p) * p <= c / P * P + P
  {
    var b := c / P;
    assert c == b * P + c % P by {
      assert c == P * b + c % P;
    }
    MulNonNegative(b, P);
    MulAssociates(b, R, p);
    MulAssociates(b + 1, R, p);
    assert (b + 1) * P == b * P + P;
    HalfEvenMonotone(b * P, c, p);
    HalfEvenMonotone(c, (b + 1) * P, p);
    RoundingMultiples(b * R, p);
    RoundingMultiples((b + 1) * R, p);
    hide HalfEven;
    MulMonotone(b * R, HalfEven(c, p), p);
    MulMonotone(HalfEven(c, p), (b + 1) * R, p);
  }

  /** Both roundings only look at the magnitude. */
  lemma SameSign(c: int, p: nat, P: nat)
    requires p >= 1 && P >= 1
    ensures HalfUp(HalfEven(c, p) * p, P) == HalfUp(c, P) <==> HalfUp(HalfEven(Abs(c), p) * p, P) == HalfUp(Abs(c), P)
  {
    if c < 0 {
      HalfEvenOdd(c, p);
      assert -HalfEven(c, p) * p == -(HalfEven(c, p) * p);
      HalfUpOdd(c, P);
      hide HalfEven;
      HalfUpOdd(HalfEven(c, p) * p, P);
    }
  }

  lemma HalfUpOdd(c: int, p: nat)
    requires p >= 1
    ensures HalfUp(-c, p) == -HalfUp(c, p)
  {
  }

  /** Quantizing gives the nearest amount of the currency's digits, but for what the context rounds first; so does
      a fare of a currency that does not charge whole units. */
  lemma QuantizeIsNearest(d: Dec, e: nat)
    requires QuantizeOf(d, e).Ok?
    ensures QuantizeOf(d, e).value.exp == 0 - e
    ensures IsNearestMinor(d, e, QuantizeOf(d, e).value.coeff) <==> !CrossesHalf(d, e)
    ensures RoundFareOf(d, e, false) == QuantizeOf(d, e)
  {
    hide IsNearestMinor, CrossesHalf;
    NearestExactly(d, e);
    ToMinorFits(d, e);
    FromMinorIsExact(ToMinorOf(d, e).value, e);
  }
}
