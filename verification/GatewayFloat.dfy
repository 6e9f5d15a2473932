/** The number a major-unit gateway is sent: an exact decimal of a two-digit currency, rounded to
    binary64 (roundTiesToEven, section 4.3.1 of IEEE 754-2008) for JSON.

    How many amounts survive that? The code's comment says every amount below 2^53 minor units.
    The bound proved here is 100 * 2^46, which is smaller, and it is exact. */
module GatewayFloat {
  import opened Decimals
  import Money

  function Pow2(n: nat): (p: nat)
    ensures p >= 1
  {
    if n == 0 then 1 else 2 * Pow2(n - 1)
  }

  const TWO52: nat := 0x10_0000_0000_0000
  const TWO53: nat := 0x20_0000_0000_0000

  /** 100 * 2^46 minor units: 2^46 major units of a two-digit currency. */
  const BOUND: nat := 100 * 0x4000_0000_0000

  /** The number sig * 2^exp, with 2^52 <= |sig| < 2^53, or zero. Every amount of at most 28 digits
      is far inside the exponent range, so no bounds on exp are kept. */
  datatype Float = Float(sig: int, exp: int)

  /** Double the numerator until the quotient has 53 bits before the point. */
  function Grow(num: nat, den: nat): (r: (nat, nat))
    requires 1 <= num && 1 <= den && num < TWO53 * den
    ensures r.0 == num * Pow2(r.1) && TWO52 * den <= r.0 < TWO53 * den
    decreases TWO52 * den - num
  {
    if num >= TWO52 * den then (num, 0)
    else
      var (n, k) := Grow(2 * num, den);
      assert 2 * num * Pow2(k) == num * Pow2(k + 1);
      (n, k + 1)
  }

  /** Double the denominator until the quotient has no more than 53 bits before the point. */
  function Shrink(num: nat, den: nat): (r: (nat, nat))
    requires 1 <= den && num >= TWO52 * den
    ensures r.0 == den * Pow2(r.1) && r.0 >= 1 && TWO52 * r.0 <= num < TWO53 * r.0
    decreases num - den
  {
    if num < TWO53 * den then (den, 0)
    else
      var (d, k) := Shrink(num, 2 * den);
      assert 2 * den * Pow2(k) == den * Pow2(k + 1);
      (d, k + 1)
  }

  /** A significand that rounds up to 2^53 moves to the next binade. */
  function Carry(sig: int, exp: int): Float {
    if sig == TWO53 then Float(TWO52, exp + 1) else Float(sig, exp)
  }

  function PositiveFloat(num: nat, den: nat): Float
    requires 1 <= num && 1 <= den
  {
    if num < TWO53 * den then
      var (n, k) := Grow(num, den);
      Carry(HalfEven(n, den), -(k as int))
    else
      var (d, k) := Shrink(num, den);
      Carry(HalfEven(num, d), k)
  }

  /** The binary64 number nearest to a decimal with no positive exponent. */
  function ToFloat(d: Dec): Float
    requires d.exp <= 0
  {
    if d.coeff == 0 then Float(0, 0)
    else
      var f := PositiveFloat(Abs(d.coeff), Pow10(-d.exp));
      if d.coeff < 0 then Float(-f.sig, f.exp) else f
  }

  /** What the gateway is sent for `minor` units of a two-digit currency. */
  function ToGatewayMajor(minor: int): Float
    requires Abs(minor) < Money.Limit()
  {
    Money.FixCases(Dec(minor, -2));
    ToFloat(Money.FromMinorOf(minor, 2))
  }

  /** The integer nearest to 100 times the number received. */
  function Recover(f: Float): int {
    if f.exp >= 0 then 100 * f.sig * Pow2(f.exp) else HalfUp(100 * f.sig, Pow2(-f.exp))
  }

  // ---- It is the nearest binary64 number ----------------------------------------------------------------

  /** Among all whole numbers of quanta, the significand chosen is nearest to n / p. */
  lemma NearestMultiple(n: nat, p: nat, t: int)
    requires p >= 1
    ensures Abs(HalfEven(n, p) * p - n) <= Abs(t * p - n)
  {
    HalfEvenIsNear(n, p);
    var s := HalfEven(n, p);
    if t < s {
      MulStep(t, s, p);
    } else if s < t {
      MulStep(s, t, p);
    }
  }

  /** How far a float is from m minor units, counted in parts of 1 / (100 * 2^k). */
  function Apart(f: Float, m: int, k: nat): nat
    requires f.exp + k >= 0
  {
    Abs(100 * f.sig * Pow2(f.exp + k) - m * Pow2(k))
  }

  /** What the gateway is sent is a binary64 number, and no binary64 number is nearer to the amount. */
  lemma NoBinary64IsNearer(m: int, g: Float, k: nat)
    requires Abs(m) < Money.Limit() && Abs(g.sig) < TWO53
    requires g.exp + k >= 0 && ToGatewayMajor(m).exp + k >= 0
    ensures Abs(ToGatewayMajor(m).sig) < TWO53
    ensures Apart(ToGatewayMajor(m), m, k) <= Apart(g, m, k)
  {
    hide Apart, ToGatewayMajor, PositiveFloat, Money.Limit;
    GatewayForm(m);
    if m > 0 {
      PositiveIsNearest(m, g, k);
    } else if m < 0 {
      PositiveIsNearest(-m, Float(-g.sig, g.exp), k);
      ApartNegated(g, m, k);
      ApartNegated(PositiveFloat(-m, 100), -m, k);
    } else {
      NothingIsExact(k);
    }
  }

  lemma NothingIsExact(k: nat)
    ensures Apart(Float(0, 0), 0, k) == 0
  {
    assert 100 * 0 * Pow2(0 + k) == 0;
  }

  lemma ApartNegated(f: Float, m: int, k: nat)
    requires f.exp + k >= 0
    ensures Apart(Float(-f.sig, f.exp), -m, k) == Apart(f, m, k)
  {
    NegatedProduct(100 * f.sig, Pow2(f.exp + k));
    NegatedProduct(m, Pow2(k));
  }

  lemma ApartDoubles(f: Float, m: int, k: nat)
    requires f.exp + k >= 0
    ensures Apart(f, m, k + 1) == 2 * Apart(f, m, k)
  {
    var p, q := Pow2(f.exp + k), Pow2(k);
    assert 100 * f.sig * (2 * p) == 2 * (100 * f.sig * p);
    assert m * (2 * q) == 2 * (m * q);
  }

  /** The scaled quotient r / d of m / 100: its quanta are 2^exp. */
  ghost predicate Quotient(m: nat, r: nat, d: nat, exp: int, k: nat, c: nat) {
    && exp + k >= 0 && d >= 1 && c >= 1 && TWO52 * d <= r < TWO53 * d
    && r * c == m * Pow2(k) && d * c == 100 * Pow2(exp + k)
  }

  lemma PositiveIsNearest(m: nat, g: Float, k: nat)
    requires m >= 1 && Abs(g.sig) < TWO53
    requires g.exp + k >= 0 && PositiveFloat(m, 100).exp + k >= 0
    ensures 0 <= PositiveFloat(m, 100).sig < TWO53
    ensures Apart(PositiveFloat(m, 100), m, k) <= Apart(g, m, k)
  {
    hide Apart, HalfEven, Pow2;
    ApartDoubles(g, m, k);
    ApartDoubles(PositiveFloat(m, 100), m, k);
    if m < TWO53 * 100 {
      var (r, j) := Grow(m, 100);
      Growing(m, r, j, k + 1);
      CarriedIsNearest(m, r, 100, 0 - j, k + 1, Pow2(k + 1 - j), g);
    } else {
      var (d, j) := Shrink(m, 100);
      Shrinking(m, d, j, k + 1);
      CarriedIsNearest(m, m, d, j, k + 1, Pow2(k + 1), g);
    }
  }

  lemma Growing(m: nat, r: nat, j: nat, k: nat)
    requires r == m * Pow2(j) && TWO52 * 100 <= r < TWO53 * 100 && j <= k
    ensures Quotient(m, r, 100, 0 - j, k, Pow2(k - j))
  {
    Pow2Add(j, k - j);
    assert m * (Pow2(j) * Pow2(k - j)) == m * Pow2(j) * Pow2(k - j);
  }

  lemma Shrinking(m: nat, d: nat, j: nat, k: nat)
    requires d == 100 * Pow2(j) && d >= 1 && TWO52 * d <= m < TWO53 * d
    ensures Quotient(m, m, d, j, k, Pow2(k))
  {
    hide Pow2;
    Pow2Add(j, k);
    Associates(100, Pow2(j), Pow2(k));
  }

  lemma Associates(a: int, b: int, c: int)
    ensures a * (b * c) == a * b * c
  {
  }

  lemma {:induction false} Pow2Add(a: nat, b: nat)
    ensures Pow2(a + b) == Pow2(a) * Pow2(b)
  {
    if a > 0 {
      Pow2Add(a - 1, b);
      assert 2 * (Pow2(a - 1) * Pow2(b)) == 2 * Pow2(a - 1) * Pow2(b);
    }
  }

  /** Carrying into the next binade keeps the number, and makes it one of 53 bits. */
  lemma CarriedIsNearest(m: nat, r: nat, d: nat, exp: int, k: nat, c: nat, g: Float)
    requires Quotient(m, r, d, exp, k, c) && Abs(g.sig) < TWO53 && g.exp + k >= 0
    ensures var f := Carry(HalfEven(r, d), exp);
      0 <= f.sig < TWO53 && f.exp + k >= 0 && Apart(f, m, k) <= Apart(g, m, k)
  {
    hide HalfEven;
    QuantaAreNearest(m, r, d, exp, k, c, g);
    SignificandFits(r, d);
    var s := HalfEven(r, d);
    if s == TWO53 {
      assert Pow2(exp + 1 + k) == 2 * Pow2(exp + k);
      var p := Pow2(exp + k);
      assert 100 * TWO52 * (2 * p) == 100 * TWO53 * p;
    }
  }

  lemma SignificandFits(r: nat, d: nat)
    requires d >= 1 && r < TWO53 * d
    ensures 0 <= HalfEven(r, d) <= TWO53
  {
    HalfEvenIsNear(r, d);
    NearestMultiple(r, d, TWO53);
    if HalfEven(r, d) > TWO53 {
      hide HalfEven;
      MulStep(TWO53, HalfEven(r, d), d);
    }
  }

  /** With the quotient scaled so that a quantum is one: a number on the same or a coarser grid is a
      whole number of quanta, and a number on a grid 2^j times finer has fewer than 2^53 of its own. */
  lemma QuantaAreNearest(m: nat, r: nat, d: nat, exp: int, k: nat, c: nat, g: Float)
    requires Quotient(m, r, d, exp, k, c) && Abs(g.sig) < TWO53 && g.exp + k >= 0
    ensures Apart(Float(HalfEven(r, d), exp), m, k) <= Apart(g, m, k)
  {
    hide HalfEven, Apart;
    var s := HalfEven(r, d);
    GridApart(m, r, d, exp, k, c, s);
    if g.exp >= exp {
      var t := g.sig * Pow2(g.exp - exp);
      NearestMultiple(r, d, t);
      GridApart(m, r, d, exp, k, c, t);
      SameNumber(g, exp, m, k);
      MulMonotone(Abs(s * d - r), Abs(t * d - r), c);
    } else {
      var p := Pow2(exp - g.exp);
      NearestMultiple(r, d, TWO52);
      PowerAtLeastTwo(exp - g.exp);
      FinerIsFarther(r, d, g.sig, p, Abs(s * d - r));
      FinerApart(m, r, d, exp, k, c, g);
      MulMonotone(Abs(s * d - r) * p, Abs(g.sig * d - r * p), c);
      MulAssociates(Abs(s * d - r), p, c);
      Cancel(Apart(Float(s, exp), m, k), Apart(g, m, k), p);
    }
  }

  lemma PowerAtLeastTwo(n: nat)
    requires n >= 1
    ensures Pow2(n) >= 2
  {
    Pow2Monotone(1, n);
    assert Pow2(1) == 2;
  }

  lemma MulAssociates(a: int, p: int, c: int)
    ensures a * p * c == a * c * p
  {
  }

  lemma Cancel(a: nat, b: nat, p: nat)
    requires p >= 1 && a * p <= b * p
    ensures a <= b
  {
    if b < a {
      MulStep(b, a, p);
    }
  }

  /** A whole number of quanta is as far away as the multiple is from the scaled quotient. */
  lemma GridApart(m: nat, r: nat, d: nat, exp: int, k: nat, c: nat, t: int)
    requires Quotient(m, r, d, exp, k, c)
    ensures Apart(Float(t, exp), m, k) == Abs(t * d - r) * c
  {
    var p := Pow2(exp + k);
    assert 100 * t * p == t * (100 * p);
    assert t * (d * c) == t * d * c;
    Money.AbsScale(t * d - r, c);
    assert (t * d - r) * c == t * d * c - r * c;
  }

  lemma SameNumber(g: Float, exp: int, m: int, k: nat)
    requires exp <= g.exp && exp + k >= 0
    ensures Apart(Float(g.sig * Pow2(g.exp - exp), exp), m, k) == Apart(g, m, k)
  {
    var a, b := Pow2(g.exp - exp), Pow2(exp + k);
    Pow2Add(g.exp - exp, exp + k);
    assert 100 * g.sig * (a * b) == 100 * (g.sig * a) * b;
  }

  lemma FinerApart(m: nat, r: nat, d: nat, exp: int, k: nat, c: nat, g: Float)
    requires Quotient(m, r, d, exp, k, c) && g.exp < exp && g.exp + k >= 0
    ensures var p := Pow2(exp - g.exp); Apart(g, m, k) * p == Abs(g.sig * d - r * p) * c
  {
    hide Pow2;
    var p, q := Pow2(exp - g.exp), Pow2(g.exp + k);
    Pow2Add(g.exp + k, exp - g.exp);
    var x, y := 100 * g.sig * q, m * Pow2(k);
    Money.AbsScale(x - y, p);
    Spread(x, y, p);
    assert x * p == g.sig * d * c by {
      Regroup(g.sig, q, p);
      Associates(g.sig, d, c);
    }
    assert y * p == r * p * c by {
      MulAssociates(r, c, p);
    }
    Money.AbsScale(g.sig * d - r * p, c);
    Spread(g.sig * d, r * p, c);
  }

  lemma Spread(x: int, y: int, p: int)
    ensures (x - y) * p == x * p - y * p
  {
  }

  lemma Regroup(sig: int, q: int, p: int)
    ensures 100 * sig * q * p == sig * (100 * (q * p))
  {
    assert 100 * sig * q * p == 100 * sig * (q * p);
  }

  lemma FinerIsFarther(r: nat, den: nat, fine: int, p: nat, gap: nat)
    requires p >= 2 && den >= 1 && TWO52 * den <= r && fine < TWO53
    requires gap <= r - TWO52 * den
    ensures gap * p <= Abs(fine * den - r * p)
  {
    MulMonotone(gap, r - TWO52 * den, p);
    assert (r - TWO52 * den) * p == r * p - TWO52 * den * p;
    MulMonotone(2, p, TWO52 * den);
    MulMonotone(fine, TWO53, den);
    assert p * (TWO52 * den) == TWO52 * den * p;
    assert 2 * (TWO52 * den) == TWO53 * den;
  }

  // ---- Amounts within the bound ----------------------------------------------------------------------

  lemma BoundFits(m: int)
    requires Abs(m) <= BOUND + 2
    ensures Abs(m) < Money.Limit()
  {
    Money.PowersNeeded();
  }

  lemma GatewayForm(m: int)
    requires Abs(m) < Money.Limit()
    ensures ToGatewayMajor(m) ==
      if m == 0 then Float(0, 0)
      else if m < 0 then Float(-PositiveFloat(-m, 100).sig, PositiveFloat(-m, 100).exp)
      else PositiveFloat(m, 100)
  {
    Money.FixCases(Dec(m, -2));
    assert Pow10(2) == 100;
  }

  /** Rounding half to even moves a quotient by at most one half. */
  lemma HalfEvenIsNear(n: nat, p: nat)
    requires p >= 1
    ensures HalfEven(n, p) >= 0 && 2 * Abs(HalfEven(n, p) * p - n) <= p
  {
    var q, r := n / p, n % p;
    assert n == q * p + r by {
      assert n == p * q + r;
    }
    assert (q + 1) * p == q * p + p;
  }

  /** Seven doublings are needed below the bound, so the spacing there is at most 2^-7. */
  lemma {:induction false} GrowAtLeast(num: nat, k: nat)
    requires 1 <= num && num * Pow2(k) < TWO52 * 100 && num < TWO53 * 100
    ensures Grow(num, 100).1 > k
    decreases k
  {
    var r := Grow(num, 100);
    if r.1 <= k {
      Pow2Monotone(r.1, k);
      MulLeft(num, Pow2(r.1), Pow2(k));
    }
  }

  lemma MulLeft(num: nat, a: nat, b: nat)
    requires a <= b
    ensures num * a <= num * b
  {
    MulMonotone(a, b, num);
    assert num * a == a * num && num * b == b * num;
  }

  lemma {:induction false} Pow2Monotone(a: nat, b: nat)
    requires a <= b
    ensures Pow2(a) <= Pow2(b)
    decreases b - a
  {
    if a < b {
      Pow2Monotone(a, b - 1);
    }
  }

  lemma RecoverPositive(m: nat)
    requires 1 <= m <= BOUND
    ensures Recover(PositiveFloat(m, 100)) == m
  {
    var (n, k) := Grow(m, 100);
    var s := HalfEven(n, 100);
    HalfEvenIsNear(n, 100);
    if m == BOUND {
      RecoverBound();
    } else {
      assert Pow2(6) == 64;
      GrowAtLeast(m, 6);
      Pow2Monotone(7, k);
      assert Pow2(7) == 128;
      // |100 s - m 2^k| <= 50 < 2^k / 2, so m is the integer nearest to 100 s / 2^k.
      RecoverNear(100 * s, Pow2(k), m);
      CarryKeepsValue(s, k);
    }
  }

  lemma RecoverNear(x: int, p: nat, m: int)
    requires p >= 1 && 2 * Abs(m * p - x) < p
    ensures HalfUp(x, p) == m
  {
    HalfUpIsNearestAway(x, p);
    NearestAwayIsUnique(x, p, m, HalfUp(x, p));
  }

  /** Moving a carried significand to the next binade does not change what is recovered. */
  lemma CarryKeepsValue(s: nat, k: nat)
    requires k >= 7
    ensures Recover(Carry(s, -(k as int))) == HalfUp(100 * s, Pow2(k))
  {
    if s == TWO53 {
      assert Pow2(k) == 2 * Pow2(k - 1);
      Money.HalfUpScale(100 * TWO52, Pow2(k - 1), 2);
      assert Pow2(k - 1) * 2 == Pow2(k);
    }
  }

  lemma RecoverBound()
    ensures PositiveFloat(BOUND, 100) == Float(TWO52, -6)
    ensures Recover(Float(TWO52, -6)) == BOUND
  {
    GrowTo(BOUND, 6);
    assert Pow2(6) == 64;
    RoundingMultiples(TWO52, 100);
    RoundingMultiples(BOUND, 64);
  }

  /** The number of doublings is the only one that lands in the binade. */
  lemma GrowTo(num: nat, k: nat)
    requires 1 <= num < TWO53 * 100 && TWO52 * 100 <= num * Pow2(k) < TWO53 * 100
    ensures Grow(num, 100) == (num * Pow2(k), k)
  {
    hide Grow, Pow2;
    var r := Grow(num, 100);
    if r.1 < k {
      DoublesApart(num, r.1, k);
    } else if k < r.1 {
      DoublesApart(num, k, r.1);
    }
  }

  lemma DoublesApart(num: nat, a: nat, b: nat)
    requires a < b
    ensures num * Pow2(b) >= 2 * (num * Pow2(a))
  {
    Pow2Monotone(a + 1, b);
    MulLeft(num, 2 * Pow2(a), Pow2(b));
    assert num * (2 * Pow2(a)) == 2 * (num * Pow2(a));
  }

  /** Every amount of a two-digit currency up to 2^46 major units, either sign, is determined by the
      float the gateway is sent: the integer nearest to 100 times it is the amount. */
  lemma FloatDeterminesAmount(m: int)
    requires Abs(m) <= BOUND
    ensures Abs(m) < Money.Limit() && Recover(ToGatewayMajor(m)) == m
  {
    BoundFits(m);
    GatewayForm(m);
    if m == 0 {
    } else if m > 0 {
      RecoverPositive(m);
    } else {
      RecoverPositive(-m);
      RecoverNegated(PositiveFloat(-m, 100));
    }
  }

  lemma RecoverNegated(f: Float)
    ensures Recover(Float(-f.sig, f.exp)) == -Recover(f)
  {
    if f.exp >= 0 {
      NegatedProduct(100 * f.sig, Pow2(f.exp));
    } else {
      NegatedHalfUp(100 * f.sig, Pow2(-f.exp));
    }
  }

  lemma NegatedProduct(x: int, p: int)
    ensures (-x) * p == -(x * p)
  {
  }

  lemma NegatedHalfUp(x: int, p: nat)
    requires p >= 1
    ensures HalfUp(-x, p) == -HalfUp(x, p)
  {
    assert Abs(-x) == Abs(x);
  }

  // ---- Just past the bound ---------------------------------------------------------------------------

  lemma PastTheBound()
    ensures PositiveFloat(BOUND + 1, 100) == Float(TWO52 + 1, -6)
    ensures PositiveFloat(BOUND + 2, 100) == Float(TWO52 + 1, -6)
    ensures Recover(Float(TWO52 + 1, -6)) == BOUND + 2
  {
    assert Pow2(6) == 64;
    GrowTo(BOUND + 1, 6);
    GrowTo(BOUND + 2, 6);
    HalfEvenOf(64 * (BOUND + 1), 100, TWO52, 64);
    HalfEvenOf(64 * (BOUND + 2), 100, TWO52 + 1, 28);
    RecoverNear(100 * (TWO52 + 1), 64, BOUND + 2);
  }

  lemma HalfEvenOf(n: nat, p: nat, q: nat, r: nat)
    requires p >= 1 && n == q * p + r && r < p && 2 * r != p
    ensures HalfEven(n, p) == if 2 * r > p then q + 1 else q
  {
    DivUnique(n, p, q, r);
  }

  /** Two amounts just past the bound, both still below the 2^53 of the comment, are sent as the
      same number: no receiver can tell them apart. */
  lemma TwoAmountsShareAFloat()
    ensures BOUND + 2 < TWO53 && BOUND + 2 < Money.Limit()
    ensures ToGatewayMajor(BOUND + 1) == ToGatewayMajor(BOUND + 2)
    ensures Recover(ToGatewayMajor(BOUND + 1)) != BOUND + 1
  {
    BoundFits(BOUND + 2);
    BoundFits(BOUND + 1);
    GatewayForm(BOUND + 1);
    GatewayForm(BOUND + 2);
    PastTheBound();
  }

  ghost predicate AllRecovered(limit: nat) {
    forall m: int :: Abs(m) <= limit && Abs(m) < Money.Limit() ==> Recover(ToGatewayMajor(m)) == m
  }

  ghost predicate AllDistinct(limit: nat) {
    forall m: int, n: int | Abs(m) <= limit && Abs(n) <= limit && Abs(m) < Money.Limit() && Abs(n) < Money.Limit() ::
      ToGatewayMajor(m) == ToGatewayMajor(n) ==> m == n
  }

  /** The bound is exact: all amounts up to a limit can be recovered iff the limit is at most
      100 * 2^46, and all are at least told apart iff it is at most one more. */
  lemma ExactBound(limit: nat)
    ensures AllRecovered(limit) <==> limit <= BOUND
    ensures AllDistinct(limit) <==> limit <= BOUND + 1
  {
    TwoAmountsShareAFloat();
    if limit <= BOUND {
      forall m: int | Abs(m) <= limit && Abs(m) < Money.Limit() ensures Recover(ToGatewayMajor(m)) == m {
        FloatDeterminesAmount(m);
      }
    } else {
      BoundFits(BOUND + 1);
      assert Abs(BOUND + 1) <= limit;
      assert !AllRecovered(limit);
    }
    if limit <= BOUND + 1 {
      forall m: int, n: int | Abs(m) <= limit && Abs(n) <= limit && Abs(m) < Money.Limit() && Abs(n) < Money.Limit()
          && ToGatewayMajor(m) == ToGatewayMajor(n)
        ensures m == n
      {
        DistinctUpToOneMore(m, n);
      }
    } else {
      assert !AllDistinct(limit) by {
        assert Abs(BOUND + 1) <= limit && Abs(BOUND + 2) <= limit;
      }
    }
  }

  lemma RecoveredNear(m: int)
    requires Abs(m) <= BOUND + 1
    ensures Abs(m) < Money.Limit()
    ensures Recover(ToGatewayMajor(m)) ==
      if m == BOUND + 1 then BOUND + 2 else if m == -(BOUND + 1) then -(BOUND + 2) else m
  {
    BoundFits(m);
    if Abs(m) <= BOUND {
      FloatDeterminesAmount(m);
    } else {
      GatewayForm(m);
      PastTheBound();
      RecoverNegated(Float(TWO52 + 1, -6));
    }
  }

  lemma DistinctUpToOneMore(m: int, n: int)
    requires Abs(m) <= BOUND + 1 && Abs(n) <= BOUND + 1 && Abs(m) < Money.Limit() && Abs(n) < Money.Limit()
    requires ToGatewayMajor(m) == ToGatewayMajor(n)
    ensures m == n
  {
    RecoveredNear(m);
    RecoveredNear(n);
  }
}
