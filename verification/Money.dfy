/** Exact money: one rounding point, integer minor units, and conversions that undo each other. */
module Money {
  import opened Decimals
  import Text = DecimalText
  import Strings

  /** What reaches a money function from the rest of the platform or from a request. */
  datatype Amount =
    | ADecimal(d: Dec)
    | AInt(i: int)
    | AText(s: string)
    | AFloat(text: string)
    | ABool
    | ANotFinite
    | AOther

  datatype MoneyError = MoneyTypeError | UnsupportedCurrency | InvalidAmount

  /** ISO 4217 minor-unit digits per supported currency. */
  type CurrencyTable = map<string, nat>

  function Exponent(table: CurrencyTable, code: string): Result<nat, MoneyError> {
    if code in table then Ok(table[code]) else Err(UnsupportedCurrency)
  }

  /** An amount as an exact decimal; floats, booleans and anything not finite are refused. */
  function AsDecimal(amount: Amount): Result<Dec, MoneyError> {
    match amount
    case ADecimal(d) => Ok(d)
    case AInt(i) => Ok(Dec(i, 0))
    case AText(s) =>
      var d := Text.Read(Strings.Strip(s));
      if d.Some? then Ok(d.value) else Err(MoneyTypeError)
    case _ => Err(MoneyTypeError)
  }

  /** An amount from a request: the one place a float is accepted, through its shortest text. */
  function ParseInput(amount: Amount): Result<Dec, MoneyError> {
    if amount.AFloat? then AsDecimal(AText(amount.text)) else AsDecimal(amount)
  }

  /** Major units to minor units for a currency of `e` digits. */
  function ToMinorOf(d: Dec, e: nat): Result<int, MoneyError> {
    match QuantizeTo(Scaleb(d, e), 0)
    case Ok(q) => Ok(q.coeff)
    case Err(_) => Err(InvalidAmount)
  }

  function ToMinor(table: CurrencyTable, amount: Amount, code: string): Result<int, MoneyError> {
    match AsDecimal(amount)
    case Err(error) => Err(error)
    case Ok(d) =>
      match Exponent(table, code)
      case Err(error) => Err(error)
      case Ok(e) => ToMinorOf(d, e)
  }

  function FromMinorOf(minor: int, e: nat): Dec {
    Scaleb(Dec(minor, 0), 0 - e)
  }

  function FromMinor(table: CurrencyTable, minor: int, code: string): Result<Dec, MoneyError> {
    match Exponent(table, code)
    case Err(error) => Err(error)
    case Ok(e) => Ok(FromMinorOf(minor, e))
  }

  function ToMajorString(table: CurrencyTable, minor: int, code: string): Result<string, MoneyError> {
    match FromMinor(table, minor, code)
    case Err(error) => Err(error)
    case Ok(d) => Ok(Text.Text(d))
  }

  function QuantizeOf(d: Dec, e: nat): Result<Dec, MoneyError> {
    match ToMinorOf(d, e)
    case Err(error) => Err(error)
    case Ok(minor) => Ok(FromMinorOf(minor, e))
  }

  /** A rider-facing fare: whole units where the currency charges whole units, else the minor unit.
      The amount goes through its own text first. */
  function RoundFareOf(d: Dec, e: nat, wholeUnits: bool): Result<Dec, MoneyError> {
    if !wholeUnits then QuantizeOf(d, e)
    else
      var read := Text.Read(Text.Text(d));
      if read.None? then Err(InvalidAmount)
      else
        match QuantizeTo(read.value, 0)
        case Err(_) => Err(InvalidAmount)
        case Ok(whole) => QuantizeOf(whole, e)
  }

  /** 10^28: the first coefficient the context cannot hold. */
  function Limit(): nat {
    Pow10(PRECISION)
  }

  lemma LimitIsDigits(n: nat)
    ensures Digits(n) <= PRECISION <==> n < Limit()
  {
    DigitsAtMost(n, PRECISION);
  }

  lemma FixCases(d: Dec)
    ensures Abs(d.coeff) < Limit() ==> Fix(d) == d
    ensures Abs(d.coeff) >= Limit() ==> Pow10(PRECISION - 1) <= Abs(Fix(d).coeff) < Limit() && Fix(d).exp > d.exp
  {
    RoundToDigits(d, PRECISION);
  }

  // ---- The rounding point is correct ---------------------------------------------------------------

  /** The integer the amount rounds to, before the context decides whether it fits. */
  function Minor(d: Dec, e: nat): int {
    if d.exp + e >= 0 then Rescaled(Dec(d.coeff, d.exp + e), 0) else HalfUp(d.coeff, Pow10(-(d.exp + e)))
  }

  /** m is the integer nearest to d * 10^e, ties away from zero. */
  predicate IsNearestMinor(d: Dec, e: nat, m: int) {
    if d.exp + e >= 0 then m == d.coeff * Pow10(d.exp + e)
    else NearestAway(d.coeff, Pow10(-(d.exp + e)), m)
  }

  lemma ToMinorIsMinor(d: Dec, e: nat)
    requires Abs(d.coeff) < Limit()
    ensures ToMinorOf(d, e) == if Abs(Minor(d, e)) < Limit() then Ok(Minor(d, e)) else Err(InvalidAmount)
  {
    FixCases(Dec(d.coeff, d.exp + e));
    LimitIsDigits(Abs(Minor(d, e)));
  }

  /** For an amount of at most 28 significant digits, conversion answers m exactly when m is the
      nearest integer number of minor units, ties away from zero, and m itself has at most 28
      digits. */
  lemma ToMinorIsNearest(d: Dec, e: nat, m: int)
    requires Abs(d.coeff) < Limit()
    ensures ToMinorOf(d, e) == Ok(m) <==> IsNearestMinor(d, e, m) && Abs(m) < Limit()
  {
    ToMinorIsMinor(d, e);
    if d.exp + e < 0 {
      var p := Pow10(-(d.exp + e));
      HalfUpIsNearestAway(d.coeff, p);
      if NearestAway(d.coeff, p, m) {
        NearestAwayIsUnique(d.coeff, p, m, Minor(d, e));
      }
    }
  }

  /** Past 28 digits the context rounds first, to even, and conversion can miss the nearest integer:
      0.0049...95 of a two-digit currency, with 29 significant digits, becomes 1 and not 0. */
  lemma TwentyNineDigitsRoundTwice()
    ensures var d := Dec(49999999999999999999999999995, -31);
      && Digits(Abs(d.coeff)) == 29
      && ToMinorOf(d, 2) == Ok(1)
      && IsNearestMinor(d, 2, 0) && !IsNearestMinor(d, 2, 1)
  {
    var c := 49999999999999999999999999995;
    PowersNeeded();
    DigitsAtMost(c, 28);
    DigitsAtMost(c, 29);
    DigitsAtMost(1, 28);
    hide Pow10, Digits;
    assert HalfEven(c, 10) == 5000000000000000000000000000;
    assert Scaleb(Dec(c, -31), 2) == Dec(5000000000000000000000000000, -28);
    assert HalfUp(5000000000000000000000000000, 1_0000000_0000000_0000000_0000000) == 1;
  }

  lemma PowersNeeded()
    ensures Pow10(1) == 10
    ensures Pow10(28) == 1_0000000_0000000_0000000_0000000
    ensures Pow10(29) == 10_0000000_0000000_0000000_0000000
  {
    assert Pow10(7) == 1_0000000;
    Pow10Add(7, 7);
    Pow10Add(14, 14);
    Pow10Add(28, 1);
  }

  // ---- Monotone --------------------------------------------------------------------------------------

  /** Rounding does not depend on how finely the number is written. */
  lemma HalfUpScale(c: int, p: nat, q: nat)
    requires p >= 1 && q >= 1
    ensures p * q >= 1 && HalfUp(c * q, p * q) == HalfUp(c, p)
  {
    var m := HalfUp(c, p);
    MulMonotone(1, p, q);
    HalfUpIsNearestAway(c, p);
    ScaleNearest(c, p, q, m);
    HalfUpIsNearestAway(c * q, p * q);
    hide HalfUp, NearestAway;
    NearestAwayIsUnique(c * q, p * q, m, HalfUp(c * q, p * q));
  }

  lemma ScaleNearest(c: int, p: nat, q: nat, m: int)
    requires p >= 1 && q >= 1 && p * q >= 1 && NearestAway(c, p, m)
    ensures NearestAway(c * q, p * q, m)
  {
    var x := m * p;
    MulAssociates(m, p, q);
    DifferenceScales(x, c, q);
    AbsScale(x, q);
    AbsScale(c, q);
    if 2 * Abs(x - c) < p {
      MulStep(2 * Abs(x - c), p, q);
    } else {
      MulStep(Abs(c), Abs(x), q);
    }
  }

  lemma MulAssociates(m: int, p: int, q: int)
    ensures m * (p * q) == m * p * q
  {
  }

  lemma DifferenceScales(x: int, c: int, q: nat)
    ensures 2 * Abs(x * q - c * q) == 2 * Abs(x - c) * q
  {
    AbsScale(x - c, q);
    assert (x - c) * q == x * q - c * q;
  }

  lemma AbsScale(x: int, q: nat)
    ensures Abs(x * q) == Abs(x) * q
  {
    if x < 0 {
      MulNonNegative(-x, q);
      assert (-x) * q == -(x * q);
    } else {
      MulNonNegative(x, q);
    }
  }

  /** The rounded amount, computed at any common smaller exponent. */
  lemma MinorAt(d: Dec, e: nat, y: int)
    requires y <= d.exp && y + e <= 0
    ensures Minor(d, e) == HalfUp(Rescaled(d, y), Pow10(-y - e))
  {
    if d.exp + e >= 0 {
      Pow10Add(d.exp + e, -y - e);
      assert Rescaled(d, y) == Minor(d, e) * Pow10(-y - e) by {
        assert d.coeff * (Pow10(d.exp + e) * Pow10(-y - e)) == d.coeff * Pow10(d.exp + e) * Pow10(-y - e);
      }
      RoundingMultiples(Minor(d, e), Pow10(-y - e));
    } else {
      Pow10Add(-(d.exp + e), d.exp - y);
      HalfUpScale(d.coeff, Pow10(-(d.exp + e)), Pow10(d.exp - y));
    }
  }

  /** A larger amount never converts to fewer minor units, when the context leaves both as they are. */
  lemma ShortIsMonotone(a: Dec, b: Dec, e: nat)
    requires Abs(a.coeff) < Limit() && Abs(b.coeff) < Limit() && AtMost(a, b)
    requires ToMinorOf(a, e).Ok? && ToMinorOf(b, e).Ok?
    ensures ToMinorOf(a, e).value <= ToMinorOf(b, e).value
  {
    ToMinorIsMinor(a, e);
    ToMinorIsMinor(b, e);
    hide ToMinorOf, Pow10, Minor, Limit;
    var x := Lower(a.exp, b.exp);
    var y := Lower(x, 0 - e);
    RescaleTwice(a, x, y);
    RescaleTwice(b, x, y);
    MulMonotone(Rescaled(a, x), Rescaled(b, x), Pow10(x - y));
    MinorAt(a, e, y);
    MinorAt(b, e, y);
    hide HalfUp, Rescaled;
    HalfUpMonotone(Rescaled(a, y), Rescaled(b, y), Pow10(-y - e));
  }

  // ---- Exact inverses ----------------------------------------------------------------------------------

  /** Converting back what was converted gives the same integer, exactly for the integers of at most
      28 digits; every larger one is refused on the way back. */
  lemma MinorRoundTrip(m: int, e: nat)
    ensures ToMinorOf(FromMinorOf(m, e), e) == Ok(m) <==> Abs(m) < Limit()
    ensures Abs(m) >= Limit() ==> ToMinorOf(FromMinorOf(m, e), e) == Err(InvalidAmount)
  {
    FixCases(Dec(m, 0 - e));
    var d := FromMinorOf(m, e);
    FixCases(Dec(d.coeff, d.exp + e));
    if Abs(m) < Limit() {
      assert Rescaled(Dec(m, 0), 0) == m;
      LimitIsDigits(Abs(m));
    } else {
      var k := d.exp + e;
      assert k >= 1;
      var q := Rescaled(Dec(d.coeff, k), 0);
      AbsScale(d.coeff, Pow10(k));
      Pow10Monotone(1, k);
      MulMonotone(10, Pow10(k), Abs(d.coeff));
      assert Abs(q) >= 10 * Abs(d.coeff) by {
        assert Abs(q) == Abs(d.coeff) * Pow10(k);
        assert Abs(d.coeff) * Pow10(k) == Pow10(k) * Abs(d.coeff);
      }
      LimitIsPowers();
      LimitIsDigits(Abs(q));
    }
  }

  lemma LimitIsPowers()
    ensures Limit() == 10 * Pow10(PRECISION - 1)
  {
  }

  /** The wire form loses nothing: for every currency, parsing the major-unit text of m and
      converting it back gives m, exactly for the m of at most 28 digits. */
  lemma MajorStringRoundTrip(table: CurrencyTable, m: int, code: string)
    requires code in table
    ensures ToMajorString(table, m, code).Ok?
    ensures var back := ParseInput(AText(ToMajorString(table, m, code).value));
      back.Ok? && (ToMinorOf(back.value, table[code]) == Ok(m) <==> Abs(m) < Limit())
  {
    var d := FromMinorOf(m, table[code]);
    Text.ReadText(d);
    Text.TextIsTrimmed(d);
    MinorRoundTrip(m, table[code]);
  }

  /** Quantizing twice is quantizing once. */
  lemma QuantizeIdempotent(d: Dec, e: nat)
    requires QuantizeOf(d, e).Ok?
    ensures QuantizeOf(QuantizeOf(d, e).value, e) == QuantizeOf(d, e)
  {
    var m := ToMinorOf(d, e).value;
    ToMinorFits(d, e);
    MinorRoundTrip(m, e);
  }

  lemma ToMinorFits(d: Dec, e: nat)
    requires ToMinorOf(d, e).Ok?
    ensures Abs(ToMinorOf(d, e).value) < Limit()
  {
    LimitIsDigits(Abs(ToMinorOf(d, e).value));
  }

  /** A whole number of major units has a whole number of minor units, so nothing is rounded. */
  lemma WholeFare(w: int, e: nat)
    requires Abs(w) < Limit() && QuantizeOf(Dec(w, 0), e).Ok?
    ensures Abs(w * Pow10(e)) < Limit()
    ensures QuantizeOf(Dec(w, 0), e) == Ok(Dec(w * Pow10(e), 0 - e))
  {
    var d := Dec(w, 0);
    ToMinorIsMinor(d, e);
    assert Minor(d, e) == w * Pow10(e);
    ToMinorFits(d, e);
    FixCases(Dec(w * Pow10(e), 0 - e));
  }

  /** The whole amount is found again in its minor-unit form. */
  lemma WholeAgain(w: int, e: nat)
    requires Abs(w) < Limit()
    ensures QuantizeTo(Dec(w * Pow10(e), 0 - e), 0) == Ok(Dec(w, 0))
  {
    RoundingMultiples(w, Pow10(e));
    LimitIsDigits(Abs(w));
    if e == 0 {
      assert Rescaled(Dec(w * Pow10(0), 0), 0) == w;
    }
  }

  /** Rounding a fare twice is rounding it once, in whole-unit currencies too. */
  lemma RoundFareIdempotent(d: Dec, e: nat, wholeUnits: bool)
    requires RoundFareOf(d, e, wholeUnits).Ok?
    ensures RoundFareOf(RoundFareOf(d, e, wholeUnits).value, e, wholeUnits) == RoundFareOf(d, e, wholeUnits)
  {
    if !wholeUnits {
      QuantizeIdempotent(d, e);
    } else {
      Text.ReadText(d);
      var w := QuantizeTo(d, 0).value.coeff;
      LimitIsDigits(Abs(w));
      assert QuantizeTo(d, 0) == Ok(Dec(w, 0));
      hide QuantizeTo, QuantizeOf, Limit;
      WholeFare(w, e);
      var y := Dec(w * Pow10(e), 0 - e);
      assert RoundFareOf(d, e, true) == Ok(y);
      Text.ReadText(y);
      WholeAgain(w, e);
    }
  }

  // ---- What is read, and what is written ----------------------------------------------------------------

  /** A decimal is taken as it is, its text as the same decimal, a float's text only from a request, and an
      integer as its own text; nothing else is an amount. */
  lemma NumbersAreRead(d: Dec, i: int)
    ensures AsDecimal(ADecimal(d)) == Ok(d) == AsDecimal(AText(Text.Text(d)))
    ensures AsDecimal(AInt(i)) == AsDecimal(AText(Text.IntText(i)))
    ensures ParseInput(AFloat(Text.Text(d))) == Ok(d) && AsDecimal(AFloat(Text.Text(d))) == Err(MoneyTypeError)
    ensures forall amount: Amount :: !amount.AFloat? ==> ParseInput(amount) == AsDecimal(amount)
    ensures forall amount: Amount :: amount.ABool? || amount.ANotFinite? || amount.AOther? || amount.AFloat? ==>
      AsDecimal(amount) == Err(MoneyTypeError)
  {
    Text.ReadText(d);
    Text.TextIsTrimmed(d);
    Text.ReadText(Dec(i, 0));
    Text.TextIsTrimmed(Dec(i, 0));
    IntegerText(i);
    hide Text.Text, Text.Read, Strings.Strip;
  }

  /** A text is an amount exactly when what is in it, but for white space at its ends, is a numeral. */
  lemma TextsAreRead(s: string, d: Dec)
    ensures AsDecimal(AText(s)) == Ok(d) <==>
      var t := Strings.Strip(s);
      if t != "" && t[0] == '-' then Text.IsNumeral(t[1..], Dec(0 - d.coeff, d.exp))
      else Text.IsNumeral(if t != "" && t[0] == '+' then t[1..] else t, d)
  {
    hide Text.IsNumeral, Text.Read, Strings.Strip;
    Text.ReadIs(Strings.Strip(s), d);
  }

  lemma IntegerText(i: int)
    ensures Text.Text(Dec(i, 0)) == Text.IntText(i)
  {
    assert Text.NatText(Abs(i)) + Text.Zeros(0) == Text.NatText(Abs(i));
    hide Text.NatText, Text.Zeros;
    assert Text.Dot(Dec(i, 0)) == |Text.NatText(Abs(i))|;
    assert Text.Body(Dec(i, 0)) == Text.NatText(Abs(i));
  }

  /** A conversion that fails says why: the amount is none, or else the currency is not in the table, or else the
      amount does not fit. */
  lemma ToMinorFails(table: CurrencyTable, amount: Amount, code: string)
    ensures ToMinor(table, amount, code) == Err(MoneyTypeError) <==> AsDecimal(amount).Err?
    ensures ToMinor(table, amount, code) == Err(UnsupportedCurrency) <==> AsDecimal(amount).Ok? && code !in table
    ensures AsDecimal(amount).Ok? && code in table ==>
      ToMinor(table, amount, code) == ToMinorOf(AsDecimal(amount).value, table[code])
  {
  }

  /** Minor units become major ones exactly, with the currency's own digits. */
  lemma FromMinorIsExact(m: int, e: nat)
    requires Abs(m) < Limit()
    ensures FromMinorOf(m, e) == Dec(m, 0 - e)
    ensures Rescaled(FromMinorOf(m, e), 0 - e) == m
  {
    FixCases(Dec(m, 0 - e));
    assert Pow10(0) == 1;
  }

  function Signed(m: int, body: string): string {
    if m < 0 then "-" + body else body
  }

  /** The wire form: the sign, and the digits with a point before the last ones, as many as the currency has;
      exactly so unless the currency has more than six digits and the amount starts after the sixth. */
  lemma MajorStringShows(table: CurrencyTable, m: int, code: string)
    requires code in table && Abs(m) < Limit()
    ensures ToMajorString(table, m, code).Ok?
    ensures (exists body: string ::
        Text.PlacedAt(body, Abs(m), table[code]) && ToMajorString(table, m, code).value == Signed(m, body))
      <==> table[code] <= 6 || Abs(m) >= Pow10(table[code] - 6)
  {
    hide Text.Body, Text.PlacedAt, Text.NatText;
    var e: int := table[code];
    var d := Dec(m, -e);
    FromMinorIsExact(m, table[code]);
    if e > 6 {
      Text.TextLength(Abs(m), e - 6);
    }
    if Text.Plain(d) {
      Text.PointPlaced(d);
      assert Text.PlacedAt(Text.Body(d), Abs(m), table[code]);
    } else {
      Text.ExponentIsWritten(d);
      forall body: string | Text.PlacedAt(body, Abs(m), table[code]) ensures Signed(m, body) != Text.Text(d) {
        Text.PlacedHasNoLetter(body, Abs(m), table[code]);
        assert Signed(m, body)[|Signed(m, body)| - |body|..] == body;
        assert Text.Text(d)[|Text.Text(d)| - |Text.Body(d)|..] == Text.Body(d);
      }
    }
  }

  /** A fare in whole units is the nearest whole number of major units, ties away from zero, written with the
      currency's digits; it is refused only when it does not fit. */
  lemma RoundFareIsNearest(d: Dec, e: nat, w: int)
    requires IsNearestMinor(d, 0, w)
    ensures RoundFareOf(d, e, true) ==
      if Abs(w) < Limit() && Abs(w * Pow10(e)) < Limit() then Ok(Dec(w * Pow10(e), 0 - e)) else Err(InvalidAmount)
  {
    Text.ReadText(d);
    WholeIsNearest(d, w);
    LimitIsDigits(Abs(w));
    hide QuantizeTo, QuantizeOf, Limit, IsNearestMinor;
    if Abs(w) < Limit() {
      WholeConverts(w, e);
    }
  }

  lemma WholeIsNearest(d: Dec, w: int)
    requires IsNearestMinor(d, 0, w)
    ensures QuantizeTo(d, 0) == if Digits(Abs(w)) <= PRECISION then Ok(Dec(w, 0))
      else Err(ArithmeticError.InvalidOperation)
  {
    if d.exp < 0 {
      var p := Pow10(-d.exp);
      HalfUpIsNearestAway(d.coeff, p);
      NearestAwayIsUnique(d.coeff, p, w, HalfUp(d.coeff, p));
    }
  }

  lemma WholeConverts(w: int, e: nat)
    requires Abs(w) < Limit()
    ensures QuantizeOf(Dec(w, 0), e) ==
      if Abs(w * Pow10(e)) < Limit() then Ok(Dec(w * Pow10(e), 0 - e)) else Err(InvalidAmount)
  {
    var m := w * Pow10(e);
    ToMinorIsMinor(Dec(w, 0), e);
    assert Minor(Dec(w, 0), e) == m;
    if Abs(m) < Limit() {
      FixCases(Dec(m, 0 - e));
    }
  }
}
