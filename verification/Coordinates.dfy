/** Coordinates shown to two decimals: reading the text that arrived, and rounding what it says. */
module Coordinates {
  import opened Decimals
  import opened Strings
  import Text = DecimalText

  type Option<+T> = Text.Option<T>

  /** What a number text says. A quiet NaN keeps the digits after it, without leading zeros. */
  datatype Reading =
    | Finite(negative: bool, magnitude: Dec)
    | Infinite
    | Quiet(negative: bool, payload: string)
    | Signaling

  // ---- Reading -------------------------------------------------------------------------------------

  function FoldChar(c: char): char {
    if 'A' <= c <= 'Z' then c - 'A' + 'a' else c
  }

  function Fold(s: string): string {
    seq(|s|, i requires 0 <= i < |s| => FoldChar(s[i]))
  }

  function TrimZeros(s: string): (t: string)
    ensures |t| <= |s| && t == s[|s| - |t|..]
    ensures t == "" || t[0] != '0'
    ensures s == "" || s[0] != '0' ==> t == s
  {
    if s == "" || s[0] != '0' then s else TrimZeros(s[1..])
  }

  function Sign(negative: bool): string {
    if negative then "-" else ""
  }

  /** A number text, an infinity or a NaN; None for anything else. */
  function Read(s: string): Option<Reading> {
    var t := Strip(s);
    if t != "" && (t[0] == '-' || t[0] == '+') then ReadBody(t[0] == '-', t[1..]) else ReadBody(false, t)
  }

  function ReadBody(negative: bool, body: string): Option<Reading> {
    var d := Text.ReadUnsigned(body);
    if d.Some? then Text.Some(Finite(negative, d.value))
    else if Fold(body) == "inf" || Fold(body) == "infinity" then Text.Some(Infinite)
    else if |body| >= 3 && Fold(body[..3]) == "nan" && Text.AllDigits(body[3..]) then
      Text.Some(Quiet(negative, TrimZeros(body[3..])))
    else if |body| >= 4 && Fold(body[..4]) == "snan" && Text.AllDigits(body[4..]) then Text.Some(Signaling)
    else Text.None
  }

  // ---- Rounding --------------------------------------------------------------------------------------

  /** Hundredths, half to even, in the context's 28 digits. None is an invalid operation. */
  function Rounded(d: Dec): Option<Dec> {
    var c := if d.exp >= -2 then Rescaled(d, -2) else HalfEven(d.coeff, Pow10(-2 - d.exp));
    if Digits(Abs(c)) <= PRECISION then Text.Some(Dec(c, -2)) else Text.None
  }

  /** The digits of a NaN that the context has room for. */
  function Capped(payload: string): string {
    TrimZeros(if |payload| > PRECISION then payload[|payload| - PRECISION..] else payload)
  }

  /** The rounded number as text. An infinity cannot be rounded, and a signaling NaN may not be. */
  function Shown(r: Reading): Option<string> {
    match r
    case Finite(negative, magnitude) =>
      var d := Rounded(magnitude);
      if d.Some? then Text.Some(Sign(negative) + Text.Body(d.value)) else Text.None
    case Quiet(negative, payload) => Text.Some(Sign(negative) + "NaN" + Capped(payload))
    case _ => Text.None
  }

  // ---- The rounding is the nearest ---------------------------------------------------------------------

  /** m is an integer nearest to c / p, and the even one of two equally near. */
  predicate NearestEven(c: int, p: nat, m: int) {
    && 2 * Abs(m * p - c) <= p
    && (2 * Abs(m * p - c) == p ==> m % 2 == 0)
  }

  /** m hundredths are nearest to d, ties to even. */
  predicate IsNearestHundredth(d: Dec, m: int) {
    if d.exp >= -2 then m == d.coeff * Pow10(d.exp + 2) else NearestEven(d.coeff, Pow10(-2 - d.exp), m)
  }

  lemma HalfEvenIsNearest(c: nat, p: nat)
    requires p >= 1
    ensures HalfEven(c, p) >= 0 && NearestEven(c, p, HalfEven(c, p))
  {
    var q, r := c / p, c % p;
    assert c == q * p + r by {
      assert c == p * q + r;
    }
    assert (q + 1) * p == q * p + p;
  }

  lemma NearestEvenIsUnique(c: int, p: nat, m: int, n: int)
    requires p >= 1 && NearestEven(c, p, m) && NearestEven(c, p, n)
    ensures m == n
  {
    if m < n {
      OneApart(c, p, m, n);
    } else if n < m {
      OneApart(c, p, n, m);
    }
  }

  lemma OneApart(c: int, p: nat, m: int, n: int)
    requires p >= 1 && m < n && NearestEven(c, p, m)
    ensures !NearestEven(c, p, n)
  {
    MulStep(m, n, p);
    if n > m + 1 {
      MulStep(m + 1, n, p);
      assert (m + 1) * p == m * p + p;
    } else {
      assert n * p == m * p + p;
    }
  }

  /** A magnitude is shown as m hundredths exactly when they are the nearest and have at most 28 digits. */
  lemma RoundedIsNearest(d: Dec, m: int)
    requires d.coeff >= 0
    ensures Rounded(d) == Text.Some(Dec(m, -2)) <==> IsNearestHundredth(d, m) && Abs(m) < Pow10(PRECISION)
  {
    hide HalfEven, NearestEven;
    DigitsAtMost(Abs(m), PRECISION);
    if d.exp < -2 {
      var p := Pow10(-2 - d.exp);
      HalfEvenIsNearest(d.coeff, p);
      if NearestEven(d.coeff, p, m) {
        NearestEvenIsUnique(d.coeff, p, m, HalfEven(d.coeff, p));
      }
    }
  }

  // ---- When it raises ------------------------------------------------------------------------------------

  /** At least 10^26 less half a hundredth. */
  predicate TooLarge(d: Dec) {
    if d.exp >= -2 then d.coeff * Pow10(d.exp + 2) >= Pow10(PRECISION)
    else 2 * d.coeff >= (2 * Pow10(PRECISION) - 1) * Pow10(-2 - d.exp)
  }

  /** Rounding is an invalid operation exactly for the magnitudes too large. */
  lemma RaisesExactly(d: Dec)
    requires d.coeff >= 0
    ensures Rounded(d).None? <==> TooLarge(d)
  {
    hide HalfEven, Digits, Pow10;
    if d.exp >= -2 {
      MulNonNegative(d.coeff, Pow10(d.exp + 2));
      DigitsAtMost(Rescaled(d, -2), PRECISION);
    } else {
      var p := Pow10(-2 - d.exp);
      HalfEvenIsNearest(d.coeff, p);
      DigitsAtMost(HalfEven(d.coeff, p), PRECISION);
      PowerIsEven(PRECISION);
      HalfEvenReaches(d.coeff, p, Pow10(PRECISION));
    }
  }

  lemma PowerIsEven(n: nat)
    requires n >= 1
    ensures Pow10(n) % 2 == 0
  {
    var rest := Pow10(n - 1);
    assert Pow10(n) == 10 * rest;
    hide Pow10;
    assert 10 * rest == 2 * (5 * rest);
  }

  lemma HalfEvenReaches(c: nat, p: nat, limit: nat)
    requires p >= 1 && limit >= 1 && limit % 2 == 0
    ensures HalfEven(c, p) >= limit <==> 2 * c >= (2 * limit - 1) * p
  {
    var m := HalfEven(c, p);
    HalfEvenIsNearest(c, p);
    hide HalfEven;
    HalfLess(limit, p);
    if m < limit - 1 {
      MulStep(m, limit - 1, p);
      HalfLess(limit - 1, p);
      MulStep(limit - 1, limit, p);
    } else if m == limit - 1 {
      assert m * p == limit * p - p by {
        assert (limit - 1) * p == limit * p - p;
      }
    } else if m > limit {
      MulStep(limit, m, p);
    }
  }

  lemma HalfLess(limit: nat, p: nat)
    ensures (2 * limit - 1) * p == 2 * (limit * p) - p
  {
    assert 2 * limit * p == 2 * (limit * p);
    assert (2 * limit - 1) * p == 2 * limit * p - p;
  }

  // ---- Rounding again ----------------------------------------------------------------------------------------

  lemma ReadIsNonNegative(s: string)
    ensures Read(s).Some? && Read(s).value.Finite? ==> Read(s).value.magnitude.coeff >= 0
  {
    hide Strip, ReadBody;
    var t := Strip(s);
    ReadBodyDigits(false, t);
    if t != "" {
      ReadBodyDigits(t[0] == '-', t[1..]);
    }
  }

  /** A sign and a body that starts and ends with a digit or a letter are read apart. */
  lemma ReadSigned(negative: bool, body: string)
    requires body != "" && Solid(body[0]) && Solid(body[|body| - 1])
    ensures Read(Sign(negative) + body) == ReadBody(negative, body)
  {
    hide Read, ReadBody, Solid, IsSpace;
    SolidIsNoSpace();
    if negative {
      NegativeIsRead(body);
    } else {
      assert "" + body == body;
      UnsignedIsReadWhole(body);
    }
  }

  lemma NegativeIsRead(body: string)
    requires body != "" && !IsSpace(body[|body| - 1]) && !IsSpace('-')
    ensures Read("-" + body) == ReadBody(true, body)
  {
    hide ReadBody, IsSpace;
    var s := "-" + body;
    assert s[|s| - 1] == body[|body| - 1] && s[1..] == body;
    assert Strip(s) == s;
  }

  lemma UnsignedIsReadWhole(s: string)
    requires s != "" && !IsSpace(s[0]) && !IsSpace(s[|s| - 1]) && s[0] != '-' && s[0] != '+'
    ensures Read(s) == ReadBody(false, s)
  {
    hide ReadBody, IsSpace;
    assert Strip(s) == s;
  }

  predicate Solid(c: char) {
    Text.IsDigit(c) || c == 'N'
  }

  lemma SolidIsNoSpace()
    ensures forall c :: Solid(c) ==> !IsSpace(c) && c != '-' && c != '+'
    ensures !IsSpace('-')
  {
  }

  lemma NothingIsNoNumber()
    ensures Read("") == Text.None
  {
    hide ReadBody, Strip, IsSpace;
    assert |Strip("")| == 0;
    EmptyIsNoNumber(false);
  }

  lemma EmptyIsNoNumber(negative: bool)
    ensures ReadBody(negative, "") == Text.None
  {
    hide Text.ReadUnsigned;
    LetterIsNoNumber("");
    assert |Fold("")| == 0 && |"inf"| == 3 && |"infinity"| == 8;
  }

  /** A number is read with its sign and without the white space about it, however the number is written; and the
      names of an infinity and of the two kinds of NaN are read as such. */
  lemma ReadsWhatIsWritten(negative: bool, d: Dec, s: string)
    requires d.coeff >= 0
    ensures Read(Sign(negative) + Text.Text(d)) == Text.Some(Finite(negative, d))
    ensures Read(s) == Read(Strip(s))
  {
    hide Text.Body, Text.ReadUnsigned, Read;
    assert Text.Text(d) == Text.Body(d);
    Text.BodyRoundTrip(d);
    Text.BodyEndsWithDigit(d);
    ReadSigned(negative, Text.Body(d));
    StripIsStripped(s);
  }

  lemma StripIsStripped(s: string)
    ensures Read(s) == Read(Strip(s))
  {
    hide ReadBody, IsSpace;
    assert Strip(Strip(s)) == Strip(s);
  }

  lemma NamesAreRead(negative: bool, s: string)
    ensures ReadBody(negative, s) == Text.Some(Infinite) <==> Fold(s) == "inf" || Fold(s) == "infinity"
    ensures ReadBody(negative, s) == Text.Some(Signaling) <==>
      |s| >= 4 && Fold(s[..4]) == "snan" && Text.AllDigits(s[4..])
    ensures forall payload :: ReadBody(negative, s) == Text.Some(Quiet(negative, payload)) <==>
        |s| >= 3 && Fold(s[..3]) == "nan" && Text.AllDigits(s[3..]) && payload == TrimZeros(s[3..])
  {
    hide Text.ReadUnsigned, TrimZeros, Text.AllDigits;
    assert |s| >= 3 ==> |Fold(s)| == |s| && |Fold(s[..3])| == 3 && Fold(s)[0] == Fold(s[..3])[0];
    assert |s| >= 4 ==> |Fold(s[..4])| == 4 && Fold(s)[0] == Fold(s[..4])[0];
    if s == "" || (!Text.IsDigit(s[0]) && s[0] != '.') {
      LetterIsNoNumber(s);
    } else {
      assert Fold(s)[0] == s[0];
    }
  }

  /** Two decimals stay as they are. */
  lemma RoundedTwice(d: Dec)
    requires Rounded(d).Some?
    ensures Rounded(Rounded(d).value) == Rounded(d)
  {
    hide HalfEven, Digits;
    var q := Rounded(d).value;
    assert Pow10(0) == 1;
    assert Rescaled(q, -2) == q.coeff;
  }

  lemma CappedTwice(payload: string)
    ensures |Capped(payload)| <= PRECISION && Capped(Capped(payload)) == Capped(payload)
    ensures TrimZeros(Capped(payload)) == Capped(payload)
    ensures Text.AllDigits(payload) ==> Text.AllDigits(Capped(payload))
  {
    hide TrimZeros, Text.IsDigit;
  }

  /** Either spelling of a NaN, with digits after it. */
  lemma NanIsRead(negative: bool, letters: string, payload: string)
    requires Text.AllDigits(payload) && (letters == "NaN" || letters == "nan")
    ensures ReadBody(negative, letters + payload) == Text.Some(Quiet(negative, TrimZeros(payload)))
  {
    hide TrimZeros, Text.AllDigits, Text.ReadUnsigned;
    var body := letters + payload;
    assert body[..3] == letters && body[3..] == payload;
    assert body[0] == letters[0];
    LetterIsNoNumber(body);
    FoldNan(body);
  }

  lemma FoldNan(body: string)
    requires |body| >= 3 && (body[..3] == "NaN" || body[..3] == "nan")
    ensures Fold(body) != "inf" && Fold(body) != "infinity" && Fold(body[..3]) == "nan"
  {
    assert body[0] == body[..3][0] && Fold(body)[0] == 'n';
    assert Fold("NaN") == "nan";
    assert Fold("nan") == "nan";
  }

  lemma LetterIsNoNumber(s: string)
    requires s == "" || (!Text.IsDigit(s[0]) && s[0] != '.')
    ensures Text.ReadUnsigned(s).None?
  {
    hide Text.ReadExponent, Text.NatValue;
    assert Text.Span(s) == 0;
  }

  lemma ReadDigits(s: string)
    ensures Read(s).Some? && Read(s).value.Quiet? ==> Text.AllDigits(Read(s).value.payload)
  {
    hide Strip, ReadBody;
    var t := Strip(s);
    ReadBodyDigits(false, t);
    if t != "" {
      ReadBodyDigits(t[0] == '-', t[1..]);
    }
  }

  lemma ReadBodyDigits(negative: bool, body: string)
    ensures var r := ReadBody(negative, body); r.Some? && r.value.Quiet? ==> Text.AllDigits(r.value.payload)
    ensures var r := ReadBody(negative, body); r.Some? && r.value.Finite? ==> r.value.magnitude.coeff >= 0
  {
    hide Fold, Text.ReadUnsigned, TrimZeros;
    UnsignedIsNonNegative(body);
  }

  /** What was shown is read as what was shown, and shown again as it is. */
  lemma ShownTwice(s: string)
    requires Read(s).Some? && Shown(Read(s).value).Some?
    ensures var t := Shown(Read(s).value).value;
      Read(t).Some? && Shown(Read(t).value) == Text.Some(t)
  {
    hide Read, Rounded, TrimZeros, ReadBody;
    match Read(s).value {
      case Finite(negative, magnitude) =>
        ReadIsNonNegative(s);
        FiniteTwice(negative, magnitude);
      case Quiet(negative, payload) =>
        ReadDigits(s);
        QuietTwice(negative, payload);
      case _ =>
    }
  }

  lemma FiniteTwice(negative: bool, d: Dec)
    requires d.coeff >= 0 && Rounded(d).Some?
    ensures var t := Sign(negative) + Text.Body(Rounded(d).value);
      Read(t) == Text.Some(Finite(negative, Rounded(d).value))
          && Shown(Finite(negative, Rounded(d).value)) == Text.Some(t)
  {
    hide Read, Text.Body, Text.ReadUnsigned;
    var q := Rounded(d).value;
    RoundedSign(d);
    RoundedTwice(d);
    hide Rounded;
    Text.BodyRoundTrip(q);
    Text.BodyEndsWithDigit(q);
    ReadSigned(negative, Text.Body(q));
  }

  lemma RoundedSign(d: Dec)
    requires d.coeff >= 0 && Rounded(d).Some?
    ensures Rounded(d).value.coeff >= 0 && Rounded(d).value.exp == -2
  {
    hide Digits;
    if d.exp >= -2 {
      MulNonNegative(d.coeff, Pow10(d.exp + 2));
    } else {
      HalfEvenIsNearest(d.coeff, Pow10(-2 - d.exp));
    }
  }

  lemma QuietTwice(negative: bool, payload: string)
    requires Text.AllDigits(payload)
    ensures var t := Sign(negative) + "NaN" + Capped(payload);
      Read(t).Some? && Shown(Read(t).value) == Text.Some(t)
  {
    hide Read, ReadBody, TrimZeros;
    CappedTwice(payload);
    var rest := Capped(payload);
    hide Capped;
    NanIsRead(negative, "NaN", rest);
    ReadSigned(negative, "NaN" + rest);
    assert Sign(negative) + "NaN" + rest == Sign(negative) + ("NaN" + rest);
  }

  // ---- Floats ----------------------------------------------------------------------------------------------------

  /** How the platform prints the float nearest to a magnitude. */
  type FloatText = Dec -> string

  /** The decimal that text says. */
  function Printed(text: FloatText, d: Dec): Dec {
    var read := Text.ReadUnsigned(text(d));
    if read.Some? then read.value else d
  }

  /** Printing the nearest float: the text is a number, it says a number with that same nearest float, it
      depends on the number alone, and it has no more than two decimals for a number with no more. */
  ghost predicate PrintsNearest(text: FloatText) {
    && (forall d: Dec :: text(d) != "" && Text.IsDigit(text(d)[0]) && Text.IsDigit(text(d)[|text(d)| - 1]))
    && (forall d: Dec :: Text.ReadUnsigned(text(d)).Some? && text(Printed(text, d)) == text(d))
    && (forall d: Dec, e: Dec :: SameValue(d, e) ==> text(d) == text(e))
    && (forall d: Dec :: d.exp >= -2 ==> Printed(text, d).exp >= -2)
  }

  /** A rounded coordinate as a float again. */
  function FloatShown(r: Reading, text: FloatText): string {
    if r.Finite? && Rounded(r.magnitude).Some? then Sign(r.negative) + text(Rounded(r.magnitude).value) else "nan"
  }

  /** Does a second rounding have room for the float the first one gave? */
  predicate FloatFits(s: string, text: FloatText) {
    var r := Read(s);
    r.Some? && r.value.Finite? && Rounded(r.value.magnitude).Some? ==>
        !TooLarge(Printed(text, Rounded(r.value.magnitude).value))
  }

  /** A rounded float is rounded to itself exactly when there is room for it; otherwise it raises. */
  lemma FloatTwice(s: string, text: FloatText)
    requires PrintsNearest(text) && Read(s).Some? && Shown(Read(s).value).Some?
    ensures var t := FloatShown(Read(s).value, text);
      && Read(t).Some?
      && (Shown(Read(t).value).Some? <==> FloatFits(s, text))
      && (FloatFits(s, text) ==> FloatShown(Read(t).value, text) == t)
  {
    hide Read, Rounded, TooLarge, Capped, ReadBody;
    match Read(s).value {
      case Finite(negative, magnitude) =>
        ReadIsNonNegative(s);
        RoundedSign(magnitude);
        FloatAgain(negative, Rounded(magnitude).value, text);
      case Quiet(negative, payload) => NotANumberAgain();
      case _ =>
    }
  }

  lemma NoNumberFits(s: string, text: FloatText)
    requires Read(s).None?
    ensures FloatFits(s, text)
  {
  }

  lemma LettersAreNoSpace()
    ensures !IsSpace('n')
  {
  }

  lemma NotANumberAgain()
    ensures Read("nan") == Text.Some(Quiet(false, ""))
  {
    hide Read, ReadBody, IsSpace;
    NanIsRead(false, "nan", "");
    assert "nan" + "" == "nan";
    LettersAreNoSpace();
    UnsignedIsReadWhole("nan");
  }

  lemma FloatAgain(negative: bool, q: Dec, text: FloatText)
    requires PrintsNearest(text) && q.coeff >= 0 && q.exp == -2
    ensures var r, again := Finite(negative, Printed(text, q)), Rounded(Printed(text, q));
      && Read(Sign(negative) + text(q)) == Text.Some(r)
      && (again.Some? <==> !TooLarge(Printed(text, q)))
      && (again.Some? ==> text(again.value) == text(q))
  {
    hide Read, Rounded, TooLarge, Text.ReadUnsigned;
    var d := Printed(text, q);
    assert d.exp >= -2 && text(d) == text(q);
    ReadSigned(negative, text(q));
    assert Read(Sign(negative) + text(q)) == Text.Some(Finite(negative, d));
    UnsignedIsNonNegative(text(q));
    RaisesExactly(d);
    if Rounded(d).Some? {
      WholeHundredths(d);
    }
  }

  lemma UnsignedIsNonNegative(s: string)
    ensures Text.ReadUnsigned(s).Some? ==> Text.ReadUnsigned(s).value.coeff >= 0
  {
  }

  lemma WholeHundredths(d: Dec)
    requires d.exp >= -2 && Rounded(d).Some?
    ensures SameValue(Rounded(d).value, d)
  {
    assert Pow10(0) == 1;
  }

  /** A float is printed with at most 17 digits, and 10^15 is a float, so rounding to the nearest float
      does not cross it. */
  ghost predicate PrintsShort(text: FloatText) {
    && (forall d: Dec :: Abs(Printed(text, d).coeff) < Pow10(17))
    && (forall d: Dec :: d.coeff >= 0 && AtMost(d, Dec(Pow10(15), 0)) ==> AtMost(Printed(text, d), Dec(Pow10(15), 0)))
  }

  /** Whatever float arrives, there is room for the float its rounding gives. */
  lemma FloatsFit(negative: bool, d: Dec, text: FloatText)
    requires PrintsNearest(text) && PrintsShort(text)
    ensures FloatFits(Sign(negative) + text(d), text)
  {
    hide Read, Rounded, TooLarge, Text.ReadUnsigned;
    var f := Printed(text, d);
    assert text(f) == text(d);
    ReadSigned(negative, text(d));
    UnsignedIsNonNegative(text(d));
    assert Read(Sign(negative) + text(d)) == Text.Some(Finite(negative, f));
    if Rounded(f).Some? {
      var q := Rounded(f).value;
      RoundedSign(f);
      if f.exp >= -2 {
        WholeHundredths(f);
        assert text(q) == text(f) && Printed(text, q) == f;
        RaisesExactly(f);
      } else {
        RoundedIsSmall(f);
        assert AtMost(Printed(text, q), Dec(Pow10(15), 0));
        SmallIsNotTooLarge(Printed(text, q));
      }
    }
  }

  lemma RoundedIsSmall(f: Dec)
    requires 0 <= f.coeff < Pow10(17) && f.exp < -2 && Rounded(f).Some?
    ensures AtMost(Rounded(f).value, Dec(Pow10(15), 0))
  {
    hide Digits, HalfEven, Pow10;
    var p := Pow10(-2 - f.exp);
    MulMonotone(1, p, Pow10(17));
    HalfEvenBounds(f.coeff, p, 0, Pow10(17));
    Pow10Add(15, 2);
    RescaledToItself(Rounded(f).value);
  }

  lemma RescaledToItself(d: Dec)
    ensures Rescaled(d, d.exp) == d.coeff
  {
    assert Pow10(0) == 1;
  }

  lemma SmallIsNotTooLarge(d: Dec)
    requires d.exp >= -2 && AtMost(d, Dec(Pow10(15), 0))
    ensures !TooLarge(d)
  {
    hide Pow10;
    var limit := Dec(Pow10(15), 0);
    var x := Lower(d.exp, 0);
    RescaleTwice(d, x, -2);
    RescaleTwice(limit, x, -2);
    MulMonotone(Rescaled(d, x), Rescaled(limit, x), Pow10(x + 2));
    Pow10Add(15, 2);
    assert Rescaled(limit, -2) == Pow10(17);
    PowersApart();
  }

  lemma PowersApart()
    ensures Pow10(17) < Pow10(PRECISION)
  {
    Pow10Monotone(18, PRECISION);
    assert Pow10(18) == 10 * Pow10(17);
  }
}
