/** Printing a decimal and reading it back: the text form a money value has on the wire. */
module DecimalText {
  import opened Decimals
  import Strings

  datatype Option<+T> = None | Some(value: T)

  // ---- Digits as text ----------------------------------------------------------------------------

  predicate IsDigit(c: char) {
    '0' <= c <= '9'
  }

  predicate AllDigits(s: string) {
    forall i :: 0 <= i < |s| ==> IsDigit(s[i])
  }

  function DigitChar(n: nat): (c: char)
    requires n < 10
    ensures IsDigit(c)
  {
    '0' + n as char
  }

  function DigitValue(c: char): (n: nat)
    requires IsDigit(c)
    ensures n < 10
  {
    (c - '0') as int
  }

  function NatText(n: nat): (s: string)
    ensures |s| >= 1 && AllDigits(s)
  {
    if n < 10 then [DigitChar(n)] else NatText(n / 10) + [DigitChar(n % 10)]
  }

  function NatValue(s: string): nat
    requires AllDigits(s)
  {
    if s == "" then 0 else 10 * NatValue(s[..|s| - 1]) + DigitValue(s[|s| - 1])
  }

  function Zeros(n: nat): (s: string)
    ensures |s| == n && AllDigits(s)
  {
    if n == 0 then "" else "0" + Zeros(n - 1)
  }

  /** Reading what was printed gives the number back. */
  lemma {:induction false} NatRoundTrip(n: nat)
    ensures NatValue(NatText(n)) == n
  {
    if n < 10 {
      assert [DigitChar(n)][..0] == "";
    } else {
      NatRoundTrip(n / 10);
      assert (NatText(n / 10) + [DigitChar(n % 10)])[..|NatText(n)| - 1] == NatText(n / 10);
    }
  }

  /** Leading zeros do not change a number. */
  lemma {:induction false} LeadingZeros(k: nat, s: string)
    requires AllDigits(s)
    ensures AllDigits(Zeros(k) + s) && NatValue(Zeros(k) + s) == NatValue(s)
    decreases k + |s|
  {
    if s != "" {
      LeadingZeros(k, s[..|s| - 1]);
      assert (Zeros(k) + s)[..|Zeros(k) + s| - 1] == Zeros(k) + s[..|s| - 1];
    } else if k > 0 {
      assert Zeros(k) + s == Zeros(k);
      ZerosValue(k);
    }
  }

  lemma {:induction false} ZerosValue(k: nat)
    ensures NatValue(Zeros(k)) == 0
  {
    if k > 0 {
      ZerosSnoc(k - 1);
      assert (Zeros(k - 1) + "0")[..k - 1] == Zeros(k - 1);
      ZerosValue(k - 1);
    }
  }

  lemma {:induction false} ZerosSnoc(k: nat)
    ensures Zeros(k + 1) == Zeros(k) + "0"
  {
    if k > 0 {
      ZerosSnoc(k - 1);
    }
  }

  // ---- How a number is written ------------------------------------------------------------------------

  /** The digits of a number, as it is written. */
  predicate IsWritten(digits: string, n: int) {
    && digits != "" && AllDigits(digits) && NatValue(digits) == n
    && (|digits| > 1 ==> digits[0] != '0')
  }

  lemma {:induction false} TextIsWritten(n: nat)
    ensures IsWritten(NatText(n), n)
  {
    NatRoundTrip(n);
    NoLeadingZero(n);
  }

  lemma {:induction false} NoLeadingZero(n: nat)
    ensures n > 0 ==> NatText(n)[0] != '0'
    ensures |NatText(n)| > 1 ==> n > 0
  {
    if n >= 10 {
      NoLeadingZero(n / 10);
    }
  }

  /** A number is written in one way only. */
  lemma {:induction false} WrittenIsText(digits: string, n: nat)
    requires IsWritten(digits, n)
    ensures digits == NatText(n)
    decreases |digits|
  {
    var last := digits[|digits| - 1];
    var init := digits[..|digits| - 1];
    assert digits == init + [last];
    if |digits| == 1 {
      assert init == "" && NatValue(init) == 0;
    } else {
      assert init[0] == digits[0];
      FirstDigitCounts(init);
      WrittenIsText(init, NatValue(init));
    }
  }

  lemma {:induction false} FirstDigitCounts(digits: string)
    requires digits != "" && AllDigits(digits) && digits[0] != '0'
    ensures NatValue(digits) > 0
  {
    if |digits| > 1 {
      FirstDigitCounts(digits[..|digits| - 1]);
    } else {
      assert digits[..0] == "";
    }
  }

  /** Digits side by side. */
  lemma {:induction false} ValueOfBoth(a: string, b: string)
    requires AllDigits(a) && AllDigits(b)
    ensures AllDigits(a + b) && NatValue(a + b) == NatValue(a) * Pow10(|b|) + NatValue(b)
    decreases |b|
  {
    if b == "" {
      assert a + b == a;
    } else {
      var init := b[..|b| - 1];
      ValueOfBoth(a, init);
      assert (a + b)[..|a + b| - 1] == a + init;
      TenTimes(NatValue(a), Pow10(|init|), NatValue(init), DigitValue(b[|b| - 1]));
    }
  }

  lemma TenTimes(a: nat, p: nat, b: nat, last: nat)
    ensures 10 * (a * p + b) + last == a * (10 * p) + (10 * b + last)
  {
  }

  /** The digits of c with a point before the last e of them, and a digit before the point. */
  ghost predicate PlacedAt(text: string, c: nat, e: nat) {
    if e == 0 then IsWritten(text, c)
    else exists whole: string, fraction: string ::
      text == whole + "." + fraction && |fraction| == e && AllDigits(fraction)
      && (exists n: nat :: IsWritten(whole, n) && n * Pow10(e) + NatValue(fraction) == c)
  }

  // ---- Printing ------------------------------------------------------------------------------------

  /** An integer as text. */
  function IntText(n: int): string {
    if n < 0 then "-" + NatText(-n) else NatText(n)
  }

  /** The sign is always written: this is how an exponent is printed. */
  function SignedText(n: int): string {
    if n < 0 then "-" + NatText(-n) else "+" + NatText(n)
  }

  /** The exponents at which a number is printed without an exponent part. */
  predicate Plain(d: Dec) {
    d.exp <= 0 && d.exp + |NatText(Abs(d.coeff))| > -6
  }

  /** The digits before and after the point, for a point after `dot` of the digits. */
  function SplitAt(digits: string, dot: int): (string, string) {
    if dot <= 0 then ("0", "." + Zeros(-dot) + digits)
    else if dot >= |digits| then (digits + Zeros(dot - |digits|), "")
    else (digits[..dot], "." + digits[dot..])
  }

  /** How many digits come before the point. */
  function Dot(d: Dec): int {
    if Plain(d) then d.exp + |NatText(Abs(d.coeff))| else 1
  }

  function ExponentPart(d: Dec): string {
    var shift := d.exp + |NatText(Abs(d.coeff))| - Dot(d);
    if shift == 0 then "" else "E" + SignedText(shift)
  }

  function Body(d: Dec): string {
    var parts := SplitAt(NatText(Abs(d.coeff)), Dot(d));
    parts.0 + parts.1 + ExponentPart(d)
  }

  /** Text of a decimal: plain where the exponent allows it, scientific elsewhere. */
  function Text(d: Dec): string {
    if d.coeff < 0 then "-" + Body(d) else Body(d)
  }

  // ---- Reading -------------------------------------------------------------------------------------

  /** How many digits the text starts with. */
  function Span(s: string): (n: nat)
    ensures n <= |s| && AllDigits(s[..n])
    ensures n < |s| ==> !IsDigit(s[n])
  {
    if s == "" || !IsDigit(s[0]) then 0
    else
      assert s[..1 + Span(s[1..])] == [s[0]] + s[1..][..Span(s[1..])];
      1 + Span(s[1..])
  }

  function ReadExponent(s: string): Option<int> {
    if s == "" then Some(0)
    else if s[0] != 'E' && s[0] != 'e' then None
    else
      var t := s[1..];
      var negative := t != "" && t[0] == '-';
      var digits := if t != "" && (t[0] == '-' || t[0] == '+') then t[1..] else t;
      if digits == "" || Span(digits) != |digits| then None
      else
        assert digits[..|digits|] == digits;
        var n: int := NatValue(digits);
        Some(if negative then -n else n)
  }

  function ReadUnsigned(s: string): Option<Dec> {
    var i := Span(s);
    var point := i < |s| && s[i] == '.';
    var j := if point then Span(s[i + 1..]) else 0;
    var frac := if point then s[i + 1..][..j] else "";
    var rest := if point then s[i + 1..][j..] else s[i..];
    var e := ReadExponent(rest);
    if i + |frac| == 0 || e.None? then None
    else Some(Dec(NatValue(s[..i] + frac), e.value - |frac|))
  }

  /** A finite decimal literal: an optional sign, digits with at most one point, an optional
      exponent. Anything else is not a number. */
  function Read(s: string): Option<Dec> {
    var negative := s != "" && s[0] == '-';
    var body := if s != "" && (s[0] == '-' || s[0] == '+') then s[1..] else s;
    var d := ReadUnsigned(body);
    if d.None? then None
    else Some(Dec(if negative then -d.value.coeff else d.value.coeff, d.value.exp))
  }

  // ---- What is a number ------------------------------------------------------------------------------

  /** Nothing, or an exponent: a letter, perhaps a sign, and digits. */
  predicate SaysExponent(tail: string, n: int) {
    if tail == "" then n == 0
    else
      && tail[0] in "eE"
      && if |tail| > 1 && tail[1] in "+-" then DigitsSay(tail[2..], if tail[1] == '-' then 0 - n else n)
         else DigitsSay(tail[1..], n)
  }

  predicate DigitsSay(digits: string, n: int) {
    digits != "" && AllDigits(digits) && NatValue(digits) == n
  }

  /** Digits with at most one point, and an exponent. */
  ghost predicate IsNumeral(s: string, d: Dec) {
    exists whole: string, fraction: string, tail: string, n: int ::
      IsMadeOf(s, whole, fraction, tail) && NumeralSays(whole, fraction, tail, n, d)
  }

  predicate IsMadeOf(s: string, whole: string, fraction: string, tail: string) {
    (s == whole + tail && fraction == "") || s == whole + "." + fraction + tail
  }

  predicate NumeralSays(whole: string, fraction: string, tail: string, n: int, d: Dec) {
    && AllDigits(whole) && AllDigits(fraction) && whole + fraction != "" && SaysExponent(tail, n)
    && d.exp == n - |fraction| && d.coeff == NatValue(whole) * Pow10(|fraction|) + NatValue(fraction)
  }

  /** A text is read as a number exactly when it is a numeral, perhaps after a sign. */
  lemma ReadIs(s: string, d: Dec)
    ensures Read(s) == Some(d) <==>
      if s != "" && s[0] == '-' then IsNumeral(s[1..], Dec(0 - d.coeff, d.exp))
      else IsNumeral(if s != "" && s[0] == '+' then s[1..] else s, d)
  {
    hide ReadUnsigned, IsNumeral;
    if s != "" && s[0] == '-' {
      UnsignedIs(s[1..], Dec(0 - d.coeff, d.exp));
    } else {
      UnsignedIs(if s != "" && s[0] == '+' then s[1..] else s, d);
    }
  }

  lemma UnsignedIs(s: string, d: Dec)
    ensures ReadUnsigned(s) == Some(d) <==> IsNumeral(s, d)
  {
    hide ReadUnsigned, NumeralSays;
    if ReadUnsigned(s).Some? {
      var whole, fraction, tail, n := Numeral(s);
    }
    forall whole: string, fraction: string, tail: string, n: int |
      IsMadeOf(s, whole, fraction, tail) && NumeralSays(whole, fraction, tail, n, d)
      ensures ReadUnsigned(s) == Some(d)
    {
      NumeralIsRead(s, whole, fraction, tail, n, d);
    }
  }

  lemma ExponentIs(tail: string, n: int)
    ensures ReadExponent(tail) == Some(n) <==> SaysExponent(tail, n)
  {
    hide NatValue;
    if tail != "" {
      var t := tail[1..];
      var digits := if t != "" && (t[0] == '-' || t[0] == '+') then t[1..] else t;
      SpanIsAll(digits);
      if t != "" && (t[0] == '-' || t[0] == '+') {
        assert digits == tail[2..];
      }
    }
  }

  lemma SpanIsAll(digits: string)
    ensures Span(digits) == |digits| <==> AllDigits(digits)
  {
    assert digits[..|digits|] == digits;
  }

  /** What the reader takes a text apart into. */
  lemma Numeral(s: string) returns (whole: string, fraction: string, tail: string, n: int)
    requires ReadUnsigned(s).Some?
    ensures IsMadeOf(s, whole, fraction, tail)
    ensures NumeralSays(whole, fraction, tail, n, ReadUnsigned(s).value)
  {
    hide ReadExponent, NatValue, SaysExponent, Pow10;
    var i := Span(s);
    whole := s[..i];
    if i < |s| && s[i] == '.' {
      var after := s[i + 1..];
      fraction, tail := after[..Span(after)], after[Span(after)..];
      assert s == whole + "." + fraction + tail;
    } else {
      fraction, tail := "", s[i..];
      assert whole + fraction == whole;
    }
    n := ReadExponent(tail).value;
    ExponentIs(tail, n);
    ValueOfBoth(whole, fraction);
  }

  lemma NumeralIsRead(s: string, whole: string, fraction: string, tail: string, n: int, d: Dec)
    requires IsMadeOf(s, whole, fraction, tail)
    requires NumeralSays(whole, fraction, tail, n, d)
    ensures ReadUnsigned(s) == Some(d)
  {
    hide ReadExponent, ReadUnsigned, NatValue, IsDigit, Pow10;
    ValueOfBoth(whole, fraction);
    ExponentIs(tail, n);
    TailStarts(tail, n);
    hide SaysExponent;
    if s == whole + tail && fraction == "" {
      assert whole + "" == whole;
      WholeIsRead(whole, tail);
    } else {
      assert s[..|whole|] == whole && s[|whole| + 1..] == fraction + tail;
      PointedIsRead(s, whole, fraction, tail);
    }
  }

  lemma WholeIsRead(whole: string, tail: string)
    requires AllDigits(whole) && whole != "" && ReadExponent(tail).Some?
    requires tail == "" || (!IsDigit(tail[0]) && tail[0] != '.')
    ensures ReadUnsigned(whole + tail) == Some(Dec(NatValue(whole), ReadExponent(tail).value))
  {
    hide ReadExponent, NatValue, Span, IsDigit;
    SpanOfDigits(whole, tail);
    assert (whole + tail)[..|whole|] == whole && (whole + tail)[|whole|..] == tail && whole + "" == whole;
  }

  lemma PointedIsRead(s: string, whole: string, fraction: string, tail: string)
    requires |s| > |whole| && s[..|whole|] == whole && s[|whole|] == '.' && s[|whole| + 1..] == fraction + tail
    requires AllDigits(whole) && AllDigits(fraction) && whole + fraction != "" && ReadExponent(tail).Some?
    requires tail == "" || !IsDigit(tail[0])
    ensures AllDigits(whole + fraction)
    ensures ReadUnsigned(s) == Some(Dec(NatValue(whole + fraction), ReadExponent(tail).value - |fraction|))
  {
    hide ReadExponent, NatValue, Span, IsDigit;
    PointIsNoDigit();
    assert s == whole + s[|whole|..];
    SpanOfDigits(whole, s[|whole|..]);
    SpanOfDigits(fraction, tail);
    assert (fraction + tail)[..|fraction|] == fraction && (fraction + tail)[|fraction|..] == tail;
  }

  lemma TailStarts(tail: string, n: int)
    requires SaysExponent(tail, n)
    ensures tail == "" || (!IsDigit(tail[0]) && tail[0] != '.')
  {
  }

  // ---- Reading undoes printing -----------------------------------------------------------------------

  lemma {:induction false} SpanOfDigits(s: string, rest: string)
    requires AllDigits(s) && (rest == "" || !IsDigit(rest[0]))
    ensures Span(s + rest) == |s|
  {
    if s == "" {
      assert s + rest == rest;
    } else {
      assert (s + rest)[1..] == s[1..] + rest;
      SpanOfDigits(s[1..], rest);
    }
  }

  lemma ExponentRoundTrip(n: int)
    ensures ReadExponent("E" + SignedText(n)) == Some(n)
  {
    var s := "E" + SignedText(n);
    var digits := NatText(Abs(n));
    assert s[1..] == SignedText(n) && s[1..][1..] == digits;
    SpanOfDigits(digits, "");
    assert digits + "" == digits;
    NatRoundTrip(Abs(n));
  }

  lemma PointIsNoDigit()
    ensures !IsDigit('.') && !IsDigit('E')
  {
  }

  /** A text with a point is read part by part. */
  lemma ReadPointed(whole: string, frac: string, e: string, exp: int)
    requires AllDigits(whole) && AllDigits(frac) && whole != ""
    requires ReadExponent(e) == Some(exp) && (e == "" || e[0] == 'E')
    ensures AllDigits(whole + frac)
    ensures ReadUnsigned(whole + ("." + frac + e)) == Some(Dec(NatValue(whole + frac), exp - |frac|))
  {
    hide ReadExponent, NatValue, Span, IsDigit;
    var tail := "." + frac + e;
    var s := whole + tail;
    PointIsNoDigit();
    SpanOfDigits(whole, tail);
    assert s[..|whole|] == whole;
    assert s[|whole| + 1..] == frac + e;
    SpanOfDigits(frac, e);
    assert (frac + e)[..|frac|] == frac && (frac + e)[|frac|..] == e;
  }

  lemma ReadWhole(whole: string, e: string, exp: int)
    requires AllDigits(whole) && whole != ""
    requires ReadExponent(e) == Some(exp) && (e == "" || e[0] == 'E')
    ensures ReadUnsigned(whole + e) == Some(Dec(NatValue(whole), exp))
  {
    hide ReadExponent, NatValue, Span, IsDigit;
    PointIsNoDigit();
    SpanOfDigits(whole, e);
    assert (whole + e)[..|whole|] == whole && (whole + e)[|whole|..] == e && whole + "" == whole;
  }

  lemma ExponentPartReads(d: Dec)
    ensures ReadExponent(ExponentPart(d)) == Some(d.exp + |NatText(Abs(d.coeff))| - Dot(d))
    ensures ExponentPart(d) == "" || ExponentPart(d)[0] == 'E'
  {
    var shift := d.exp + |NatText(Abs(d.coeff))| - Dot(d);
    if shift != 0 {
      ExponentRoundTrip(shift);
    }
  }

  lemma DotBound(d: Dec)
    ensures Dot(d) <= |NatText(Abs(d.coeff))|
    ensures Dot(d) <= 0 ==> Dot(d) == d.exp + |NatText(Abs(d.coeff))|
  {
    hide NatText;
  }

  lemma BodyRoundTrip(d: Dec)
    ensures ReadUnsigned(Body(d)) == Some(Dec(Abs(d.coeff), d.exp))
    ensures Body(d) != "" && IsDigit(Body(d)[0])
  {
    hide ReadUnsigned, ReadExponent, NatValue, NatText, ExponentPart, Dot, IsDigit;
    var digits, dot, e := NatText(Abs(d.coeff)), Dot(d), ExponentPart(d);
    ExponentPartReads(d);
    NatRoundTrip(Abs(d.coeff));
    DotBound(d);
    if dot <= 0 {
      BodySmall(d, digits, e);
    } else if dot >= |digits| {
      assert digits + Zeros(0) == digits;
      ReadWhole(digits, e, d.exp + |digits| - dot);
      assert Body(d) == digits + e;
    } else {
      ReadPointed(digits[..dot], digits[dot..], e, d.exp + |digits| - dot);
      assert digits[..dot] + digits[dot..] == digits;
      assert Body(d) == digits[..dot] + ("." + digits[dot..] + e);
    }
  }

  lemma BodySmall(d: Dec, digits: string, e: string)
    requires digits == NatText(Abs(d.coeff)) && e == ExponentPart(d) && Dot(d) <= 0
    requires NatValue(digits) == Abs(d.coeff) && ReadExponent(e) == Some(0) && (e == "" || e[0] == 'E')
    ensures ReadUnsigned(Body(d)) == Some(Dec(Abs(d.coeff), d.exp))
    ensures Body(d) != "" && IsDigit(Body(d)[0])
  {
    hide ReadUnsigned, ReadExponent, NatValue, NatText;
    var zeros := Zeros(-Dot(d));
    LeadingZeros(-Dot(d), digits);
    LeadingZeros(1, zeros + digits);
    assert Zeros(1) == "0";
    hide Zeros;
    assert NatValue("0" + (zeros + digits)) == Abs(d.coeff);
    ReadPointed("0", zeros + digits, e, 0);
    var tail := "." + zeros + digits;
    assert Body(d) == "0" + tail + e;
    assert tail + e == "." + (zeros + digits) + e;
    assert "0" + tail + e == "0" + (tail + e);
  }

  /** Printing is exact and unambiguous: every decimal is read back as itself, coefficient and
      exponent. */
  lemma ReadText(d: Dec)
    ensures Read(Text(d)) == Some(d)
  {
    BodyRoundTrip(d);
    hide Body, ReadUnsigned;
    assert ("-" + Body(d))[1..] == Body(d);
  }

  /** A printed decimal has no white space around it. */
  lemma TextIsTrimmed(d: Dec)
    ensures Strings.Trimmed(Text(d))
  {
    hide Body, NatText, Zeros, ExponentPart, IsDigit, Strings.IsSpace, ReadUnsigned;
    BodyRoundTrip(d);
    BodyEndsWithDigit(d);
    DigitsAreNoSpace();
    var text := Text(d);
    assert text[|text| - 1] == Body(d)[|Body(d)| - 1];
  }

  lemma DigitsAreNoSpace()
    ensures forall c :: IsDigit(c) ==> !Strings.IsSpace(c)
    ensures !Strings.IsSpace('-')
  {
  }

  lemma BodyEndsWithDigit(d: Dec)
    ensures Body(d) != "" && IsDigit(Body(d)[|Body(d)| - 1])
  {
    hide NatText, ExponentPart, Zeros, Dot, IsDigit;
    var digits := NatText(Abs(d.coeff));
    var parts := SplitAt(digits, Dot(d));
    ExponentEndsWithDigit(d);
    if parts.1 != "" {
      assert parts.1[|parts.1| - 1] == digits[|digits| - 1];
    } else {
      assert IsDigit(parts.0[|parts.0| - 1]);
    }
  }

  lemma ExponentEndsWithDigit(d: Dec)
    ensures ExponentPart(d) != "" ==> IsDigit(ExponentPart(d)[|ExponentPart(d)| - 1])
  {
    hide NatText, Dot, IsDigit;
  }

  lemma {:induction false} TextLength(n: nat, k: nat)
    requires k >= 1
    ensures |NatText(n)| <= k <==> n < Pow10(k)
  {
    if n < 10 {
      Pow10Monotone(1, k);
    } else if k > 1 {
      TextLength(n / 10, k - 1);
      assert Pow10(k) == 10 * Pow10(k - 1);
    } else {
      assert Pow10(1) == 10;
    }
  }

  lemma ExponentIsWritten(d: Dec)
    requires !Plain(d) && d.exp <= 0
    ensures 'E' in Body(d)
  {
    hide NatText, Zeros;
    assert ExponentPart(d) != "" && ExponentPart(d)[0] == 'E';
  }

  lemma PlacedHasNoLetter(text: string, c: nat, e: nat)
    requires PlacedAt(text, c, e)
    ensures 'E' !in text
  {
    hide NatValue, Pow10;
  }

  /** A number with no exponent part is written with its point in place. */
  lemma PointPlaced(d: Dec)
    requires Plain(d)
    ensures PlacedAt(Body(d), Abs(d.coeff), 0 - d.exp)
  {
    hide NatText, NatValue, IsWritten, Zeros, Pow10;
    var digits, e := NatText(Abs(d.coeff)), 0 - d.exp;
    var dot := |digits| - e;
    TextIsWritten(Abs(d.coeff));
    assert Dot(d) == dot && ExponentPart(d) == "";
    NoZeros();
    if e == 0 {
      assert Body(d) == digits;
    } else if dot <= 0 {
      PlacedSmall(d, digits, e);
    } else {
      PlacedInside(d, digits, e);
    }
  }

  lemma NoZeros()
    ensures Zeros(0) == ""
  {
  }

  lemma PlacedSmall(d: Dec, digits: string, e: nat)
    requires Plain(d) && d.exp == 0 - e && digits == NatText(Abs(d.coeff)) && e >= |digits| && e > 0
    ensures PlacedAt(Body(d), Abs(d.coeff), e)
  {
    hide NatText, NatValue, IsWritten, Zeros, Pow10;
    var zeros := Zeros(e - |digits|);
    var fraction := zeros + digits;
    LeadingZeros(e - |digits|, digits);
    NatRoundTrip(Abs(d.coeff));
    ZeroIsWritten();
    assert IsWritten("0", 0) && 0 * Pow10(e) + NatValue(fraction) == Abs(d.coeff);
    SmallBody(d, digits, e);
    ZeroInFront(zeros, digits);
  }

  lemma SmallBody(d: Dec, digits: string, e: nat)
    requires Plain(d) && d.exp == 0 - e && digits == NatText(Abs(d.coeff)) && e >= |digits| && e > 0
    ensures Body(d) == "0" + ("." + Zeros(e - |digits|) + digits) + ""
  {
    hide NatText, Zeros;
  }

  lemma ZeroInFront(zeros: string, digits: string)
    ensures "0" + ("." + zeros + digits) + "" == "0" + "." + (zeros + digits)
  {
  }

  lemma ZeroIsWritten()
    ensures IsWritten("0", 0)
  {
    TextIsWritten(0);
  }

  lemma PlacedInside(d: Dec, digits: string, e: nat)
    requires Plain(d) && d.exp == 0 - e && digits == NatText(Abs(d.coeff)) && 0 < e < |digits|
    ensures PlacedAt(Body(d), Abs(d.coeff), e)
  {
    var whole, fraction := digits[..|digits| - e], digits[|digits| - e..];
    TextIsWritten(Abs(d.coeff));
    assert whole[0] == digits[0];
    assert digits == whole + fraction;
    ValueOfBoth(whole, fraction);
    assert IsWritten(whole, NatValue(whole));
    hide NatText, NatValue, IsWritten, Zeros, Pow10;
    assert whole + ("." + fraction) + "" == whole + "." + fraction;
    assert Body(d) == whole + "." + fraction;
  }
}
