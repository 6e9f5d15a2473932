/** What each masker shows of a value and what it hides, character by character, said without the maskers. */
module MaskingShown {
  import opened Strings
  import opened Masking
  import opened MaskingAddress
  import Text = DecimalText

  // ---- E-mail addresses --------------------------------------------------------------------------

  predicate IsFirstAt(t: string, n: nat) {
    n < |t| && t[n] == '@' && forall i :: 0 <= i < n ==> t[i] != '@'
  }

  /** The first letter and the domain are shown, and a bullet stands for every other character of the local
      part; a local part of one letter gets a bullet after it, one of none gets four before. */
  ghost predicate EmailShown(t: string, r: string) {
    if '@' !in t then r == MASK
    else exists n: nat :: IsFirstAt(t, n) && LocalHidden(t, r, n)
  }

  predicate LocalHidden(t: string, r: string, n: nat)
    requires n < |t|
  {
    if n == 0 then r == MASK + t
    else if n == 1 then r == [t[0], BULLET] + t[1..]
    else |r| == |t| && forall i :: 0 <= i < |t| ==> r[i] == if i == 0 || i >= n then t[i] else BULLET
  }

  lemma MaskEmailShows(t: string)
    ensures EmailShown(t, MaskEmail(t))
  {
    if '@' in t {
      var n := At(t);
      FirstAtIs(t);
      LocalIsHidden(t, n);
    }
  }

  lemma FirstAtIs(t: string)
    requires '@' in t
    ensures IsFirstAt(t, At(t))
  {
    forall i | 0 <= i < At(t) ensures t[i] != '@' {
      assert t[..At(t)][i] == t[i];
    }
  }

  lemma LocalIsHidden(t: string, n: nat)
    requires '@' in t && n == At(t) < |t|
    ensures LocalHidden(t, MaskEmail(t), n)
  {
    hide Bullets, At;
    if n == 1 {
      BulletsAt(1, 0);
      assert Bullets(1) == [BULLET];
      assert [t[0]] + [BULLET] == [t[0], BULLET];
    } else if n > 1 {
      Framed(t, n);
    }
  }

  /** The first character, as many bullets as there are others before n, and the rest. */
  lemma Framed(t: string, n: nat)
    requires 1 < n < |t|
    ensures var r := [t[0]] + Bullets(n - 1) + t[n..];
      |r| == |t| && forall i :: 0 <= i < |t| ==> r[i] == if i == 0 || i >= n then t[i] else BULLET
  {
    hide Bullets;
    var middle := Bullets(n - 1);
    forall j | 0 <= j < n - 1 ensures middle[j] == BULLET {
      BulletsAt(n - 1, j);
    }
    var r := [t[0]] + middle + t[n..];
    forall i | 0 <= i < |t| ensures r[i] == if i == 0 || i >= n then t[i] else BULLET {
      if 0 < i < n {
        assert r[i] == middle[i - 1];
      }
    }
  }

  lemma BulletsAt(n: nat, i: nat)
    requires i < n
    ensures Bullets(n)[i] == BULLET
  {
    assert Bullets(n)[i] in Bullets(n);
  }

  // ---- Phone numbers, account numbers, payment handles -------------------------------------------------

  /** The country code, which is a plus sign and two characters, and the last four are shown, and a bullet stands
      for every character between. A number no longer than that is shown from both ends. */
  predicate PhoneShown(t: string, r: string) {
    var code := if |t| > 0 && t[0] == '+' then (if |t| < 3 then |t| else 3) else 0;
    if |t| > code + 4 then
      |r| == |t| && forall i :: 0 <= i < |t| ==> r[i] == if i < code || i >= |t| - 4 then t[i] else BULLET
    else
      r == t[..code] + (if |t| > 4 then t[|t| - 4..] else t)
  }

  lemma MaskPhoneIsShown(t: string)
    ensures PhoneShown(t, MaskPhone(t))
  {
    assert StartsWith(t, "+") <==> |t| > 0 && t[0] == '+' by {
      if |t| > 0 {
        assert t[..1] == [t[0]];
      }
    }
    var code := |Head(t)|;
    assert Head(t) == t[..code];
    MaskPhoneShows(t);
  }

  /** The last four are shown, and a bullet stands for every character before; nothing is shown of four or
      fewer. */
  predicate LastShown(t: string, r: string) {
    if |t| <= 4 then r == MASK
    else |r| == |t| && forall i :: 0 <= i < |t| ==> r[i] == if i >= |t| - 4 then t[i] else BULLET
  }

  lemma MaskLast4Shows(t: string)
    ensures LastShown(t, MaskLast4(t))
  {
    if |t| > 4 {
      forall i | 0 <= i < |t| - 4 ensures MaskLast4(t)[i] == BULLET {
        BulletsAt(|t| - 4, i);
      }
    }
  }

  /** A payment handle is shown like an address, an account like an account. */
  ghost predicate UpiShown(t: string, r: string) {
    if '@' in t then EmailShown(t, r) else LastShown(t, r)
  }

  lemma MaskUpiShows(t: string)
    ensures UpiShown(t, MaskUpi(t))
  {
    MaskEmailShows(t);
    MaskLast4Shows(t);
  }

  /** A handle is shown whole, unless it is an address or a number: it starts with a plus sign, or is digits
      with hyphens. */
  ghost predicate IdentifierShown(t: string, r: string) {
    if '@' in t then EmailShown(t, r)
    else if (|t| > 0 && t[0] == '+') || IsHyphened(t) then PhoneShown(t, r)
    else r == t
  }

  predicate IsHyphened(t: string) {
    (exists i :: 0 <= i < |t| && Text.IsDigit(t[i])) && forall i :: 0 <= i < |t| ==> Text.IsDigit(t[i]) || t[i] == '-'
  }

  lemma {:induction false} HyphensGone(t: string)
    ensures Text.AllDigits(Delete(t, '-')) <==> forall i :: 0 <= i < |t| ==> Text.IsDigit(t[i]) || t[i] == '-'
    ensures Delete(t, '-') == "" <==> forall i :: 0 <= i < |t| ==> t[i] == '-'
  {
    if t != "" {
      var u := t[1..];
      HyphensGone(u);
      assert forall i :: 0 <= i < |u| ==> u[i] == t[i + 1];
      if t[0] != '-' {
        var d := Delete(t, '-');
        assert d[0] == t[0] && forall i :: 0 <= i < |d| - 1 ==> d[i + 1] == d[1..][i];
        assert d[1..] == Delete(u, '-');
      }
    }
  }

  lemma MaskIdentifierShows(t: string)
    ensures IdentifierShown(t, MaskIdentifier(t))
  {
    MaskEmailShows(t);
    MaskPhoneIsShown(t);
    HyphensGone(t);
    assert StartsWith(t, "+") <==> |t| > 0 && t[0] == '+' by {
      if |t| > 0 {
        assert t[..1] == [t[0]];
      }
    }
    hide MaskEmail, MaskPhone, EmailShown, PhoneShown, Delete;
    assert IsDigits(Delete(t, '-')) <==> IsHyphened(t);
  }

  // ---- Names and contact labels ------------------------------------------------------------------------

  /** Digits with hyphens, spaces and plus signs about them, no plus sign after a digit. */
  predicate LooksLikeNumber(t: string) {
    && (exists i :: 0 <= i < |t| && Text.IsDigit(t[i]))
    && (forall i :: 0 <= i < |t| ==> Text.IsDigit(t[i]) || t[i] == '-' || t[i] == ' ' || t[i] == '+')
    && !(exists i, j :: 0 <= i < j < |t| && Text.IsDigit(t[i]) && t[j] == '+')
  }

  /** Where the first word of a text ends. */
  predicate FirstWordEnds(t: string, n: nat) {
    0 < n <= |t| && NoSpace(t[..n]) && (n < |t| ==> IsSpace(t[n]))
  }

  /** Where the last word of a text of several words starts. */
  predicate LastWordStarts(t: string, n: nat) {
    0 < n < |t| && NoSpace(t[n..]) && IsSpace(t[n - 1])
  }

  /** The first word is shown, and the first letter of the last one if there are several. */
  ghost predicate NameShown(t: string, r: string) {
    if NoSpace(t) then r == t
    else exists n: nat, m: nat :: FirstWordEnds(t, n) && LastWordStarts(t, m) && r == t[..n] + " " + [t[m]] + "."
  }

  lemma {:induction false} FirstWordIs(t: string)
    requires t != "" && !IsSpace(t[0])
    ensures Words(t) != [] && Words(t)[0] <= t && FirstWordEnds(t, |Words(t)[0]|)
  {
    hide IsSpace, FirstWordEnds;
    if |t| > 1 && !IsSpace(t[1]) {
      var u := t[1..];
      FirstWordIs(u);
      var w := Words(u)[0];
      assert Words(t)[0] == [t[0]] + w;
      FirstLonger(t, u, w);
    } else {
      FirstLetter(t);
    }
  }

  lemma FirstLonger(t: string, u: string, w: string)
    requires |t| > 1 && u == t[1..] && !IsSpace(t[0]) && w <= u && FirstWordEnds(u, |w|)
    ensures [t[0]] + w <= t && FirstWordEnds(t, 1 + |w|)
  {
    hide IsSpace;
    assert t[..1 + |w|] == [t[0]] + u[..|w|] && u[..|w|] == w;
  }

  lemma FirstLetter(t: string)
    requires t != "" && !IsSpace(t[0]) && (|t| == 1 || IsSpace(t[1]))
    ensures Words(t) != [] && Words(t)[0] == [t[0]] && [t[0]] <= t && FirstWordEnds(t, 1)
  {
    hide IsSpace;
    assert t[..1] == [t[0]];
  }

  /** The last of the words ends the text, and is all of it or comes after white space. */
  predicate EndsWith(t: string, w: string) {
    0 < |w| <= |t| && t[|t| - |w|..] == w && NoSpace(w) && (|w| < |t| ==> IsSpace(t[|t| - |w| - 1]))
  }

  lemma {:induction false} LastWordIs(t: string)
    requires t != "" && !IsSpace(t[|t| - 1])
    ensures Words(t) != [] && EndsWith(t, Words(t)[|Words(t)| - 1])
  {
    hide IsSpace, EndsWith;
    if |t| > 1 {
      var u := t[1..];
      assert u[|u| - 1] == t[|t| - 1];
      LastWordIs(u);
      var w := Words(u)[|Words(u)| - 1];
      if IsSpace(t[0]) {
        EndsLonger(t, u, w);
      } else if IsSpace(t[1]) {
        EndsLonger(t, u, w);
        assert Words(t)[|Words(t)| - 1] == w;
      } else {
        LastOfJoined(t, u);
      }
    } else {
      OneLetter(t);
    }
  }

  lemma OneLetter(t: string)
    requires |t| == 1 && !IsSpace(t[0])
    ensures Words(t) == [t] && EndsWith(t, t)
  {
    assert [t[0]] == t && t[0..] == t && t[1..] == "";
  }

  /** A word that ends the rest of a text ends the text, if the text or its rest starts with white space. */
  lemma EndsLonger(t: string, u: string, w: string)
    requires |t| > 1 && u == t[1..] && EndsWith(u, w) && (IsSpace(t[0]) || IsSpace(t[1]))
    ensures EndsWith(t, w)
  {
    assert t[|t| - |w|..] == u[|u| - |w|..];
    if |w| == |u| {
      assert u[0..] == u;
    }
  }

  /** The case of a word that goes on. */
  lemma LastOfJoined(t: string, u: string)
    requires |t| > 1 && u == t[1..] && !IsSpace(t[0]) && !IsSpace(t[1]) && !IsSpace(u[|u| - 1])
    requires Words(u) != [] && EndsWith(u, Words(u)[|Words(u)| - 1])
    ensures Words(t) != [] && EndsWith(t, Words(t)[|Words(t)| - 1])
  {
    hide IsSpace, EndsWith;
    if NoSpace(u) {
      OneLongWord(t, u);
    } else {
      SeveralWords(t, u);
    }
  }

  lemma OneLongWord(t: string, u: string)
    requires |t| > 1 && u == t[1..] && !IsSpace(t[0]) && !IsSpace(t[1]) && NoSpace(u)
    ensures Words(t) == [t] && EndsWith(t, t)
  {
    hide IsSpace;
    OneWord(u);
    assert [t[0]] + u == t;
    assert t[0..] == t;
  }

  lemma SeveralWords(t: string, u: string)
    requires |t| > 1 && u == t[1..] && !IsSpace(t[0]) && !IsSpace(t[1]) && !IsSpace(u[|u| - 1]) && !NoSpace(u)
    requires Words(u) != [] && EndsWith(u, Words(u)[|Words(u)| - 1])
    ensures Words(t) != [] && EndsWith(t, Words(t)[|Words(t)| - 1])
  {
    hide IsSpace;
    WordsOfSuffix(u);
    var w := Words(u)[|Words(u)| - 1];
    assert Words(t)[|Words(t)| - 1] == w;
    assert t[|t| - |w|..] == u[|u| - |w|..];
    assert u[0..] == u;
  }

  lemma ShortNameShows(t: string)
    requires t != "" && Trimmed(t)
    ensures ShortName(t).Some? && NameShown(t, ShortName(t).value)
  {
    if NoSpace(t) {
      OneWord(t);
    } else {
      FirstWordIs(t);
      LastWordIs(t);
      SpacedWords(t);
      var ws := Words(t);
      var n, m := |ws[0]|, |t| - |ws[|ws| - 1]|;
      assert t[..n] == ws[0];
      assert t[0..] == t;
      assert m > 0;
      assert t[m..][0] == t[m];
      assert FirstWordEnds(t, n) && LastWordStarts(t, m) && ShortName(t).value == t[..n] + " " + [t[m]] + ".";
    }
  }

  /** A label is shown as what it looks like, without the white space about it: an address, a number or a name. */
  ghost predicate ContactShown(value: string, r: string) {
    var t := Strip(value);
    if '@' in t then EmailShown(t, r)
    else if LooksLikeNumber(t) then PhoneShown(t, r)
    else if t == "" then r == ""
    else NameShown(t, r)
  }

  lemma NumberShape(t: string)
    ensures PhoneShaped(t) <==> LooksLikeNumber(t)
  {
    PhoneShapedIs(t);
  }

  lemma MaskContactShows(value: string)
    ensures MaskContact(value).Some? && ContactShown(value, MaskContact(value).value)
  {
    hide MaskEmail, MaskPhone, EmailShown, PhoneShown, NameShown, ShortName, PhoneShaped, LooksLikeNumber;
    var t := Strip(value);
    MaskEmailShows(t);
    MaskPhoneIsShown(t);
    NumberShape(t);
    if t != "" {
      ShortNameShows(t);
    }
  }

  lemma MaskNameShows(value: string)
    ensures MaskName(value).Some? <==> Strip(value) != ""
    ensures MaskName(value).Some? ==> ContactShown(value, MaskName(value).value)
  {
    hide EmailShown, PhoneShown, NameShown, ShortName, PhoneShaped, MaskContact;
    var t := Strip(value);
    MaskContactShows(t);
    NumberShape(t);
    MaskNameTwice(value);
    assert Strip(t) == t;
    if t != "" {
      ShortNameShows(t);
    }
  }

  // ---- Addresses -----------------------------------------------------------------------------------------

  function Glue(pieces: seq<string>): string {
    if pieces == [] then "" else if |pieces| == 1 then pieces[0] else pieces[0] + "," + Glue(pieces[1..])
  }

  /** The pieces between commas: joined with commas they are the text, and none holds a comma. */
  lemma {:induction false} SplitIs(t: string)
    ensures Glue(Split(t)) == t && forall piece :: piece in Split(t) ==> ',' !in piece
  {
    if t != "" {
      SplitIs(t[1..]);
      var rest := Split(t[1..]);
      assert rest[0] in rest && forall piece :: piece in rest[1..] ==> piece in rest;
      assert t == [t[0]] + t[1..];
      if t[0] == ',' {
        assert ([""] + rest)[1..] == rest;
        assert Glue([""] + rest) == "" + "," + Glue(rest);
      } else {
        var joined := [[t[0]] + rest[0]] + rest[1..];
        if |rest| > 1 {
          assert joined[1..] == rest[1..];
          assert [t[0]] + (rest[0] + "," + Glue(rest[1..])) == [t[0]] + rest[0] + "," + Glue(rest[1..]);
        }
      }
    }
  }

  /** Piece by piece: stripped, and left out if nothing is left. */
  lemma {:induction false} StrippedIs(a: seq<string>, b: seq<string>)
    ensures Stripped(a + b) == Stripped(a) + Stripped(b)
  {
    hide Stripped, Strip, IsSpace;
    if a == [] {
      assert a + b == b;
      StrippedFirst("", []);
      assert Stripped(a) == [];
    } else {
      StrippedIs(a[1..], b);
      StrippedFirst(a[0], a[1..]);
      StrippedFirst(a[0], a[1..] + b);
      var head := if Strip(a[0]) == "" then [] else [Strip(a[0])];
      assert a == [a[0]] + a[1..] && a + b == [a[0]] + (a[1..] + b);
      assert head + (Stripped(a[1..]) + Stripped(b)) == head + Stripped(a[1..]) + Stripped(b);
    }
  }

  lemma StrippedFirst(piece: string, rest: seq<string>)
    ensures Stripped([piece] + rest) == (if Strip(piece) == "" then [] else [Strip(piece)]) + Stripped(rest)
    ensures Stripped([]) == []
  {
    assert ([piece] + rest)[1..] == rest;
  }

  /** With commas and spaces between. */
  lemma {:induction false} JoinIs(a: seq<string>, b: seq<string>, piece: string)
    requires a != [] && b != []
    ensures Join(a + b) == Join(a) + ", " + Join(b) && Join([piece]) == piece && Join([]) == ""
  {
    if |a| == 1 {
      assert (a + b)[1..] == b;
    } else {
      JoinIs(a[1..], b, piece);
      assert (a + b)[1..] == a[1..] + b;
      assert a[0] + ", " + (Join(a[1..]) + ", " + Join(b)) == a[0] + ", " + Join(a[1..]) + ", " + Join(b);
    }
  }

  /** No word goes across from a to b. */
  predicate Apart(a: string, b: string) {
    a == "" || b == "" || !IsWordChar(a[|a| - 1]) || !IsWordChar(b[0])
  }

  predicate IsWord(w: string) {
    w != "" && forall i :: 0 <= i < |w| ==> IsWordChar(w[i])
  }

  /** Text is taken apart at the ends of its words: a word of five or more digits goes, every other word and
      everything between stays. */
  lemma PostcodesGo(a: string, b: string, w: string, c: char)
    ensures Apart(a, b) ==> DropPostcodes(a + b) == DropPostcodes(a) + DropPostcodes(b)
    ensures IsWord(w) ==> DropPostcodes(w) == if |w| >= 5 && Text.AllDigits(w) then "" else w
    ensures !IsWordChar(c) ==> DropPostcodes([c]) == [c]
  {
    if Apart(a, b) {
      DropAcross(a, b);
    }
    if IsWord(w) {
      WordThen(w, "");
      assert w + "" == w && w[|w|..] == "" && w[..|w|] == w;
    }
    assert [c][1..] == "";
  }

  lemma {:induction false} DropAcross(a: string, b: string)
    requires Apart(a, b)
    ensures DropPostcodes(a + b) == DropPostcodes(a) + DropPostcodes(b)
    decreases |a|
  {
    hide IsWordChar;
    if a == "" {
      assert a + b == b;
    } else {
      var n := WordLength(a);
      if n == 0 {
        assert (a + b)[1..] == a[1..] + b;
        assert WordLength(a + b) == 0;
        DropAcross(a[1..], b);
      } else {
        var word, rest := a[..n], a[n..];
        assert a + b == word + (rest + b) && a == word + rest;
        WordThen(word, rest + b);
        assert (a + b)[..n] == word && (a + b)[n..] == rest + b;
        DropAcross(rest, b);
      }
    }
  }

  lemma {:induction false} WithoutPostcodesAt(parts: seq<string>, i: nat)
    requires i < |parts|
    ensures |WithoutPostcodes(parts)| == |parts| && WithoutPostcodes(parts)[i] == DropPostcodes(parts[i])
  {
    if i > 0 {
      WithoutPostcodesAt(parts[1..], i - 1);
    } else if |parts| > 1 {
      WithoutPostcodesAt(parts[1..], 0);
    }
  }

  /** How many components are kept, from the end. */
  function KeptOf(n: nat): nat {
    if n >= 4 then 3 else if n >= 1 then n - 1 else 0
  }

  /** An address is shown as already masked, as a dropped pin, as nothing, or as its last components without
      postcodes behind four bullets: three of four or more, two of three, one of two. */
  ghost predicate AddressShown(value: string, r: string) {
    var t := Strip(value);
    if (|t| > 0 && t[0] == BULLET) || t == "Pinned location" then r == t
    else if IsPin(t) then r == "Pinned location"
    else exists pieces: seq<string> ::
      Glue(pieces) == t && (forall piece :: piece in pieces ==> ',' !in piece) && LastComponents(Stripped(pieces), r)
  }

  ghost predicate LastComponents(parts: seq<string>, r: string) {
    if |parts| < 2 then r == MASK
    else exists kept: seq<string> ::
      && |kept| == KeptOf(|parts|)
      && (forall i :: 0 <= i < |kept| ==> kept[i] == DropPostcodes(parts[|parts| - |kept| + i]))
      && r == MASK + " " + Join(Stripped(kept))
  }

  lemma MaskAddressShows(value: string)
    ensures AddressShown(value, MaskAddress(value))
  {
    hide Strip, IsSpace, IsCoordinates, IsPin, Split, Stripped, DropPostcodes, Join;
    var t, r := Strip(value), MaskAddress(value);
    PinIs(t);
    if StartsWith(t, [BULLET]) {
      assert t[..1] == [BULLET] && t[0] == t[..1][0];
    }
    if |t| > 0 && t[0] == BULLET {
      assert t[..1] == [BULLET];
    }
    if !AlreadyMasked(t) && !IsCoordinates(t) {
      SplitIs(t);
      ComponentsAreShown(t);
      assert Glue(Split(t)) == t && LastComponents(Stripped(Split(t)), r);
    }
  }

  lemma ComponentsAreShown(t: string)
    ensures LastComponents(Stripped(Split(t)), if |Parts(t)| < 2 then MASK else MASK + " " + Join(Survivors(t)))
  {
    hide Strip, IsSpace, Split, Stripped, DropPostcodes, Join;
    var parts := Parts(t);
    if |parts| >= 2 {
      var kept := WithoutPostcodes(Kept(parts));
      forall i | 0 <= i < |Kept(parts)| ensures |kept| == |Kept(parts)| && kept[i] == DropPostcodes(Kept(parts)[i]) {
        WithoutPostcodesAt(Kept(parts), i);
      }
      assert |Kept(parts)| == KeptOf(|parts|) > 0;
      assert kept[0] == DropPostcodes(Kept(parts)[0]);
    }
  }

  // ---- Dropped pins ----------------------------------------------------------------------------------------

  predicate IsBlank(w: string) {
    forall i :: 0 <= i < |w| ==> IsSpace(w[i])
  }

  /** Up to three digits, perhaps after a minus sign, perhaps with a fraction. */
  ghost predicate IsNumber(s: string) {
    exists sign: string, whole: string, fraction: string :: NumberParts(s, sign, whole, fraction)
  }

  predicate NumberParts(s: string, sign: string, whole: string, fraction: string) {
    && s == sign + whole + fraction && (sign == "" || sign == "-") && 1 <= |whole| <= 3 && Text.AllDigits(whole)
    && (fraction == "" || (|fraction| > 1 && fraction[0] == '.' && Text.AllDigits(fraction[1..])))
  }

  /** Two numbers with a comma between, perhaps in brackets, with any white space about them. */
  ghost predicate IsPin(t: string) {
    PinHead(t) || (t != "" && t[0] == '(' && PinHead(t[1..]))
  }

  ghost predicate PinHead(s: string) {
    exists w: string, n: string, rest: string :: s == w + n + rest && IsBlank(w) && IsNumber(n) && PinComma(rest)
  }

  ghost predicate PinComma(s: string) {
    exists w: string, rest: string :: s == w + "," + rest && IsBlank(w) && PinTail(rest)
  }

  ghost predicate PinTail(s: string) {
    exists w: string, n: string, rest: string :: s == w + n + rest && IsBlank(w) && IsNumber(n) && PinEnd(rest)
  }

  ghost predicate PinEnd(s: string) {
    exists w: string :: IsBlank(w) && (s == w || s == w + ")")
  }

  lemma {:induction false} BlankIsStripped(w: string, x: string)
    requires IsBlank(w) && (x == "" || !IsSpace(x[0]))
    ensures LStrip(w + x) == x
  {
    if w == "" {
      assert w + x == x;
    } else {
      assert (w + x)[1..] == w[1..] + x;
      BlankIsStripped(w[1..], x);
    }
  }

  lemma StrippedIsBlank(s: string) returns (w: string)
    ensures IsBlank(w) && s == w + LStrip(s)
  {
    w := s[..|s| - |LStrip(s)|];
  }

  lemma {:induction false} DigitRunIs(digits: string, rest: string)
    requires Text.AllDigits(digits) && (rest == "" || !Text.IsDigit(rest[0]))
    ensures DigitRun(digits + rest) == |digits|
  {
    if digits == "" {
      assert digits + rest == rest;
    } else {
      assert (digits + rest)[1..] == digits[1..] + rest;
      DigitRunIs(digits[1..], rest);
    }
  }

  lemma {:induction false} DigitRunTakes(s: string)
    ensures Text.AllDigits(s[..DigitRun(s)])
  {
    if s != "" && Text.IsDigit(s[0]) {
      DigitRunTakes(s[1..]);
      assert s[..DigitRun(s)] == [s[0]] + s[1..][..DigitRun(s[1..])];
    }
  }

  lemma Regroup(a: string, b: string, c: string)
    ensures a + b + c == a + (b + c)
  {
  }

  /** What the number reader reads is a number. */
  lemma ReadsNumber(s: string) returns (n: string)
    requires AfterNumber(s).Some?
    ensures IsNumber(n) && s == n + AfterNumber(s).value
  {
    var sign, whole, rest := ReadsWhole(s);
    var fraction := ReadsFraction(rest);
    n := sign + whole + fraction;
    NumberFrom(s, sign, whole, fraction, AfterNumber(s).value);
  }

  lemma ReadsWhole(s: string) returns (sign: string, whole: string, rest: string)
    requires AfterNumber(s).Some?
    ensures (sign == "" || sign == "-") && 1 <= |whole| <= 3 && Text.AllDigits(whole) && s == sign + (whole + rest)
    ensures AfterNumber(s).value == AfterFraction(rest)
  {
    hide AfterFraction, DigitRun;
    sign := if s != "" && s[0] == '-' then "-" else "";
    var unsigned := Skip(s, '-');
    assert s == sign + unsigned;
    DigitRunTakes(unsigned);
    whole, rest := unsigned[..DigitRun(unsigned)], unsigned[DigitRun(unsigned)..];
    assert unsigned == whole + rest;
  }

  lemma NumberFrom(s: string, sign: string, whole: string, fraction: string, after: string)
    requires (sign == "" || sign == "-") && 1 <= |whole| <= 3 && Text.AllDigits(whole)
    requires fraction == "" || (|fraction| > 1 && fraction[0] == '.' && Text.AllDigits(fraction[1..]))
    requires s == sign + (whole + (fraction + after))
    ensures IsNumber(sign + whole + fraction) && s == sign + whole + fraction + after
  {
    assert NumberParts(sign + whole + fraction, sign, whole, fraction);
    Regroup(sign + whole, fraction, after);
    Regroup(sign, whole, fraction + after);
  }

  lemma ReadsFraction(rest: string) returns (fraction: string)
    ensures fraction == "" || (|fraction| > 1 && fraction[0] == '.' && Text.AllDigits(fraction[1..]))
    ensures rest == fraction + AfterFraction(rest)
  {
    fraction := "";
    if rest != "" && rest[0] == '.' && DigitRun(rest[1..]) > 0 {
      var tail := rest[1..];
      DigitRunTakes(tail);
      fraction := "." + tail[..DigitRun(tail)];
      assert fraction[1..] == tail[..DigitRun(tail)];
      assert rest == "." + tail && tail == tail[..DigitRun(tail)] + tail[DigitRun(tail)..];
    }
  }

  /** A number is read, when what follows does not go on with it. */
  lemma NumberIsRead(n: string, rest: string)
    requires IsNumber(n) && (rest == "" || (!Text.IsDigit(rest[0]) && rest[0] != '.'))
    ensures AfterNumber(n + rest) == Text.Some(rest)
    ensures n != "" && (n[0] == '-' || Text.IsDigit(n[0]))
  {
    hide AfterFraction;
    var sign, whole, fraction :| NumberParts(n, sign, whole, fraction);
    var unsigned := whole + (fraction + rest);
    Regroup(sign + whole, fraction, rest);
    Regroup(sign, whole, fraction + rest);
    assert n + rest == sign + unsigned;
    assert Text.IsDigit(whole[0]);
    assert n[0] == if sign == "" then whole[0] else '-';
    SkipsSign(sign, unsigned);
    DigitRunIs(whole, fraction + rest);
    assert unsigned[|whole|..] == fraction + rest;
    FractionIsRead(fraction, rest);
  }

  lemma SkipsSign(sign: string, unsigned: string)
    requires (sign == "" || sign == "-") && unsigned != "" && unsigned[0] != '-'
    ensures Skip(sign + unsigned, '-') == unsigned
  {
    assert "" + unsigned == unsigned && ("-" + unsigned)[1..] == unsigned;
  }

  lemma FractionIsRead(fraction: string, rest: string)
    requires rest == "" || (!Text.IsDigit(rest[0]) && rest[0] != '.')
    requires fraction == "" || (|fraction| > 1 && fraction[0] == '.' && Text.AllDigits(fraction[1..]))
    ensures AfterFraction(fraction + rest) == rest
    ensures fraction + rest == "" || !Text.IsDigit((fraction + rest)[0])
  {
    if fraction != "" {
      var digits := fraction[1..];
      assert (fraction + rest)[1..] == digits + rest;
      DigitRunIs(digits, rest);
      assert (digits + rest)[|digits|..] == rest;
    } else {
      assert fraction + rest == rest;
    }
  }

  lemma MarksAreNoSpace()
    ensures !IsSpace(',') && !IsSpace(')') && !IsSpace('-') && !IsSpace('(')
    ensures forall c :: Text.IsDigit(c) ==> !IsSpace(c)
    ensures !IsSpace('.')
  {
  }

  lemma EndIs(s: string)
    ensures PinEnd(s) <==> LStrip(s) == "" || LStrip(s) == ")"
  {
    if PinEnd(s) {
      var w: string :| IsBlank(w) && (s == w || s == w + ")");
      MarksAreNoSpace();
      BlankIsStripped(w, "");
      BlankIsStripped(w, ")");
      assert w + "" == w;
    }
    if LStrip(s) == "" || LStrip(s) == ")" {
      var w := StrippedIsBlank(s);
      assert w + "" == w;
    }
  }

  /** What may follow the second number does not go on with it. */
  lemma EndStarts(s: string)
    requires PinEnd(s)
    ensures s == "" || (!Text.IsDigit(s[0]) && s[0] != '.')
  {
    MarksAreNoSpace();
    hide IsSpace;
  }

  lemma CommaStarts(s: string)
    requires PinComma(s)
    ensures s == "" || (!Text.IsDigit(s[0]) && s[0] != '.')
  {
    MarksAreNoSpace();
    hide IsSpace;
  }

  lemma TailIs(s: string)
    ensures PinTail(s) <==> AfterNumber(LStrip(s)).Some? && PinEnd(AfterNumber(LStrip(s)).value)
  {
    hide PinEnd, AfterNumber, IsNumber, LStrip;
    if PinTail(s) {
      TailReads(s);
    }
    if AfterNumber(LStrip(s)).Some? && PinEnd(AfterNumber(LStrip(s)).value) {
      var w := StrippedIsBlank(s);
      var n := ReadsNumber(LStrip(s));
      Regroup(w, n, AfterNumber(LStrip(s)).value);
    }
  }

  lemma TailReads(s: string)
    requires PinTail(s)
    ensures AfterNumber(LStrip(s)).Some? && PinEnd(AfterNumber(LStrip(s)).value)
  {
    hide PinEnd, AfterNumber, IsNumber, LStrip, IsSpace;
    MarksAreNoSpace();
    var w: string, n: string, rest: string :| s == w + n + rest && IsBlank(w) && IsNumber(n) && PinEnd(rest);
    EndStarts(rest);
    NumberIsRead(n, rest);
    Regroup(w, n, rest);
    BlankIsStripped(w, n + rest);
  }

  lemma CommaIs(s: string)
    ensures PinComma(s) <==> LStrip(s) != "" && LStrip(s)[0] == ',' && PinTail(LStrip(s)[1..])
  {
    hide PinTail, LStrip;
    if PinComma(s) {
      CommaReads(s);
    }
    if LStrip(s) != "" && LStrip(s)[0] == ',' && PinTail(LStrip(s)[1..]) {
      var w := StrippedIsBlank(s);
      var rest := LStrip(s)[1..];
      AfterComma(LStrip(s));
      Regroup(w, ",", rest);
    }
  }

  lemma AfterComma(s: string)
    requires s != "" && s[0] == ','
    ensures s == "," + s[1..]
  {
  }

  lemma CommaReads(s: string)
    requires PinComma(s)
    ensures LStrip(s) != "" && LStrip(s)[0] == ',' && PinTail(LStrip(s)[1..])
  {
    hide PinTail, LStrip, IsSpace;
    MarksAreNoSpace();
    var w: string, rest: string :| s == w + "," + rest && IsBlank(w) && PinTail(rest);
    Regroup(w, ",", rest);
    BlankIsStripped(w, "," + rest);
    assert ("," + rest)[1..] == rest;
  }

  lemma HeadIs(s: string)
    ensures PinHead(s) <==> AfterNumber(LStrip(s)).Some? && PinComma(AfterNumber(LStrip(s)).value)
  {
    hide PinComma, AfterNumber, IsNumber, LStrip;
    if PinHead(s) {
      HeadReads(s);
    }
    if AfterNumber(LStrip(s)).Some? && PinComma(AfterNumber(LStrip(s)).value) {
      var w := StrippedIsBlank(s);
      var n := ReadsNumber(LStrip(s));
      Regroup(w, n, AfterNumber(LStrip(s)).value);
    }
  }

  lemma HeadReads(s: string)
    requires PinHead(s)
    ensures AfterNumber(LStrip(s)).Some? && PinComma(AfterNumber(LStrip(s)).value)
  {
    hide PinComma, AfterNumber, IsNumber, LStrip, IsSpace;
    MarksAreNoSpace();
    var w: string, n: string, rest: string :| s == w + n + rest && IsBlank(w) && IsNumber(n) && PinComma(rest);
    CommaStarts(rest);
    NumberIsRead(n, rest);
    Regroup(w, n, rest);
    BlankIsStripped(w, n + rest);
  }

  lemma NoHeadInBrackets(s: string)
    requires s != "" && s[0] == '('
    ensures !PinHead(s)
  {
    hide PinHead, PinComma, IsSpace;
    HeadIs(s);
    MarksAreNoSpace();
    BlankIsStripped("", s);
    assert "" + s == s;
  }

  lemma PinIs(t: string)
    ensures IsCoordinates(t) <==> IsPin(t)
  {
    hide AfterNumber, PinHead, PinComma, PinTail, PinEnd, LStrip;
    var s := Skip(t, '(');
    HeadIs(s);
    if t != "" && t[0] == '(' {
      NoHeadInBrackets(t);
    }
    var first := AfterNumber(LStrip(s));
    if first.Some? {
      CommaIs(first.value);
      var comma := LStrip(first.value);
      if comma != "" {
        TailIs(comma[1..]);
        var second := AfterNumber(LStrip(comma[1..]));
        if second.Some? {
          EndIs(second.value);
        }
      }
    }
  }
}
