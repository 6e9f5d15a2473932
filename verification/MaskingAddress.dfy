/** The address masker: the locality and city stay, the house, the street and postcodes go. */
module MaskingAddress {
  import opened Strings
  import opened Masking
  import Text = DecimalText

  predicate IsWordChar(c: char) {
    Text.IsDigit(c) || 'a' <= c <= 'z' || 'A' <= c <= 'Z' || c == '_'
  }

  /** The length of the word a text starts with. */
  function WordLength(s: string): (n: nat)
    ensures n <= |s| && (n < |s| ==> !IsWordChar(s[n]))
    ensures forall i :: 0 <= i < n ==> IsWordChar(s[i])
  {
    if s == "" || !IsWordChar(s[0]) then 0 else 1 + WordLength(s[1..])
  }

  /** Words of five or more digits, and nothing but digits, are dropped. */
  function DropPostcodes(s: string): string {
    if s == "" then ""
    else
      var n := WordLength(s);
      if n == 0 then [s[0]] + DropPostcodes(s[1..])
      else if n >= 5 && Text.AllDigits(s[..n]) then DropPostcodes(s[n..])
      else s[..n] + DropPostcodes(s[n..])
  }

  /** The pieces between commas. */
  function Split(s: string): (r: seq<string>)
    ensures r != []
  {
    if s == "" then [""]
    else
      var rest := Split(s[1..]);
      if s[0] == ',' then [""] + rest else [[s[0]] + rest[0]] + rest[1..]
  }

  /** The pieces that hold something, stripped. */
  function Stripped(pieces: seq<string>): (r: seq<string>)
    ensures forall p :: p in r ==> p != "" && Trimmed(p)
  {
    if pieces == [] then []
    else if Strip(pieces[0]) == "" then Stripped(pieces[1..])
    else [Strip(pieces[0])] + Stripped(pieces[1..])
  }

  /** The components that name a locality: by position, from the end. */
  function Kept(parts: seq<string>): seq<string>
    requires |parts| >= 2
  {
    if |parts| >= 4 then parts[|parts| - 3..] else parts[1..]
  }

  function WithoutPostcodes(parts: seq<string>): seq<string> {
    if parts == [] then [] else [DropPostcodes(parts[0])] + WithoutPostcodes(parts[1..])
  }

  function Join(parts: seq<string>): string {
    if parts == [] then "" else if |parts| == 1 then parts[0] else parts[0] + ", " + Join(parts[1..])
  }

  // ---- A dropped pin: two numbers, perhaps in brackets -------------------------------------------------

  function DigitRun(s: string): (n: nat)
    ensures n <= |s|
  {
    if s == "" || !Text.IsDigit(s[0]) then 0 else 1 + DigitRun(s[1..])
  }

  function Skip(s: string, c: char): string {
    if s != "" && s[0] == c then s[1..] else s
  }

  /** What follows a number of one to three digits and an optional fraction. */
  function AfterNumber(s: string): Option<string> {
    AfterUnsigned(Skip(s, '-'))
  }

  function AfterUnsigned(unsigned: string): Option<string> {
    var n := DigitRun(unsigned);
    if n == 0 || n > 3 then Text.None
    else
      Text.Some(AfterFraction(unsigned[n..]))
  }

  function AfterFraction(s: string): string {
    if s != "" && s[0] == '.' && DigitRun(s[1..]) > 0 then s[1..][DigitRun(s[1..])..] else s
  }

  predicate IsCoordinates(t: string) {
    var first := AfterNumber(LStrip(Skip(t, '(')));
    first.Some? &&
    var comma := LStrip(first.value);
    comma != "" && comma[0] == ',' &&
    var second := AfterNumber(LStrip(comma[1..]));
    second.Some? && (LStrip(second.value) == "" || LStrip(second.value) == ")")
  }

  // ---- The masker ------------------------------------------------------------------------------------

  predicate AlreadyMasked(t: string) {
    StartsWith(t, [BULLET]) || t == PINNED_LOCATION
  }

  function Parts(t: string): seq<string> {
    Stripped(Split(t))
  }

  /** What survives of an address in components. */
  function Survivors(t: string): seq<string> {
    if |Parts(t)| < 2 then [] else Stripped(WithoutPostcodes(Kept(Parts(t))))
  }

  function MaskAddress(value: string): string {
    var t := Strip(value);
    if AlreadyMasked(t) then t
    else if IsCoordinates(t) then PINNED_LOCATION
    else if |Parts(t)| < 2 then MASK
    else MASK + " " + Join(Survivors(t))
  }

  lemma {:induction false} JoinEndsWell(parts: seq<string>)
    requires parts != [] && forall p :: p in parts ==> p != "" && Trimmed(p)
    ensures Join(parts) != "" && !IsSpace(Join(parts)[|Join(parts)| - 1])
  {
    assert parts[0] in parts;
    if |parts| > 1 {
      assert forall p :: p in parts[1..] ==> p in parts;
      JoinEndsWell(parts[1..]);
      var rest := Join(parts[1..]);
      assert Join(parts)[|Join(parts)| - 1] == rest[|rest| - 1];
    }
  }

  /** The components that would survive hold nothing but postcodes. */
  predicate OnlyPostcodes(value: string) {
    var t := Strip(value);
    && !AlreadyMasked(t) && !IsCoordinates(t) && |Parts(t)| >= 2
    && forall p :: p in WithoutPostcodes(Kept(Parts(t))) ==> Strip(p) == ""
  }

  lemma {:induction false} StrippedEmpty(pieces: seq<string>)
    ensures Stripped(pieces) == [] <==> forall p :: p in pieces ==> Strip(p) == ""
  {
    hide Strip, IsSpace, Trimmed;
    if pieces != [] {
      StrippedEmpty(pieces[1..]);
      assert pieces == [pieces[0]] + pieces[1..];
    }
  }

  /** A second pass changes an address exactly when all that would survive of it are postcodes: then
      the mask ends in a space, which the second pass strips. */
  lemma MaskAddressTwice(value: string)
    ensures MaskAddress(MaskAddress(value)) == MaskAddress(value) <==> !OnlyPostcodes(value)
  {
    SpaceFacts();
    var t, r := Strip(value), MaskAddress(value);
    hide IsSpace, IsCoordinates, Parts, Survivors, Kept, WithoutPostcodes;
    if AlreadyMasked(t) {
    } else if IsCoordinates(t) {
      PinnedIsTrimmed();
    } else if |Parts(t)| < 2 {
      assert Trimmed(MASK) && StartsWith(MASK, [BULLET]);
    } else {
      SurvivorsAre(value);
      assert r[..1] == [BULLET] && r[0] == BULLET && !IsSpace(BULLET);
      LastOfMask(r, t);
      StripOfMask(r);
    }
  }

  lemma PinnedIsTrimmed()
    ensures Trimmed(PINNED_LOCATION)
  {
  }

  lemma SurvivorsAre(value: string)
    requires var t := Strip(value); !AlreadyMasked(t) && !IsCoordinates(t) && |Parts(t)| >= 2
    ensures Survivors(Strip(value)) == [] <==> OnlyPostcodes(value)
    ensures forall p :: p in Survivors(Strip(value)) ==> p != "" && Trimmed(p)
  {
    hide AlreadyMasked, IsCoordinates, Parts, Kept;
    StrippedEmpty(WithoutPostcodes(Kept(Parts(Strip(value)))));
  }

  lemma LastOfMask(r: string, t: string)
    requires r == MASK + " " + Join(Survivors(t)) && forall p :: p in Survivors(t) ==> p != "" && Trimmed(p)
    ensures IsSpace(r[|r| - 1]) <==> Survivors(t) == []
  {
    SpaceFacts();
    hide IsSpace, Survivors;
    if Survivors(t) != [] {
      JoinEndsWell(Survivors(t));
      var j := Join(Survivors(t));
      assert r[|r| - 1] == j[|j| - 1];
    }
  }

  /** A second pass over a masked address only strips it. */
  lemma StripOfMask(r: string)
    requires r != "" && r[0] == BULLET
    ensures MaskAddress(r) == r <==> !IsSpace(r[|r| - 1])
  {
    SpaceFacts();
    hide IsSpace, IsCoordinates, Parts, Survivors;
    assert r[0] in r;
    assert LStrip(r) == r;
    var t := Strip(r);
    assert t == RStrip(r) && t <= r;
    assert BULLET in t;
    assert t[..1] == [BULLET] by {
      assert t[0] == r[0];
    }
  }

  /** Dropping postcodes leaves none to drop: what survives an address holds no run of five digits
      standing alone. */
  lemma {:induction false} NoPostcodeSurvives(s: string)
    ensures DropPostcodes(DropPostcodes(s)) == DropPostcodes(s)
    ensures DropPostcodes(s) != "" && IsWordChar(DropPostcodes(s)[0]) ==> s != "" && IsWordChar(s[0])
    decreases |s|
  {
    hide IsWordChar;
    if s != "" {
      var n := WordLength(s);
      if n == 0 {
        NoPostcodeSurvives(s[1..]);
        var rest := DropPostcodes(s[1..]);
        assert ([s[0]] + rest)[1..] == rest;
        assert WordLength([s[0]] + rest) == 0;
      } else {
        NoPostcodeSurvives(s[n..]);
        var rest := DropPostcodes(s[n..]);
        if !(n >= 5 && Text.AllDigits(s[..n])) {
          WordThen(s[..n], rest);
          assert (s[..n] + rest)[..n] == s[..n] && (s[..n] + rest)[n..] == rest;
        }
      }
    }
  }

  lemma {:induction false} WordThen(word: string, rest: string)
    requires forall i :: 0 <= i < |word| ==> IsWordChar(word[i])
    requires rest == "" || !IsWordChar(rest[0])
    ensures WordLength(word + rest) == |word|
  {
    if word == "" {
      assert word + rest == rest;
    } else {
      WordThen(word[1..], rest);
      assert (word + rest)[1..] == word[1..] + rest;
    }
  }
}
