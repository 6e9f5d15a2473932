/** The string maskers: what each keeps, and on which strings a second pass changes nothing.

    A masker is given the text of a value that is neither null nor empty. Digits and word characters
    are the ASCII ones. */
module Masking {
  import opened Strings
  import Text = DecimalText

  type Option<+T> = Text.Option<T>

  const BULLET: char := '\U{2022}'

  const MASK: string := [BULLET, BULLET, BULLET, BULLET]

  const PINNED_LOCATION: string := "Pinned location"

  function Bullets(n: nat): (s: string)
    ensures |s| == n && forall c :: c in s ==> c == BULLET
  {
    if n == 0 then "" else [BULLET] + Bullets(n - 1)
  }

  function FirstUpTo(s: string, n: nat): string {
    if |s| <= n then s else s[..n]
  }

  function LastUpTo(s: string, n: nat): string {
    if |s| <= n then s else s[|s| - n..]
  }

  // ---- Phone numbers -----------------------------------------------------------------------------

  function Head(t: string): string {
    if StartsWith(t, "+") then FirstUpTo(t, 3) else ""
  }

  function Tail(t: string): string {
    LastUpTo(t, 4)
  }

  function Hidden(t: string): nat {
    if |t| <= |Head(t)| + 4 then 0 else |t| - |Head(t)| - 4
  }

  function MaskPhone(t: string): string {
    Head(t) + Bullets(Hidden(t)) + Tail(t)
  }

  /** What a masked number shows: its country code and last four, in place; and all of it when it is no
      longer than that. */
  lemma MaskPhoneShows(t: string)
    ensures var r := MaskPhone(t); Hidden(t) > 0 ==> |r| == |t|
    ensures var r := MaskPhone(t); forall i :: 0 <= i < |t| && Hidden(t) > 0 ==>
      r[i] == if i < |Head(t)| || i >= |t| - 4 then t[i] else BULLET
    ensures Hidden(t) == 0 ==> forall c :: c in t ==> c in MaskPhone(t)
    ensures Hidden(t) == 0 && !StartsWith(t, "+") ==> MaskPhone(t) == t
  {
    if Hidden(t) > 0 {
      forall i | |Head(t)| <= i < |t| - 4 ensures MaskPhone(t)[i] == BULLET {
        assert MaskPhone(t)[i] == Bullets(Hidden(t))[i - |Head(t)|];
        assert Bullets(Hidden(t))[i - |Head(t)|] in Bullets(Hidden(t));
      }
    } else {
      forall i | 0 <= i < |t| ensures t[i] in MaskPhone(t) {
        if i < |Head(t)| {
          assert Head(t)[i] == t[i];
        } else {
          assert Tail(t)[i - (|t| - |Tail(t)|)] == t[i];
        }
      }
    }
  }

  /** A second pass changes nothing except on a plus sign with fewer than three characters after it. */
  lemma MaskPhoneTwice(t: string)
    ensures MaskPhone(MaskPhone(t)) == MaskPhone(t) <==> !(StartsWith(t, "+") && |t| < 4)
  {
    var r := MaskPhone(t);
    if StartsWith(t, "+") {
      assert r[0] == t[0] && StartsWith(r, "+");
      if |t| < 4 {
        assert Head(t) == t && Tail(t) == t && Hidden(t) == 0;
        assert |MaskPhone(r)| > |r|;
      } else {
        assert Head(r) == Head(t) && Tail(r) == Tail(t) && Hidden(r) == Hidden(t);
      }
    } else {
      if t != "" {
        assert !StartsWith(r, "+") by {
          assert Hidden(t) > 0 ==> r[0] == BULLET;
          assert Hidden(t) == 0 ==> r == t;
          assert t[0] != '+' by {
            assert t[..1] == [t[0]];
          }
        }
      }
      assert Tail(r) == Tail(t) && Hidden(r) == Hidden(t);
    }
  }

  // ---- E-mail addresses, account numbers, payment handles --------------------------------------------

  function At(t: string): (n: nat)
    ensures n <= |t| && '@' !in t[..n] && (n < |t| ==> t[n] == '@')
    ensures n == |t| <==> '@' !in t
  {
    if t == "" || t[0] == '@' then 0
    else
      var n := 1 + At(t[1..]);
      assert t[..n] == [t[0]] + t[1..][..n - 1];
      assert '@' in t ==> '@' in t[1..];
      n
  }

  function MaskEmail(t: string): string {
    if '@' !in t then MASK
    else
      var at := At(t);
      if at == 0 then MASK + t
      else [t[0]] + Bullets(if at == 1 then 1 else at - 1) + t[at..]
  }

  lemma AtUnique(t: string, n: nat)
    requires n < |t| && t[n] == '@' && '@' !in t[..n]
    ensures At(t) == n
  {
  }

  lemma MaskEmailTwice(t: string)
    ensures MaskEmail(MaskEmail(t)) == MaskEmail(t)
    ensures '@' in t <==> '@' in MaskEmail(t)
  {
    var r := MaskEmail(t);
    if '@' in t {
      var at := At(t);
      var n := if at == 0 then 4 else if at == 1 then 2 else at;
      assert r[n..] == t[at..];
      assert r[n] == '@';
      AtUnique(r, n);
      if at == 0 {
        BulletsAre(3);
        assert [r[0]] + Bullets(3) == MASK;
      }
    }
  }

  lemma BulletsAre(n: nat)
    ensures forall s: string :: |s| == n && (forall c :: c in s ==> c == BULLET) ==> s == Bullets(n)
  {
    forall s: string | |s| == n && (forall c :: c in s ==> c == BULLET) ensures s == Bullets(n) {
      assert forall i :: 0 <= i < n ==> s[i] in s && Bullets(n)[i] in Bullets(n);
    }
  }

  function MaskLast4(t: string): string {
    if |t| <= 4 then MASK else Bullets(|t| - 4) + t[|t| - 4..]
  }

  lemma MaskLast4Twice(t: string)
    ensures MaskLast4(MaskLast4(t)) == MaskLast4(t)
  {
  }

  function MaskUpi(t: string): string {
    if '@' in t then MaskEmail(t) else MaskLast4(t)
  }

  lemma MaskUpiTwice(t: string)
    ensures MaskUpi(MaskUpi(t)) == MaskUpi(t)
  {
    MaskEmailTwice(t);
    MaskLast4Twice(t);
    if '@' !in t {
      assert '@' !in MaskLast4(t);
    }
  }

  // ---- Usernames, names and contact labels -----------------------------------------------------------

  function Delete(t: string, c: char): (r: string)
    ensures forall x :: x in r <==> x in t && x != c
  {
    if t == "" then "" else if t[0] == c then Delete(t[1..], c) else [t[0]] + Delete(t[1..], c)
  }

  function LStripPlus(t: string): string {
    if t == "" || t[0] != '+' then t else LStripPlus(t[1..])
  }

  predicate IsDigits(t: string) {
    t != "" && Text.AllDigits(t)
  }

  predicate PhoneShaped(t: string) {
    IsDigits(LStripPlus(Delete(Delete(t, '-'), ' ')))
  }

  predicate ContactShaped(t: string) {
    '@' in t || PhoneShaped(t)
  }

  /** The words between white space. */
  function Words(t: string): seq<string> {
    if t == "" then []
    else if IsSpace(t[0]) then Words(t[1..])
    else if |t| == 1 || IsSpace(t[1]) then [[t[0]]] + Words(t[1..])
    else
      var rest := Words(t[1..]);
      if rest == [] then [[t[0]]] else [[t[0]] + rest[0]] + rest[1..]
  }

  function MaskIdentifier(t: string): string {
    if '@' in t then MaskEmail(t)
    else if StartsWith(t, "+") || IsDigits(Delete(t, '-')) then MaskPhone(t)
    else t
  }

  /** The first name and an initial. None is the exception a name of white space raises: it has no
      first word. */
  function ShortName(t: string): Option<string> {
    var parts := Words(t);
    if parts == [] then Text.None
    else if |parts| == 1 then Text.Some(parts[0])
    else Text.Some(parts[0] + " " + FirstUpTo(parts[|parts| - 1], 1) + ".")
  }

  /** A label of white space is masked to nothing. */
  function MaskContact(value: string): Option<string> {
    var t := Strip(value);
    if '@' in t then Text.Some(MaskEmail(t))
    else if PhoneShaped(t) then Text.Some(MaskPhone(t))
    else if t == "" then Text.Some("")
    else ShortName(t)
  }

  function MaskName(value: string): Option<string> {
    var t := Strip(value);
    if ContactShaped(t) then MaskContact(t) else ShortName(t)
  }

  lemma MaskIdentifierTwice(t: string)
    ensures MaskIdentifier(MaskIdentifier(t)) == MaskIdentifier(t) <==> !('@' !in t && StartsWith(t, "+") && |t| < 4)
  {
    MaskEmailTwice(t);
    MaskPhoneTwice(t);
    if '@' !in t && (StartsWith(t, "+") || IsDigits(Delete(t, '-'))) {
      var r := MaskPhone(t);
      assert '@' !in r;
      if StartsWith(t, "+") {
        assert r[0] == '+' by {
          assert t[..1] == "+";
        }
        assert StartsWith(r, "+");
      }
    }
  }

  // ---- White space and words ---------------------------------------------------------------------------

  predicate NoSpace(t: string) {
    forall i :: 0 <= i < |t| ==> !IsSpace(t[i])
  }

  lemma {:induction false} WordsAreWords(t: string)
    ensures forall w :: w in Words(t) ==> w != "" && NoSpace(w) && forall c :: c in w ==> c in t
    ensures Words(t) == [] <==> forall i :: 0 <= i < |t| ==> IsSpace(t[i])
  {
    if t != "" {
      WordsAreWords(t[1..]);
      var rest := Words(t[1..]);
      assert forall w :: w in rest ==> w != "" && NoSpace(w);
      if rest != [] {
        assert rest[0] in rest;
        assert forall w :: w in rest[1..] ==> w in rest;
      }
      if !IsSpace(t[0]) && |t| > 1 && !IsSpace(t[1]) {
        assert t[1..][0] == t[1];
      }
    }
  }

  lemma {:induction false} OneWord(w: string)
    requires w != "" && NoSpace(w)
    ensures Words(w) == [w]
  {
    if |w| == 1 {
      assert w == [w[0]] && Words(w[1..]) == [];
    } else {
      assert NoSpace(w[1..]) && w[1..][0] == w[1];
      OneWord(w[1..]);
      assert w == [w[0]] + w[1..];
    }
  }

  /** A word, a space, and another word. */
  lemma {:induction false} TwoWords(a: string, b: string)
    requires a != "" && b != "" && NoSpace(a) && NoSpace(b)
    ensures Words(a + " " + b) == [a, b]
  {
    var t := a + " " + b;
    if |a| == 1 {
      assert t[1..] == " " + b && t[1..][0] == ' ' && t[1..][1..] == b;
      OneWord(b);
      assert Words(t[1..]) == [b];
      assert t[0] == a[0] && t[1] == ' ' && a == [a[0]];
    } else {
      assert t[1..] == a[1..] + " " + b;
      assert NoSpace(a[1..]);
      TwoWords(a[1..], b);
      assert t[1] == a[1] && a == [a[0]] + a[1..];
    }
  }

  /** A trimmed text with white space inside has at least two words. */
  lemma {:induction false} SpacedWords(t: string)
    requires Trimmed(t) && !NoSpace(t)
    ensures |Words(t)| >= 2
  {
    WordsOfSuffix(t);
  }

  lemma {:induction false} WordsOfSuffix(t: string)
    requires t != "" && !IsSpace(t[0]) && !IsSpace(t[|t| - 1]) && !NoSpace(t)
    ensures |Words(t)| >= 2
  {
    assert |t| >= 3;
    var u := t[1..];
    assert u[0] == t[1] && u[|u| - 1] == t[|t| - 1];
    if IsSpace(t[1]) {
      WordsAreWords(u);
      assert !IsSpace(u[|u| - 1]);
    } else {
      var i :| 0 <= i < |t| && IsSpace(t[i]);
      assert IsSpace(u[i - 1]);
      WordsOfSuffix(u);
    }
  }

  // ---- Names and contact labels, twice -------------------------------------------------------------------

  predicate IsPhoneChar(c: char) {
    Text.IsDigit(c) || c == '-' || c == ' ' || c == '+'
  }

  predicate HasDigit(t: string) {
    exists i :: 0 <= i < |t| && Text.IsDigit(t[i])
  }

  /** A plus sign after a digit: what no number has, and what masking a short number can make. */
  predicate PlusAfterDigit(t: string) {
    exists i, j :: 0 <= i < j < |t| && Text.IsDigit(t[i]) && t[j] == '+'
  }

  /** Phone-shaped texts, read off their characters. */
  lemma {:induction false} PhoneShapedIs(t: string)
    ensures PhoneShaped(t) <==> (forall i :: 0 <= i < |t| ==> IsPhoneChar(t[i])) && HasDigit(t) && !PlusAfterDigit(t)
  {
    if t == "" {
    } else {
      PhoneShapedIs(t[1..]);
      var u := t[1..];
      assert forall i :: 0 <= i < |u| ==> u[i] == t[i + 1];
      HasDigitTail(t);
      PlusAfterDigitTail(t);
      var kept := Delete(Delete(u, '-'), ' ');
      if t[0] == '-' || t[0] == ' ' {
        assert Delete(Delete(t, '-'), ' ') == kept;
      } else {
        assert Delete(t, '-') == [t[0]] + Delete(u, '-');
        assert Delete(Delete(t, '-'), ' ') == [t[0]] + kept;
        if t[0] == '+' {
          assert ([t[0]] + kept)[1..] == kept;
        } else {
          assert LStripPlus([t[0]] + kept) == [t[0]] + kept;
          AllDigitsAfter(u);
          DigitsCons(t[0], kept);
          assert '+' in u <==> exists i :: 0 <= i < |u| && u[i] == '+';
        }
      }
    }
  }

  lemma DigitsCons(c: char, t: string)
    ensures IsDigits([c] + t) <==> Text.IsDigit(c) && Text.AllDigits(t)
  {
    var u := [c] + t;
    assert u[0] == c && forall i :: 0 <= i < |t| ==> u[i + 1] == t[i];
    if Text.AllDigits(u) {
      forall i | 0 <= i < |t| ensures Text.IsDigit(t[i]) {
        assert Text.IsDigit(u[i + 1]);
      }
    }
  }

  lemma HasDigitTail(t: string)
    requires t != ""
    ensures HasDigit(t) <==> Text.IsDigit(t[0]) || HasDigit(t[1..])
  {
    if HasDigit(t[1..]) {
      var i :| 0 <= i < |t[1..]| && Text.IsDigit(t[1..][i]);
      assert Text.IsDigit(t[i + 1]);
    }
    if HasDigit(t) && !Text.IsDigit(t[0]) {
      var i :| 0 <= i < |t| && Text.IsDigit(t[i]);
      assert t[1..][i - 1] == t[i];
    }
  }

  lemma PlusAfterDigitTail(t: string)
    requires t != ""
    ensures PlusAfterDigit(t) <==> (Text.IsDigit(t[0]) && '+' in t[1..]) || PlusAfterDigit(t[1..])
  {
    if PlusAfterDigit(t[1..]) {
      var i, j :| 0 <= i < j < |t[1..]| && Text.IsDigit(t[1..][i]) && t[1..][j] == '+';
      assert Text.IsDigit(t[i + 1]) && t[j + 1] == '+';
    }
    if Text.IsDigit(t[0]) && '+' in t[1..] {
      var j :| 0 <= j < |t[1..]| && t[1..][j] == '+';
      assert t[j + 1] == '+';
    }
    if PlusAfterDigit(t) {
      var i, j :| 0 <= i < j < |t| && Text.IsDigit(t[i]) && t[j] == '+';
      assert t[1..][j - 1] == '+';
      if i > 0 {
        assert t[1..][i - 1] == t[i];
      }
    }
  }

  /** After a digit, all that may follow are digits, dashes and spaces. */
  lemma {:induction false} AllDigitsAfter(u: string)
    ensures Text.AllDigits(Delete(Delete(u, '-'), ' ')) <==>
      forall i :: 0 <= i < |u| ==> IsPhoneChar(u[i]) && u[i] != '+'
  {
    var kept := Delete(Delete(u, '-'), ' ');
    if Text.AllDigits(kept) {
      forall i | 0 <= i < |u| ensures IsPhoneChar(u[i]) && u[i] != '+' {
        assert u[i] in u;
        if u[i] != '-' && u[i] != ' ' {
          assert u[i] in kept;
          var k :| 0 <= k < |kept| && kept[k] == u[i];
        }
      }
    }
    if forall i :: 0 <= i < |u| ==> IsPhoneChar(u[i]) && u[i] != '+' {
      forall k | 0 <= k < |kept| ensures Text.IsDigit(kept[k]) {
        assert kept[k] in kept;
        assert kept[k] in u;
      }
    }
  }

  /** A masked number is itself phone-shaped exactly when nothing was hidden and the repeated part does
      not put a plus sign after a digit. */
  lemma MaskedPhoneShaped(t: string)
    requires PhoneShaped(t)
    ensures PhoneShaped(MaskPhone(t)) <==> Hidden(t) == 0 && !(HasDigit(Head(t)) && '+' in Tail(t))
  {
    var r := MaskPhone(t);
    PhoneShapedIs(t);
    PhoneShapedIs(r);
    if Hidden(t) > 0 {
      assert r[|Head(t)|] == BULLET && !IsPhoneChar(BULLET);
    } else {
      assert r == Head(t) + Tail(t);
      PartsOfPhone(t);
      HasDigitIn(Head(t), Tail(t));
      PlusIn(Head(t), Tail(t));
    }
  }

  /** The two ends kept of a number of which nothing is hidden hold all its digits. */
  lemma PartsOfPhone(t: string)
    requires Hidden(t) == 0
    ensures HasDigit(t) ==> HasDigit(Head(t)) || HasDigit(Tail(t))
    ensures PlusAfterDigit(Head(t)) || PlusAfterDigit(Tail(t)) ==> PlusAfterDigit(t)
    ensures (forall i :: 0 <= i < |t| ==> IsPhoneChar(t[i])) ==> forall i :: 0 <= i < |MaskPhone(t)| ==>
      IsPhoneChar(MaskPhone(t)[i])
  {
    var h, n := |Head(t)|, |Tail(t)|;
    assert Head(t) == t[..h] && Tail(t) == t[|t| - n..] && MaskPhone(t) == t[..h] + t[|t| - n..] && h + n >= |t|;
    hide HasDigit, PlusAfterDigit, IsPhoneChar;
    Cut(t, h);
    Cut(t, |t| - n);
    Cut(t[..h], |t| - n);
    assert t[..h][..|t| - n] == t[..|t| - n];
  }

  lemma Cut(t: string, at: nat)
    requires at <= |t|
    ensures HasDigit(t) <==> HasDigit(t[..at]) || HasDigit(t[at..])
    ensures PlusAfterDigit(t[..at]) || PlusAfterDigit(t[at..]) ==> PlusAfterDigit(t)
  {
    assert t == t[..at] + t[at..];
    HasDigitIn(t[..at], t[at..]);
    PlusIn(t[..at], t[at..]);
  }

  lemma HasDigitIn(a: string, b: string)
    ensures HasDigit(a + b) <==> HasDigit(a) || HasDigit(b)
  {
    var r := a + b;
    if HasDigit(a) {
      var i :| 0 <= i < |a| && Text.IsDigit(a[i]);
      assert r[i] == a[i];
    }
    if HasDigit(b) {
      var i :| 0 <= i < |b| && Text.IsDigit(b[i]);
      assert r[|a| + i] == b[i];
    }
  }

  lemma PlusIn(a: string, b: string)
    ensures PlusAfterDigit(a + b) <==> PlusAfterDigit(a) || PlusAfterDigit(b) || (HasDigit(a) && '+' in b)
  {
    var r := a + b;
    assert forall i :: 0 <= i < |b| ==> r[|a| + i] == b[i];
    if PlusAfterDigit(a) {
      var i, j :| 0 <= i < j < |a| && Text.IsDigit(a[i]) && a[j] == '+';
      assert Text.IsDigit(r[i]) && r[j] == '+';
    }
    if PlusAfterDigit(b) {
      var i, j :| 0 <= i < j < |b| && Text.IsDigit(b[i]) && b[j] == '+';
      assert Text.IsDigit(r[|a| + i]) && r[|a| + j] == '+';
    }
    if HasDigit(a) && '+' in b {
      var i :| 0 <= i < |a| && Text.IsDigit(a[i]);
      var j :| 0 <= j < |b| && b[j] == '+';
      assert Text.IsDigit(r[i]) && r[|a| + j] == '+';
    }
    if PlusAfterDigit(r) {
      var i, j :| 0 <= i < j < |r| && Text.IsDigit(r[i]) && r[j] == '+';
      if j < |a| {
        assert Text.IsDigit(a[i]) && a[j] == '+';
      } else if i >= |a| {
        assert Text.IsDigit(b[i - |a|]) && b[j - |a|] == '+';
      } else {
        assert Text.IsDigit(a[i]) && b[j - |a|] in b;
      }
    }
  }

  lemma SpaceFacts()
    ensures !IsSpace(BULLET) && !IsSpace('.') && !IsSpace('@') && IsSpace(' ')
    ensures forall c :: IsPhoneChar(c) && IsSpace(c) ==> c == ' '
  {
  }

  lemma SpaceIn(t: string)
    requires forall c :: c in t && IsSpace(c) ==> c == ' '
    ensures NoSpace(t) <==> ' ' !in t
  {
    SpaceFacts();
    hide IsSpace;
    if ' ' in t {
      var i :| 0 <= i < |t| && t[i] == ' ';
      assert IsSpace(t[i]);
    }
    if ' ' !in t {
      forall i | 0 <= i < |t| ensures !IsSpace(t[i]) {
        assert t[i] in t;
      }
    }
  }

  /** A masked number keeps the ends of a trimmed one, so stripping it again changes nothing. */
  lemma MaskedPhoneTrimmed(t: string)
    requires PhoneShaped(t) && Trimmed(t)
    ensures var r := MaskPhone(t);
      r != "" && Trimmed(r) && '@' !in r && r[|r| - 1] == t[|t| - 1] && t[|t| - 1] != '.'
    ensures NoSpace(MaskPhone(t)) <==> ' ' !in Head(t) && ' ' !in Tail(t)
  {
    PhoneShapedIs(t);
    SpaceFacts();
    hide IsSpace, PhoneShaped, PlusAfterDigit;
    assert t != "" && IsPhoneChar(t[|t| - 1]);
    MaskPhoneEnds(t);
    var r := MaskPhone(t);
    assert forall c :: c in r <==> c in Head(t) || c in Bullets(Hidden(t)) || c in Tail(t);
    forall c | c in r && IsSpace(c) ensures c == ' ' {
      assert c in t;
    }
    forall c | c in r ensures c != '@' {
      assert c in t || c == BULLET;
    }
    SpaceIn(r);
  }

  lemma MaskPhoneEnds(t: string)
    requires t != ""
    ensures var r := MaskPhone(t); r != "" && r[|r| - 1] == t[|t| - 1] && (r[0] == t[0] || r[0] == BULLET)
    ensures forall c :: c in Head(t) || c in Tail(t) ==> c in t
  {
    assert Tail(t)[|Tail(t)| - 1] == t[|t| - 1];
    if !StartsWith(t, "+") {
      assert Hidden(t) == 0 ==> MaskPhone(t) == t;
      assert Hidden(t) > 0 ==> MaskPhone(t)[0] == BULLET;
    }
  }

  /** What keeps a masked number from changing again: no space among what is kept of it, or so short
      that nothing was hidden (and no plus sign repeated after a digit). */
  predicate PhoneSettles(t: string) {
    || (' ' !in Head(t) && ' ' !in Tail(t))
    || (Hidden(t) == 0 && !(HasDigit(Head(t)) && '+' in Tail(t)))
  }

  lemma PhoneContactTwice(t: string)
    requires PhoneShaped(t) && Trimmed(t)
    ensures MaskContact(MaskPhone(t)) == Text.Some(MaskPhone(t)) <==> PhoneSettles(t)
    ensures MaskName(MaskPhone(t)) == Text.Some(MaskPhone(t)) <==> PhoneSettles(t)
  {
    hide PhoneShaped, IsSpace, Words, MaskPhone, Head, Tail, Hidden, PhoneSettles, ShortName, Trimmed, Strip;
    var r := MaskPhone(t);
    MaskedPhoneTrimmed(t);
    MaskedPhoneShaped(t);
    SettlesWhen(t);
    if PhoneShaped(r) {
      MaskPhoneTwice(t);
      if StartsWith(t, "+") && |t| < 4 {
        ShortPlusUnsettles(t);
      }
    } else if NoSpace(r) {
      OneWord(r);
      assert ShortName(r) == Text.Some(r) by {
        OneWordName(r);
      }
    } else {
      SpacedWords(r);
      ShortNameDot(r);
    }
  }

  lemma SettlesWhen(t: string)
    ensures PhoneSettles(t) <==>
      (' ' !in Head(t) && ' ' !in Tail(t)) || (Hidden(t) == 0 && !(HasDigit(Head(t)) && '+' in Tail(t)))
  {
  }

  lemma OneWordName(r: string)
    requires Words(r) == [r]
    ensures ShortName(r) == Text.Some(r)
  {
  }

  lemma ShortNameDot(r: string)
    requires |Words(r)| >= 2
    ensures ShortName(r).Some? && var n := ShortName(r).value; n != "" && n[|n| - 1] == '.'
  {
  }

  /** Repeating a plus sign and fewer than three more puts it after a digit. */
  lemma ShortPlusUnsettles(t: string)
    requires PhoneShaped(t) && StartsWith(t, "+") && |t| < 4
    ensures HasDigit(Head(t)) && '+' in Tail(t)
  {
    PhoneShapedIs(t);
    assert t[..1] == "+";
    assert t[0] == '+';
  }

  /** A short name is a short name, and never looks like a contact. */
  lemma ShortNameTwice(t: string)
    requires Trimmed(t) && t != "" && !ContactShaped(t)
    ensures ShortName(t).Some?
    ensures var r := ShortName(t).value;
      Trimmed(r) && r != "" && !ContactShaped(r) && ShortName(r) == Text.Some(r)
  {
    SpaceFacts();
    hide IsSpace, PhoneShaped, Words;
    WordsAreWords(t);
    var parts := Words(t);
    assert !IsSpace(t[0]);
    assert parts[0] in parts && parts[|parts| - 1] in parts;
    if |parts| == 1 {
      if !NoSpace(t) {
        SpacedWords(t);
      }
      OneWord(t);
    } else {
      TwoWordName(parts[0], parts[|parts| - 1]);
      assert forall c :: c in parts[0] || c in parts[|parts| - 1] ==> c in t;
    }
  }

  lemma TwoWordName(first: string, last: string)
    requires first != "" && last != "" && NoSpace(first) && NoSpace(last)
    ensures var r := first + " " + FirstUpTo(last, 1) + ".";
      && Trimmed(r) && !PhoneShaped(r) && ShortName(r) == Text.Some(r)
      && (forall c :: c in r ==> c in first || c in last || c == ' ' || c == '.')
  {
    SpaceFacts();
    hide IsSpace, Words;
    var initial := [last[0], '.'];
    var r := first + " " + FirstUpTo(last, 1) + ".";
    assert FirstUpTo(last, 1) == [last[0]];
    assert r == first + " " + initial;
    TwoWords(first, initial);
    PhoneShapedIs(r);
    hide PhoneShaped;
    assert r[|r| - 1] == '.' && r[0] == first[0] && !IsPhoneChar('.');
    assert FirstUpTo(initial, 1) == [last[0]];
  }

  /** Contact labels, twice: changed again exactly when they are numbers that do not settle. */
  lemma MaskContactTwice(value: string)
    ensures MaskContact(value).Some?
    ensures MaskContact(MaskContact(value).value) == MaskContact(value) <==>
      ('@' !in Strip(value) && PhoneShaped(Strip(value)) ==> PhoneSettles(Strip(value)))
  {
    hide PhoneShaped, IsSpace, MaskPhone, Words, MaskEmail, ShortName, PhoneSettles, Trimmed;
    var t := Strip(value);
    NothingHasNoName();
    if '@' in t {
      MaskedEmailTrimmed(t);
      MaskEmailTwice(t);
    } else if PhoneShaped(t) {
      PhoneContactTwice(t);
    } else if t != "" {
      ShortNameTwice(t);
    }
  }

  /** Names, twice: they raise exactly when there is nothing but white space, and otherwise change
      again exactly when they are numbers that do not settle. */
  lemma MaskNameTwice(value: string)
    ensures MaskName(value).Some? <==> Strip(value) != ""
    ensures MaskName(value).Some? ==> MaskName(value).value != ""
    ensures MaskName(value).Some? ==>
      (MaskName(MaskName(value).value) == MaskName(value) <==>
      ('@' !in Strip(value) && PhoneShaped(Strip(value)) ==> PhoneSettles(Strip(value))))
  {
    hide PhoneShaped, IsSpace, MaskPhone, Words, MaskEmail, ShortName, PhoneSettles, Trimmed;
    var t := Strip(value);
    NothingHasNoName();
    if '@' in t {
      MaskedEmailTrimmed(t);
      MaskEmailTwice(t);
    } else if PhoneShaped(t) {
      PhoneContactTwice(t);
      MaskedPhoneTrimmed(t);
    } else if t != "" {
      ShortNameTwice(t);
    }
  }

  lemma NothingHasNoName()
    ensures !PhoneShaped("") && ShortName("").None?
  {
  }

  /** A masked contact that still looks like one is masked for good. */
  lemma ContactTwice(value: string)
    requires ContactShaped(Strip(value))
    ensures MaskContact(value).Some?
    ensures var r := MaskContact(value).value;
      r != "" && (ContactShaped(Strip(r)) ==> MaskContact(r) == Text.Some(r))
  {
    hide PhoneShaped, IsSpace, MaskPhone, Head, Tail, Hidden, Words, MaskEmail, ShortName, Trimmed;
    var t := Strip(value);
    MaskContactTwice(value);
    if '@' !in t {
      MaskedPhoneShaped(t);
      MaskedPhoneTrimmed(t);
    } else {
      MaskEmailTwice(t);
    }
  }

  lemma MaskedEmailTrimmed(t: string)
    requires Trimmed(t) && '@' in t
    ensures Trimmed(MaskEmail(t))
  {
    SpaceFacts();
    hide IsSpace;
    var r := MaskEmail(t);
    assert r[|r| - 1] == t[|t| - 1];
    assert r[0] == t[0] || r[0] == BULLET;
  }

  /** A pass over the value and a second one over what it made differ. */
  predicate MaskedAgain(value: string) {
    MaskName(value).Some? && MaskName(MaskName(value).value) != MaskName(value)
  }

  /** Two numbers that a second pass changes: one with a space among its last four, one too short to
      hide. */
  lemma NamesMaskedAgain()
    ensures MaskedAgain("98765 432 1") && MaskedAgain("+1 2")
  {
    hide MaskedAgain, PhoneSettles, Trimmed, IsPhoneChar;
    AreNumbers();
    NumberMaskedAgain("98765 432 1", 0);
    NumberMaskedAgain("+1 2", 1);
    NeitherSettles();
  }

  lemma AreNumbers()
    ensures forall i :: 0 <= i < 11 ==> IsPhoneChar("98765 432 1"[i])
    ensures forall i :: 0 <= i < 4 ==> IsPhoneChar("+1 2"[i])
    ensures Trimmed("98765 432 1") && Trimmed("+1 2")
  {
  }

  lemma NeitherSettles()
    ensures !PhoneSettles("98765 432 1") && !PhoneSettles("+1 2")
  {
    assert Tail("98765 432 1") == "32 1" && "32 1"[2] == ' ';
    assert Head("+1 2") == "+1 " && Text.IsDigit("+1 "[1]) && "+1 "[2] == ' ';
    assert Tail("+1 2")[0] == '+';
  }

  lemma NumberMaskedAgain(t: string, digit: nat)
    requires digit < |t| && Text.IsDigit(t[digit]) && Trimmed(t)
    requires forall i :: 0 <= i < |t| ==> IsPhoneChar(t[i])
    requires forall j :: 0 < j < |t| ==> t[j] != '+'
    ensures MaskedAgain(t) <==> !PhoneSettles(t)
  {
    hide PhoneShaped, IsSpace, PhoneSettles, MaskName, Trimmed, Text.IsDigit;
    assert HasDigit(t);
    assert !PlusAfterDigit(t);
    PhoneShapedIs(t);
    assert '@' !in t by {
      NoAtInNumbers();
    }
    MaskNameTwice(t);
    assert Strip(t) == t;
  }

  lemma NoAtInNumbers()
    ensures !IsPhoneChar('@')
  {
  }
}
