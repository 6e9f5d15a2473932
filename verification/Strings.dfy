/** The string operations the code leans on: stripping white space, splitting on it and on a
    separator, and joining. */
module Strings {

  /** White space as the string methods see it. */
  predicate IsSpace(c: char) {
    || '\U{9}' <= c <= '\U{D}' || '\U{1C}' <= c <= '\U{20}' || c == '\U{85}' || c == '\U{A0}' || c == '\U{1680}'
    || '\U{2000}' <= c <= '\U{200A}' || c == '\U{2028}' || c == '\U{2029}' || c == '\U{202F}'
        || c == '\U{205F}' || c == '\U{3000}'
  }

  function LStrip(s: string): (t: string)
    ensures t == "" || !IsSpace(t[0])
    ensures |t| <= |s| && t == s[|s| - |t|..]
    ensures forall i :: 0 <= i < |s| - |t| ==> IsSpace(s[i])
  {
    if s == "" || !IsSpace(s[0]) then s else LStrip(s[1..])
  }

  function RStrip(s: string): (t: string)
    ensures t == "" || !IsSpace(t[|t| - 1])
    ensures t <= s
    ensures forall i :: |t| <= i < |s| ==> IsSpace(s[i])
  {
    if s == "" || !IsSpace(s[|s| - 1]) then s else RStrip(s[..|s| - 1])
  }

  /** No white space at either end. */
  predicate Trimmed(s: string) {
    s == "" || (!IsSpace(s[0]) && !IsSpace(s[|s| - 1]))
  }

  function Strip(s: string): (t: string)
    ensures Trimmed(t)
    ensures |t| <= |s|
    ensures forall c :: c in t ==> c in s
    ensures forall c :: c in s && !IsSpace(c) ==> c in t
    ensures Trimmed(s) ==> t == s
  {
    RStrip(LStrip(s))
  }

  /** Stripping takes white space from the two ends, and nothing else. */
  lemma StripIs(s: string) returns (i: nat)
    ensures i + |Strip(s)| <= |s| && Strip(s) == s[i..i + |Strip(s)|]
    ensures forall k :: 0 <= k < i || i + |Strip(s)| <= k < |s| ==> IsSpace(s[k])
  {
    hide IsSpace, LStrip, RStrip;
    var t := LStrip(s);
    i := |s| - |t|;
    EndsAt(s, t, Strip(s), i);
  }

  lemma EndsAt(s: string, t: string, u: string, i: nat)
    requires i <= |s| && t == s[i..] && u <= t
    requires forall k :: 0 <= k < i ==> IsSpace(s[k])
    requires forall k :: |u| <= k < |t| ==> IsSpace(t[k])
    ensures i + |u| <= |s| && u == s[i..i + |u|]
    ensures forall k :: 0 <= k < i || i + |u| <= k < |s| ==> IsSpace(s[k])
  {
    hide IsSpace;
    forall k | i + |u| <= k < |s| ensures IsSpace(s[k]) {
      assert t[k - i] == s[k];
    }
  }

  predicate StartsWith(s: string, prefix: string) {
    |prefix| <= |s| && s[..|prefix|] == prefix
  }
}
