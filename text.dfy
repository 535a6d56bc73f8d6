/**
  The few Python string operations the core relies on: `str.lower`, `str.endswith`,
  `str.strip` (with and without an argument) and single-character `str.replace`.
*/
module Text {

  /** ASCII lower-casing of one character; other characters are left alone. */
  function LowerChar(c: char): char {
    if 'A' <= c <= 'Z' then (c as int + 32) as char else c
  }

  /** `s.lower()`: every character lower-cased, length unchanged. */
  function Lower(s: string): (r: string)
    ensures |r| == |s|
    ensures forall i :: 0 <= i < |s| ==> r[i] == LowerChar(s[i])
    ensures forall i :: 0 <= i < |r| ==> !('A' <= r[i] <= 'Z')
  {
    if s == [] then [] else [LowerChar(s[0])] + Lower(s[1..])
  }

  /** `s.endswith(suffix)`; every string ends with the empty suffix. */
  predicate EndsWith(s: string, suffix: string) {
    |suffix| <= |s| && s[|s| - |suffix|..] == suffix
  }

  /** The characters for which Python's `str.isspace()` holds, which `str.strip()` removes. */
  predicate IsSpace(c: char) {
    c == ' ' || ('\t' <= c <= '\r') || ('\U{1c}' <= c <= '\U{1f}')
    || c == '\U{85}' || c == '\U{a0}' || c == '\U{1680}'
    || ('\U{2000}' <= c <= '\U{200a}') || c == '\U{2028}' || c == '\U{2029}'
    || c == '\U{202f}' || c == '\U{205f}' || c == '\U{3000}'
  }

  /** The argument of `str.strip`: none (white space) or a single character to remove. */
  datatype StripChars = Whitespace | Only(c: char)

  /** Whether `str.strip` with this argument removes `c`. */
  predicate Stripped(chars: StripChars, c: char) {
    match chars
    case Whitespace => IsSpace(c)
    case Only(x) => c == x
  }

  /** The index of the first character from `i` on that `chars` does not remove, or `|s|`. */
  function SkipForward(s: string, chars: StripChars, i: nat): (n: nat)
    requires i <= |s|
    ensures i <= n <= |s|
    decreases |s| - i
  {
    if i < |s| && Stripped(chars, s[i]) then SkipForward(s, chars, i + 1) else i
  }

  /** Every character skipped is removed, and the one the scan stops at is not. */
  lemma {:induction false} SkipForwardSpec(s: string, chars: StripChars, i: nat)
    requires i <= |s|
    ensures forall k :: i <= k < SkipForward(s, chars, i) ==> Stripped(chars, s[k])
    ensures SkipForward(s, chars, i) < |s| ==> !Stripped(chars, s[SkipForward(s, chars, i)])
    decreases |s| - i
  {
    if i < |s| && Stripped(chars, s[i]) {
      SkipForwardSpec(s, chars, i + 1);
    }
  }

  /**
    Scanning back from `j`, not below `lo`: the index just past the last character that
    `chars` does not remove, or `lo`.
  */
  function SkipBackward(s: string, chars: StripChars, lo: nat, j: nat): (n: nat)
    requires lo <= j <= |s|
    ensures lo <= n <= j
    decreases j
  {
    if lo < j && Stripped(chars, s[j - 1]) then SkipBackward(s, chars, lo, j - 1) else j
  }

  /** Every character skipped is removed, and the one before the stopping point, if above `lo`, is not. */
  lemma {:induction false} SkipBackwardSpec(s: string, chars: StripChars, lo: nat, j: nat)
    requires lo <= j <= |s|
    ensures forall k :: SkipBackward(s, chars, lo, j) <= k < j ==> Stripped(chars, s[k])
    ensures lo < SkipBackward(s, chars, lo, j) ==> !Stripped(chars, s[SkipBackward(s, chars, lo, j) - 1])
    decreases j
  {
    if lo < j && Stripped(chars, s[j - 1]) {
      SkipBackwardSpec(s, chars, lo, j - 1);
    }
  }

  /** The length of the leading run of characters of `s` that `chars` removes. */
  function Leading(s: string, chars: StripChars): (n: nat)
    ensures n <= |s|
  {
    SkipForward(s, chars, 0)
  }

  /** The index just past the last character of `s` that `chars` keeps, scanning no lower than `Leading`. */
  function Trailing(s: string, chars: StripChars): (j: nat)
    ensures Leading(s, chars) <= j <= |s|
  {
    SkipBackward(s, chars, Leading(s, chars), |s|)
  }

  /** `s.strip(chars)`, scanning in from both ends as CPython does. */
  function Strip(s: string, chars: StripChars): (r: string)
    ensures |r| <= |s|
  {
    s[Leading(s, chars)..Trailing(s, chars)]
  }

  /**
    What `strip` returns: the slice of `s` that starts after its leading run of removed
    characters; everything after the slice in `s` is removed; the slice neither starts nor
    ends with a removed character.
  */
  lemma StripSpec(s: string, chars: StripChars)
    ensures forall k :: 0 <= k < Leading(s, chars) ==> Stripped(chars, s[k])
    ensures Leading(s, chars) < |s| ==> !Stripped(chars, s[Leading(s, chars)])
    ensures Leading(s, chars) + |Strip(s, chars)| <= |s|
    ensures forall k :: 0 <= k < |Strip(s, chars)| ==> Strip(s, chars)[k] == s[Leading(s, chars) + k]
    ensures forall k :: Leading(s, chars) + |Strip(s, chars)| <= k < |s| ==> Stripped(chars, s[k])
    ensures Strip(s, chars) != [] ==>
      !Stripped(chars, Strip(s, chars)[0]) && !Stripped(chars, Strip(s, chars)[|Strip(s, chars)| - 1])
  {
    var i, j := Leading(s, chars), Trailing(s, chars);
    SkipForwardSpec(s, chars, 0);
    SkipBackwardSpec(s, chars, i, |s|);
    var r := Strip(s, chars);
    assert |r| == j - i;
    forall k | 0 <= k < |r|
      ensures r[k] == s[i + k]
    {
    }
  }

  /** When nothing at either end of `s` is removed, stripping leaves `s` as it is. */
  lemma StripKeeps(s: string, chars: StripChars)
    requires s != [] ==> !Stripped(chars, s[0]) && !Stripped(chars, s[|s| - 1])
    ensures Strip(s, chars) == s
  {
    assert s != [] ==> SkipForward(s, chars, 0) == 0;
    assert s[0..|s|] == s;
  }

  /** Appending one removed character to a string that `strip` keeps is undone by `strip`. */
  lemma StripAppended(s: string, x: char, chars: StripChars)
    requires s != [] && !Stripped(chars, s[0]) && !Stripped(chars, s[|s| - 1])
    requires Stripped(chars, x)
    ensures Strip(s + [x], chars) == s
  {
    var t := s + [x];
    assert t[0] == s[0] && t[|s| - 1] == s[|s| - 1] && t[|s|] == x;
    assert SkipForward(t, chars, 0) == 0;
    assert SkipBackward(t, chars, 0, |s|) == |s|;
    assert t[0..|s|] == s;
  }

  /** `s.replace(a, b)` for single characters `a` and `b`. */
  function ReplaceChar(s: string, a: char, b: char): (r: string)
    ensures |r| == |s|
  {
    if s == [] then [] else [if s[0] == a then b else s[0]] + ReplaceChar(s[1..], a, b)
  }

  /** Replacement changes exactly the occurrences of `a`, each into `b`. */
  lemma {:induction false} ReplaceCharSpec(s: string, a: char, b: char)
    ensures forall i :: 0 <= i < |s| ==> ReplaceChar(s, a, b)[i] == (if s[i] == a then b else s[i])
  {
    if s != [] {
      ReplaceCharSpec(s[1..], a, b);
      var r := ReplaceChar(s, a, b);
      assert r == [if s[0] == a then b else s[0]] + ReplaceChar(s[1..], a, b);
      forall i | 1 <= i < |s|
        ensures r[i] == (if s[i] == a then b else s[i])
      {
        assert r[i] == ReplaceChar(s[1..], a, b)[i - 1] && s[i] == s[1..][i - 1];
      }
    }
  }
}
