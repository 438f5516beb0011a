/** The handful of JavaScript string primitives the handlers rely on:
    `/^\d+$/`, `toLowerCase` and `trim`. */
module Strings {

  predicate IsDigit(c: char) {
    '0' <= c <= '9'
  }

  /** Every character is a decimal digit (`/^\d*$/`). */
  predicate AllDigits(s: string) {
    forall i :: 0 <= i < |s| ==> IsDigit(s[i])
  }

  /** A non-empty run of decimal digits (`/^\d+$/`). */
  predicate IsDigitString(s: string) {
    |s| > 0 && AllDigits(s)
  }

  function LowerChar(c: char): char {
    if 'A' <= c <= 'Z' then (c as int + 32) as char else c
  }

  /** `String.prototype.toLowerCase`, on the ASCII letters. */
  function ToLower(s: string): (r: string)
    ensures |r| == |s|
    ensures forall i :: 0 <= i < |s| ==> r[i] == LowerChar(s[i])
  {
    seq(|s|, i requires 0 <= i < |s| => LowerChar(s[i]))
  }

  /** The white space and line terminators `trim` removes. */
  predicate IsSpace(c: char) {
    c == ' ' || c == '\t' || c == '\n' || c == '\r' || c == '\U{0B}' || c == '\U{0C}'
    || c == '\U{A0}' || c == '\U{FEFF}' || c == '\U{2028}' || c == '\U{2029}'
  }

  function TrimStart(s: string): (r: string)
    ensures |r| <= |s| && r == s[|s| - |r|..]
    ensures forall i :: 0 <= i < |s| - |r| ==> IsSpace(s[i])
    ensures |r| > 0 ==> !IsSpace(r[0])
  {
    if |s| > 0 && IsSpace(s[0]) then TrimStart(s[1..]) else s
  }

  function TrimEnd(s: string): (r: string)
    ensures |r| <= |s| && r == s[..|r|]
    ensures forall i :: |r| <= i < |s| ==> IsSpace(s[i])
    ensures |r| > 0 ==> !IsSpace(r[|r| - 1])
  {
    if |s| > 0 && IsSpace(s[|s| - 1]) then TrimEnd(s[..|s| - 1]) else s
  }

  /** `String.prototype.trim`: the infix of `s` after the leading white
      space `TrimStart` skips, up to the trailing white space; it starts
      and ends with a non-blank. */
  function Trim(s: string): (r: string)
    ensures |r| > 0 ==> !IsSpace(r[0]) && !IsSpace(r[|r| - 1])
    ensures |s| - |TrimStart(s)| + |r| <= |s|
    ensures forall i :: 0 <= i < |r| ==> r[i] == s[|s| - |TrimStart(s)| + i]
    ensures forall i :: |s| - |TrimStart(s)| + |r| <= i < |s| ==> IsSpace(s[i])
  {
    TrimInfix(s);
    TrimEnd(TrimStart(s))
  }

  lemma TrimInfix(s: string)
    ensures var t := TrimStart(s); var r := TrimEnd(t); var k := |s| - |t|;
      && (forall i :: 0 <= i < |r| ==> r[i] == s[k + i])
      && (forall i :: k + |r| <= i < |s| ==> IsSpace(s[i]))
  {
    var t := TrimStart(s);
    var r := TrimEnd(t);
    var k := |s| - |t|;
    forall i | 0 <= i < |t|
      ensures t[i] == s[k + i]
    {
      assert t == s[k..];
    }
    forall i | 0 <= i < |r|
      ensures r[i] == s[k + i]
    {
      assert r == t[..|r|];
      assert r[i] == t[i];
    }
    forall i | k + |r| <= i < |s|
      ensures IsSpace(s[i])
    {
      assert s[i] == t[i - k];
      assert IsSpace(t[i - k]);
    }
  }

  /** A string without white space at its ends is its own trim. */
  lemma TrimNoSpace(s: string)
    requires |s| > 0 ==> !IsSpace(s[0]) && !IsSpace(s[|s| - 1])
    ensures Trim(s) == s
  {
  }

  /** Digits are not white space, so a digit string survives `trim`. */
  lemma TrimDigits(s: string)
    requires AllDigits(s)
    ensures Trim(s) == s
  {
    TrimNoSpace(s);
  }
}
