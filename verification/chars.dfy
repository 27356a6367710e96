/**
  Character classes the tokenizer relies on.

  `IsSpace` follows the set of code points that Python's `str.isspace`
  accepts. Letters, digits and lower-casing are restricted to ASCII.
 */
module Chars {

  /** Whitespace in the sense of Python's `str.isspace`. */
  predicate IsSpace(c: char) {
    || ('\t' <= c <= '\r')                 // tab, newline, vertical tab, form feed, carriage return
    || ('\U{1C}' <= c <= '\U{1F}')         // information separators
    || c == ' '
    || c == '\U{85}' || c == '\U{A0}' || c == '\U{1680}'
    || ('\U{2000}' <= c <= '\U{200A}')
    || c == '\U{2028}' || c == '\U{2029}' || c == '\U{202F}' || c == '\U{205F}' || c == '\U{3000}'
  }

  predicate IsAlpha(c: char) {
    ('a' <= c <= 'z') || ('A' <= c <= 'Z')
  }

  predicate IsDigit(c: char) {
    '0' <= c <= '9'
  }

  /** A character that may continue an identifier: a letter, a digit or `_`. */
  predicate IsWordChar(c: char) {
    IsAlpha(c) || IsDigit(c) || c == '_'
  }

  function LowerChar(c: char): (d: char)
    ensures IsAlpha(c) ==> 'a' <= d <= 'z'
    ensures !('A' <= c <= 'Z') ==> d == c
  {
    if 'A' <= c <= 'Z' then (c as int + 32) as char else c
  }

  /** Character-wise ASCII lower-casing, the model of `str.lower`. */
  function Lower(s: string): (t: string)
    ensures |t| == |s|
    ensures forall i :: 0 <= i < |s| ==> t[i] == LowerChar(s[i])
  {
    if |s| == 0 then [] else [LowerChar(s[0])] + Lower(s[1..])
  }

  /** Two strings that differ at most in the case of their letters. */
  predicate SameIgnoringCase(a: string, b: string) {
    |a| == |b| && forall i :: 0 <= i < |a| ==> LowerChar(a[i]) == LowerChar(b[i])
  }

  /** The number of line breaks (`\n`) in `s`. */
  function NewlinesIn(s: string): nat {
    if |s| == 0 then 0
    else NewlinesIn(s[..|s| - 1]) + (if s[|s| - 1] == '\n' then 1 else 0)
  }

  lemma {:induction false} NewlinesAppend(a: string, b: string)
    ensures NewlinesIn(a + b) == NewlinesIn(a) + NewlinesIn(b)
    decreases |b|
  {
    if |b| == 0 {
      assert a + b == a;
    } else {
      assert (a + b)[..|a + b| - 1] == a + b[..|b| - 1];
      NewlinesAppend(a, b[..|b| - 1]);
    }
  }

  /** Counting line breaks over adjacent slices adds up. */
  lemma NewlinesSplit(s: string, i: nat, j: nat, k: nat)
    requires i <= j <= k <= |s|
    ensures NewlinesIn(s[i..k]) == NewlinesIn(s[i..j]) + NewlinesIn(s[j..k])
  {
    assert s[i..k] == s[i..j] + s[j..k];
    NewlinesAppend(s[i..j], s[j..k]);
  }

  /** Counting the line breaks of a suffix in two parts. */
  lemma NewlinesSuffix(s: string, i: nat, j: nat)
    requires i <= j <= |s|
    ensures NewlinesIn(s[i..]) == NewlinesIn(s[i..j]) + NewlinesIn(s[j..])
  {
    assert s[i..] == s[i..j] + s[j..];
    NewlinesAppend(s[i..j], s[j..]);
  }

  /** A string without `'\n'` contains no line break. */
  lemma {:induction false} NewlinesNone(s: string)
    requires forall k :: 0 <= k < |s| ==> s[k] != '\n'
    ensures NewlinesIn(s) == 0
    decreases |s|
  {
    if |s| > 0 {
      NewlinesNone(s[..|s| - 1]);
    }
  }
}
