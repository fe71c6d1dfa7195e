/**
 * ASCII approximations of the character classes the regular expressions of
 * FallParams.py use (`\w`, `\d`, `\s`, `[A-Z]` under IGNORECASE), and the
 * ASCII lower-casing that IGNORECASE applies.
 */
module Chars {

  predicate IsDigit(c: char) { '0' <= c <= '9' }

  predicate IsLetter(c: char) { 'a' <= c <= 'z' || 'A' <= c <= 'Z' }

  predicate IsAlnum(c: char) { IsLetter(c) || IsDigit(c) }

  /** `\w`: letters, digits and the underscore. */
  predicate IsWordChar(c: char) { IsAlnum(c) || c == '_' }

  /** `\s`: space, tab, line feed, vertical tab, form feed, carriage return and the
      information separators U+001C..U+001F. */
  predicate IsSpace(c: char) { c == ' ' || '\t' <= c <= '\r' || '\U{1c}' <= c <= '\U{1f}' }

  function Lower(c: char): (l: char)
    ensures IsLetter(l) <==> IsLetter(c)
    ensures IsDigit(l) <==> IsDigit(c)
    ensures IsSpace(l) <==> IsSpace(c)
    ensures !IsLetter(c) ==> l == c
  {
    if 'A' <= c <= 'Z' then (c as int - 'A' as int + 'a' as int) as char else c
  }

  function LowerStr(s: string): (l: string)
    ensures |l| == |s|
  {
    seq(|s|, k requires 0 <= k < |s| => Lower(s[k]))
  }

  lemma LowerSuffix(s: string, i: int)
    requires 0 <= i <= |s|
    ensures LowerStr(s)[i..] == LowerStr(s[i..])
  {
  }

  /** Lower-casing changes letters only, so it keeps every other character and
      never makes one. */
  lemma LowerKeepsOthers(c: char, x: char)
    requires !IsLetter(x)
    ensures Lower(c) == x <==> c == x
  {
  }
}
