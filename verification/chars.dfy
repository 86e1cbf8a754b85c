/**
 * The character classes the response engine relies on, restricted to ASCII:
 * Character.isLetterOrDigit, Character.isWhitespace (the delimiter class of a
 * default java.util.Scanner) and the per-character effect of String.toLowerCase.
 */
module Chars {

  /** Character.isLetterOrDigit on ASCII: a Latin letter of either case or a decimal digit. */
  predicate IsLetterOrDigit(c: char) {
    ('a' <= c <= 'z') || ('A' <= c <= 'Z') || ('0' <= c <= '9')
  }

  /**
   * Character.isWhitespace on ASCII: space, the control characters \t \n \u000B \f \r,
   * and the four information separators \u001C to \u001F.
   */
  predicate IsWhitespace(c: char) {
    c == ' ' || ('\t' <= c <= '\r') || ('\U{1C}' <= c <= '\U{1F}')
  }

  /** Lower-casing of one character: A-Z go to a-z, everything else is unchanged. */
  function ToLower(c: char): (r: char)
    ensures IsLetterOrDigit(r) <==> IsLetterOrDigit(c)
    ensures IsWhitespace(r) <==> IsWhitespace(c)
    ensures !('A' <= r <= 'Z')
    ensures ('A' <= c <= 'Z') || r == c
  {
    if 'A' <= c <= 'Z' then (c as int - 'A' as int + 'a' as int) as char else c
  }

  /** String.toLowerCase, character by character; it never changes the length. */
  function Lower(s: string): (r: string)
    ensures |r| == |s|
    ensures forall i :: 0 <= i < |s| ==> r[i] == ToLower(s[i])
  {
    seq(|s|, i requires 0 <= i < |s| => ToLower(s[i]))
  }

  /** True when no character of `s` is a letter or digit. */
  predicate NoLetterOrDigit(s: string) {
    forall i :: 0 <= i < |s| ==> !IsLetterOrDigit(s[i])
  }

  /** True when `s` is already in lower case. */
  predicate IsLowerCase(s: string) {
    forall i :: 0 <= i < |s| ==> !('A' <= s[i] <= 'Z')
  }

  /** Lower-casing is idempotent: a lower-case string is its own lower-casing, and every result is lower case. */
  lemma LowerIdempotent(s: string)
    ensures IsLowerCase(Lower(s))
    ensures IsLowerCase(s) ==> Lower(s) == s
  {
  }
}
