/**
 * Whitespace tokenisation as done by a java.util.Scanner with its default
 * delimiter: a prompt becomes the sequence of its maximal runs of
 * non-whitespace characters, in order.
 */
module Tokenize {
  import opened Chars

  /** True when `t` is a possible token: non-empty and free of whitespace. */
  predicate IsToken(t: string) {
    |t| > 0 && forall i :: 0 <= i < |t| ==> !IsWhitespace(t[i])
  }

  /** The end of the run of non-whitespace characters that starts at `i`. */
  function WordEnd(s: string, i: nat): (n: nat)
    requires i <= |s|
    ensures i <= n <= |s|
    ensures forall t :: i <= t < n ==> !IsWhitespace(s[t])
    ensures n < |s| ==> IsWhitespace(s[n])
    decreases |s| - i
  {
    if i == |s| || IsWhitespace(s[i]) then i else WordEnd(s, i + 1)
  }

  /** The tokens a Scanner returns from `s`, one `next()` call per element. */
  function Tokens(s: string): (r: seq<string>)
    ensures forall k :: 0 <= k < |r| ==> IsToken(r[k])
    decreases |s|
  {
    if s == [] then []
    else if IsWhitespace(s[0]) then Tokens(s[1..])
    else
      var n := WordEnd(s, 0);
      [s[..n]] + Tokens(s[n..])
  }

  /** Each word followed by one space, as a StringBuilder fed `word` then `" "` builds it. */
  function Spaced(words: seq<string>): string {
    if words == [] then [] else words[0] + " " + Spaced(words[1..])
  }

  /** A string without non-whitespace characters yields no tokens, and only such a string does. */
  lemma {:induction false} TokensEmpty(s: string)
    ensures Tokens(s) == [] <==> forall i :: 0 <= i < |s| ==> IsWhitespace(s[i])
    decreases |s|
  {
    if s != [] && IsWhitespace(s[0]) {
      TokensEmpty(s[1..]);
      assert forall i :: 1 <= i < |s| ==> s[i] == s[1..][i - 1];
    }
  }

  /** Tokenising whitespace followed by `s` is tokenising `s`. */
  lemma {:induction false} TokensSkipSpace(s: string)
    ensures Tokens(" " + s) == Tokens(s)
  {
    assert (" " + s)[1..] == s;
  }

  /** Tokenisation inverts `Spaced`: splitting space-joined tokens gives them back. */
  lemma {:induction false} TokensOfSpaced(words: seq<string>)
    requires forall k :: 0 <= k < |words| ==> IsToken(words[k])
    ensures Tokens(Spaced(words)) == words
    decreases |words|
  {
    if words != [] {
      var w := words[0];
      var rest := " " + Spaced(words[1..]);
      var s := w + rest;
      assert Spaced(words) == s;
      assert s[0] == w[0];
      assert WordEnd(s, 0) == |w| by {
        WordEndOfToken(w, rest);
      }
      assert s[..|w|] == w;
      assert s[|w|..] == rest;
      TokensSkipSpace(Spaced(words[1..]));
      TokensOfSpaced(words[1..]);
      assert words == [w] + words[1..];
    }
  }

  /** A whitespace-free word followed by whitespace ends exactly where the word ends. */
  lemma {:induction false} WordEndOfToken(w: string, rest: string)
    requires IsToken(w)
    requires rest != [] && IsWhitespace(rest[0])
    ensures WordEnd(w + rest, 0) == |w|
  {
    var s := w + rest;
    var n := WordEnd(s, 0);
    assert s[|w|] == rest[0];
  }

  /** A prompt that is a single token yields exactly that token. */
  lemma TokensOfToken(t: string)
    requires IsToken(t)
    ensures Tokens(t) == [t]
  {
    assert WordEnd(t, 0) == |t|;
    assert t[..|t|] == t;
    assert t[|t|..] == [];
  }

  /** The run of non-whitespace characters from `i` stops at the end of `s` when whitespace follows. */
  lemma {:induction false} WordEndAppend(s: string, t: string, i: nat)
    requires i <= |s|
    requires t != [] && IsWhitespace(t[0])
    ensures WordEnd(s + t, i) == WordEnd(s, i)
    decreases |s| - i
  {
    var s' := s + t;
    assert s'[|s|] == t[0];
    if i < |s| {
      assert s'[i] == s[i];
      if !IsWhitespace(s[i]) {
        WordEndAppend(s, t, i + 1);
      }
    }
  }

  /**
   * Every whitespace character separates: the tokens of `a`, a whitespace
   * character, then `b` are the tokens of `a` followed by the tokens of `b`.
   * With `Tokens([]) == []` and `TokensOfToken`, this fixes the tokens of
   * every string.
   */
  lemma {:induction false} TokensSplit(a: string, c: char, b: string)
    requires IsWhitespace(c)
    ensures Tokens(a + [c] + b) == Tokens(a) + Tokens(b)
    decreases |a|
  {
    var s := a + [c] + b;
    if a == [] {
      assert s[1..] == b;
    } else if IsWhitespace(a[0]) {
      assert s[1..] == a[1..] + [c] + b;
      TokensSplit(a[1..], c, b);
    } else {
      var n := WordEnd(a, 0);
      WordEndAppend(a, [c] + b, 0);
      assert s == a + ([c] + b);
      assert s[..n] == a[..n];
      assert s[n..] == a[n..] + [c] + b;
      TokensSplit(a[n..], c, b);
    }
  }

  /** Trailing whitespace yields no token: tokenising `s` followed by any whitespace character is tokenising `s`. */
  lemma TokensAppendWhitespace(s: string, c: char)
    requires IsWhitespace(c)
    ensures Tokens(s + [c]) == Tokens(s)
  {
    TokensSplit(s, c, []);
    assert s + [c] + [] == s + [c];
  }
}
