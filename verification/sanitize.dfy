/**
 * Token sanitisation: lower-case a token, then trim characters that are not
 * letters or digits from both ends while keeping everything in between.
 */
module Sanitize {
  import opened Chars

  /**
   * The forward scan: the first index at or after `i` holding a letter or digit,
   * or |s| when there is none.
   */
  function ScanForward(s: string, i: nat): (k: nat)
    requires i <= |s|
    ensures i <= k <= |s|
    ensures forall t :: i <= t < k ==> !IsLetterOrDigit(s[t])
    ensures k < |s| ==> IsLetterOrDigit(s[k])
    decreases |s| - i
  {
    if i == |s| || IsLetterOrDigit(s[i]) then i else ScanForward(s, i + 1)
  }

  /**
   * The backward scan: the last index at or before `j` holding a letter or digit,
   * or -1 when there is none.
   */
  function ScanBackward(s: string, j: int): (k: int)
    requires -1 <= j < |s|
    ensures -1 <= k <= j
    ensures forall t :: k < t <= j ==> !IsLetterOrDigit(s[t])
    ensures k >= 0 ==> IsLetterOrDigit(s[k])
    decreases j + 1
  {
    if j == -1 || IsLetterOrDigit(s[j]) then j else ScanBackward(s, j - 1)
  }

  /**
   * `s[i..j]` is the trimmed core of `s`: nothing before `i` or from `j` on is a
   * letter or digit, and the core is empty or starts and ends with one.
   * This characterisation is independent of how the scans are carried out.
   */
  ghost predicate TrimAt(s: string, i: int, j: int) {
    && 0 <= i <= j <= |s|
    && NoLetterOrDigit(s[..i])
    && NoLetterOrDigit(s[j..])
    && (i < j ==> IsLetterOrDigit(s[i]) && IsLetterOrDigit(s[j - 1]))
  }

  /** `r` is the trimmed core of `s`. */
  ghost predicate IsTrimOf(r: string, s: string) {
    exists i, j :: TrimAt(s, i, j) && r == s[i..j]
  }

  /** The whole of `s` contains a letter or digit. */
  predicate HasLetterOrDigit(s: string) {
    exists i :: 0 <= i < |s| && IsLetterOrDigit(s[i])
  }

  /** The sanitised form of a token. */
  function SanitizeWord(word: string): (r: string)
    ensures r == [] <==> !HasLetterOrDigit(Lower(word))
    ensures r != [] ==> IsLetterOrDigit(r[0]) && IsLetterOrDigit(r[|r| - 1])
    ensures |r| <= |word|
  {
    var w := Lower(word);
    var first := ScanForward(w, 0);
    var last := ScanBackward(w, |w| - 1);
    if first == |w| || last == -1 then []
    else
      assert first <= last;
      w[first..last + 1]
  }

  /**
   * The sanitised token is the trimmed core of the lower-cased token: a
   * contiguous piece of it, with only non-alphanumerics cut from either end.
   */
  lemma {:induction false} SanitizeWordIsTrim(word: string)
    ensures IsTrimOf(SanitizeWord(word), Lower(word))
  {
    var w := Lower(word);
    var first := ScanForward(w, 0);
    var last := ScanBackward(w, |w| - 1);
    if first == |w| || last == -1 {
      assert TrimAt(w, 0, 0) by {
        assert w[0..] == w;
      }
      assert SanitizeWord(word) == w[0..0];
    } else {
      assert TrimAt(w, first, last + 1);
      assert SanitizeWord(word) == w[first..last + 1];
    }
  }

  /** A trimmed core that is non-empty starts at the first letter or digit of `s`. */
  lemma TrimStart(s: string, i: int, j: int, i2: int, j2: int)
    requires TrimAt(s, i, j) && TrimAt(s, i2, j2)
    requires i < j
    ensures i2 < j2 && i == i2
  {
  }

  /** A trimmed core that is non-empty ends at the last letter or digit of `s`. */
  lemma TrimEnd(s: string, i: int, j: int, i2: int, j2: int)
    requires TrimAt(s, i, j) && TrimAt(s, i2, j2)
    requires i < j && i2 < j2
    ensures j == j2
  {
  }

  /** The trimmed core of a string is unique. */
  lemma TrimUnique(s: string, i: int, j: int, i2: int, j2: int)
    requires TrimAt(s, i, j) && TrimAt(s, i2, j2)
    ensures s[i..j] == s[i2..j2]
  {
    if i < j {
      TrimStart(s, i, j, i2, j2);
      TrimEnd(s, i, j, i2, j2);
    } else if i2 < j2 {
      TrimStart(s, i2, j2, i, j);
    }
  }

  /**
   * The sanitised token is exactly the trimmed core of the lower-cased token:
   * a string is the result if and only if it satisfies the characterisation.
   */
  lemma SanitizeWordCharacterised(word: string, r: string)
    ensures r == SanitizeWord(word) <==> IsTrimOf(r, Lower(word))
  {
    var w := Lower(word);
    var out := SanitizeWord(word);
    SanitizeWordIsTrim(word);
    var i, j :| TrimAt(w, i, j) && out == w[i..j];
    if IsTrimOf(r, w) {
      var i2, j2 :| TrimAt(w, i2, j2) && r == w[i2..j2];
      TrimUnique(w, i, j, i2, j2);
    }
  }

  /** Sanitising an already sanitised token returns it unchanged. */
  lemma SanitizeWordIdempotent(word: string)
    ensures SanitizeWord(SanitizeWord(word)) == SanitizeWord(word)
  {
    var r := SanitizeWord(word);
    var w := Lower(word);
    SanitizeWordIsTrim(word);
    var i, j :| TrimAt(w, i, j) && r == w[i..j];
    LowerIdempotent(word);
    assert IsLowerCase(r) by {
      forall t | 0 <= t < |r|
        ensures !('A' <= r[t] <= 'Z')
      {
        assert r[t] == w[i + t];
      }
    }
    LowerIdempotent(r);
    assert TrimAt(r, 0, |r|) by {
      assert r[..0] == [] && r[|r|..] == [];
    }
    assert r == r[0..|r|];
    SanitizeWordCharacterised(r, r);
  }
}
