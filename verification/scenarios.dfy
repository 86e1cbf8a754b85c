/** The engine's documented behaviour on concrete inputs. */
module Scenarios {
  import opened Wrappers
  import opened Chars
  import opened Sanitize
  import opened KeywordTable

  /** A word whose lower-cased form is `low` sanitises to the trimmed core `low[i..j]`. */
  lemma SanitizeLiteral(word: string, low: string, i: int, j: int)
    requires |low| == |word| && forall t :: 0 <= t < |word| ==> low[t] == ToLower(word[t])
    requires TrimAt(low, i, j)
    ensures SanitizeWord(word) == low[i..j]
  {
    assert Lower(word) == low;
    SanitizeWordCharacterised(word, low[i..j]);
  }

  /** Boundary punctuation is trimmed and the token is lower-cased. */
  lemma SanitizeTrimsPunctuation()
    ensures SanitizeWord("Report!!") == "report"
  {
    SanitizeLiteral("Report!!", "report!!", 0, 6);
  }

  /** Internal punctuation is kept. */
  lemma SanitizeKeepsInnerPunctuation()
    ensures SanitizeWord("Q3-report") == "q3-report"
  {
    SanitizeLiteral("Q3-report", "q3-report", 0, 9);
  }

  /** A duplicated keyword keeps its last response. */
  lemma DuplicateKeywordLastWins()
    ensures BuildTable(["x", "r1", "x", "r2"]) == Success(map["x" := "r2"])
  {
    var pairs := ["x", "r1", "x", "r2"];
    assert IsKeywordIndex(pairs, 2) && IsLastPair(pairs, 2);
    assert forall i :: 0 <= i < |pairs| && i % 2 == 0 ==> pairs[i] == "x";
    assert pairs[0] == "x";
    assert KeywordsOf(pairs) == {"x"};
    var t := BuildTable(pairs).value;
    assert t.Keys == {"x"} && t["x"] == "r2";
    assert t == map["x" := "r2"];
  }

  /** A seed sequence with a keyword but no response is refused. */
  lemma UnpairedSeedRefused()
    ensures BuildTable(["x", "r1", "y"]) == Failure(UnpairedKeyword(2))
  {
  }

  /** An upper-case keyword mention sanitises to the lower-case keyword. */
  lemma SanitizeUpperCase()
    ensures SanitizeWord("REVENUE") == "revenue"
  {
    SanitizeLiteral("REVENUE", "revenue", 0, 7);
  }

  /** A trailing comma is trimmed. */
  lemma SanitizeTrailingComma()
    ensures SanitizeWord("revenue,") == "revenue"
  {
    SanitizeLiteral("revenue,", "revenue,", 0, 7);
  }
}
