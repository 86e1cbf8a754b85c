/**
 * The keyword table: built from a flat seed sequence in which even positions
 * hold keywords and the following odd positions hold their responses.
 */
module KeywordTable {
  import opened Wrappers

  /** Why a seed sequence cannot be turned into a table. */
  datatype SeedError =
    /** The keyword at `index` has no response after it: the loop's `get(i + 1)` is out of bounds. */
    | UnpairedKeyword(index: nat)

  /** `i` is the position of a keyword in `pairs`. */
  predicate IsKeywordIndex(pairs: seq<string>, i: int) {
    0 <= i < |pairs| && i % 2 == 0
  }

  /** The pair at keyword position `i` is the last one with that keyword. */
  predicate IsLastPair(pairs: seq<string>, i: int)
    requires IsKeywordIndex(pairs, i)
  {
    forall j :: i < j < |pairs| && IsKeywordIndex(pairs, j) ==> pairs[j] != pairs[i]
  }

  /** The keywords of `pairs`: the elements at even positions. */
  function KeywordsOf(pairs: seq<string>): set<string> {
    set i | 0 <= i < |pairs| && i % 2 == 0 :: pairs[i]
  }

  /** The last pair's keyword joins the keywords of the pairs before it. */
  lemma KeywordsOfSnoc(pairs: seq<string>)
    requires |pairs| >= 2 && |pairs| % 2 == 0
    ensures KeywordsOf(pairs) == KeywordsOf(pairs[..|pairs| - 2]) + {pairs[|pairs| - 2]}
  {
    var n := |pairs|;
    var front := pairs[..n - 2];
    forall k | k in KeywordsOf(pairs)
      ensures k in KeywordsOf(front) + {pairs[n - 2]}
    {
      var i :| 0 <= i < n && i % 2 == 0 && pairs[i] == k;
      if i < n - 2 {
        assert front[i] == k;
      }
    }
    forall k | k in KeywordsOf(front)
      ensures k in KeywordsOf(pairs)
    {
      var i :| 0 <= i < |front| && i % 2 == 0 && front[i] == k;
      assert pairs[i] == k;
    }
  }

  /**
   * The map built by putting every pair in sequence order, so that a later pair
   * overwrites an earlier one with the same keyword. Its keys are exactly the
   * keywords.
   */
  function PutPairs(pairs: seq<string>): (m: map<string, string>)
    requires |pairs| % 2 == 0
    ensures m.Keys == KeywordsOf(pairs)
    decreases |pairs|
  {
    if pairs == [] then map[]
    else
      KeywordsOfSnoc(pairs);
      PutPairs(pairs[..|pairs| - 2])[pairs[|pairs| - 2] := pairs[|pairs| - 1]]
  }

  /** Each keyword is sent to the response of the last pair that has it. */
  lemma {:induction false} PutPairsLastWins(pairs: seq<string>, i: int)
    requires |pairs| % 2 == 0
    requires IsKeywordIndex(pairs, i) && IsLastPair(pairs, i)
    ensures pairs[i] in PutPairs(pairs) && PutPairs(pairs)[pairs[i]] == pairs[i + 1]
    decreases |pairs|
  {
    var n := |pairs|;
    if i < n - 2 {
      var front := pairs[..n - 2];
      assert IsKeywordIndex(pairs, n - 2);
      assert IsLastPair(front, i) by {
        forall j | i < j < |front| && IsKeywordIndex(front, j)
          ensures front[j] != front[i]
        {
          assert IsKeywordIndex(pairs, j);
        }
      }
      PutPairsLastWins(front, i);
    }
  }

  /**
   * Table construction. Every seed pair is stored verbatim, keywords included;
   * an odd-length sequence is refused with the index of the unpaired keyword.
   */
  function BuildTable(pairs: seq<string>): (r: Result<map<string, string>, SeedError>)
    ensures r.Failure? <==> |pairs| % 2 == 1
    ensures r.Failure? ==> r.error == UnpairedKeyword(|pairs| - 1)
    ensures r.Success? ==> r.value.Keys == KeywordsOf(pairs)
    ensures r.Success? ==> forall i :: IsKeywordIndex(pairs, i) && IsLastPair(pairs, i) ==> r.value[pairs[i]] == pairs[i + 1]
  {
    if |pairs| % 2 == 1 then Failure(UnpairedKeyword(|pairs| - 1))
    else
      forall i | IsKeywordIndex(pairs, i) && IsLastPair(pairs, i)
        ensures PutPairs(pairs)[pairs[i]] == pairs[i + 1]
      {
        PutPairsLastWins(pairs, i);
      }
      Success(PutPairs(pairs))
  }
}
