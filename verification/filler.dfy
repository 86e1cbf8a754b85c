/**
 * The fallback reply: a random run of annual-report buzzwords. The random
 * generator is replaced by its draws: the word count (one nextInt(50) call,
 * hence fewer than 50) is the length of `picks`, and each element of `picks`
 * is the result of the nextInt(5) call that chooses one word.
 */
module Filler {
  import opened Tokenize

  /** The five buzzwords the fallback reply is made of. */
  const Vocabulary: seq<string> := ["finance", "report", "yearly", "Microsoft", "company"]

  /** The exclusive bound of the word-count draw. */
  const MaxWords: nat := 50

  /** The switch on one draw; any value outside 0..3 falls to the default arm. */
  function WordFor(pick: int): (w: string)
    ensures w in Vocabulary
    ensures 0 <= pick < |Vocabulary| ==> w == Vocabulary[pick]
  {
    if pick == 0 then "finance"
    else if pick == 1 then "report"
    else if pick == 2 then "yearly"
    else if pick == 3 then "Microsoft"
    else "company"
  }

  /**
   * The shape of every fallback reply: fewer than 50 vocabulary words, each
   * followed by exactly one space, and nothing else.
   */
  predicate IsFiller(s: string) {
    var words := Tokens(s);
    && |words| < MaxWords
    && (forall k :: 0 <= k < |words| ==> words[k] in Vocabulary)
    && s == Spaced(words)
  }

  /** Every vocabulary word is a single whitespace-free token. */
  lemma VocabularyAreTokens()
    ensures forall k :: 0 <= k < |Vocabulary| ==> IsToken(Vocabulary[k])
  {
    assert IsToken(Vocabulary[0]) && IsToken(Vocabulary[1]) && IsToken(Vocabulary[2]);
    assert IsToken(Vocabulary[3]) && IsToken(Vocabulary[4]);
  }

  /** The reply built from the draws `picks`. */
  function RandomResponse(picks: seq<int>): (r: string)
    requires |picks| < MaxWords
    ensures IsFiller(r)
    ensures Tokens(r) == seq(|picks|, k requires 0 <= k < |picks| => WordFor(picks[k]))
  {
    var words := seq(|picks|, k requires 0 <= k < |picks| => WordFor(picks[k]));
    VocabularyAreTokens();
    TokensOfSpaced(words);
    Spaced(words)
  }

  /** Every string of the fallback shape is produced by some sequence of draws, namely `picks`. */
  lemma RandomResponseComplete(s: string) returns (picks: seq<int>)
    requires IsFiller(s)
    ensures |picks| < MaxWords
    ensures RandomResponse(picks) == s
  {
    var words := Tokens(s);
    picks := seq(|words|, k requires 0 <= k < |words| => IndexOf(words[k]));
    var built := seq(|picks|, k requires 0 <= k < |picks| => WordFor(picks[k]));
    assert built == words;
    assert RandomResponse(picks) == s;
  }

  /** The draw that selects vocabulary word `w`. */
  function IndexOf(w: string): (i: nat)
    requires w in Vocabulary
    ensures i < |Vocabulary| && Vocabulary[i] == w
  {
    if w == Vocabulary[0] then 0
    else if w == Vocabulary[1] then 1
    else if w == Vocabulary[2] then 2
    else if w == Vocabulary[3] then 3
    else 4
  }
}
