/**
 * The response engine: count how often each stored keyword occurs among the
 * sanitised tokens of a prompt, answer with the response of a most frequent
 * keyword, and fall back to random buzzwords when no keyword occurs at all.
 *
 * Two things the engine leaves to its runtime are parameters here: `order`,
 * the order in which the HashMap of counts hands out its keys, and `picks`,
 * the draws of the random generator used by the fallback.
 */
module ResponseGenerator {
  import opened Wrappers
  import opened Chars
  import opened Sanitize
  import opened Tokenize
  import opened Filler

  /** The sanitised form of every token, in order. */
  function Sanitized(tokens: seq<string>): (r: seq<string>)
    ensures |r| == |tokens|
    ensures forall i :: 0 <= i < |tokens| ==> r[i] == SanitizeWord(tokens[i])
  {
    seq(|tokens|, i requires 0 <= i < |tokens| => SanitizeWord(tokens[i]))
  }

  /** How many of `tokens` sanitise to exactly `k`. */
  function MatchCount(tokens: seq<string>, k: string): nat {
    multiset(Sanitized(tokens))[k]
  }

  /** How many whitespace-separated tokens of `prompt` sanitise to exactly `k`. */
  function PromptCount(prompt: string, k: string): nat {
    MatchCount(Tokens(prompt), k)
  }

  /**
   * The occurrence counter after the scanning loop has consumed the sanitised
   * tokens `words`: it starts at zero for every keyword, and a word that is a
   * keyword adds one to that keyword.
   */
  function Occurrences(keys: set<string>, words: seq<string>): (counts: map<string, nat>)
    ensures counts.Keys == keys
    decreases |words|
  {
    if words == [] then map k | k in keys :: 0
    else
      var counts := Occurrences(keys, words[..|words| - 1]);
      var word := words[|words| - 1];
      if word in counts then counts[word := counts[word] + 1] else counts
  }

  /** Each keyword's count is the number of words equal to it. */
  lemma {:induction false} OccurrencesCount(keys: set<string>, words: seq<string>)
    ensures forall k :: k in keys ==> Occurrences(keys, words)[k] == multiset(words)[k]
    decreases |words|
  {
    if words != [] {
      var front := words[..|words| - 1];
      OccurrencesCount(keys, front);
      assert words == front + [words[|words| - 1]];
    }
  }

  /** A sanitised token that is no keyword leaves every count as it was. */
  lemma IgnoredTokenLeavesCounts(keys: set<string>, words: seq<string>, word: string)
    requires word !in keys
    ensures Occurrences(keys, words + [word]) == Occurrences(keys, words)
  {
    OccurrencesCount(keys, words);
    assert (words + [word])[..|words|] == words;
  }

  /** `order` is an iteration order of the keys of `m`: it lists each of them exactly once and nothing else. */
  predicate Enumerates<V>(order: seq<string>, m: map<string, V>) {
    && (forall i :: 0 <= i < |order| ==> order[i] in m)
    && (forall k :: k in m ==> k in order)
    && Distinct(order)
  }

  /** No element of `order` occurs twice: each one is missing from what follows it. */
  predicate Distinct(order: seq<string>)
    decreases |order|
  {
    order == [] || (order[0] !in order[1..] && Distinct(order[1..]))
  }

  /**
   * The selection loop over the counter's keys in iteration order `order`,
   * carrying the best keyword so far and its count; a later keyword replaces
   * the incumbent only with a strictly higher count.
   */
  function Scan(counts: map<string, nat>, order: seq<string>, best: Option<string>, most: nat): (r: Option<string>)
    requires forall i :: 0 <= i < |order| ==> order[i] in counts
    requires best.Some? ==> best.value in counts && counts[best.value] == most > 0
    requires best.None? ==> most == 0
    ensures r.Some? ==> r.value in counts && counts[r.value] >= most && counts[r.value] > 0
    ensures r.Some? ==> forall i :: 0 <= i < |order| ==> counts[order[i]] <= counts[r.value]
    ensures r.None? <==> best.None? && forall i :: 0 <= i < |order| ==> counts[order[i]] == 0
    ensures (forall i :: 0 <= i < |order| ==> counts[order[i]] <= most) ==> r == best
    decreases |order|
  {
    if order == [] then best
    else
      var k := order[0];
      if counts[k] > most then Scan(counts, order[1..], Some(k), counts[k])
      else Scan(counts, order[1..], best, most)
  }

  /**
   * The most frequent keyword for iteration order `order`, or None when every
   * count is zero.
   */
  function MostFrequent(counts: map<string, nat>, order: seq<string>): (r: Option<string>)
    requires Enumerates(order, counts)
    ensures r.Some? ==> r.value in counts && counts[r.value] > 0
    ensures r.Some? ==> forall k :: k in counts ==> counts[k] <= counts[r.value]
    ensures r.None? <==> forall k :: k in counts ==> counts[k] == 0
  {
    Scan(counts, order, None, 0)
  }

  /** Some stored keyword occurs in the prompt. */
  ghost predicate AnyMatch(table: map<string, string>, prompt: string) {
    exists k :: k in table && PromptCount(prompt, k) > 0
  }

  /** `k` is a stored keyword that occurs in the prompt at least as often as any other. */
  ghost predicate IsBestKeyword(table: map<string, string>, prompt: string, k: string) {
    && k in table
    && PromptCount(prompt, k) > 0
    && forall k' :: k' in table ==> PromptCount(prompt, k') <= PromptCount(prompt, k)
  }

  /**
   * The replies the engine may give: the stored response of some most frequent
   * keyword when a keyword occurs, a fallback string otherwise.
   */
  ghost predicate IsValidResponse(table: map<string, string>, prompt: string, r: string) {
    if AnyMatch(table, prompt) then exists k :: IsBestKeyword(table, prompt, k) && r == table[k]
    else IsFiller(r)
  }

  /** The keyword whose response is returned, or None when the fallback is used. */
  function SelectKeyword(table: map<string, string>, prompt: string, order: seq<string>): (r: Option<string>)
    requires Enumerates(order, table)
    ensures r.Some? ==> IsBestKeyword(table, prompt, r.value)
    ensures r.None? <==> !AnyMatch(table, prompt)
  {
    var counts := Occurrences(table.Keys, Sanitized(Tokens(prompt)));
    OccurrencesCount(table.Keys, Sanitized(Tokens(prompt)));
    MostFrequent(counts, order)
  }

  /** The reply to `prompt`. */
  function GetResponseToPrompt(table: map<string, string>, prompt: string, order: seq<string>, picks: seq<int>): (r: string)
    requires Enumerates(order, table)
    requires |picks| < MaxWords
    ensures IsValidResponse(table, prompt, r)
  {
    match SelectKeyword(table, prompt, order)
    case None => RandomResponse(picks)
    case Some(k) => table[k]
  }

  /** Some iteration order of the keys of `keys`. */
  ghost function Enumerate(keys: set<string>): (r: seq<string>)
    ensures forall k :: k in r <==> k in keys
    ensures Distinct(r)
    decreases keys
  {
    if keys == {} then []
    else
      var k :| k in keys;
      var rest := Enumerate(keys - {k});
      assert forall i :: 0 <= i < |rest| ==> rest[i] in rest && rest[i] != k;
      assert ([k] + rest)[1..] == rest;
      [k] + rest
  }

  /** Some iteration order of the keys of `keys` that starts with `k`. */
  ghost function EnumerateFrom(keys: set<string>, k: string): (r: seq<string>)
    requires k in keys
    ensures r != [] && r[0] == k
    ensures forall i :: 0 <= i < |r| ==> r[i] in keys
    ensures forall x :: x in keys ==> x in r
    ensures Distinct(r)
  {
    var others := Enumerate(keys - {k});
    var r := [k] + others;
    assert forall i :: 0 < i < |r| ==> r[i] == others[i - 1] && others[i - 1] in others;
    assert r[1..] == others;
    r
  }

  /**
   * Every keyword with the highest positive count is selected under some
   * iteration order of the counter, namely `order`, which lists it first.
   */
  lemma MostFrequentReachable(counts: map<string, nat>, k: string) returns (order: seq<string>)
    requires k in counts && counts[k] > 0
    requires forall x :: x in counts ==> counts[x] <= counts[k]
    ensures Enumerates(order, counts)
    ensures MostFrequent(counts, order) == Some(k)
  {
    order := EnumerateFrom(counts.Keys, k);
    var rest := order[1..];
    assert forall i :: 0 <= i < |rest| ==> rest[i] == order[i + 1];
  }

  /**
   * Every most frequent keyword is a possible answer: `order` is an iteration
   * order of the counter that makes the engine return its response.
   */
  lemma {:induction false} BestKeywordReachable(table: map<string, string>, prompt: string, k: string, picks: seq<int>) returns (order: seq<string>)
    requires IsBestKeyword(table, prompt, k)
    requires |picks| < MaxWords
    ensures Enumerates(order, table)
    ensures GetResponseToPrompt(table, prompt, order, picks) == table[k]
  {
    var counts := Occurrences(table.Keys, Sanitized(Tokens(prompt)));
    OccurrencesCount(table.Keys, Sanitized(Tokens(prompt)));
    order := MostFrequentReachable(counts, k);
    assert SelectKeyword(table, prompt, order) == Some(k);
  }

  /**
   * Every fallback-shaped string is a possible answer to a prompt in which no
   * keyword occurs: `picks` are draws of the generator that produce it.
   */
  lemma FillerReachable(table: map<string, string>, prompt: string, order: seq<string>, s: string) returns (picks: seq<int>)
    requires Enumerates(order, table)
    requires !AnyMatch(table, prompt)
    requires IsFiller(s)
    ensures |picks| < MaxWords
    ensures GetResponseToPrompt(table, prompt, order, picks) == s
  {
    picks := RandomResponseComplete(s);
  }

  /**
   * When one keyword occurs strictly more often than every other, the reply is
   * its response whatever the iteration order and the draws.
   */
  lemma UniqueWinnerDeterministic(table: map<string, string>, prompt: string, k: string, order: seq<string>, picks: seq<int>)
    requires Enumerates(order, table)
    requires |picks| < MaxWords
    requires k in table && PromptCount(prompt, k) > 0
    requires forall x :: x in table && x != k ==> PromptCount(prompt, x) < PromptCount(prompt, k)
    ensures GetResponseToPrompt(table, prompt, order, picks) == table[k]
  {
    var r := SelectKeyword(table, prompt, order);
    assert r.Some? && r.value == k;
  }

  /**
   * Keywords are stored as given: one that is not its own sanitised form can
   * never be counted, since every sanitised token is its own sanitised form.
   */
  lemma UnsanitizedKeywordNeverMatches(prompt: string, k: string)
    requires SanitizeWord(k) != k
    ensures PromptCount(prompt, k) == 0
  {
    var ws := Sanitized(Tokens(prompt));
    if k in multiset(ws) {
      var i :| 0 <= i < |ws| && ws[i] == k;
      SanitizeWordIdempotent(Tokens(prompt)[i]);
    }
  }

  /**
   * A prompt that is exactly one sanitised keyword without whitespace gets that
   * keyword's response.
   */
  lemma SingleKeywordPrompt(table: map<string, string>, k: string, order: seq<string>, picks: seq<int>)
    requires Enumerates(order, table)
    requires |picks| < MaxWords
    requires k in table && IsToken(k) && SanitizeWord(k) == k
    ensures GetResponseToPrompt(table, k, order, picks) == table[k]
  {
    TokensOfToken(k);
    assert Sanitized(Tokens(k)) == [k];
    UniqueWinnerDeterministic(table, k, k, order, picks);
  }

  /** With no keywords, or a prompt of whitespace only, the reply is always a fallback string. */
  lemma NothingToMatchFallsBack(table: map<string, string>, prompt: string, order: seq<string>, picks: seq<int>)
    requires Enumerates(order, table)
    requires |picks| < MaxWords
    requires table == map[] || forall i :: 0 <= i < |prompt| ==> IsWhitespace(prompt[i])
    ensures IsFiller(GetResponseToPrompt(table, prompt, order, picks))
  {
    TokensEmpty(prompt);
    assert Sanitized(Tokens(prompt)) == [] || table == map[];
  }
}
