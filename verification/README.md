# ChatJPT response engine in Dafny

This project models the keyword-matching response engine of the ChatJPT desktop
chatbot (`ResponseGenerator`). The engine holds a table from keyword to canned
response, built from a flat seed sequence `keyword, response, keyword, response, ...`.
Given a prompt, it does four things:

1. it splits the prompt on whitespace;
2. it sanitises each token (lower-case it, then trim non-alphanumeric characters from both ends);
3. it counts, for every stored keyword, how many sanitised tokens equal it;
4. it answers with the stored response of a most frequent keyword, or with a
   random run of buzzwords ("finance", "report", "yearly", "Microsoft", "company")
   when no keyword occurs.

The model is functional: strings are `seq<char>`, the table is an immutable
`map<string, string>`, and every step is a pure function.

Modules, one per concept:

- `Wrappers` (`wrappers.dfy`): `Option` and `Result`.
- `Chars` (`chars.dfy`): the character classes the engine uses, restricted to ASCII.
- `Sanitize` (`sanitize.dfy`): `sanitizeWord`.
- `Tokenize` (`tokenize.dfy`): the whitespace split done by `java.util.Scanner`.
- `Filler` (`filler.dfy`): `randomResponse`.
- `KeywordTable` (`keyword_table.dfy`): the table construction loop.
- `ResponseGenerator` (`response_generator.dfy`): `getResponseToPrompt`.
- `Scenarios` (`scenarios.dfy`): worked examples on concrete inputs.

Two runtime choices become parameters:

- `order` is the order in which the `HashMap` of counts hands out its keys. Any
  sequence listing each of the table's keys exactly once is accepted (`Enumerates`).
- `picks` is the draws of `java.util.Random`. Its length is the `nextInt(50)` word
  count, so it has fewer than 50 elements. Each element is one `nextInt(5)` word choice.

The tie-break is stated as a relation, `IsValidResponse`. The model proves this
relation is exact in both directions:

- every reply satisfies it;
- every most frequent keyword is the answer under some iteration order;
- every fallback-shaped string is the answer under some draws.

Three behaviours of the code are easy to get wrong; the model follows the code:

- Keywords are stored exactly as given and are not normalised. A keyword that is
  not its own sanitised form, such as `"Revenue"`, can never match
  (`UnsanitizedKeywordNeverMatches`).
- An odd-length seed sequence does not silently drop the last keyword. The
  loop's `get(i + 1)` throws, which the model returns as `Failure(UnpairedKeyword(i))`.
- Ties among keywords with the highest count are not broken by any fixed order.
  They depend on the map's iteration order.

## Model

| member | source | states |
|---|---|---|
| `Chars.ToLower` | ResponseGenerator.java:124 | Lower-casing one character keeps its letter-or-digit and whitespace class, leaves no upper-case letter, and changes only A-Z. |
| `Chars.Lower` | ResponseGenerator.java:124 | Lower-casing a string preserves its length, which is what lets the trim indices be computed on the lower-cased word. |
| `Chars.LowerIdempotent` | ResponseGenerator.java:124 | Every lower-cased string is lower case, and lower-casing a lower-case string changes nothing. |
| `Sanitize.ScanForward` | ResponseGenerator.java:125-130 | The forward scan stops at the first letter or digit, or at the length when there is none; everything it skips is neither. |
| `Sanitize.ScanBackward` | ResponseGenerator.java:126-134 | The backward scan stops at the last letter or digit, or at -1 when there is none; everything it skips is neither. |
| `Sanitize.SanitizeWord` | ResponseGenerator.java:123-141 | The sanitised token is empty exactly when the lower-cased token has no letter or digit; otherwise it starts and ends with one; it is never longer than the token. |
| `Sanitize.SanitizeWordIsTrim` | ResponseGenerator.java:124-140 | The sanitised token is a contiguous piece of the lower-cased token; only characters that are neither letters nor digits are cut from either end. |
| `Sanitize.TrimUnique` | ResponseGenerator.java:136-140 | Two cuts that both trim only non-alphanumerics from the ends and leave a core bounded by letters or digits give the same string. |
| `Sanitize.SanitizeWordCharacterised` | ResponseGenerator.java:123-141 | A string is the sanitised token if and only if it is the trimmed core of the lower-cased token. |
| `Sanitize.SanitizeWordIdempotent` | ResponseGenerator.java:123-141 | Sanitising an already sanitised token returns it unchanged. |
| `Tokenize.WordEnd` | ResponseGenerator.java:92-93 | One `next()` call reads the maximal run of non-whitespace characters. |
| `Tokenize.Tokens` | ResponseGenerator.java:91-93 | Every token of the prompt is non-empty and free of whitespace. |
| `Tokenize.TokensEmpty` | ResponseGenerator.java:91-92 | A prompt yields no tokens exactly when it is empty or whitespace only. |
| `Tokenize.TokensOfSpaced` | ResponseGenerator.java:91-93 | Splitting words that are each followed by one space gives the words back. |
| `Tokenize.TokensSplit` | ResponseGenerator.java:91-93 | Any whitespace character separates: the tokens of `a`, one whitespace character, then `b` are the tokens of `a` followed by those of `b`. With the empty string and `TokensOfToken` this fixes the tokens of every prompt as its maximal non-whitespace runs in order. |
| `Tokenize.TokensAppendWhitespace` | ResponseGenerator.java:91-93 | A trailing whitespace character of any kind adds no token. |
| `Tokenize.TokensOfToken` | ResponseGenerator.java:91-93 | A prompt that is one whitespace-free word is that single token. |
| `Filler.WordFor` | ResponseGenerator.java:155-171 | Every draw selects a vocabulary word; draw i in 0..4 selects the i-th word of the switch. |
| `Filler.RandomResponse` | ResponseGenerator.java:148-177 | The fallback is fewer than 50 vocabulary words, each followed by one space, and it reads back as exactly the drawn words. |
| `Filler.RandomResponseComplete` | ResponseGenerator.java:148-177 | Every string of that shape is produced by some draws. |
| `KeywordTable.PutPairs` | ResponseGenerator.java:56-58 | The put loop over the pairs yields a map whose key set is exactly the set of elements at even positions. |
| `KeywordTable.PutPairsLastWins` | ResponseGenerator.java:56-58 | Each keyword maps to the response of the last pair that has it. |
| `KeywordTable.BuildTable` | ResponseGenerator.java:56-58 | Construction fails exactly on an odd-length sequence, naming the unpaired keyword; otherwise it gives the even-position key set and last-pair-wins values. |
| `ResponseGenerator.Occurrences` | ResponseGenerator.java:85-97 | The counter, initialised for every stored keyword and updated once per sanitised token, holds exactly the stored keywords. |
| `ResponseGenerator.OccurrencesCount` | ResponseGenerator.java:85-97 | After the counting loop over the sanitised tokens, each keyword's count is the number of sanitised tokens equal to it. |
| `ResponseGenerator.IgnoredTokenLeavesCounts` | ResponseGenerator.java:93-96 | A sanitised token that is no keyword leaves the whole counter unchanged. |
| `ResponseGenerator.Scan` | ResponseGenerator.java:100-109 | The selection loop ends with a keyword whose count is positive and at least every scanned count, or with none exactly when all counts are zero; under the strict comparison the incumbent survives ties. |
| `ResponseGenerator.MostFrequent` | ResponseGenerator.java:100-109 | The selected keyword has a positive count no smaller than any other keyword's; none is selected exactly when every count is zero. |
| `ResponseGenerator.MostFrequentReachable` | ResponseGenerator.java:103-108 | Every keyword with the highest positive count is the one selected under some iteration order of the counter. |
| `ResponseGenerator.SelectKeyword` | ResponseGenerator.java:81-111 | The chosen keyword is a stored keyword with maximal positive count in the prompt; no keyword is chosen exactly when no stored keyword occurs. |
| `ResponseGenerator.GetResponseToPrompt` | ResponseGenerator.java:81-116 | The reply is the verbatim stored response of a keyword with maximal positive count, or a fallback string when no keyword occurs. |
| `ResponseGenerator.BestKeywordReachable` | ResponseGenerator.java:103-115 | Every keyword with maximal positive count is the answer under some iteration order of the counter. |
| `ResponseGenerator.FillerReachable` | ResponseGenerator.java:111-113 | When no keyword occurs, every fallback-shaped string is the answer under some draws. |
| `ResponseGenerator.UniqueWinnerDeterministic` | ResponseGenerator.java:100-115 | When one keyword's count strictly exceeds every other's, the reply is its response whatever the iteration order and draws. |
| `ResponseGenerator.UnsanitizedKeywordNeverMatches` | ResponseGenerator.java:87-96 | A stored keyword that is not its own sanitised form is never counted. |
| `ResponseGenerator.SingleKeywordPrompt` | ResponseGenerator.java:81-115 | A prompt that is exactly one sanitised, whitespace-free stored keyword gets that keyword's response. |
| `ResponseGenerator.NothingToMatchFallsBack` | ResponseGenerator.java:87-113 | With an empty table, or an empty or whitespace-only prompt, the reply is a fallback string. |
| `Scenarios.SanitizeTrimsPunctuation` | ResponseGenerator.java:123-141 | `"Report!!"` sanitises to `"report"`. |
| `Scenarios.SanitizeKeepsInnerPunctuation` | ResponseGenerator.java:123-141 | `"Q3-report"` sanitises to `"q3-report"`, keeping the inner hyphen. |
| `Scenarios.SanitizeUpperCase` | ResponseGenerator.java:123-141 | `"REVENUE"` sanitises to `"revenue"`. |
| `Scenarios.SanitizeTrailingComma` | ResponseGenerator.java:123-141 | `"revenue,"` sanitises to `"revenue"`. |
| `Scenarios.DuplicateKeywordLastWins` | ResponseGenerator.java:56-58 | The seed `["x", "r1", "x", "r2"]` builds the table `{"x": "r2"}`. |
| `Scenarios.UnpairedSeedRefused` | ResponseGenerator.java:56-58 | The seed `["x", "r1", "y"]` is refused at index 2. |

## Left out

- Reading the seed file, the `\u001C` delimiter split, and the exception handling around them (ResponseGenerator.java:33-54): file I/O. The model starts from the already-split sequence.
- The singleton accessor `getResponseGenerator` (ResponseGenerator.java:66-73): global mutable state. The table is passed explicitly.
- `java.util.Random` (ResponseGenerator.java:150-155): replaced by the explicit draws `picks`.
- The concrete iteration order of `HashMap`: replaced by the `order` parameter.
- Unicode: `Chars.IsLetterOrDigit`, `Chars.ToLower` and `Chars.IsWhitespace` cover ASCII only. Non-ASCII letters and digits, non-ASCII space separators, and lower-casing that changes a string's length are not modelled.
- Chars.ToLower: assumes a root or English-like default locale for `String.toLowerCase`, under which A-Z go to a-z. Under a Turkish or Azerbaijani locale the code lowers `'I'` to the dotless `'ı'` (U+0131), so a token `"INDIA"` would not match the keyword `"india"`. The model does not cover that.
- `Scanner` details beyond splitting on whitespace into non-empty tokens.
- 32-bit overflow of the occurrence counts: a count never exceeds the number of tokens, which is below 2^31 for any Java string, so unbounded integers give the same results.
- The chat window, its event handlers, and the conversation-history file (ChatJPT.java): UI and file I/O.
- The Python scripts that call a completion service and download filings: network access.
