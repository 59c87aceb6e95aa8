# Transcript metrics and the Bearer-header check, in Dafny

This project models two pure parts of a speech-analysis web application.

**The text-metrics engine.** Three revisions of it exist: `analysis/analyze_audio_node.js`,
`analysis/analyze_audio.js` and `analysis/analyze_audio.py`. Each takes a
transcript and reports the following:

- sentiment polarity and subjectivity, from two fixed word lexicons;
- lexical diversity: total tokens, distinct tokens and their ratio;
- sentence complexity: average tokens per sentence and a count of conjunctions;
- the transcript, with a line break after each sentence terminator that a space followed;
- a "diverse / repeated" label and a "balanced / simple or flat" label.

**The `auth` middleware** (`middleware/auth.js`). It maps the `Authorization`
header and the outcome of token verification to one of two things: a call of
`next` with the user id, or a 401 response with a fixed message.

## Modules

- `Text` (text.dfy): the word-character class `\w`, the sentence terminators
  `[.!?]`, ASCII lower-casing, and the whitespace sets. It has separate sets for
  JavaScript's `trim` and Python's `strip`.
- `Tokens` (tokens.dfy): the tokenizer `match(/\b\w+\b/g)`, which yields the
  maximal runs of word characters. It also has two scans:
  - the whole-word scan `\bconj\b` of the JavaScript revisions;
  - Python's non-overlapping `str.count`.

  Both are proved against the token list. The whole-word scan finds exactly the
  tokens equal to the word. Substring counting never finds fewer. For a word
  whose first letter does not occur again in it, substring counting finds every
  position where the word occurs.
- `Sentences` (sentences.dfy): `split(/[.!?]/)` followed by the filter on
  non-empty `trim()` / `strip()`.
- `Formatting` (formatting.dfy): the replace chain for `. `, `? ` and `! `. It is
  proved equal to a character-by-character definition.
- `Metrics` (metrics.dfy): the metrics over a token list and a sentence count.
  These are lexicon hits, sentiment, diversity, average length and conjunction
  counts, plus the two labels and the report record. Ratios are exact reals.
  `Share(k, n)` is `k / Math.max(n, 1)`. Each label threshold is also proved
  equivalent to an integer comparison.
- `NodeAnalysis`, `JsAnalysis` and `PyAnalysis`: the entry points of each
  revision, with their own lexicons and their own choices of tokens, whitespace
  and conjunction counting.
- `Revisions` (revisions.dfy): each revision's average sentence length is the
  word total of its `lexicalDiversity` divided by the sentence count.
- `AuthMiddleware` (auth.dfy): the guards of `auth`, with a model of
  `String.prototype.replace` for a string pattern.

Differences between the revisions that the model keeps:

- **Lexicons.** `analyze_audio.js` uses eight-word lexicons. It lacks "beautiful",
  "perfect", "horrible" and "worst".
- **Width.** The `width` parameter of its `formatText` has no effect.
- **Tokens for the average.** The Python revision tokenizes the original text
  for the average, not the lower-cased text. With the ASCII lower-casing of the
  model the two token counts are equal (see "Left out" for other scripts).
- **Whitespace.** Python's `strip` removes U+001C–U+001F and U+0085, which
  JavaScript's `trim` keeps. JavaScript's `trim` removes U+FEFF.
- **Conjunctions.** Python counts conjunctions as substrings, so "or" inside
  "for" counts. The JavaScript revisions count whole words only.

## Model

| member | source | states |
|---|---|---|
| Text.IsSpace | analysis/analyze_audio_node.js:29 | the whitespace `trim()` removes, and with the other flavour the whitespace `str.strip()` removes (a definition, stated in the module) |
| Text.SpaceIsSeparator | analysis/analyze_audio_node.js:29 | whitespace of either runtime is neither a word character nor a terminator |
| Text.LowerStr | analysis/analyze_audio_node.js:10 | lower-casing keeps the length and lower-cases each character on its own, ASCII letters only |
| Text.LowerStrIdempotent | analysis/analyze_audio_node.js:10 | lower-casing twice is lower-casing once, and lower-case text is unchanged |
| Tokens.LowerWords | analysis/analyze_audio_node.js:10 | every token of the lower-cased text is a non-empty, lower-case run of word characters |
| Tokens.Words | analysis/analyze_audio_node.js:10 | every match is a non-empty run of word characters no longer than the text, and there are no more matches than characters |
| Tokens.NoWordsIffNoWordChars | analysis/analyze_audio_node.js:10 | the token list is empty exactly when the text has no word character (the `|| []` case) |
| Tokens.LowerWordsEmptyIffNoWordChars | analysis/analyze_audio_node.js:21 | lower-casing first does not change whether there are tokens |
| Tokens.WordsConcat | analysis/analyze_audio_node.js:10 | the tokens, concatenated, are exactly the word characters of the text in order |
| Tokens.WordCountIsRunStarts | analysis/analyze_audio_node.js:10 | there are as many tokens as places where a run of word characters begins |
| Tokens.WordsOfLower | analysis/analyze_audio.py:15-25 | the tokens of the lower-cased text are the lower-cased tokens of the text, one for one |
| Tokens.LowerWordsCount | analysis/analyze_audio.py:25 | tokenizing the original or the lower-cased text gives equally many tokens |
| Tokens.WholeWordCountIsOccurrences | analysis/analyze_audio_node.js:37 | the global `\bconj\b` scan counts exactly the tokens equal to `conj` |
| Tokens.WholeWordCountFromIsOccurrences | analysis/analyze_audio_node.js:37 | from any position not inside a word, the scan counts the equal tokens of the rest |
| Tokens.Boundary | analysis/analyze_audio_node.js:37 | `\b` at the start of the text holds exactly before a word character, and at the end exactly after one |
| Tokens.WholeWordCountFrom | analysis/analyze_audio_node.js:37 | the whole-word scan finds no more matches than there are positions where the word occurs |
| Tokens.SubstringCountFrom | analysis/analyze_audio.py:30 | `str.count` finds no more occurrences than there are positions where the word occurs |
| Tokens.WholeWordAtMostSubstring | analysis/analyze_audio.py:30 | `str.count` finds at least as many occurrences as the whole-word scan |
| Tokens.SubstringCountIsMatchCount | analysis/analyze_audio.py:30 | for a word whose first character does not occur again in it, `str.count` counts every position where the word occurs |
| Tokens.CountSkipsOverlaps | analysis/analyze_audio.py:30 | overlapping occurrences are counted once: "aa" occurs at two positions of "aaa", and `"aaa".count("aa")` is 1 |
| Sentences.Pieces | analysis/analyze_audio_node.js:29 | the split yields one piece more than there are terminators |
| Sentences.PiecesOfUnterminated | analysis/analyze_audio_node.js:29 | text without a terminator is one piece |
| Sentences.PiecesAtTerminator | analysis/analyze_audio_node.js:29 | the pieces of `a + t + b` for a terminator `t` are the pieces of `a` then those of `b` |
| Sentences.TrimStart | analysis/analyze_audio_node.js:29 | the start-trimmed piece is a suffix that begins with a non-space character, and everything dropped is whitespace |
| Sentences.TrimEnd | analysis/analyze_audio_node.js:29 | the end-trimmed piece is a prefix that ends with a non-space character, and everything dropped is whitespace |
| Sentences.Trim | analysis/analyze_audio_node.js:29 | the trimmed piece is empty exactly when the piece is all whitespace, and otherwise begins and ends with a non-space character |
| Sentences.KeptPieces | analysis/analyze_audio_node.js:29 | the filter keeps exactly the pieces that are not all whitespace, and never more pieces than the split gave |
| Sentences.KeptPiecesAppend | analysis/analyze_audio_node.js:29 | filtering two lists of pieces in turn is filtering their concatenation, so order and repeated pieces are kept |
| Sentences.KeptPiecesOne | analysis/analyze_audio_node.js:29 | a single piece is kept exactly when it is not all whitespace |
| Sentences.NoKeptIffAllBlank | analysis/analyze_audio_node.js:29 | no piece survives exactly when every piece is blank |
| Sentences.SentenceCount | analysis/analyze_audio_node.js:29-30 | at most one sentence more than there are terminators, and none exactly when the text holds only terminators and whitespace |
| Sentences.SentenceCountAtTerminator | analysis/analyze_audio_node.js:29-30 | the sentences of `a + t + b` for a terminator `t` are those of `a` plus those of `b` |
| Sentences.SentenceCountOfUnterminated | analysis/analyze_audio_node.js:29-30 | a stretch without a terminator is one sentence, or none when it is all whitespace |
| Sentences.RepeatedSentencesCount | analysis/analyze_audio_node.js:29-30 | a sentence, a terminator and the same sentence again (as in "a.a") count as two sentences |
| Sentences.WordCharMakesSentence | analysis/analyze_audio_node.js:29-31 | a text with a word character has at least one sentence |
| Formatting.ReplaceAfter | analysis/analyze_audio_node.js:47 | one global replacement keeps the length of the text |
| Formatting.ReplaceAfterAt | analysis/analyze_audio_node.js:47 | one global replacement turns exactly the spaces after the terminator into newlines and keeps every other character |
| Formatting.Formatted | analysis/analyze_audio_node.js:47 | the per-character definition keeps the length of the text |
| Formatting.ReplaceChain | analysis/analyze_audio_node.js:47 | the three chained replacements equal the per-character definition: each space after a terminator becomes a newline, nothing else changes |
| Formatting.FormattedHasNoBreakLeft | analysis/analyze_audio_node.js:47 | the output holds no terminator followed by a space |
| Formatting.FormattedUnchangedIff | analysis/analyze_audio_node.js:47 | text is unchanged exactly when it has no terminator-space pair |
| Formatting.FormattedIdempotent | analysis/analyze_audio_node.js:47 | formatting twice is formatting once |
| Metrics.Hits | analysis/analyze_audio_node.js:11-12 | the hit count of a lexicon is at most the number of tokens |
| Metrics.DisjointHitsBound | analysis/analyze_audio_node.js:7-12 | with disjoint lexicons, positive plus negative hits are at most the token count |
| Metrics.HitsAgree | analysis/analyze_audio.js:42-43 | two lexicons that agree on every token give the same hit count |
| Metrics.HitsMonotone | analysis/analyze_audio.js:38-43 | a smaller lexicon never has more hits |
| Metrics.HitsOne | analysis/analyze_audio_node.js:11 | a single token is one hit exactly when the lexicon contains it |
| Metrics.AtLeastOne | analysis/analyze_audio_node.js:14 | `Math.max(n, 1)` is the larger of `n` and 1 |
| Metrics.MinReal | analysis/analyze_audio_node.js:15 | `Math.min(x, y)` is the smaller of the two |
| Metrics.Share | analysis/analyze_audio_node.js:14 | `k / Math.max(total, 1)` times a positive total gives back `k`, and is `k` itself for total 0 |
| Metrics.SentimentOf | analysis/analyze_audio_node.js:10-15 | polarity is `Share(pos hits - neg hits, n)`; with disjoint lexicons polarity lies in [-1, 1], subjectivity in [0, 1], and subjectivity is the unclamped `Share(pos + neg, n)` |
| Metrics.SentimentOfCounts | analysis/analyze_audio_node.js:14-15 | polarity is `Share(pos - neg, n)`; when `pos + neg <= n`, polarity lies in [-1, 1], subjectivity in [0, 1], and the clamp at 1 never applies |
| Metrics.SentimentOfOne | analysis/analyze_audio_node.js:10-15 | one positive token scores (1, 1), one negative (-1, 1), any other (0, 0) |
| Metrics.SentimentOfNoWords | analysis/analyze_audio_node.js:14-15 | without tokens both scores are 0 (the divisor is `max(0, 1)`) |
| Metrics.ShareBounds | analysis/analyze_audio_node.js:14-15 | for `p + n <= total` both ratios lie in their ranges and `Math.min(..., 1)` returns the ratio |
| Metrics.UniqueCount | analysis/analyze_audio_node.js:23 | distinct tokens are at most the tokens, and at least one when there is a token |
| Metrics.DiversityOf | analysis/analyze_audio_node.js:22-24 | unique <= total; score 0 without tokens, otherwise unique/total in (0, 1], and score times total is unique |
| Metrics.DiversityFeedbackFor | analysis/analyze_audio_node.js:68 | for a score computed from its counts, the label is diverse exactly when `2 * unique > total`, so a text without tokens is "repeated" |
| Metrics.DiversityMessage | analysis/analyze_audio_node.js:68 | the two vocabulary messages, told apart by their first character (U+2705 only for the diverse one) |
| Metrics.RatioAbove | analysis/analyze_audio_node.js:39 | `a / b > p / q` exactly when `q * a > p * b` |
| Metrics.ComplexityOf | analysis/analyze_audio_node.js:33-41 | the average is 0 without sentences, otherwise times the sentence count it is the word count; balanced exactly when `words > 12 * sentences` and conjunctions >= sentences with sentences > 0 |
| Metrics.ComplexityMessage | analysis/analyze_audio_node.js:39-41 | the two complexity messages, told apart by their first character (U+2705 only for the balanced one) |
| Metrics.WordsNeedSentence | analysis/analyze_audio_node.js:29-33 | a text with a token has a sentence, so the zero guard of the average is taken only for wordless text |
| Metrics.ConjunctionsWellFormed | analysis/analyze_audio_node.js:35 | the ten conjunctions are distinct lower-case tokens, and none can overlap itself |
| Metrics.WholeWordTotal | analysis/analyze_audio_node.js:36-37 | for distinct words, the sum of the whole-word scans is the number of tokens of the text that are in the list |
| Metrics.SubstringCountBounds | analysis/analyze_audio.py:30 | for one word, `str.count` finds at least the whole-word matches, and every occurrence when the word cannot overlap itself |
| Metrics.SubstringTotal | analysis/analyze_audio.py:30 | the sum of `str.count` is at least the whole-word sum, and for words that cannot overlap themselves it is the number of positions where one of them occurs |
| Metrics.WholeWordConjunctions | analysis/analyze_audio_node.js:35-37 | the conjunction count is the number of tokens that are conjunctions, never more than the tokens |
| Metrics.SubstringConjunctions | analysis/analyze_audio.py:29-30 | the Python conjunction count is the number of positions where a conjunction occurs, inside words too, and at least the whole-word count |
| NodeAnalysis.LexiconsDisjoint | analysis/analyze_audio_node.js:7-8 | no word is both positive and negative |
| NodeAnalysis.AnalyzeText | analysis/analyze_audio_node.js:5-17 | polarity in [-1, 1] and subjectivity in [0, 1], each the hit ratio over `max(n, 1)` tokens; (0, 0) without tokens |
| NodeAnalysis.AnalyzeTextIgnoresCase | analysis/analyze_audio_node.js:10 | the scores of a text and of its lower-cased form agree |
| NodeAnalysis.AnalyzeTextWholeTokens | analysis/analyze_audio_node.js:10-12 | "goodness" is no hit for "good": it scores (0, 0) |
| NodeAnalysis.AnalyzeTextUpperCase | analysis/analyze_audio_node.js:10-12 | "GOOD" is a positive hit: it scores (1, 1) |
| NodeAnalysis.LexicalDiversity | analysis/analyze_audio_node.js:20-26 | total and distinct tokens, unique <= total, total 0 exactly for text without word characters, score 0 then and unique/total in (0, 1] otherwise |
| NodeAnalysis.SentenceComplexity | analysis/analyze_audio_node.js:28-44 | conjunctions are the conjunction tokens (at most all tokens); no sentence means no tokens and average 0; otherwise average = tokens / sentences; balanced exactly when `tokens > 12 * sentences` and conjunctions >= sentences |
| NodeAnalysis.SentenceComplexityWholeWords | analysis/analyze_audio_node.js:35-37 | "recording" holds no conjunction |
| NodeAnalysis.FormatText | analysis/analyze_audio_node.js:46-48 | the output is the per-character formatted text |
| NodeAnalysis.Analyze | analysis/analyze_audio_node.js:63-81 | each score is the one its analysis function returns (bounded sentiment, diversity score, average length); the counts are the tokens, distinct tokens and conjunction tokens; the printed labels are the diverse message exactly when `2 * unique > total` and the balanced message exactly when `tokens > 12 * sentences` and conjunctions >= sentences |
| NodeAnalysis.AnalyzeWordless | analysis/analyze_audio_node.js:63-81 | a text without word characters gets all-zero scores, the "repeated words" message and the "simple or flat" message |
| JsAnalysis.LexiconsShrink | analysis/analyze_audio.js:38-39 | the eight-word lexicons are the ten-word ones without "beautiful", "perfect", "horrible", "worst", and are disjoint |
| JsAnalysis.AnalyzeSentiment | analysis/analyze_audio.js:37-49 | polarity in [-1, 1] and subjectivity in [0, 1], each the hit ratio over `max(n, 1)` tokens; (0, 0) without tokens |
| JsAnalysis.AnalyzeSentimentAgreesWithNode | analysis/analyze_audio.js:38-39 | without one of the four dropped words, both revisions give the same sentiment |
| JsAnalysis.HitsAtMostNode | analysis/analyze_audio.js:42-43 | this revision never finds more hits than the ten-word one |
| JsAnalysis.PerfectIsNoHit | analysis/analyze_audio.js:38 | "perfect" scores (0, 0) here |
| JsAnalysis.PerfectIsNodeHit | analysis/analyze_audio_node.js:7 | "perfect" scores (1, 1) in the ten-word revision |
| JsAnalysis.LexicalDiversity | analysis/analyze_audio.js:6-12 | unique <= total; score 0 without tokens, otherwise unique/total in (0, 1] |
| JsAnalysis.SentenceComplexity | analysis/analyze_audio.js:14-30 | conjunctions are the conjunction tokens; average 0 without sentences, otherwise tokens / sentences; balanced exactly by the integer test |
| JsAnalysis.FormatText | analysis/analyze_audio.js:32-34 | the output is the formatted text, whatever the width |
| JsAnalysis.Analyze | analysis/analyze_audio.js:64-82 | the same report with this revision's `analyzeSentiment` scores and the default width: each score is its analysis function's, and the labels are the messages for the two integer tests |
| PyAnalysis.BreakSentences | analysis/analyze_audio.py:11 | the replace chain gives the per-character formatted text |
| PyAnalysis.LexicalDiversity | analysis/analyze_audio.py:14-19 | unique <= total; score 0 without tokens, otherwise unique/total in (0, 1] |
| PyAnalysis.VocabularyFeedback | analysis/analyze_audio.py:80-81 | the printed label is the diverse message exactly when more than half of the lower-cased tokens are distinct (`2 * unique > total`) |
| PyAnalysis.SentenceComplexity | analysis/analyze_audio.py:21-34 | the conjunction count is the number of positions of the lower-cased text where a conjunction occurs, at least the conjunction tokens; average 0 without sentences, otherwise tokens of the original text / sentences; balanced exactly by the integer test |
| PyAnalysis.SubstringCountsInsideWords | analysis/analyze_audio.py:30 | in "for" exactly one conjunction occurs, once ("or") |
| PyAnalysis.WholeWordsSkipInsideWords | analysis/analyze_audio.js:22-23 | the whole-word count of "for" is 0 |
| PyAnalysis.StripDiffersFromTrim | analysis/analyze_audio.py:23 | the text U+001C is no sentence for `strip` and one sentence for `trim` |
| Revisions.NodeAverageIsTotalOverSentences | analysis/analyze_audio_node.js:21-33 | with a sentence, the average is the `lexicalDiversity` total over the sentence count |
| Revisions.JsAverageIsTotalOverSentences | analysis/analyze_audio.js:7-19 | with a sentence, the average is the `lexicalDiversity` total over the sentence count |
| Revisions.PyAverageIsTotalOverSentences | analysis/analyze_audio.py:15-27 | with a sentence, the average is the `lexical_diversity` total over the sentence count, although the two tokenize differently cased text |
| Revisions.ConjunctionCountsDiffer | analysis/analyze_audio.py:30 | for the transcript "for" the Python count is 1 and both JavaScript counts are 0 |
| AuthMiddleware.IndexOfFrom | middleware/auth.js:17 | the result is an occurrence and no earlier one exists; `None` only when the pattern occurs nowhere |
| AuthMiddleware.StartsWith | middleware/auth.js:12 | `startsWith` holds exactly when the text is at least as long as the prefix and begins with it |
| AuthMiddleware.ReplaceFirst | middleware/auth.js:17 | the first occurrence of the pattern is replaced by the literal replacement and the rest kept; a string without the pattern is returned unchanged |
| AuthMiddleware.TokenIsRest | middleware/auth.js:17-19 | the token is the header after "Bearer ", and it is empty exactly for the header "Bearer " |
| AuthMiddleware.Auth | middleware/auth.js:3-41 | every response the guards and the verification outcome produce has status 401 |
| AuthMiddleware.AuthNextIff | middleware/auth.js:25-28 | `next` is called exactly when the header is "Bearer " plus a non-empty token that verifies, and then with that payload's user id |
| AuthMiddleware.AuthNoToken | middleware/auth.js:6-21 | a missing or empty header, or "Bearer " alone, gets the no-token message with no error field |
| AuthMiddleware.AuthInvalidFormat | middleware/auth.js:12-14 | a non-empty header not starting with "Bearer " gets "Invalid token format" |
| AuthMiddleware.AuthSchemeIsCaseSensitive | middleware/auth.js:12 | "bearer x" gets "Invalid token format" |
| AuthMiddleware.AuthVerifyFailure | middleware/auth.js:29-40 | an expired token gets the expiry message and error "TokenExpiredError"; any other failure gets the failure message, with the error's message only in development |
| AuthMiddleware.AuthIgnoresVerifierOtherwise | middleware/auth.js:6-25 | the verifier affects the answer only for a header "Bearer " plus a non-empty token |
| AuthMiddleware.AuthDevelopmentOnlyAddsDetail | middleware/auth.js:37-40 | the environment changes only the error field of a non-expiry verification failure |

## Left out

- Tokens.WordsOfLower, Tokens.LowerWordsCount, Revisions.PyAverageIsTotalOverSentences: proved for ASCII lower-casing only. Python's `lower()` turns some characters into longer strings ('İ' becomes 'i' followed by U+0307), which can change the token count, so the model does not promise equal counts for such text.
- Tokens.LowerWordsEmptyIffNoWordChars, NodeAnalysis.LexicalDiversity, NodeAnalysis.AnalyzeWordless: proved for ASCII lower-casing only. JavaScript's `toLowerCase()` can make a word character out of one that is not ('İ' again), so text without ASCII word characters may still have tokens there.
- Unicode: `\w` and `\b` are ASCII word characters, which is exact for the JavaScript regular expressions (no `u` flag). Python's `re` matches Unicode word characters, and that is not modelled. Lower-casing is ASCII only; `toLowerCase()` and `lower()` fold other scripts too.
- Whitespace for `trim()` / `strip()` covers the ASCII and Latin-1 spaces, U+1680, U+2000–U+200A, U+2028, U+2029, U+202F, U+205F and U+3000, plus each language's extras. It does not cover any other character the runtimes may treat as space.
- `textwrap.fill(..., width)` in `format_text` (analysis/analyze_audio.py:12) re-wraps lines at word boundaries. Only the replace chain before it is modelled, as `PyAnalysis.BreakSentences`.
- The Python sentiment scores come from the TextBlob library (analysis/analyze_audio.py:75-77), which is not part of this model. For that reason there is no report function for the Python revision.
- Audio loading, speech recognition, temporary files, command-line arguments, JSON printing, `process.exit` and the mock transcripts of the `main` functions are I/O. The report is modelled as a value built from a transcript.
- Scores are exact reals, not IEEE doubles. Rounding is not modelled, and neither is the integer `0` that `lexical_diversity` returns for a text without tokens: it compares equal to `0.0`, but `json.dumps` prints it as `0`.
- `jwt.verify` and the `JWT_SECRET` it uses are a function parameter. `NODE_ENV === 'development'` is a boolean parameter. Whether `Authorization` arrives at all is an `Option`.
- AuthMiddleware.ReplaceFirst: inserts the replacement literally. JavaScript expands `$&`, `$$`, `` $` `` and `$'` in a replacement string; `auth` replaces with the empty string, where nothing is expanded.
- The `console.error` logging in `auth` is not modelled. Neither is the outer 500 response (middleware/auth.js:42-45): it is reached only if the request or response objects throw, which the model does not represent.
- The tokenizer `\b\w+\b` is modelled by its meaning (the maximal runs of word characters), not by a backtracking matcher.
