/** The scores every revision computes from a token list and the sentence count:
    lexicon hits, polarity and subjectivity, lexical diversity, average sentence
    length, conjunction counts, and the two threshold labels. Ratios are exact
    reals; each threshold is also stated as an integer comparison. */
module Metrics {
  import opened Text
  import opened Tokens
  import opened Sentences

  // ---------------------------------------------------------------------------
  // Lexicon hits

  /** `words.filter(word => lexicon.includes(word)).length`. */
  function Hits(ws: seq<string>, lexicon: seq<string>): (n: nat)
    ensures n <= |ws|
  {
    if ws == [] then 0 else (if ws[0] in lexicon then 1 else 0) + Hits(ws[1..], lexicon)
  }

  predicate Disjoint(a: seq<string>, b: seq<string>) {
    forall w :: w in a ==> w !in b
  }

  predicate Distinct(a: seq<string>) {
    forall i, j :: 0 <= i < j < |a| ==> a[i] != a[j]
  }

  /** Two lists whose entries differ pairwise in length or first character share
      no entry. */
  lemma DisjointByLengthAndHead(a: seq<string>, b: seq<string>)
    requires forall i, j :: 0 <= i < |a| && 0 <= j < |b| ==>
      |a[i]| != |b[j]| || (|a[i]| > 0 && a[i][0] != b[j][0])
    ensures Disjoint(a, b)
  {
    forall i, j | 0 <= i < |a| && 0 <= j < |b|
      ensures a[i] != b[j]
    {
      if |a[i]| == |b[j]| {
        assert a[i][0] != b[j][0];
      }
    }
  }

  /** With disjoint lexicons a token is a hit for at most one of them. */
  lemma {:induction false} DisjointHitsBound(ws: seq<string>, pos: seq<string>, neg: seq<string>)
    requires Disjoint(pos, neg)
    ensures Hits(ws, pos) + Hits(ws, neg) <= |ws|
  {
    if ws != [] {
      DisjointHitsBound(ws[1..], pos, neg);
    }
  }

  /** Hits depend only on which tokens the lexicon contains. */
  lemma {:induction false} HitsAgree(ws: seq<string>, a: seq<string>, b: seq<string>)
    requires forall k :: 0 <= k < |ws| ==> (ws[k] in a <==> ws[k] in b)
    ensures Hits(ws, a) == Hits(ws, b)
  {
    if ws != [] {
      assert forall k :: 1 <= k < |ws| ==> ws[1..][k - 1] == ws[k];
      HitsAgree(ws[1..], a, b);
    }
  }

  /** A smaller lexicon never has more hits. */
  lemma {:induction false} HitsMonotone(ws: seq<string>, a: seq<string>, b: seq<string>)
    requires forall w :: w in a ==> w in b
    ensures Hits(ws, a) <= Hits(ws, b)
  {
    if ws != [] {
      HitsMonotone(ws[1..], a, b);
    }
  }

  lemma {:induction false} HitsCons(ws: seq<string>, c: string, cs: seq<string>)
    requires c !in cs
    ensures Hits(ws, [c] + cs) == Occurrences(ws, c) + Hits(ws, cs)
  {
    if ws != [] {
      HitsCons(ws[1..], c, cs);
    }
  }

  /** A single token is one hit or none. */
  lemma HitsOne(w: string, lexicon: seq<string>)
    ensures Hits([w], lexicon) == if w in lexicon then 1 else 0
  {
    assert [w][1..] == [];
  }

  // ---------------------------------------------------------------------------
  // Sentiment

  datatype Sentiment = Sentiment(polarity: real, subjectivity: real)

  /** `Math.max(n, 1)`: the larger of `n` and 1. */
  function AtLeastOne(n: nat): (d: nat)
    ensures d >= 1 && d >= n
    ensures d == n || d == 1
  {
    if n > 1 then n else 1
  }

  /** `Math.min(x, y)`: the smaller of the two. */
  function MinReal(x: real, y: real): (m: real)
    ensures m <= x && m <= y
    ensures m == x || m == y
  {
    if x <= y then x else y
  }

  /** `k / Math.max(total, 1)`: the share of `k` in a positive total, and `k`
      itself when the total is 0. */
  function Share(k: int, total: nat): (r: real)
    ensures total > 0 ==> r * total as real == k as real
    ensures total == 0 ==> r == k as real
  {
    k as real / AtLeastOne(total) as real
  }

  /** Polarity `(pos - neg) / max(n, 1)` and subjectivity `min((pos + neg) / max(n, 1), 1)`.
      With disjoint lexicons a token is a hit for at most one of them, so polarity
      lies in [-1, 1], subjectivity in [0, 1], and the clamp at 1 never takes effect. */
  function SentimentOf(ws: seq<string>, pos: seq<string>, neg: seq<string>): (r: Sentiment)
    ensures r.polarity == Share(Hits(ws, pos) - Hits(ws, neg), |ws|)
    ensures Disjoint(pos, neg) ==> -1.0 <= r.polarity <= 1.0 && 0.0 <= r.subjectivity <= 1.0
    ensures Disjoint(pos, neg) ==> r.subjectivity == Share(Hits(ws, pos) + Hits(ws, neg), |ws|)
  {
    if Disjoint(pos, neg) then
      DisjointHitsBound(ws, pos, neg);
      SentimentOfCounts(Hits(ws, pos), Hits(ws, neg), |ws|)
    else
      SentimentOfCounts(Hits(ws, pos), Hits(ws, neg), |ws|)
  }

  /** The scores for `p` positive and `n` negative hits among `total` tokens. When
      no token is a hit twice (`p + n <= total`), polarity lies in [-1, 1],
      subjectivity in [0, 1], and the clamp of subjectivity at 1 never takes effect. */
  function SentimentOfCounts(p: nat, n: nat, total: nat): (r: Sentiment)
    ensures r.polarity == Share(p - n, total)
    ensures p + n <= total ==> -1.0 <= r.polarity <= 1.0
    ensures p + n <= total ==> 0.0 <= r.subjectivity <= 1.0
    ensures p + n <= total ==> r.subjectivity == Share(p + n, total)
  {
    if p + n <= total then
      ShareBounds(p, n, total);
      Sentiment(Share(p - n, total), MinReal(Share(p + n, total), 1.0))
    else
      Sentiment(Share(p - n, total), MinReal(Share(p + n, total), 1.0))
  }

  /** A single positive token scores (1, 1), a single negative one (-1, 1), any
      other single token (0, 0). */
  lemma SentimentOfOne(w: string, pos: seq<string>, neg: seq<string>)
    requires Disjoint(pos, neg)
    ensures SentimentOf([w], pos, neg) ==
      if w in pos then Sentiment(1.0, 1.0)
      else if w in neg then Sentiment(-1.0, 1.0)
      else Sentiment(0.0, 0.0)
  {
    HitsOne(w, pos);
    HitsOne(w, neg);
  }

  /** Without tokens there are no hits, and both scores are 0. */
  lemma SentimentOfNoWords(pos: seq<string>, neg: seq<string>)
    ensures SentimentOf([], pos, neg) == Sentiment(0.0, 0.0)
  {
  }

  /** The arithmetic behind the sentiment bounds, for `p + n <= total`. */
  lemma ShareBounds(p: nat, n: nat, total: nat)
    requires p + n <= total
    ensures -1.0 <= Share(p - n, total) <= 1.0
    ensures 0.0 <= Share(p + n, total) <= 1.0
    ensures MinReal(Share(p + n, total), 1.0) == Share(p + n, total)
  {
    var d := AtLeastOne(total) as real;
    QuotientBetween((p - n) as real, d, -1.0, 1.0);
    QuotientBetween((p + n) as real, d, 0.0, 1.0);
  }

  /** For a positive divisor, `lo * d <= a <= hi * d` bounds `a / d` by `lo` and `hi`. */
  lemma QuotientBetween(a: real, d: real, lo: real, hi: real)
    requires d > 0.0 && lo * d <= a <= hi * d
    ensures lo <= a / d <= hi
  {
    var q := a / d;
    assert q * d == a;
    assert (q - lo) * d >= 0.0;
    assert (hi - q) * d >= 0.0;
  }

  // ---------------------------------------------------------------------------
  // Lexical diversity

  datatype Diversity = Diversity(score: real, totalWords: nat, uniqueWords: nat)

  /** `new Set(words).size` / `len(set(words))`: at most one per token, and at
      least one when there is a token. */
  function UniqueCount(ws: seq<string>): (n: nat)
    ensures n <= |ws|
    ensures ws != [] ==> n >= 1
  {
    ElementSetBounds(ws);
    |set w | w in ws|
  }

  lemma {:induction false} ElementSetBounds(ws: seq<string>)
    ensures |set w | w in ws| <= |ws|
    ensures ws != [] ==> |set w | w in ws| >= 1
  {
    if ws != [] {
      ElementSetBounds(ws[1..]);
      var rest := set w | w in ws[1..];
      assert (set w | w in ws) == rest + {ws[0]};
      assert ws[0] in (set w | w in ws);
    }
  }

  /** `score = totalWords > 0 ? uniqueWords / totalWords : 0`. */
  function DiversityOf(ws: seq<string>): (r: Diversity)
    ensures r.totalWords == |ws| && r.uniqueWords == UniqueCount(ws)
    ensures r.uniqueWords <= r.totalWords
    ensures r.totalWords == 0 ==> r.uniqueWords == 0 && r.score == 0.0
    ensures r.totalWords > 0 ==> 0 < r.uniqueWords && 0.0 < r.score <= 1.0
    ensures r.totalWords > 0 ==> r.score == r.uniqueWords as real / r.totalWords as real
    ensures r.totalWords > 0 ==> r.score * r.totalWords as real == r.uniqueWords as real
    ensures ScoreOfCounts(r)
  {
    var total, unique := |ws|, UniqueCount(ws);
    Diversity(if total > 0 then unique as real / total as real else 0.0, total, unique)
  }

  datatype DiversityFeedback = Diverse | Repeated

  /** The score above which the vocabulary counts as diverse. */
  const DiverseAbove: real := 0.5

  /** The score is the share of distinct tokens among the tokens, or 0 without tokens. */
  predicate ScoreOfCounts(d: Diversity) {
    && d.uniqueWords <= d.totalWords
    && (d.totalWords == 0 ==> d.score == 0.0)
    && (d.totalWords > 0 ==> d.score == d.uniqueWords as real / d.totalWords as real)
  }

  /** `diversity > 0.5 ? "✅ Diverse vocabulary." : "⚠️ Repeated words or less variety."`
      For a score computed from its counts, the diverse label is given exactly when
      more than half of the tokens are distinct (`unique / total > 0.5` is
      `2 * unique > total`), and a text without tokens is labelled repeated. */
  function DiversityFeedbackFor(d: Diversity): (f: DiversityFeedback)
    ensures ScoreOfCounts(d) ==> (f == Diverse <==> 2 * d.uniqueWords > d.totalWords)
  {
    if d.totalWords > 0 then
      RatioAbove(d.uniqueWords, d.totalWords, 1, 2);
      if d.score > DiverseAbove then Diverse else Repeated
    else
      if d.score > DiverseAbove then Diverse else Repeated
  }

  /** The vocabulary label `main` prints: the diverse one opens with the check
      mark U+2705, the other with the warning sign U+26A0, so they differ. */
  function DiversityMessage(f: DiversityFeedback): (m: string)
    ensures |m| > 0 && (m[0] == '\U{2705}' <==> f == Diverse)
  {
    match f
    case Diverse => "\U{2705} Diverse vocabulary."
    case Repeated => "\U{26A0}\U{FE0F} Repeated words or less variety."
  }

  /** For a positive denominator, `a / b > p / q` is `q * a > p * b`. */
  lemma RatioAbove(a: nat, b: nat, p: nat, q: nat)
    requires b > 0 && q > 0
    ensures a as real / b as real > p as real / q as real <==> q * a > p * b
  {
    var x := a as real / b as real;
    assert x * b as real == a as real;
    assert (q * a) as real == q as real * a as real;
    assert (p * b) as real == p as real * b as real;
    if x > p as real / q as real {
      assert x * q as real > p as real;
      assert x * q as real * b as real > p as real * b as real;
    } else {
      assert x * q as real <= p as real;
      assert x * q as real * b as real <= p as real * b as real;
    }
  }

  // ---------------------------------------------------------------------------
  // Sentence complexity

  datatype ComplexityFeedback = Balanced | SimpleOrFlat

  datatype Complexity = Complexity(avgSentenceLength: real, conjunctionCount: nat, feedback: ComplexityFeedback)

  /** The average sentence length above which sentences count as long enough. */
  const BalancedAbove: real := 12.0

  /** The complexity label `sentenceComplexity` returns: the balanced one opens
      with the check mark U+2705, the other with the warning sign U+26A0. */
  function ComplexityMessage(f: ComplexityFeedback): (m: string)
    ensures |m| > 0 && (m[0] == '\U{2705}' <==> f == Balanced)
  {
    match f
    case Balanced => "\U{2705} Balanced complexity."
    case SimpleOrFlat => "\U{26A0}\U{FE0F} Simple or flat sentence structure."
  }

  /** `avg = numSentences > 0 ? words / numSentences : 0`, then the label
      `avg > 12 && conjunctionCount >= numSentences ? "✅ Balanced complexity." :
      "⚠️ Simple or flat sentence structure."`. The
      average times the sentence count gives back the word count, and the balanced
      label is the integer test `words > 12 * sentences && conjunctions >= sentences`. */
  function ComplexityOf(words: nat, sentences: nat, conjunctions: nat): (r: Complexity)
    ensures r.conjunctionCount == conjunctions
    ensures sentences == 0 ==> r.avgSentenceLength == 0.0
    ensures sentences > 0 ==> r.avgSentenceLength * sentences as real == words as real
    ensures r.avgSentenceLength >= 0.0
    ensures r.feedback == Balanced <==> sentences > 0 && words > 12 * sentences && conjunctions >= sentences
  {
    var avg := if sentences > 0 then words as real / sentences as real else 0.0;
    var feedback := if avg > BalancedAbove && conjunctions >= sentences then Balanced else SimpleOrFlat;
    if sentences > 0 then
      RatioAbove(words, sentences, 12, 1);
      Complexity(avg, conjunctions, feedback)
    else
      Complexity(avg, conjunctions, feedback)
  }

  /** A text with a token has a sentence, so a zero sentence count means zero words
      and the zero-guard of the average is only ever taken for wordless text. */
  lemma WordsNeedSentence(f: TrimFlavor, text: string)
    ensures |LowerWords(text)| > 0 ==> SentenceCount(f, text) > 0
  {
    if |LowerWords(text)| > 0 {
      LowerWordsEmptyIffNoWordChars(text);
      var i :| 0 <= i < |text| && IsWordChar(text[i]);
      WordCharMakesSentence(f, text, i);
    }
  }

  // ---------------------------------------------------------------------------
  // Conjunction counts over a lexicon

  predicate AllTokens(cs: seq<string>) {
    forall k :: 0 <= k < |cs| ==> IsToken(cs[k])
  }

  predicate NoneEmpty(cs: seq<string>) {
    forall k :: 0 <= k < |cs| ==> |cs[k]| > 0
  }

  /** The ten conjunctions every revision counts. */
  const Conjunctions: seq<string> :=
    ["and", "but", "or", "because", "although", "since", "while", "if", "when", "though"]

  /** Each conjunction is a single lower-case token, none is listed twice, and
      none can overlap itself. */
  lemma ConjunctionsWellFormed()
    ensures AllTokens(Conjunctions) && Distinct(Conjunctions)
    ensures forall k :: 0 <= k < |Conjunctions| ==> IsLowerCase(Conjunctions[k])
    ensures forall k :: 0 <= k < |Conjunctions| ==> HeadUnrepeated(Conjunctions[k])
  {
  }

  /** `conjunctions.reduce((count, conj) => count + (s.match(/\bconj\b/g) || []).length, 0)`.
      For distinct conjunctions this counts the tokens of `s` that are
      conjunctions, so it never exceeds the number of tokens. */
  function WholeWordTotal(s: string, cs: seq<string>): (n: nat)
    requires AllTokens(cs)
    ensures Distinct(cs) ==> n == Hits(Words(s), cs)
  {
    if cs == [] then
      HitsOfEmptyLexicon(Words(s));
      0
    else
      var rest := WholeWordTotal(s, cs[1..]);
      WholeWordCountIsOccurrences(s, cs[0]);
      if Distinct(cs) then
        assert Distinct(cs[1..]);
        assert cs[0] !in cs[1..] by {
          assert forall j :: 1 <= j < |cs| ==> cs[1..][j - 1] == cs[j];
        }
        HitsCons(Words(s), cs[0], cs[1..]);
        assert [cs[0]] + cs[1..] == cs;
        WholeWordCountFrom(s, cs[0], 0) + rest
      else
        WholeWordCountFrom(s, cs[0], 0) + rest
  }

  predicate HeadsUnrepeated(cs: seq<string>) {
    forall k :: 0 <= k < |cs| ==> HeadUnrepeated(cs[k])
  }

  /** The number of (possibly overlapping) occurrences of the entries of `cs` in `s`. */
  function MatchTotal(s: string, cs: seq<string>): nat
    requires NoneEmpty(cs)
  {
    if cs == [] then 0 else MatchCountFrom(s, cs[0], 0) + MatchTotal(s, cs[1..])
  }

  /** `sum(s.count(c) for c in conjunctions)`: every whole-word match is found,
      and for entries that cannot overlap themselves every occurrence is counted. */
  function SubstringTotal(s: string, cs: seq<string>): (n: nat)
    requires NoneEmpty(cs)
    ensures AllTokens(cs) ==> n >= WholeWordTotal(s, cs)
    ensures HeadsUnrepeated(cs) ==> n == MatchTotal(s, cs)
  {
    if cs == [] then 0
    else
      SubstringCountBounds(s, cs[0]);
      SubstringCountFrom(s, cs[0], 0) + SubstringTotal(s, cs[1..])
  }

  lemma SubstringCountBounds(s: string, w: string)
    requires |w| > 0
    ensures IsToken(w) ==> WholeWordCountFrom(s, w, 0) <= SubstringCountFrom(s, w, 0)
    ensures HeadUnrepeated(w) ==> SubstringCountFrom(s, w, 0) == MatchCountFrom(s, w, 0)
  {
    if IsToken(w) {
      WholeWordAtMostSubstring(s, w, 0);
    }
    if HeadUnrepeated(w) {
      SubstringCountIsMatchCount(s, w, 0);
    }
  }

  lemma {:induction false} HitsOfEmptyLexicon(ws: seq<string>)
    ensures Hits(ws, []) == 0
  {
    if ws != [] {
      HitsOfEmptyLexicon(ws[1..]);
    }
  }

  /** The conjunction count of the JavaScript revisions: whole-word matches of the
      ten conjunctions in `s`, which is the number of tokens of `s` that are
      conjunctions. */
  function WholeWordConjunctions(s: string): (n: nat)
    ensures n == Hits(Words(s), Conjunctions)
    ensures n <= |Words(s)|
  {
    ConjunctionsWellFormed();
    WholeWordTotal(s, Conjunctions)
  }

  /** The conjunction count of the Python revision: every occurrence of one of the
      ten conjunctions in `s`, inside words too, so never fewer than the
      whole-word count. */
  function SubstringConjunctions(s: string): (n: nat)
    ensures n == MatchTotal(s, Conjunctions)
    ensures n >= WholeWordConjunctions(s)
  {
    ConjunctionsWellFormed();
    SubstringTotal(s, Conjunctions)
  }

  /** Entries that do not occur add nothing. */
  lemma {:induction false} MatchTotalOfNone(s: string, cs: seq<string>)
    requires NoneEmpty(cs)
    requires forall j :: 0 <= j < |cs| ==> MatchCountFrom(s, cs[j], 0) == 0
    ensures MatchTotal(s, cs) == 0
  {
    if cs != [] {
      assert forall j :: 1 <= j < |cs| ==> cs[1..][j - 1] == cs[j];
      MatchTotalOfNone(s, cs[1..]);
    }
  }

  /** When only the entry at `k` occurs, the total is its count. */
  lemma {:induction false} MatchTotalOfOne(s: string, cs: seq<string>, k: nat)
    requires NoneEmpty(cs) && k < |cs|
    requires forall j :: 0 <= j < |cs| && j != k ==> MatchCountFrom(s, cs[j], 0) == 0
    ensures MatchTotal(s, cs) == MatchCountFrom(s, cs[k], 0)
  {
    assert forall j :: 1 <= j < |cs| ==> cs[1..][j - 1] == cs[j];
    if k == 0 {
      MatchTotalOfNone(s, cs[1..]);
    } else {
      MatchTotalOfOne(s, cs[1..], k - 1);
    }
  }

  // ---------------------------------------------------------------------------
  // The report `main` assembles

  datatype Report = Report(
    transcribedText: string,
    polarityScore: real,
    subjectivityScore: real,
    totalWords: nat,
    uniqueWords: nat,
    diversityScore: real,
    diversityFeedback: string,
    avgSentenceLength: real,
    conjunctionCount: nat,
    complexityFeedback: string)
}
