/** `analysis/analyze_audio.js`: the revision with eight-word sentiment lexicons
    and a `formatText` that takes an unused `width`. */
module JsAnalysis {
  import opened Text
  import opened Tokens
  import opened Sentences
  import opened Formatting
  import opened Metrics
  import NodeAnalysis

  const PositiveWords: seq<string> :=
    ["good", "great", "excellent", "amazing", "wonderful", "happy", "love", "like"]

  const NegativeWords: seq<string> :=
    ["bad", "terrible", "awful", "hate", "dislike", "sad", "angry", "frustrated"]

  /** The words the ten-word lexicons of `analyze_audio_node.js` add. */
  const DroppedWords: seq<string> := ["beautiful", "perfect", "horrible", "worst"]

  /** Each eight-word lexicon is the ten-word one without the dropped words, and
      the two are disjoint. */
  lemma LexiconsShrink()
    ensures Disjoint(PositiveWords, NegativeWords)
    ensures forall w :: w in PositiveWords <==> w in NodeAnalysis.PositiveWords && w !in DroppedWords
    ensures forall w :: w in NegativeWords <==> w in NodeAnalysis.NegativeWords && w !in DroppedWords
  {
  }

  /** `analyzeSentiment`. */
  function AnalyzeSentiment(text: string): (r: Sentiment)
    ensures -1.0 <= r.polarity <= 1.0 && 0.0 <= r.subjectivity <= 1.0
    ensures r.polarity == Share(Hits(LowerWords(text), PositiveWords) - Hits(LowerWords(text), NegativeWords),
      |LowerWords(text)|)
    ensures r.subjectivity == Share(Hits(LowerWords(text), PositiveWords) + Hits(LowerWords(text), NegativeWords),
      |LowerWords(text)|)
    ensures LowerWords(text) == [] ==> r == Sentiment(0.0, 0.0)
  {
    LexiconsShrink();
    SentimentOfNoWords(PositiveWords, NegativeWords);
    SentimentOf(LowerWords(text), PositiveWords, NegativeWords)
  }

  /** The two revisions score a text alike unless it contains one of the dropped
      words; and this revision never counts more hits than the other. */
  lemma AnalyzeSentimentAgreesWithNode(text: string)
    requires forall k :: 0 <= k < |LowerWords(text)| ==> LowerWords(text)[k] !in DroppedWords
    ensures AnalyzeSentiment(text) == NodeAnalysis.AnalyzeText(text)
  {
    LexiconsShrink();
    var ws := LowerWords(text);
    HitsAgree(ws, PositiveWords, NodeAnalysis.PositiveWords);
    HitsAgree(ws, NegativeWords, NodeAnalysis.NegativeWords);
  }

  lemma HitsAtMostNode(text: string)
    ensures Hits(LowerWords(text), PositiveWords) <= Hits(LowerWords(text), NodeAnalysis.PositiveWords)
    ensures Hits(LowerWords(text), NegativeWords) <= Hits(LowerWords(text), NodeAnalysis.NegativeWords)
  {
    LexiconsShrink();
    HitsMonotone(LowerWords(text), PositiveWords, NodeAnalysis.PositiveWords);
    HitsMonotone(LowerWords(text), NegativeWords, NodeAnalysis.NegativeWords);
  }

  /** "perfect" is no hit in this revision ... */
  lemma PerfectIsNoHit()
    ensures AnalyzeSentiment("perfect") == Sentiment(0.0, 0.0)
  {
    LowerWordsOfToken("perfect");
    LexiconsShrink();
    SentimentOfOne("perfect", PositiveWords, NegativeWords);
    assert "perfect" !in PositiveWords && "perfect" !in NegativeWords;
  }

  /** ... but a positive hit in the ten-word revision. */
  lemma PerfectIsNodeHit()
    ensures NodeAnalysis.AnalyzeText("perfect") == Sentiment(1.0, 1.0)
  {
    LowerWordsOfToken("perfect");
    NodeAnalysis.LexiconsDisjoint();
    SentimentOfOne("perfect", NodeAnalysis.PositiveWords, NodeAnalysis.NegativeWords);
    assert "perfect" in NodeAnalysis.PositiveWords;
  }

  /** `lexicalDiversity`. */
  function LexicalDiversity(text: string): (r: Diversity)
    ensures r.totalWords == |LowerWords(text)| && r.uniqueWords == UniqueCount(LowerWords(text))
    ensures r.uniqueWords <= r.totalWords
    ensures r.totalWords == 0 ==> r.score == 0.0
    ensures r.totalWords > 0 ==> 0.0 < r.score <= 1.0
    ensures r.totalWords > 0 ==> r.score == r.uniqueWords as real / r.totalWords as real
  {
    DiversityOf(LowerWords(text))
  }

  /** `sentenceComplexity`: whole-word conjunction matches in the lower-cased text. */
  function SentenceComplexity(text: string): (r: Complexity)
    ensures r.conjunctionCount == Hits(LowerWords(text), Conjunctions) <= |LowerWords(text)|
    ensures SentenceCount(JsTrim, text) == 0 ==> r.avgSentenceLength == 0.0
    ensures SentenceCount(JsTrim, text) > 0 ==>
      r.avgSentenceLength == |LowerWords(text)| as real / SentenceCount(JsTrim, text) as real
    ensures r.feedback == Balanced <==>
      |LowerWords(text)| > 12 * SentenceCount(JsTrim, text) && r.conjunctionCount >= SentenceCount(JsTrim, text)
  {
    WordsNeedSentence(JsTrim, text);
    ComplexityOf(|LowerWords(text)|, SentenceCount(JsTrim, text), WholeWordConjunctions(LowerStr(text)))
  }

  /** `formatText(text, width)`: `width` has no effect. */
  function FormatText(text: string, width: nat): (r: string)
    ensures r == Formatted(text)
  {
    ReplaceChain(text)
  }

  /** The report `main` prints for a transcript (the default `width` is 80): the
      diversity label is the majority test, and the complexity label the integer
      test over tokens and sentences. */
  function Analyze(text: string): (r: Report)
    ensures r.transcribedText == Formatted(text)
    ensures r.polarityScore == AnalyzeSentiment(text).polarity && r.subjectivityScore == AnalyzeSentiment(text).subjectivity
    ensures -1.0 <= r.polarityScore <= 1.0 && 0.0 <= r.subjectivityScore <= 1.0
    ensures r.totalWords == |LowerWords(text)| && r.uniqueWords == UniqueCount(LowerWords(text))
    ensures r.diversityScore == LexicalDiversity(text).score
    ensures r.avgSentenceLength == SentenceComplexity(text).avgSentenceLength
    ensures r.conjunctionCount == Hits(LowerWords(text), Conjunctions)
    ensures r.diversityFeedback == DiversityMessage(if 2 * r.uniqueWords > r.totalWords then Diverse else Repeated)
    ensures r.complexityFeedback == ComplexityMessage(
      if r.totalWords > 12 * SentenceCount(JsTrim, text) && r.conjunctionCount >= SentenceCount(JsTrim, text)
      then Balanced else SimpleOrFlat)
  {
    var s, d, c := AnalyzeSentiment(text), LexicalDiversity(text), SentenceComplexity(text);
    Report(FormatText(text, 80), s.polarity, s.subjectivity, d.totalWords, d.uniqueWords, d.score,
           DiversityMessage(DiversityFeedbackFor(d)), c.avgSentenceLength, c.conjunctionCount,
           ComplexityMessage(c.feedback))
  }
}
