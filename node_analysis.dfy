/** `analysis/analyze_audio_node.js`: the revision with the ten-word sentiment
    lexicons. Every function takes the transcript text; `main` assembles their
    results into one report. */
module NodeAnalysis {
  import opened Text
  import opened Tokens
  import opened Sentences
  import opened Formatting
  import opened Metrics

  const PositiveWords: seq<string> :=
    ["good", "great", "excellent", "amazing", "wonderful", "happy", "love", "like", "beautiful", "perfect"]

  const NegativeWords: seq<string> :=
    ["bad", "terrible", "awful", "hate", "dislike", "sad", "angry", "frustrated", "horrible", "worst"]

  /** No word is both positive and negative. */
  lemma LexiconsDisjoint()
    ensures Disjoint(PositiveWords, NegativeWords)
  {
    DisjointByLengthAndHead(PositiveWords, NegativeWords);
  }

  /** `analyzeText`: polarity and subjectivity from the lexicon hits among the
      lower-cased tokens. */
  function AnalyzeText(text: string): (r: Sentiment)
    ensures -1.0 <= r.polarity <= 1.0 && 0.0 <= r.subjectivity <= 1.0
    ensures r.polarity == Share(Hits(LowerWords(text), PositiveWords) - Hits(LowerWords(text), NegativeWords),
      |LowerWords(text)|)
    ensures r.subjectivity == Share(Hits(LowerWords(text), PositiveWords) + Hits(LowerWords(text), NegativeWords),
      |LowerWords(text)|)
    ensures LowerWords(text) == [] ==> r == Sentiment(0.0, 0.0)
  {
    var ws := LowerWords(text);
    LexiconsDisjoint();
    SentimentOfNoWords(PositiveWords, NegativeWords);
    SentimentOf(ws, PositiveWords, NegativeWords)
  }

  /** The scores do not depend on letter case. */
  lemma AnalyzeTextIgnoresCase(text: string)
    ensures AnalyzeText(LowerStr(text)) == AnalyzeText(text)
  {
    LowerStrIdempotent(text);
  }

  /** A hit is a whole token equal to a lexicon word: "goodness" is no hit for
      "good". */
  lemma AnalyzeTextWholeTokens()
    ensures AnalyzeText("goodness") == Sentiment(0.0, 0.0)
  {
    LowerWordsOfToken("goodness");
    LexiconsDisjoint();
    SentimentOfOne("goodness", PositiveWords, NegativeWords);
    assert "goodness" !in PositiveWords && "goodness" !in NegativeWords;
  }

  /** Upper-case tokens are hits like lower-case ones: "GOOD" scores as "good". */
  lemma AnalyzeTextUpperCase()
    ensures AnalyzeText("GOOD") == Sentiment(1.0, 1.0)
  {
    AnalyzeTextIgnoresCase("GOOD");
    LowerGood();
    GoodIsHit();
  }

  lemma GoodIsHit()
    ensures AnalyzeText("good") == Sentiment(1.0, 1.0)
  {
    LowerWordsOfToken("good");
    LexiconsDisjoint();
    SentimentOfOne("good", PositiveWords, NegativeWords);
    assert "good" in PositiveWords;
  }

  lemma LowerGood()
    ensures LowerStr("GOOD") == "good"
  {
    var l := LowerStr("GOOD");
    assert l[0] == 'g' && l[1] == 'o' && l[2] == 'o' && l[3] == 'd';
  }

  /** `lexicalDiversity`: total and distinct tokens and their ratio. */
  function LexicalDiversity(text: string): (r: Diversity)
    ensures r.totalWords == |LowerWords(text)| && r.uniqueWords == UniqueCount(LowerWords(text))
    ensures r.uniqueWords <= r.totalWords
    ensures r.totalWords == 0 <==> forall i :: 0 <= i < |text| ==> !IsWordChar(text[i])
    ensures r.totalWords == 0 ==> r.score == 0.0
    ensures r.totalWords > 0 ==> 0.0 < r.score <= 1.0
    ensures r.totalWords > 0 ==> r.score == r.uniqueWords as real / r.totalWords as real
  {
    LowerWordsEmptyIffNoWordChars(text);
    DiversityOf(LowerWords(text))
  }

  /** `sentenceComplexity`: sentences of the original text, tokens of the
      lower-cased text, and whole-word conjunction matches in the lower-cased text. */
  function SentenceComplexity(text: string): (r: Complexity)
    ensures r.conjunctionCount == Hits(LowerWords(text), Conjunctions) <= |LowerWords(text)|
    ensures SentenceCount(JsTrim, text) == 0 ==> |LowerWords(text)| == 0 && r.avgSentenceLength == 0.0
    ensures SentenceCount(JsTrim, text) > 0 ==>
      r.avgSentenceLength == |LowerWords(text)| as real / SentenceCount(JsTrim, text) as real
    ensures r.feedback == Balanced <==>
      |LowerWords(text)| > 12 * SentenceCount(JsTrim, text) && r.conjunctionCount >= SentenceCount(JsTrim, text)
  {
    WordsNeedSentence(JsTrim, text);
    ComplexityOf(|LowerWords(text)|, SentenceCount(JsTrim, text), WholeWordConjunctions(LowerStr(text)))
  }

  /** "or" inside "recording" is no conjunction: only whole words count. */
  lemma SentenceComplexityWholeWords()
    ensures SentenceComplexity("recording").conjunctionCount == 0
  {
    LowerWordsOfToken("recording");
    HitsOne("recording", Conjunctions);
    RecordingIsNoConjunction();
  }

  lemma RecordingIsNoConjunction()
    ensures "recording" !in Conjunctions
  {
    assert forall k :: 0 <= k < |Conjunctions| ==> |Conjunctions[k]| != 9;
  }

  /** `formatText`: a newline after every sentence terminator that a space followed. */
  function FormatText(text: string): (r: string)
    ensures r == Formatted(text)
  {
    ReplaceChain(text)
  }

  /** The report `main` prints for a transcript. Its fields and labels, stated
      over the tokens and sentences of the transcript: the diversity label is the
      majority test, the complexity label the integer test. */
  function Analyze(text: string): (r: Report)
    ensures r.transcribedText == Formatted(text)
    ensures r.polarityScore == AnalyzeText(text).polarity && r.subjectivityScore == AnalyzeText(text).subjectivity
    ensures -1.0 <= r.polarityScore <= 1.0 && 0.0 <= r.subjectivityScore <= 1.0
    ensures r.totalWords == |LowerWords(text)| && r.uniqueWords == UniqueCount(LowerWords(text))
    ensures r.diversityScore == LexicalDiversity(text).score
    ensures r.avgSentenceLength == SentenceComplexity(text).avgSentenceLength
    ensures r.conjunctionCount == Hits(LowerWords(text), Conjunctions)
    ensures r.diversityFeedback == DiversityMessage(if 2 * r.uniqueWords > r.totalWords then Diverse else Repeated)
    ensures r.complexityFeedback == ComplexityMessage(
      if r.totalWords > 12 * SentenceCount(JsTrim, text) && r.conjunctionCount >= SentenceCount(JsTrim, text)
      then Balanced else SimpleOrFlat)
  {
    var s, d, c := AnalyzeText(text), LexicalDiversity(text), SentenceComplexity(text);
    Report(FormatText(text), s.polarity, s.subjectivity, d.totalWords, d.uniqueWords, d.score,
           DiversityMessage(DiversityFeedbackFor(d)), c.avgSentenceLength, c.conjunctionCount,
           ComplexityMessage(c.feedback))
  }

  /** A transcript without words scores zero everywhere and gets both cautionary labels. */
  lemma AnalyzeWordless(text: string)
    requires forall i :: 0 <= i < |text| ==> !IsWordChar(text[i])
    ensures Analyze(text).polarityScore == 0.0 && Analyze(text).subjectivityScore == 0.0
    ensures Analyze(text).totalWords == 0 && Analyze(text).uniqueWords == 0
    ensures Analyze(text).diversityScore == 0.0 && Analyze(text).diversityFeedback == DiversityMessage(Repeated)
    ensures Analyze(text).avgSentenceLength == 0.0 && Analyze(text).conjunctionCount == 0
    ensures Analyze(text).complexityFeedback == ComplexityMessage(SimpleOrFlat)
  {
    NoWordsIffNoWordChars(LowerStr(text));
    assert LowerWords(text) == [];
    var d := LexicalDiversity(text);
    assert d.totalWords == 0 && d.uniqueWords == 0 && d.score == 0.0;
    assert DiversityFeedbackFor(d) != Diverse;
    var n := SentenceCount(JsTrim, text);
    if n > 0 {
      QuotientBetween(0.0, n as real, 0.0, 0.0);
    }
  }
}
