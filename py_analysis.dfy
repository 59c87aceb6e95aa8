/** `analysis/analyze_audio.py`: the revision that strips sentences with Python's
    `str.strip`, tokenizes the original text for the average, and counts
    conjunctions as substrings of the lower-cased text. */
module PyAnalysis {
  import opened Text
  import opened Tokens
  import opened Sentences
  import opened Formatting
  import opened Metrics

  /** The replace chain of `format_text`. */
  function BreakSentences(text: string): (r: string)
    ensures r == Formatted(text)
  {
    ReplaceChain(text)
  }

  /** `lexical_diversity`: `(score, total_words, unique_words)`. */
  function LexicalDiversity(text: string): (r: Diversity)
    ensures r.totalWords == |LowerWords(text)| && r.uniqueWords == UniqueCount(LowerWords(text))
    ensures r.uniqueWords <= r.totalWords
    ensures r.totalWords == 0 ==> r.score == 0.0
    ensures r.totalWords > 0 ==> 0.0 < r.score <= 1.0
    ensures r.totalWords > 0 ==> r.score == r.uniqueWords as real / r.totalWords as real
  {
    DiversityOf(LowerWords(text))
  }

  /** The vocabulary label `main` computes from the score: the diverse message
      exactly when more than half of the tokens are distinct. */
  function VocabularyFeedback(text: string): (m: string)
    ensures m == DiversityMessage(
      if 2 * UniqueCount(LowerWords(text)) > |LowerWords(text)| then Diverse else Repeated)
  {
    DiversityMessage(DiversityFeedbackFor(LexicalDiversity(text)))
  }

  /** `sentence_complexity`: the average counts the tokens of the original text,
      which are as many as those of the lower-cased text; the conjunction count is
      the number of positions of the lower-cased text where a conjunction occurs,
      inside words too, and is never below the whole-word count. */
  function SentenceComplexity(text: string): (r: Complexity)
    ensures r.conjunctionCount == MatchTotal(LowerStr(text), Conjunctions)
    ensures r.conjunctionCount >= Hits(LowerWords(text), Conjunctions)
    ensures SentenceCount(PyStrip, text) == 0 ==> r.avgSentenceLength == 0.0
    ensures SentenceCount(PyStrip, text) > 0 ==>
      r.avgSentenceLength == |Words(text)| as real / SentenceCount(PyStrip, text) as real
    ensures r.feedback == Balanced <==>
      |Words(text)| > 12 * SentenceCount(PyStrip, text) && r.conjunctionCount >= SentenceCount(PyStrip, text)
  {
    LowerWordsCount(text);
    WordsNeedSentence(PyStrip, text);
    ComplexityOf(|Words(text)|, SentenceCount(PyStrip, text), SubstringConjunctions(LowerStr(text)))
  }

  /** "or" inside "for" is counted here ... */
  lemma SubstringCountsInsideWords()
    ensures MatchTotal("for", Conjunctions) == 1
  {
    ConjunctionsWellFormed();
    OnlyOrOccursInFor();
    MatchTotalOfOne("for", Conjunctions, 2);
  }

  /** ... but not by the whole-word scan of the JavaScript revisions. */
  lemma WholeWordsSkipInsideWords()
    ensures WholeWordConjunctions("for") == 0
  {
    WordsOfFor();
    HitsOne("for", Conjunctions);
    assert "for" !in Conjunctions;
  }

  lemma WordsOfFor()
    ensures Words("for") == ["for"]
  {
    var s := "for";
    assert IsWordChar(s[0]) && IsWordChar(s[1]) && IsWordChar(s[2]);
    WordsOfToken(s);
  }

  /** Of the conjunctions only "or" occurs in "for", once. */
  lemma OnlyOrOccursInFor()
    ensures MatchCountFrom("for", Conjunctions[2], 0) == 1
    ensures forall j :: 0 <= j < |Conjunctions| && j != 2 ==> MatchCountFrom("for", Conjunctions[j], 0) == 0
  {
    var s := "for";
    assert s[1..3] == "or";
    assert MatchCountFrom(s, "or", 2) == 0;
    assert s[0..2][0] == 'f';
    forall j | 0 <= j < |Conjunctions| && j != 2
      ensures MatchCountFrom(s, Conjunctions[j], 0) == 0
    {
      var c := Conjunctions[j];
      if |c| == 3 {
        assert s[0..3][0] == 'f' && c[0] != 'f';
      } else if |c| == 2 {
        assert c == "if";
        assert s[1..3][0] == 'o';
        assert MatchCountFrom(s, c, 2) == 0;
      }
    }
  }

  /** Python strips the separator U+001C, JavaScript's `trim` keeps it: a text
      holding only that character is one sentence there and none here. */
  lemma StripDiffersFromTrim()
    ensures SentenceCount(PyStrip, "\U{1C}") == 0
    ensures SentenceCount(JsTrim, "\U{1C}") == 1
  {
    var s := "\U{1C}";
    assert IsSpace(PyStrip, s[0]) && OnlyPunctuation(PyStrip, s);
    assert !IsSpace(JsTrim, s[0]) && !IsTerminator(s[0]) && !OnlyPunctuation(JsTrim, s);
    assert TerminatorCount(s) == 0;
  }
}
