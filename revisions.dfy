/** Properties that relate two functions of one revision (the average sentence
    length of `sentenceComplexity` and the word total of `lexicalDiversity`), and
    one that sets the revisions' conjunction counts side by side. */
module Revisions {
  import opened Text
  import opened Tokens
  import opened Sentences
  import opened Metrics
  import NodeAnalysis
  import JsAnalysis
  import PyAnalysis

  /** In `analyze_audio_node.js` the average sentence length is the total word
      count `lexicalDiversity` reports divided by the sentence count, so the two
      functions agree on what a word is. */
  lemma NodeAverageIsTotalOverSentences(text: string)
    requires SentenceCount(JsTrim, text) > 0
    ensures NodeAnalysis.SentenceComplexity(text).avgSentenceLength
      == NodeAnalysis.LexicalDiversity(text).totalWords as real / SentenceCount(JsTrim, text) as real
  {
  }

  /** The same holds in `analyze_audio.js`. */
  lemma JsAverageIsTotalOverSentences(text: string)
    requires SentenceCount(JsTrim, text) > 0
    ensures JsAnalysis.SentenceComplexity(text).avgSentenceLength
      == JsAnalysis.LexicalDiversity(text).totalWords as real / SentenceCount(JsTrim, text) as real
  {
  }

  /** In `analyze_audio.py` the average counts the tokens of the original text,
      which are as many as the lower-cased tokens `lexical_diversity` counts. */
  lemma PyAverageIsTotalOverSentences(text: string)
    requires SentenceCount(PyStrip, text) > 0
    ensures PyAnalysis.SentenceComplexity(text).avgSentenceLength
      == PyAnalysis.LexicalDiversity(text).totalWords as real / SentenceCount(PyStrip, text) as real
  {
    LowerWordsCount(text);
  }

  /** The transcript "for": the Python revision counts the "or" inside it as a
      conjunction, the JavaScript revisions count none. */
  lemma ConjunctionCountsDiffer()
    ensures PyAnalysis.SentenceComplexity("for").conjunctionCount == 1
    ensures JsAnalysis.SentenceComplexity("for").conjunctionCount == 0
    ensures NodeAnalysis.SentenceComplexity("for").conjunctionCount == 0
  {
    assert LowerStr("for") == "for" by {
      LowerStrIdempotent("for");
    }
    PyAnalysis.SubstringCountsInsideWords();
    PyAnalysis.WholeWordsSkipInsideWords();
  }
}
