/** Word tokens and word matching: the regular expression `/\b\w+\b/g` that every
    revision uses to find words, the per-conjunction scan `/\b<conj>\b/g` of the
    JavaScript revisions, and Python's substring `str.count`. */
module Tokens {
  import opened Text

  /** A word token: a non-empty run of word characters. */
  predicate IsToken(w: string) {
    |w| > 0 && forall i :: 0 <= i < |w| ==> IsWordChar(w[i])
  }

  /** Length of the longest prefix of `s` made of word characters. */
  function RunLength(s: string): (n: nat)
    ensures n <= |s|
    ensures forall i :: 0 <= i < n ==> IsWordChar(s[i])
    ensures n < |s| ==> !IsWordChar(s[n])
  {
    if s == [] || !IsWordChar(s[0]) then 0 else 1 + RunLength(s[1..])
  }

  /** The matches of `/\b\w+\b/g` in `s`, in order: its maximal runs of word
      characters. No match gives the empty list, as `match(...) || []` and
      `re.findall` do. */
  function Words(s: string): (ws: seq<string>)
    ensures forall k :: 0 <= k < |ws| ==> IsToken(ws[k]) && |ws[k]| <= |s|
    ensures |ws| <= |s|
    decreases |s|
  {
    if s == [] then []
    else if !IsWordChar(s[0]) then Words(s[1..])
    else
      var n := RunLength(s);
      [s[..n]] + Words(s[n..])
  }

  /** `text.toLowerCase().match(/\b\w+\b/g) || []`: the tokens every revision scores. */
  function LowerWords(text: string): (ws: seq<string>)
    ensures forall k :: 0 <= k < |ws| ==> IsToken(ws[k]) && IsLowerCase(ws[k])
  {
    WordsOfLowerCase(LowerStr(text));
    Words(LowerStr(text))
  }

  // ---------------------------------------------------------------------------
  // Independent descriptions of the tokenizer

  /** The word characters of `s`, in order. */
  function WordChars(s: string): string {
    if s == [] then []
    else if IsWordChar(s[0]) then [s[0]] + WordChars(s[1..])
    else WordChars(s[1..])
  }

  function Concat(ws: seq<string>): string {
    if ws == [] then [] else ws[0] + Concat(ws[1..])
  }

  /** The number of positions where a run of word characters starts, counted by a
      one-character-at-a-time scan that remembers whether it is inside a word. */
  function RunStarts(s: string, inWord: bool): nat {
    if s == [] then 0
    else
      (if IsWordChar(s[0]) && !inWord then 1 else 0) + RunStarts(s[1..], IsWordChar(s[0]))
  }

  /** The tokens of a lower-case text are lower-case. */
  lemma {:induction false} WordsOfLowerCase(s: string)
    requires IsLowerCase(s)
    ensures forall k :: 0 <= k < |Words(s)| ==> IsLowerCase(Words(s)[k])
    decreases |s|
  {
    if s == [] {
    } else if !IsWordChar(s[0]) {
      WordsOfLowerCase(s[1..]);
    } else {
      var n := RunLength(s);
      WordsOfLowerCase(s[n..]);
      assert Words(s) == [s[..n]] + Words(s[n..]);
    }
  }

  /** Text yields no token exactly when it has no word character. */
  lemma {:induction false} NoWordsIffNoWordChars(s: string)
    ensures Words(s) == [] <==> forall i :: 0 <= i < |s| ==> !IsWordChar(s[i])
    decreases |s|
  {
    if s != [] && !IsWordChar(s[0]) {
      NoWordsIffNoWordChars(s[1..]);
      assert forall i :: 1 <= i < |s| ==> s[i] == s[1..][i - 1];
    }
  }

  /** Lower-casing keeps word characters, so the same holds of the lower-cased tokens. */
  lemma LowerWordsEmptyIffNoWordChars(text: string)
    ensures LowerWords(text) == [] <==> forall i :: 0 <= i < |text| ==> !IsWordChar(text[i])
  {
    NoWordsIffNoWordChars(LowerStr(text));
    assert forall i :: 0 <= i < |text| ==> (IsWordChar(LowerStr(text)[i]) <==> IsWordChar(text[i]));
  }

  /** A text that is one run of word characters is its own single token
      ("goodness" is one token, never "good" plus a rest). */
  lemma WordsOfToken(s: string)
    requires IsToken(s)
    ensures Words(s) == [s]
  {
    assert RunLength(s) == |s|;
    assert s[..|s|] == s && s[|s|..] == [];
    assert Words(s) == [s[..|s|]] + Words(s[|s|..]);
  }

  /** A lower-case token is the only token of its own lower-cased text. */
  lemma LowerWordsOfToken(w: string)
    requires IsToken(w) && IsLowerCase(w)
    ensures LowerWords(w) == [w]
  {
    LowerStrIdempotent(w);
    WordsOfToken(w);
  }

  /** Concatenating the tokens gives back exactly the word characters of the text. */
  lemma {:induction false} WordsConcat(s: string)
    ensures Concat(Words(s)) == WordChars(s)
    decreases |s|
  {
    if s == [] {
    } else if !IsWordChar(s[0]) {
      WordsConcat(s[1..]);
    } else {
      var n := RunLength(s);
      WordsConcat(s[n..]);
      WordCharsOfRun(s);
      var ws := [s[..n]] + Words(s[n..]);
      assert ws[0] == s[..n] && ws[1..] == Words(s[n..]);
    }
  }

  lemma {:induction false} WordCharsOfRun(s: string)
    ensures WordChars(s) == s[..RunLength(s)] + WordChars(s[RunLength(s)..])
    decreases |s|
  {
    if s != [] && IsWordChar(s[0]) {
      WordCharsOfRun(s[1..]);
      assert s[1..][RunLength(s[1..])..] == s[RunLength(s)..];
      assert [s[0]] + s[1..][..RunLength(s[1..])] == s[..RunLength(s)];
    }
  }

  /** The number of tokens is the number of places where a word starts. */
  lemma {:induction false} WordCountIsRunStarts(s: string)
    ensures |Words(s)| == RunStarts(s, false)
    decreases |s|
  {
    if s == [] {
    } else if !IsWordChar(s[0]) {
      WordCountIsRunStarts(s[1..]);
    } else {
      var n := RunLength(s);
      RunStartsSkipRun(s[1..]);
      assert s[1..][RunLength(s[1..])..] == s[n..];
      WordCountIsRunStarts(s[n..]);
      assert RunStarts(s[n..], true) == RunStarts(s[n..], false);
    }
  }

  lemma {:induction false} RunStartsSkipRun(s: string)
    ensures RunStarts(s, true) == RunStarts(s[RunLength(s)..], true)
    decreases |s|
  {
    if s != [] && IsWordChar(s[0]) {
      RunStartsSkipRun(s[1..]);
      assert s[1..][RunLength(s[1..])..] == s[RunLength(s)..];
    }
  }

  // ---------------------------------------------------------------------------
  // Case-insensitivity of the tokenizer

  function LowerAll(ws: seq<string>): (r: seq<string>)
    ensures |r| == |ws|
    ensures forall k :: 0 <= k < |ws| ==> r[k] == LowerStr(ws[k])
  {
    seq(|ws|, k requires 0 <= k < |ws| => LowerStr(ws[k]))
  }

  lemma {:induction false} RunLengthLower(s: string)
    ensures RunLength(LowerStr(s)) == RunLength(s)
    decreases |s|
  {
    if s != [] && IsWordChar(s[0]) {
      RunLengthLower(s[1..]);
      assert LowerStr(s)[1..] == LowerStr(s[1..]);
    }
  }

  lemma LowerAllCons(x: string, ws: seq<string>)
    ensures LowerAll([x] + ws) == [LowerStr(x)] + LowerAll(ws)
  {
  }

  /** Lower-casing the text lower-cases each token and changes nothing else: the
      token boundaries, and so the token count, do not depend on case. */
  lemma {:induction false} WordsOfLower(s: string)
    ensures Words(LowerStr(s)) == LowerAll(Words(s))
    ensures |Words(LowerStr(s))| == |Words(s)|
    decreases |s|
  {
    var l := LowerStr(s);
    if s == [] {
    } else if !IsWordChar(s[0]) {
      assert l[1..] == LowerStr(s[1..]);
      WordsOfLower(s[1..]);
    } else {
      WordsOfLowerRun(s);
    }
  }

  /** The scored tokens are as many as the tokens of the original text. */
  lemma LowerWordsCount(text: string)
    ensures |LowerWords(text)| == |Words(text)|
  {
    WordsOfLower(text);
  }

  lemma {:induction false} WordsOfLowerRun(s: string)
    requires s != [] && IsWordChar(s[0])
    ensures Words(LowerStr(s)) == LowerAll(Words(s))
    decreases |s|, 0
  {
    var l := LowerStr(s);
    var n := RunLength(s);
    RunLengthLower(s);
    LowerStrSlice(s, 0, n);
    LowerStrSlice(s, n, |s|);
    assert l[..n] == LowerStr(s[..n]);
    assert l[n..] == LowerStr(s[n..]);
    WordsOfLower(s[n..]);
    var ws := Words(s[n..]);
    calc {
      Words(l);
      [l[..n]] + Words(l[n..]);
      [LowerStr(s[..n])] + LowerAll(ws);
      { LowerAllCons(s[..n], ws); }
      LowerAll([s[..n]] + ws);
    }
  }

  // ---------------------------------------------------------------------------
  // Counting one word: `/\b<w>\b/g` against `str.count(w)`

  /** Occurrences of `w` among the tokens `ws`. */
  function Occurrences(ws: seq<string>, w: string): (n: nat)
    ensures n <= |ws|
  {
    if ws == [] then 0 else (if ws[0] == w then 1 else 0) + Occurrences(ws[1..], w)
  }

  /** `\b` at position `i` of `s`: exactly one of the neighbouring characters is a
      word character (a position outside the text counts as a non-word character). */
  predicate Boundary(s: string, i: nat)
    requires i <= |s|
    ensures i == 0 ==> (Boundary(s, i) <==> 0 < |s| && IsWordChar(s[0]))
    ensures i == |s| ==> (Boundary(s, i) <==> 0 < |s| && IsWordChar(s[|s| - 1]))
  {
    (i > 0 && IsWordChar(s[i - 1])) != (i < |s| && IsWordChar(s[i]))
  }

  predicate WholeWordAt(s: string, w: string, i: nat)
    requires i + |w| <= |s|
  {
    Boundary(s, i) && s[i..i + |w|] == w && Boundary(s, i + |w|)
  }

  /** The number of matches of `new RegExp('\\b' + w + '\\b', 'g')` in `s` from
      position `i`: each position is tried in turn, and after a match the scan
      resumes where the match ended, so the matches never overlap. */
  function WholeWordCountFrom(s: string, w: string, i: nat): (n: nat)
    requires |w| > 0 && i <= |s|
    ensures n <= MatchCountFrom(s, w, i)
    decreases |s| - i
  {
    if i + |w| > |s| then 0
    else if WholeWordAt(s, w, i) then
      MatchCountMonotone(s, w, i + 1, i + |w|);
      1 + WholeWordCountFrom(s, w, i + |w|)
    else WholeWordCountFrom(s, w, i + 1)
  }

  /** Python's `s.count(w)` from position `i`: non-overlapping occurrences of the
      substring, found left to right. */
  function SubstringCountFrom(s: string, w: string, i: nat): (n: nat)
    requires |w| > 0 && i <= |s|
    ensures n <= MatchCountFrom(s, w, i)
    decreases |s| - i
  {
    if i + |w| > |s| then 0
    else if s[i..i + |w|] == w then
      MatchCountMonotone(s, w, i + 1, i + |w|);
      1 + SubstringCountFrom(s, w, i + |w|)
    else SubstringCountFrom(s, w, i + 1)
  }

  /** `i` does not fall strictly between two word characters. */
  predicate NotInsideRun(s: string, i: nat)
    requires i <= |s|
  {
    i == 0 || i == |s| || !IsWordChar(s[i - 1]) || !IsWordChar(s[i])
  }

  /** Inside a run of word characters no whole-word match can start. */
  lemma {:induction false} SkipInsideRun(s: string, w: string, j: nat, k: nat)
    requires |w| > 0 && 0 < j <= k <= |s|
    requires forall m :: j - 1 <= m < k ==> IsWordChar(s[m])
    ensures WholeWordCountFrom(s, w, j) == WholeWordCountFrom(s, w, k)
    decreases k - j
  {
    if j < k {
      assert !Boundary(s, j);
      if j + |w| <= |s| {
        SkipInsideRun(s, w, j + 1, k);
      }
    }
  }

  lemma {:induction false} OccurrencesOfLonger(ws: seq<string>, w: string, bound: nat)
    requires forall k :: 0 <= k < |ws| ==> |ws[k]| <= bound
    requires bound < |w|
    ensures Occurrences(ws, w) == 0
  {
    if ws != [] {
      OccurrencesOfLonger(ws[1..], w, bound);
    }
  }

  /** At the start of a run, a whole-word match of `w` is exactly a run equal to `w`. */
  lemma WholeWordAtRunStart(s: string, w: string, i: nat)
    requires IsToken(w) && i + |w| <= |s| && NotInsideRun(s, i) && IsWordChar(s[i])
    ensures WholeWordAt(s, w, i) <==> s[i..][..RunLength(s[i..])] == w
  {
    var t := s[i..];
    var n := RunLength(t);
    assert i + |w| < |s| ==> t[|w|] == s[i + |w|];
    if WholeWordAt(s, w, i) {
      assert forall m :: 0 <= m < |w| ==> t[m] == w[m];
      assert n == |w|;
    }
    if t[..n] == w {
      assert s[i..i + |w|] == w;
      assert Boundary(s, i);
      assert Boundary(s, i + n);
    }
  }

  /** The run case of the scan: the run starting at `i` is one token. */
  lemma WholeWordCountAtRun(s: string, w: string, i: nat, n: nat)
    requires IsToken(w) && i + |w| <= |s| && NotInsideRun(s, i) && IsWordChar(s[i])
    requires n == RunLength(s[i..])
    ensures 0 < n && i + n <= |s| && NotInsideRun(s, i + n)
    ensures WholeWordCountFrom(s, w, i) == (if s[i..][..n] == w then 1 else 0) + WholeWordCountFrom(s, w, i + n)
  {
    WholeWordAtRunStart(s, w, i);
    if WholeWordAt(s, w, i) {
      WholeWordCountAtMatch(s, w, i, n);
    } else {
      WholeWordCountPastRun(s, w, i, n);
    }
  }

  lemma WholeWordCountAtMatch(s: string, w: string, i: nat, n: nat)
    requires |w| > 0 && i + |w| <= |s| && WholeWordAt(s, w, i) && n == |w|
    ensures WholeWordCountFrom(s, w, i) == 1 + WholeWordCountFrom(s, w, i + n)
  {
  }

  /** Without a match at the start of a run, the scan resumes after the run. */
  lemma WholeWordCountPastRun(s: string, w: string, i: nat, n: nat)
    requires |w| > 0 && i + |w| <= |s| && !WholeWordAt(s, w, i)
    requires 0 < n && i + n <= |s| && forall m :: i <= m < i + n ==> IsWordChar(s[m])
    ensures WholeWordCountFrom(s, w, i) == WholeWordCountFrom(s, w, i + n)
  {
    assert WholeWordCountFrom(s, w, i) == WholeWordCountFrom(s, w, i + 1);
    SkipInsideRun(s, w, i + 1, i + n);
  }

  lemma OccurrencesCons(x: string, ws: seq<string>, w: string)
    ensures Occurrences([x] + ws, w) == (if x == w then 1 else 0) + Occurrences(ws, w)
  {
    assert ([x] + ws)[1..] == ws;
  }

  /** The non-word case of the scan: position `i` is skipped by both sides. */
  lemma WholeWordCountAtNonWord(s: string, w: string, i: nat)
    requires IsToken(w) && i + |w| <= |s| && !IsWordChar(s[i])
    ensures WholeWordCountFrom(s, w, i) == WholeWordCountFrom(s, w, i + 1)
    ensures Words(s[i..]) == Words(s[i + 1..])
    ensures NotInsideRun(s, i + 1)
  {
    assert s[i..i + |w|][0] == s[i] && IsWordChar(w[0]);
    assert !WholeWordAt(s, w, i);
    assert s[i..][1..] == s[i + 1..];
  }

  lemma {:induction false} WholeWordCountFromIsOccurrences(s: string, w: string, i: nat)
    requires IsToken(w) && i <= |s| && NotInsideRun(s, i)
    ensures WholeWordCountFrom(s, w, i) == Occurrences(Words(s[i..]), w)
    decreases |s| - i
  {
    if i + |w| > |s| {
      WholeWordCountAtShortTail(s, w, i);
    } else {
      var j := ScanStep(s, w, i);
      WholeWordCountFromIsOccurrences(s, w, j);
    }
  }

  /** One step of both scans from `i`: past one non-word character, or past the
      run of word characters starting at `i`. Agreement from the next position `j`
      gives agreement from `i`. */
  lemma ScanStep(s: string, w: string, i: nat) returns (j: nat)
    requires IsToken(w) && i + |w| <= |s| && NotInsideRun(s, i)
    ensures i < j <= |s| && NotInsideRun(s, j)
    ensures WholeWordCountFrom(s, w, j) == Occurrences(Words(s[j..]), w) ==>
      WholeWordCountFrom(s, w, i) == Occurrences(Words(s[i..]), w)
  {
    if !IsWordChar(s[i]) {
      j := i + 1;
      NonWordStep(s, w, i);
    } else {
      var n := RunLength(s[i..]);
      j := i + n;
      RunStep(s, w, i, n);
    }
  }

  /** Position `i` holds no word character, so agreement from `i + 1` gives
      agreement from `i`. */
  lemma NonWordStep(s: string, w: string, i: nat)
    requires IsToken(w) && i + |w| <= |s| && !IsWordChar(s[i])
    ensures NotInsideRun(s, i + 1)
    ensures WholeWordCountFrom(s, w, i + 1) == Occurrences(Words(s[i + 1..]), w) ==>
      WholeWordCountFrom(s, w, i) == Occurrences(Words(s[i..]), w)
  {
    WholeWordCountAtNonWord(s, w, i);
  }

  /** Too little text is left for a match, and every token left is too short. */
  lemma WholeWordCountAtShortTail(s: string, w: string, i: nat)
    requires IsToken(w) && i <= |s| && i + |w| > |s|
    ensures WholeWordCountFrom(s, w, i) == 0 == Occurrences(Words(s[i..]), w)
  {
    OccurrencesOfLonger(Words(s[i..]), w, |s[i..]|);
  }

  /** The run starting at `i` is both one step of the scan and the first token of
      `s[i..]`, so agreement after the run gives agreement from `i`. */
  lemma RunStep(s: string, w: string, i: nat, n: nat)
    requires IsToken(w) && i + |w| <= |s| && NotInsideRun(s, i) && IsWordChar(s[i])
    requires n == RunLength(s[i..])
    ensures 0 < n && i + n <= |s| && NotInsideRun(s, i + n)
    ensures WholeWordCountFrom(s, w, i + n) == Occurrences(Words(s[i + n..]), w) ==>
      WholeWordCountFrom(s, w, i) == Occurrences(Words(s[i..]), w)
  {
    WholeWordCountAtRun(s, w, i, n);
    OccurrencesAtRun(s, w, i, n);
  }

  /** The run starting at `i` is the first token of `s[i..]`. */
  lemma OccurrencesAtRun(s: string, w: string, i: nat, n: nat)
    requires i < |s| && IsWordChar(s[i]) && n == RunLength(s[i..])
    ensures Occurrences(Words(s[i..]), w) == (if s[i..][..n] == w then 1 else 0) + Occurrences(Words(s[i + n..]), w)
  {
    var t := s[i..];
    assert t[n..] == s[i + n..];
    assert Words(t) == [t[..n]] + Words(t[n..]);
    OccurrencesCons(t[..n], Words(t[n..]), w);
  }

  /** A whole-word scan for a word counts exactly the tokens equal to it. */
  lemma WholeWordCountIsOccurrences(s: string, w: string)
    requires IsToken(w)
    ensures WholeWordCountFrom(s, w, 0) == Occurrences(Words(s), w)
  {
    WholeWordCountFromIsOccurrences(s, w, 0);
    assert s[0..] == s;
  }

  /** Every whole-word match is also found by the substring scan, so
      `str.count` never reports fewer occurrences than the whole-word regex. */
  lemma {:induction false} WholeWordAtMostSubstring(s: string, w: string, i: nat)
    requires IsToken(w) && i <= |s|
    ensures WholeWordCountFrom(s, w, i) <= SubstringCountFrom(s, w, i)
    decreases |s| - i
  {
    if i + |w| <= |s| {
      var j := AtMostStep(s, w, i);
      WholeWordAtMostSubstring(s, w, j);
    }
  }

  /** One step of the substring scan from `i`: past an occurrence (skipping the
      positions inside it, where no whole-word match can start either) or past one
      position. The bound at the next position `j` gives the bound at `i`. */
  lemma AtMostStep(s: string, w: string, i: nat) returns (j: nat)
    requires IsToken(w) && i + |w| <= |s|
    ensures i < j <= |s|
    ensures WholeWordCountFrom(s, w, j) <= SubstringCountFrom(s, w, j) ==>
      WholeWordCountFrom(s, w, i) <= SubstringCountFrom(s, w, i)
  {
    if WholeWordAt(s, w, i) {
      j := i + |w|;
    } else if s[i..i + |w|] == w {
      j := i + |w|;
      assert SubstringCountFrom(s, w, i) == 1 + SubstringCountFrom(s, w, j);
      assert forall m :: i <= m < j ==> IsWordChar(s[m]) by {
        assert forall m :: i <= m < j ==> s[m] == w[m - i];
      }
      SkipInsideRun(s, w, i + 1, j);
    } else {
      j := i + 1;
    }
  }

  // ---------------------------------------------------------------------------
  // `str.count` against the positions where a word occurs

  /** The number of positions at or after `i` where `w` occurs, overlapping
      occurrences included. */
  function MatchCountFrom(s: string, w: string, i: nat): nat
    requires |w| > 0 && i <= |s|
    decreases |s| - i
  {
    if i + |w| > |s| then 0
    else (if s[i..i + |w|] == w then 1 else 0) + MatchCountFrom(s, w, i + 1)
  }

  /** Fewer positions are left from a later start. */
  lemma {:induction false} MatchCountMonotone(s: string, w: string, i: nat, j: nat)
    requires |w| > 0 && i <= j <= |s|
    ensures MatchCountFrom(s, w, j) <= MatchCountFrom(s, w, i)
    decreases j - i
  {
    if i < j {
      MatchCountMonotone(s, w, i + 1, j);
    }
  }

  /** The first character of `w` does not occur again in `w`, so two occurrences of
      `w` can never overlap. */
  predicate HeadUnrepeated(w: string) {
    |w| > 0 && forall k :: 0 < k < |w| ==> w[k] != w[0]
  }

  /** After an occurrence at `i`, no occurrence starts before it ends. */
  lemma {:induction false} NoMatchInside(s: string, w: string, i: nat, j: nat)
    requires HeadUnrepeated(w) && i + |w| <= |s| && s[i..i + |w|] == w
    requires i < j <= i + |w|
    ensures MatchCountFrom(s, w, j) == MatchCountFrom(s, w, i + |w|)
    decreases i + |w| - j
  {
    if j < i + |w| {
      if j + |w| <= |s| {
        assert s[j..j + |w|][0] == s[j] == s[i..i + |w|][j - i] == w[j - i];
      }
      NoMatchInside(s, w, i, j + 1);
    }
  }

  /** `str.count` skips the rest of each occurrence it finds, so it counts every
      occurrence when occurrences cannot overlap. */
  lemma {:induction false} SubstringCountIsMatchCount(s: string, w: string, i: nat)
    requires HeadUnrepeated(w) && i <= |s|
    ensures SubstringCountFrom(s, w, i) == MatchCountFrom(s, w, i)
    decreases |s| - i
  {
    if i + |w| <= |s| {
      if s[i..i + |w|] == w {
        NoMatchInside(s, w, i, i + 1);
        SubstringCountIsMatchCount(s, w, i + |w|);
      } else {
        SubstringCountIsMatchCount(s, w, i + 1);
      }
    }
  }

  /** Overlapping occurrences are counted once: "aa" occurs at two positions of
      "aaa", and `"aaa".count("aa")` is 1. */
  lemma CountSkipsOverlaps()
    ensures MatchCountFrom("aaa", "aa", 0) == 2
    ensures SubstringCountFrom("aaa", "aa", 0) == 1
  {
    var s, w := "aaa", "aa";
    assert s[0..2] == w && s[1..3] == w;
    assert MatchCountFrom(s, w, 2) == 0;
    assert SubstringCountFrom(s, w, 2) == 0;
  }
}
