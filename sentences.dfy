/** Sentences: `text.split(/[.!?]/).filter(s => s.trim())` in the JavaScript
    revisions and `[s.strip() for s in re.split(r'[.!?]', text) if s.strip()]` in
    the Python one. Both split the original (not lower-cased) text. */
module Sentences {
  import opened Text

  function TerminatorCount(s: string): (n: nat)
    ensures n <= |s|
  {
    if s == [] then 0 else (if IsTerminator(s[0]) then 1 else 0) + TerminatorCount(s[1..])
  }

  predicate NoTerminator(p: string) {
    forall i :: 0 <= i < |p| ==> !IsTerminator(p[i])
  }

  /** The pieces of a split on every terminator: one more piece than there are
      terminators. */
  function Pieces(s: string): (ps: seq<string>)
    ensures |ps| == TerminatorCount(s) + 1
  {
    if s == [] then [[]]
    else
      var rest := Pieces(s[1..]);
      if IsTerminator(s[0]) then [[]] + rest
      else [[s[0]] + rest[0]] + rest[1..]
  }

  /** Text without a terminator is a single piece. */
  lemma {:induction false} PiecesOfUnterminated(s: string)
    requires NoTerminator(s)
    ensures Pieces(s) == [s]
  {
    if s != [] {
      PiecesOfUnterminated(s[1..]);
      assert [s[0]] + s[1..] == s;
    }
  }

  /** One step of the split: a terminator starts a new piece, any other character
      joins the first piece. */
  lemma PiecesCons(c: char, s: string)
    ensures Pieces([c] + s) ==
      if IsTerminator(c) then [[]] + Pieces(s) else [[c] + Pieces(s)[0]] + Pieces(s)[1..]
  {
    assert ([c] + s)[0] == c && ([c] + s)[1..] == s;
  }

  /** Prefixing one character keeps a split of the form `Pieces(y) + tail`. */
  lemma ConsKeepsTail(c: char, x: string, y: string, tail: seq<string>)
    requires Pieces(x) == Pieces(y) + tail
    ensures Pieces([c] + x) == Pieces([c] + y) + tail
  {
    PiecesCons(c, x);
    PiecesCons(c, y);
    if IsTerminator(c) {
      AppendAssoc([[]], Pieces(y), tail);
    } else {
      ExtendHeadKeepsTail([c], Pieces(y), tail);
    }
  }

  lemma AppendAssoc(p: seq<string>, q: seq<string>, r: seq<string>)
    ensures p + (q + r) == (p + q) + r
  {
  }

  lemma ExtendHeadKeepsTail(h: string, py: seq<string>, tail: seq<string>)
    requires |py| > 0
    ensures [h + (py + tail)[0]] + (py + tail)[1..] == ([h + py[0]] + py[1..]) + tail
  {
    assert (py + tail)[0] == py[0];
    assert (py + tail)[1..] == py[1..] + tail;
  }

  /** Splitting distributes over every terminator: the pieces of `a + [t] + b` are
      the pieces of `a` followed by the pieces of `b`. With `PiecesOfUnterminated`
      this determines the split completely. */
  lemma {:induction false} PiecesAtTerminator(a: string, t: char, b: string)
    requires IsTerminator(t)
    ensures Pieces(a + [t] + b) == Pieces(a) + Pieces(b)
  {
    if a == [] {
      assert a + [t] + b == [t] + b;
      PiecesCons(t, b);
    } else {
      PiecesAtTerminator(a[1..], t, b);
      ConsKeepsTail(a[0], a[1..] + [t] + b, a[1..], Pieces(b));
      assert a + [t] + b == [a[0]] + (a[1..] + [t] + b);
      assert a == [a[0]] + a[1..];
    }
  }

  /** Only whitespace. */
  predicate IsBlank(f: TrimFlavor, p: string) {
    forall i :: 0 <= i < |p| ==> IsSpace(f, p[i])
  }

  /** The piece without its leading whitespace: a suffix that starts with a
      non-space character, all that it drops being whitespace. */
  function TrimStart(f: TrimFlavor, p: string): (r: string)
    ensures |r| <= |p| && r == p[|p| - |r|..]
    ensures IsBlank(f, p[..|p| - |r|])
    ensures r == [] || !IsSpace(f, r[0])
  {
    if p != [] && IsSpace(f, p[0]) then
      var r := TrimStart(f, p[1..]);
      assert p[1..][|p| - 1 - |r|..] == p[|p| - |r|..];
      assert forall i :: 1 <= i < |p| - |r| ==> p[i] == p[1..][i - 1];
      r
    else
      assert p[..0] == [];
      p
  }

  /** The piece without its trailing whitespace: a prefix that ends with a
      non-space character, all that it drops being whitespace. */
  function TrimEnd(f: TrimFlavor, p: string): (r: string)
    ensures |r| <= |p| && r == p[..|r|]
    ensures IsBlank(f, p[|r|..])
    ensures r == [] || !IsSpace(f, r[|r| - 1])
  {
    if p != [] && IsSpace(f, p[|p| - 1]) then
      var q := p[..|p| - 1];
      var r := TrimEnd(f, q);
      assert q[..|r|] == p[..|r|];
      assert forall i :: |r| <= i < |p| - 1 ==> p[i] == q[i];
      r
    else
      assert p[|p|..] == [];
      p
  }

  /** `p.trim()` / `p.strip()`: the piece without leading and trailing whitespace.
      It is empty exactly when the piece is all whitespace, and otherwise begins
      and ends with a non-space character. */
  function Trim(f: TrimFlavor, p: string): (r: string)
    ensures r == [] <==> IsBlank(f, p)
    ensures r != [] ==> !IsSpace(f, r[0]) && !IsSpace(f, r[|r| - 1])
  {
    var q := TrimStart(f, p);
    var r := TrimEnd(f, q);
    TrimmedEnds(f, p, q, r);
    r
  }

  /** A suffix `q` of `p` after leading whitespace, and a prefix `r` of `q` before
      trailing whitespace: `r` is empty exactly when `p` is blank. */
  lemma TrimmedEnds(f: TrimFlavor, p: string, q: string, r: string)
    requires |q| <= |p| && q == p[|p| - |q|..] && IsBlank(f, p[..|p| - |q|])
    requires q == [] || !IsSpace(f, q[0])
    requires |r| <= |q| && r == q[..|r|] && IsBlank(f, q[|r|..])
    requires r == [] || !IsSpace(f, r[|r| - 1])
    ensures r == [] <==> IsBlank(f, p)
    ensures r != [] ==> !IsSpace(f, r[0]) && !IsSpace(f, r[|r| - 1])
  {
    if q == [] {
      assert p == p[..|p| - |q|];
    } else {
      assert !IsSpace(f, p[|p| - |q|]);
      assert r[0] == q[0];
    }
  }

  /** The pieces kept by the filter, in order: exactly the pieces that are not all
      whitespace. */
  function KeptPieces(f: TrimFlavor, ps: seq<string>): (r: seq<string>)
    ensures |r| <= |ps|
    ensures forall p :: p in r <==> p in ps && !IsBlank(f, p)
  {
    if ps == [] then []
    else if Trim(f, ps[0]) != [] then [ps[0]] + KeptPieces(f, ps[1..])
    else
      assert ps == [ps[0]] + ps[1..];
      KeptPieces(f, ps[1..])
  }

  /** `numSentences` / `num_sentences`: at most one sentence per terminator and one
      more, and none exactly when the text holds nothing but terminators and
      whitespace (the empty text among them). */
  function SentenceCount(f: TrimFlavor, text: string): (n: nat)
    ensures n <= TerminatorCount(text) + 1
    ensures n == 0 <==> OnlyPunctuation(f, text)
  {
    NoKeptIffAllBlank(f, Pieces(text));
    PiecesBlankIffOnlyPunctuation(f, text);
    |KeptPieces(f, Pieces(text))|
  }

  /** The filter looks at each piece on its own: filtering two lists of pieces one
      after the other is filtering their concatenation, order and repeats kept. */
  lemma {:induction false} KeptPiecesAppend(f: TrimFlavor, ps: seq<string>, qs: seq<string>)
    ensures KeptPieces(f, ps + qs) == KeptPieces(f, ps) + KeptPieces(f, qs)
  {
    if ps != [] {
      var x, tail := ps[0], ps[1..];
      assert (ps + qs)[0] == x && (ps + qs)[1..] == tail + qs;
      KeptPiecesAppend(f, tail, qs);
      if Trim(f, x) != [] {
        assert KeptPieces(f, ps + qs) == [x] + KeptPieces(f, tail + qs);
        assert KeptPieces(f, ps) == [x] + KeptPieces(f, tail);
        AppendAssoc([x], KeptPieces(f, tail), KeptPieces(f, qs));
      } else {
        assert KeptPieces(f, ps + qs) == KeptPieces(f, tail + qs);
        assert KeptPieces(f, ps) == KeptPieces(f, tail);
      }
    } else {
      assert ps + qs == qs;
    }
  }

  /** A single piece is kept exactly when it is not all whitespace. */
  lemma KeptPiecesOne(f: TrimFlavor, p: string)
    ensures KeptPieces(f, [p]) == if IsBlank(f, p) then [] else [p]
  {
    assert [p][1..] == [];
  }

  /** Each terminator separates the sentences before it from those after it. */
  lemma SentenceCountAtTerminator(f: TrimFlavor, a: string, t: char, b: string)
    requires IsTerminator(t)
    ensures SentenceCount(f, a + [t] + b) == SentenceCount(f, a) + SentenceCount(f, b)
  {
    PiecesAtTerminator(a, t, b);
    KeptPiecesAppend(f, Pieces(a), Pieces(b));
  }

  /** A stretch without a terminator is one sentence, or none when it is all
      whitespace. With `SentenceCountAtTerminator` this fixes every count. */
  lemma SentenceCountOfUnterminated(f: TrimFlavor, p: string)
    requires NoTerminator(p)
    ensures SentenceCount(f, p) == if IsBlank(f, p) then 0 else 1
  {
    PiecesOfUnterminated(p);
    KeptPiecesOne(f, p);
  }

  /** Equal sentences are counted separately: a sentence, a terminator and the
      same sentence again (as in "a.a") are two sentences. */
  lemma RepeatedSentencesCount(f: TrimFlavor, p: string, t: char)
    requires NoTerminator(p) && !IsBlank(f, p) && IsTerminator(t)
    ensures SentenceCount(f, p + [t] + p) == 2
  {
    SentenceCountOfUnterminated(f, p);
    SentenceCountAtTerminator(f, p, t, p);
  }

  lemma BlankCons(f: TrimFlavor, c: char, p: string)
    ensures IsBlank(f, [c] + p) <==> IsSpace(f, c) && IsBlank(f, p)
  {
    assert ([c] + p)[0] == c;
    assert forall i :: 1 <= i < |p| + 1 ==> ([c] + p)[i] == p[i - 1];
    assert forall j :: 0 <= j < |p| ==> ([c] + p)[j + 1] == p[j];
  }

  /** No piece survives exactly when every piece is blank. */
  lemma {:induction false} NoKeptIffAllBlank(f: TrimFlavor, ps: seq<string>)
    ensures KeptPieces(f, ps) == [] <==> AllBlank(f, ps)
  {
    if ps != [] {
      var x, tail := ps[0], ps[1..];
      NoKeptIffAllBlank(f, tail);
      assert [x] + tail == ps;
      AllBlankCons(f, x, tail);
      if Trim(f, x) != [] {
        assert KeptPieces(f, ps) == [x] + KeptPieces(f, tail);
      } else {
        assert KeptPieces(f, ps) == KeptPieces(f, tail);
      }
    }
  }

  /** Every piece is blank exactly when the text holds only terminators and whitespace. */
  lemma {:induction false} PiecesBlankIffOnlyPunctuation(f: TrimFlavor, s: string)
    ensures AllBlank(f, Pieces(s)) <==> OnlyPunctuation(f, s)
  {
    if s != [] {
      PiecesBlankIffOnlyPunctuation(f, s[1..]);
      assert OnlyPunctuation(f, s) <==> (IsTerminator(s[0]) || IsSpace(f, s[0])) && OnlyPunctuation(f, s[1..]) by {
        assert forall i :: 1 <= i < |s| ==> s[i] == s[1..][i - 1];
        assert forall j :: 0 <= j < |s| - 1 ==> s[1..][j] == s[j + 1];
      }
      var rest := Pieces(s[1..]);
      PiecesCons(s[0], s[1..]);
      assert [s[0]] + s[1..] == s;
      if IsTerminator(s[0]) {
        AllBlankCons(f, [], rest);
      } else {
        BlankCons(f, s[0], rest[0]);
        AllBlankCons(f, [s[0]] + rest[0], rest[1..]);
        AllBlankCons(f, rest[0], rest[1..]);
        assert [rest[0]] + rest[1..] == rest;
      }
    }
  }

  predicate AllBlank(f: TrimFlavor, ps: seq<string>) {
    forall k :: 0 <= k < |ps| ==> IsBlank(f, ps[k])
  }

  predicate OnlyPunctuation(f: TrimFlavor, s: string) {
    forall i :: 0 <= i < |s| ==> IsTerminator(s[i]) || IsSpace(f, s[i])
  }

  lemma AllBlankCons(f: TrimFlavor, p: string, ps: seq<string>)
    ensures AllBlank(f, [p] + ps) <==> IsBlank(f, p) && AllBlank(f, ps)
  {
    assert ([p] + ps)[0] == p;
    assert forall k :: 1 <= k < |ps| + 1 ==> ([p] + ps)[k] == ps[k - 1];
    assert forall j :: 0 <= j < |ps| ==> ([p] + ps)[j + 1] == ps[j];
  }

  /** A text with a word character has at least one sentence. */
  lemma WordCharMakesSentence(f: TrimFlavor, s: string, i: nat)
    requires i < |s| && IsWordChar(s[i])
    ensures SentenceCount(f, s) > 0
  {
    assert !IsTerminator(s[i]) && !IsSpace(f, s[i]);
  }
}
