/** The display formatting of a transcript: the chain
    `.replace(/\. /g, '.\n').replace(/\? /g, '?\n').replace(/! /g, '!\n')` of the
    JavaScript revisions, which the Python revision writes with `str.replace`. */
module Formatting {
  import opened Text

  /** One global replacement of the two characters `t` + space by `t` + newline:
      occurrences are found left to right and do not overlap. */
  function ReplaceAfter(s: string, t: char): (r: string)
    ensures |r| == |s|
  {
    if |s| < 2 then s
    else if s[0] == t && s[1] == ' ' then [t, '\n'] + ReplaceAfter(s[2..], t)
    else [s[0]] + ReplaceAfter(s[1..], t)
  }

  /** The three replacements in the order the source applies them. The result is
      the formatted text: no replacement can create or hide a pair for a later one,
      since each turns a space into a newline. */
  function ReplaceChain(s: string): (r: string)
    ensures r == Formatted(s)
  {
    ChainIsFormatted(s);
    ReplaceAfter(ReplaceAfter(ReplaceAfter(s, '.'), '?'), '!')
  }

  /** Position `i` holds the space of a terminator-space pair. */
  predicate BreaksAt(s: string, i: nat)
    requires i < |s|
  {
    i > 0 && IsTerminator(s[i - 1]) && s[i] == ' '
  }

  /** The formatted text, one character at a time: each space that follows a
      terminator becomes a newline; every other character stays. */
  function Formatted(s: string): (r: string)
    ensures |r| == |s|
  {
    seq(|s|, i requires 0 <= i < |s| => if BreaksAt(s, i) then '\n' else s[i])
  }

  /** One replacement pass, character by character. */
  lemma {:induction false} ReplaceAfterAt(s: string, t: char)
    requires t != ' '
    ensures forall i :: 0 <= i < |s| ==>
      ReplaceAfter(s, t)[i] == if i > 0 && s[i - 1] == t && s[i] == ' ' then '\n' else s[i]
  {
    if |s| >= 2 {
      var k := if s[0] == t && s[1] == ' ' then 2 else 1;
      var rest := s[k..];
      var r := ReplaceAfter(s, t);
      ReplaceAfterAt(rest, t);
      var head := if k == 2 then [t, '\n'] else [s[0]];
      assert r == head + ReplaceAfter(rest, t);
      forall i | 0 <= i < |s|
        ensures r[i] == if i > 0 && s[i - 1] == t && s[i] == ' ' then '\n' else s[i]
      {
        if i >= k {
          assert r[i] == ReplaceAfter(rest, t)[i - k];
          assert rest[i - k] == s[i];
          if i - k > 0 {
            assert rest[i - k - 1] == s[i - 1];
          }
        }
      }
    } else {
      assert ReplaceAfter(s, t) == s;
    }
  }

  lemma ReplaceAfterIndex(s: string, t: char, i: nat)
    requires t != ' ' && i < |s|
    ensures |ReplaceAfter(s, t)| == |s|
    ensures ReplaceAfter(s, t)[i] == if i > 0 && s[i - 1] == t && s[i] == ' ' then '\n' else s[i]
  {
    ReplaceAfterAt(s, t);
  }

  lemma ChainIsFormatted(s: string)
    ensures ReplaceAfter(ReplaceAfter(ReplaceAfter(s, '.'), '?'), '!') == Formatted(s)
  {
    var s1 := ReplaceAfter(s, '.');
    var s2 := ReplaceAfter(s1, '?');
    ReplaceAfterAt(s, '.');
    ReplaceAfterAt(s1, '?');
    ReplaceAfterAt(s2, '!');
    forall i | 0 <= i < |s|
      ensures ReplaceAfter(s2, '!')[i] == Formatted(s)[i]
    {
      ReplaceAfterIndex(s, '.', i);
      ReplaceAfterIndex(s1, '?', i);
      ReplaceAfterIndex(s2, '!', i);
      if i > 0 {
        ReplaceAfterIndex(s, '.', i - 1);
        ReplaceAfterIndex(s1, '?', i - 1);
      }
    }
  }

  /** The output contains no terminator followed by a space. */
  lemma FormattedHasNoBreakLeft(s: string)
    ensures forall i :: 0 < i < |s| ==> !BreaksAt(Formatted(s), i)
  {
  }

  /** Text without a terminator-space pair is returned unchanged, and only such text. */
  lemma FormattedUnchangedIff(s: string)
    ensures Formatted(s) == s <==> forall i :: 0 <= i < |s| ==> !BreaksAt(s, i)
  {
    if Formatted(s) == s {
      forall i | 0 <= i < |s|
        ensures !BreaksAt(s, i)
      {
        assert Formatted(s)[i] == s[i];
      }
    }
  }

  /** Formatting twice is formatting once. */
  lemma FormattedIdempotent(s: string)
    ensures Formatted(Formatted(s)) == Formatted(s)
  {
    FormattedHasNoBreakLeft(s);
    FormattedUnchangedIff(Formatted(s));
  }
}
