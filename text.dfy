/** Character classes and the string transformations that every revision of the
    text-metrics engine relies on: the regular-expression class `\w`, the
    sentence terminators, the whitespace that `trim()` / `strip()` remove, and
    lower-casing. */
module Text {

  /** `\w` of a JavaScript regular expression without the `u` flag:
      ASCII letters, ASCII digits and the underscore. */
  predicate IsWordChar(c: char) {
    ('a' <= c <= 'z') || ('A' <= c <= 'Z') || ('0' <= c <= '9') || c == '_'
  }

  /** The character class `[.!?]` that ends a sentence. */
  predicate IsTerminator(c: char) {
    c == '.' || c == '!' || c == '?'
  }

  /** Which runtime strips the sentence pieces: JavaScript's `String.prototype.trim`
      or Python's `str.strip()` without arguments. */
  datatype TrimFlavor = JsTrim | PyStrip

  /** Whitespace both runtimes remove: the ASCII controls TAB..CR, SPACE, the
      Unicode space separators (category Zs) and the line/paragraph separators. */
  predicate IsCommonSpace(c: char) {
    ('\U{9}' <= c <= '\U{D}') || c == ' ' || c == '\U{A0}' || c == '\U{1680}'
    || ('\U{2000}' <= c <= '\U{200A}') || c == '\U{2028}' || c == '\U{2029}'
    || c == '\U{202F}' || c == '\U{205F}' || c == '\U{3000}'
  }

  /** The whitespace removed by the given flavour of trimming: JavaScript adds the
      byte-order mark U+FEFF, Python adds the separators U+001C..U+001F and NEL. */
  predicate IsSpace(flavor: TrimFlavor, c: char)
  {
    IsCommonSpace(c) ||
    match flavor
    case JsTrim => c == '\U{FEFF}'
    case PyStrip => ('\U{1C}' <= c <= '\U{1F}') || c == '\U{85}'
  }

  /** Whitespace is neither a word character nor a terminator, for either runtime:
      trimming never removes part of a word, and splitting never happens at a space. */
  lemma SpaceIsSeparator(flavor: TrimFlavor, c: char)
    ensures IsSpace(flavor, c) ==> !IsWordChar(c) && !IsTerminator(c)
  {
  }

  /** Lower-casing of one character, restricted to ASCII. */
  function Lower(c: char): (d: char)
    ensures !('A' <= d <= 'Z')
    ensures IsWordChar(d) == IsWordChar(c)
    ensures !IsWordChar(c) ==> d == c
  {
    if 'A' <= c <= 'Z' then (c as int + 32) as char else c
  }

  /** `toLowerCase()` / `lower()` on ASCII text. */
  function LowerStr(s: string): (r: string)
    ensures |r| == |s|
    ensures forall i :: 0 <= i < |s| ==> r[i] == Lower(s[i])
  {
    seq(|s|, i requires 0 <= i < |s| => Lower(s[i]))
  }

  /** A string with no ASCII upper-case letter. */
  predicate IsLowerCase(s: string) {
    forall i :: 0 <= i < |s| ==> !('A' <= s[i] <= 'Z')
  }

  lemma LowerStrIsLowerCase(s: string)
    ensures IsLowerCase(LowerStr(s))
  {
  }

  /** Lower-casing commutes with taking a slice. */
  lemma LowerStrSlice(s: string, i: nat, j: nat)
    requires i <= j <= |s|
    ensures LowerStr(s)[i..j] == LowerStr(s[i..j])
  {
  }

  /** Lower-casing is idempotent, and leaves lower-case text as it is. */
  lemma LowerStrIdempotent(s: string)
    ensures LowerStr(LowerStr(s)) == LowerStr(s)
    ensures IsLowerCase(s) ==> LowerStr(s) == s
  {
  }
}
