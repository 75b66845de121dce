/**
 * The few Foundation string operations the core uses: `uppercased()`,
 * `trimmingCharacters(in:)` with the `.whitespaces` and
 * `.whitespacesAndNewlines` character sets, and `hasPrefix`.
 */
module Text {

  /** The two Foundation character sets the core trims with. */
  datatype CharacterSet = Whitespaces | WhitespacesAndNewlines

  /** Unicode general category Zs (space separators). */
  predicate IsSpaceSeparator(c: char) {
    c == ' ' || c == '\U{00A0}' || c == '\U{1680}' || ('\U{2000}' <= c <= '\U{200A}')
    || c == '\U{202F}' || c == '\U{205F}' || c == '\U{3000}'
  }

  /**
   * `.whitespaces` is Zs plus tab; `.whitespacesAndNewlines` is every Z
   * category (adding the line and paragraph separators U+2028 and U+2029)
   * plus U+000A to U+000D and U+0085.
   */
  predicate InSet(c: char, cs: CharacterSet) {
    c == '\t' || IsSpaceSeparator(c)
    || (cs == WhitespacesAndNewlines
        && ('\n' <= c <= '\r' || c == '\U{0085}' || c == '\U{2028}' || c == '\U{2029}'))
  }

  function UpperChar(c: char): char {
    if 'a' <= c <= 'z' then (c as int - 32) as char else c
  }

  /** `uppercased()` over the ASCII letters. */
  function Uppercased(s: string): (r: string)
    ensures |r| == |s|
    ensures forall i :: 0 <= i < |s| ==> r[i] == UpperChar(s[i])
  {
    seq(|s|, i requires 0 <= i < |s| => UpperChar(s[i]))
  }

  /** Number of characters at the front of `s` that belong to `cs`. */
  function LeadingCount(s: string, cs: CharacterSet): (k: nat)
    ensures k <= |s|
    ensures forall i :: 0 <= i < k ==> InSet(s[i], cs)
    ensures k == |s| || !InSet(s[k], cs)
  {
    if s == [] || !InSet(s[0], cs) then 0 else 1 + LeadingCount(s[1..], cs)
  }

  /** Number of characters at the back of `s` that belong to `cs`. */
  function TrailingCount(s: string, cs: CharacterSet): (k: nat)
    ensures k <= |s|
    ensures forall i :: |s| - k <= i < |s| ==> InSet(s[i], cs)
    ensures k == |s| || !InSet(s[|s| - k - 1], cs)
  {
    if s == [] || !InSet(s[|s| - 1], cs) then 0 else 1 + TrailingCount(s[..|s| - 1], cs)
  }

  /**
   * `trimmingCharacters(in: cs)`: the longest infix of `s` that neither starts
   * nor ends with a character of `cs`; everything around it belongs to `cs`.
   */
  function Trimmed(s: string, cs: CharacterSet): (r: string)
    ensures LeadingCount(s, cs) + |r| <= |s|
    ensures r == s[LeadingCount(s, cs)..LeadingCount(s, cs) + |r|]
    ensures forall i :: 0 <= i < LeadingCount(s, cs) ==> InSet(s[i], cs)
    ensures forall i :: LeadingCount(s, cs) + |r| <= i < |s| ==> InSet(s[i], cs)
    ensures r == [] || (!InSet(r[0], cs) && !InSet(r[|r| - 1], cs))
  {
    var rest := s[LeadingCount(s, cs)..];
    rest[..|rest| - TrailingCount(rest, cs)]
  }

  /** The trim is empty exactly when every character of the input is in the set. */
  lemma TrimmedEmptyIff(s: string, cs: CharacterSet)
    ensures Trimmed(s, cs) == [] <==> forall i :: 0 <= i < |s| ==> InSet(s[i], cs)
  {
    var lead := LeadingCount(s, cs);
    if Trimmed(s, cs) != [] {
      assert !InSet(s[lead], cs);
    }
  }

  /** A string that already neither starts nor ends with a set character is left as it is. */
  lemma TrimmedUnchanged(s: string, cs: CharacterSet)
    requires s == [] || (!InSet(s[0], cs) && !InSet(s[|s| - 1], cs))
    ensures Trimmed(s, cs) == s
  {
    assert LeadingCount(s, cs) == 0;
    assert TrailingCount(s, cs) == 0;
  }

  /** Uppercasing maps every set character to itself and no other character into the set. */
  lemma UpperCharKeepsSet(c: char, cs: CharacterSet)
    ensures InSet(UpperChar(c), cs) <==> InSet(c, cs)
  {
  }

  predicate HasPrefix(s: string, p: string) {
    |p| <= |s| && s[..|p|] == p
  }
}
