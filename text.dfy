/** The string operations the views rely on: Python's `str.strip()`, and the
    case-insensitive comparisons behind the ORM lookups `__iexact` and
    `__icontains` (and `str.lower()`), taken as ASCII case folding. */
module Text {

  predicate IsUpper(c: char)
  {
    'A' <= c <= 'Z'
  }

  /** ASCII lower-casing of one character; every other character is kept. */
  function Lower(c: char): (r: char)
    ensures !IsUpper(r)
    ensures IsUpper(c) ==> r as int == c as int + 32
    ensures IsUpper(c) || r == c
  {
    if IsUpper(c) then (c as int + 32) as char else c
  }

  function LowerStr(s: string): (r: string)
    ensures |r| == |s|
    ensures forall i :: 0 <= i < |s| ==> r[i] == Lower(s[i])
  {
    seq(|s|, i requires 0 <= i < |s| => Lower(s[i]))
  }

  /** Lower-casing a lower-cased string changes nothing. */
  lemma LowerStrIdempotent(s: string)
    ensures LowerStr(LowerStr(s)) == LowerStr(s)
  {
  }

  /** `a__iexact=b`. */
  predicate EqualsIgnoreCase(a: string, b: string)
  {
    LowerStr(a) == LowerStr(b)
  }

  /** `needle` occurs in `hay` starting at position `i`. */
  predicate OccursAt(needle: string, hay: string, i: int)
  {
    0 <= i <= |hay| - |needle| && hay[i..i + |needle|] == needle
  }

  /** `needle` occurs in `hay` as a contiguous run. */
  predicate IsSubstring(needle: string, hay: string)
  {
    exists i | 0 <= i <= |hay| - |needle| :: OccursAt(needle, hay, i)
  }

  /** `hay__icontains=needle`. */
  predicate ContainsIgnoreCase(hay: string, needle: string)
  {
    IsSubstring(LowerStr(needle), LowerStr(hay))
  }

  /** The characters Python's `str.isspace()` accepts, hence those `strip()` removes. */
  predicate IsSpace(c: char)
  {
    c == ' ' || '\t' <= c <= '\r' || '\U{1c}' <= c <= '\U{1f}' || c == '\U{85}' || c == '\U{a0}'
    || c == '\U{1680}' || '\U{2000}' <= c <= '\U{200a}' || c == '\U{2028}' || c == '\U{2029}'
    || c == '\U{202f}' || c == '\U{205f}' || c == '\U{3000}'
  }

  predicate IsBlank(s: string)
  {
    forall i :: 0 <= i < |s| ==> IsSpace(s[i])
  }

  /** Length of the run of whitespace that starts `s`. */
  function LeadingSpaces(s: string): (k: nat)
    ensures k <= |s|
    ensures IsBlank(s[..k])
    ensures k < |s| ==> !IsSpace(s[k])
  {
    if s == [] || !IsSpace(s[0]) then 0
    else
      var k := 1 + LeadingSpaces(s[1..]);
      assert s[..k] == [s[0]] + s[1..][..k - 1];
      k
  }

  /** Length of the run of whitespace that ends `s`. */
  function TrailingSpaces(s: string): (k: nat)
    ensures k <= |s|
    ensures IsBlank(s[|s| - k..])
    ensures k < |s| ==> !IsSpace(s[|s| - 1 - k])
  {
    if s == [] || !IsSpace(s[|s| - 1]) then 0
    else
      var t := s[..|s| - 1];
      var k := 1 + TrailingSpaces(t);
      assert s[|s| - k..] == t[|t| - (k - 1)..] + [s[|s| - 1]];
      k
  }

  /** Python's `str.strip()`: the longest middle part of `s` that neither
      starts nor ends with whitespace; it is empty exactly when `s` is blank. */
  function Strip(s: string): (r: string)
    ensures r == [] <==> IsBlank(s)
    ensures r != [] ==> !IsSpace(r[0]) && !IsSpace(r[|r| - 1])
    ensures exists a :: StrippedAt(s, r, a)
  {
    var a := LeadingSpaces(s);
    if a == |s| then
      assert s[..a] == s;
      assert StrippedAt(s, [], a);
      []
    else
      var e := |s| - TrailingSpaces(s);
      assert StrippedAt(s, s[a..e], a);
      s[a..e]
  }

  /** `r` sits at position `a` of `s` with only whitespace around it. */
  predicate StrippedAt(s: string, r: string, a: int)
  {
    0 <= a <= |s| - |r| && s[a..a + |r|] == r && IsBlank(s[..a]) && IsBlank(s[a + |r|..])
  }
}
