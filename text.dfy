/** The string primitives the tracker relies on: `String.prototype.trim`,
    `toLowerCase` (ASCII letters only) and `includes`. */
module Text {

  /** The characters `String.prototype.trim` removes: ECMAScript WhiteSpace
      (tab, vertical tab, form feed, no-break space, byte order mark and every
      Unicode space separator) and LineTerminator (LF, CR, U+2028, U+2029). */
  predicate IsWhitespace(c: char) {
    c == '\t' || c == '\n' || c == '\U{0B}' || c == '\U{0C}' || c == '\r' ||
    c == ' ' || c == '\U{A0}' || c == '\U{1680}' ||
    ('\U{2000}' <= c <= '\U{200A}') ||
    c == '\U{2028}' || c == '\U{2029}' || c == '\U{202F}' || c == '\U{205F}' ||
    c == '\U{3000}' || c == '\U{FEFF}'
  }

  /** Every character of `s` is whitespace (the empty string included). */
  predicate IsBlank(s: string) {
    forall i :: 0 <= i < |s| ==> IsWhitespace(s[i])
  }

  /** `s` without its leading whitespace. */
  function TrimStart(s: string): (r: string)
    ensures |r| <= |s| && r == s[|s| - |r|..]
    ensures r == [] || !IsWhitespace(r[0])
    ensures IsBlank(s[..|s| - |r|])
  {
    if s != [] && IsWhitespace(s[0]) then TrimStart(s[1..]) else s
  }

  /** `s` without its trailing whitespace. */
  function TrimEnd(s: string): (r: string)
    ensures |r| <= |s| && r == s[..|r|]
    ensures r == [] || !IsWhitespace(r[|r| - 1])
    ensures IsBlank(s[|r|..])
  {
    if s != [] && IsWhitespace(s[|s| - 1]) then TrimEnd(s[..|s| - 1]) else s
  }

  /** `String.prototype.trim`: neither end of the result is whitespace. */
  function Trim(s: string): (r: string)
    ensures r == [] || (!IsWhitespace(r[0]) && !IsWhitespace(r[|r| - 1]))
  {
    var u := TrimStart(s);
    var r := TrimEnd(u);
    TrimmedMiddle(s, u, r);
    r
  }

  /** What `trim` leaves is the stretch of `s` between a blank prefix and a
      blank suffix. */
  lemma TrimIsMiddle(s: string)
    ensures var r := Trim(s);
      exists i :: 0 <= i <= |s| - |r| && s[i..i + |r|] == r && IsBlank(s[..i]) && IsBlank(s[i + |r|..])
  {
    TrimmedMiddle(s, TrimStart(s), Trim(s));
  }

  /** A blank-headed suffix `u` of `s`, cut to a prefix `r` with a blank tail,
      is a middle of `s` between a blank prefix and a blank suffix. */
  lemma TrimmedMiddle(s: string, u: string, r: string)
    requires |u| <= |s| && u == s[|s| - |u|..] && IsBlank(s[..|s| - |u|])
    requires u == [] || !IsWhitespace(u[0])
    requires |r| <= |u| && r == u[..|r|] && IsBlank(u[|r|..])
    requires r == [] || !IsWhitespace(r[|r| - 1])
    ensures exists i :: 0 <= i <= |s| - |r| && s[i..i + |r|] == r && IsBlank(s[..i]) && IsBlank(s[i + |r|..])
    ensures r == [] || (!IsWhitespace(r[0]) && !IsWhitespace(r[|r| - 1]))
  {
    var i := |s| - |u|;
    assert s[i..i + |r|] == r;
    assert s[i + |r|..] == u[|r|..];
  }

  /** Trimming leaves nothing exactly when the string is all whitespace. */
  lemma TrimEmptyIffBlank(s: string)
    ensures Trim(s) == "" <==> IsBlank(s)
  {
  }

  /** `toLowerCase` on one character, for the ASCII letters A-Z. */
  function LowerChar(c: char): (d: char)
    ensures 'A' <= c <= 'Z' ==> 'a' <= d <= 'z' && d as int - c as int == 32
    ensures !('A' <= c <= 'Z') ==> d == c
  {
    if 'A' <= c <= 'Z' then (c as int + 32) as char else c
  }

  /** `toLowerCase` on a string, ASCII letters only, character by character. */
  function Lower(s: string): (r: string)
    ensures |r| == |s|
    ensures forall i :: 0 <= i < |s| ==> r[i] == LowerChar(s[i])
  {
    seq(|s|, i requires 0 <= i < |s| => LowerChar(s[i]))
  }

  /** Lower-casing leaves no capital letter, so doing it again changes nothing. */
  lemma LowerLeavesNoCapital(s: string)
    ensures forall i :: 0 <= i < |s| ==> !('A' <= Lower(s)[i] <= 'Z')
    ensures Lower(Lower(s)) == Lower(s)
  {
  }

  /** `needle` occurs in `hay` starting at index `i`. */
  predicate OccursAt(hay: string, needle: string, i: int) {
    0 <= i && i + |needle| <= |hay| && hay[i..i + |needle|] == needle
  }

  /** `needle` occurs in `hay` at index `i` when the two are compared character
      by character with the case of ASCII letters ignored. */
  predicate OccursAtIgnoringCase(hay: string, needle: string, i: int) {
    0 <= i && i + |needle| <= |hay| &&
    forall j :: 0 <= j < |needle| ==> LowerChar(hay[i + j]) == LowerChar(needle[j])
  }

  /** Comparing lower-cased copies is comparing ignoring case. */
  lemma LowerOccursAt(hay: string, needle: string, i: int)
    ensures OccursAt(Lower(hay), Lower(needle), i) <==> OccursAtIgnoringCase(hay, needle, i)
  {
    if 0 <= i && i + |needle| <= |hay| {
      var window := Lower(hay)[i..i + |needle|];
      assert forall j :: 0 <= j < |needle| ==> window[j] == LowerChar(hay[i + j]);
      if OccursAtIgnoringCase(hay, needle, i) {
        assert window == Lower(needle);
      }
    }
  }

  /** `String.prototype.includes`: scans the start positions left to right. */
  function Includes(hay: string, needle: string): (b: bool)
    ensures b <==> exists i :: OccursAt(hay, needle, i)
    decreases |hay|
  {
    if |needle| > |hay| then
      assert forall i :: !OccursAt(hay, needle, i);
      false
    else if hay[..|needle|] == needle then
      assert OccursAt(hay, needle, 0);
      true
    else
      var rest := Includes(hay[1..], needle);
      assert forall i :: OccursAt(hay[1..], needle, i) <==> OccursAt(hay, needle, i + 1) by {
        forall i ensures OccursAt(hay[1..], needle, i) <==> OccursAt(hay, needle, i + 1) {
          if 0 <= i && i + |needle| <= |hay[1..]| {
            assert hay[1..][i..i + |needle|] == hay[i + 1..i + 1 + |needle|];
          }
        }
      }
      assert forall i :: OccursAt(hay, needle, i) ==> i == 0 || OccursAt(hay[1..], needle, i - 1);
      rest
  }

  /** A needle whose first character never occurs in `hay` is not found. */
  lemma FirstCharMissing(hay: string, needle: string)
    requires needle != [] && forall i :: 0 <= i < |hay| ==> hay[i] != needle[0]
    ensures !Includes(hay, needle)
  {
    forall i ensures !OccursAt(hay, needle, i) {
      if 0 <= i && i + |needle| <= |hay| {
        assert hay[i..i + |needle|][0] == hay[i];
      }
    }
  }

  /** The empty search term is found in every string. */
  lemma EmptyIsIncluded(hay: string)
    ensures Includes(hay, "")
  {
  }
}
