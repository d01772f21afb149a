/**
 * The three string primitives the message handler is built from:
 * `String.prototype.trim`, `String.prototype.toLowerCase` and
 * `String.prototype.includes`.
 */
module Text {

  /** The characters `trim` strips: ECMAScript's WhiteSpace and LineTerminator code points. */
  const Whitespace: string :=
    ['\t', '\n', '\U{000B}', '\U{000C}', '\r', ' ', '\U{00A0}', '\U{1680}',
     '\U{2000}', '\U{2001}', '\U{2002}', '\U{2003}', '\U{2004}', '\U{2005}',
     '\U{2006}', '\U{2007}', '\U{2008}', '\U{2009}', '\U{200A}',
     '\U{2028}', '\U{2029}', '\U{202F}', '\U{205F}', '\U{3000}', '\U{FEFF}']

  /** `c` is one of the characters of `cs`. */
  predicate Among(c: char, cs: string) {
    cs != [] && (cs[0] == c || Among(c, cs[1..]))
  }

  predicate IsSpace(c: char) {
    Among(c, Whitespace)
  }

  lemma {:induction false} NotAmong(c: char, cs: string)
    requires forall k :: 0 <= k < |cs| ==> cs[k] != c
    ensures !Among(c, cs)
  {
    if cs != [] {
      NotAmong(c, cs[1..]);
    }
  }

  lemma {:induction false} AmongMember(c: char, cs: string)
    requires c in cs
    ensures Among(c, cs)
  {
    if cs[0] != c {
      AmongMember(c, cs[1..]);
    }
  }

  lemma SpaceIsSpace()
    ensures IsSpace(' ')
  {
    assert Whitespace[5] == ' ';
    AmongMember(' ', Whitespace);
  }

  /** No visible ASCII character ('!' to '~') is whitespace. */
  lemma VisibleAsciiNotSpace(c: char)
    requires '!' <= c <= '~'
    ensures !IsSpace(c)
  {
    assert forall k :: 0 <= k < |Whitespace| ==> Whitespace[k] < '!' || '~' < Whitespace[k];
    NotAmong(c, Whitespace);
  }

  predicate AllSpace(s: string) {
    forall k :: 0 <= k < |s| ==> IsSpace(s[k])
  }

  /** Neither the first nor the last character of `s` is whitespace. */
  predicate NoEdgeSpace(s: string) {
    s == [] || (!IsSpace(s[0]) && !IsSpace(s[|s| - 1]))
  }

  /** The length of the longest all-whitespace prefix of `s`. */
  function LeadingSpaces(s: string): (n: nat)
    ensures n <= |s|
    ensures forall k :: 0 <= k < n ==> IsSpace(s[k])
    ensures n < |s| ==> !IsSpace(s[n])
  {
    if |s| > 0 && IsSpace(s[0]) then
      1 + LeadingSpaces(s[1..])
    else
      0
  }

  /** The length of the longest all-whitespace suffix of `s`. */
  function TrailingSpaces(s: string): (n: nat)
    ensures n <= |s|
    ensures forall k :: |s| - n <= k < |s| ==> IsSpace(s[k])
    ensures n < |s| ==> !IsSpace(s[|s| - 1 - n])
  {
    if |s| > 0 && IsSpace(s[|s| - 1]) then
      1 + TrailingSpaces(s[..|s| - 1])
    else
      0
  }

  /**
   * `s.trim()`: `s` with its leading and trailing whitespace removed.
   * The lemmas below show that the result is a slice of `s`, that everything
   * cut away is whitespace, and that what remains neither starts nor ends with
   * whitespace.
   */
  function Trim(s: string): (r: string)
    ensures |r| <= |s|
  {
    var i := LeadingSpaces(s);
    if i == |s| then []
    else
      var j := |s| - TrailingSpaces(s);
      s[i..j]
  }

  /** What `trim` returns neither starts nor ends with whitespace. */
  lemma TrimNoEdgeSpace(s: string)
    ensures NoEdgeSpace(Trim(s))
  {
  }

  /** What `trim` removes is whitespace: the result is a slice of `s` with only whitespace around it. */
  lemma TrimSlice(s: string)
    ensures exists i, j :: 0 <= i <= j <= |s| && Trim(s) == s[i..j]
                           && (forall k :: 0 <= k < i ==> IsSpace(s[k]))
                           && (forall k :: j <= k < |s| ==> IsSpace(s[k]))
  {
    var i := LeadingSpaces(s);
    if i == |s| {
      assert Trim(s) == s[i..i];
    } else {
      var j := |s| - TrailingSpaces(s);
      assert Trim(s) == s[i..j];
    }
  }

  lemma {:induction false} LeadingSpacesAfterPadding(a: string, t: string)
    requires AllSpace(a)
    ensures LeadingSpaces(a + t) == |a| + LeadingSpaces(t)
  {
    if a != [] {
      assert (a + t)[0] == a[0];
      assert (a + t)[1..] == a[1..] + t;
      LeadingSpacesAfterPadding(a[1..], t);
    } else {
      assert a + t == t;
    }
  }

  lemma {:induction false} TrailingSpacesBeforePadding(t: string, b: string)
    requires AllSpace(b)
    ensures TrailingSpaces(t + b) == TrailingSpaces(t) + |b|
  {
    if b != [] {
      assert (t + b)[|t + b| - 1] == b[|b| - 1];
      assert (t + b)[..|t + b| - 1] == t + b[..|b| - 1];
      TrailingSpacesBeforePadding(t, b[..|b| - 1]);
    } else {
      assert t + b == t;
    }
  }

  /** A string of whitespace only trims to the empty string. */
  lemma TrimAllSpace(s: string)
    requires AllSpace(s)
    ensures Trim(s) == []
  {
    assert s + [] == s;
    LeadingSpacesAfterPadding(s, []);
  }

  lemma PaddedEdges(a: string, r: string, b: string)
    requires AllSpace(a) && AllSpace(b) && r != [] && NoEdgeSpace(r)
    ensures LeadingSpaces(a + r + b) == |a|
    ensures TrailingSpaces(a + r + b) == |b|
  {
    assert a + (r + b) == (a + r) + b;
    PaddedFront(a, r + b, r[0]);
    PaddedBack(a + r, b, r[|r| - 1]);
  }

  lemma PaddedFront(a: string, t: string, c: char)
    requires AllSpace(a) && t != [] && t[0] == c && !IsSpace(c)
    ensures LeadingSpaces(a + t) == |a|
  {
    assert LeadingSpaces(t) == 0;
    LeadingSpacesAfterPadding(a, t);
  }

  lemma PaddedBack(t: string, b: string, c: char)
    requires AllSpace(b) && t != [] && t[|t| - 1] == c && !IsSpace(c)
    ensures TrailingSpaces(t + b) == |b|
  {
    assert TrailingSpaces(t) == 0;
    TrailingSpacesBeforePadding(t, b);
  }

  /**
   * Trimming is determined by the text between the whitespace padding:
   * whatever whitespace surrounds a string with no edge whitespace, `trim` returns exactly that string.
   */
  lemma TrimUnpads(a: string, r: string, b: string)
    requires AllSpace(a) && AllSpace(b) && NoEdgeSpace(r)
    ensures Trim(a + r + b) == r
  {
    var s := a + r + b;
    if r == [] {
      assert s == a + b;
      assert AllSpace(s) by {
        forall k | 0 <= k < |s| ensures IsSpace(s[k]) {
          if k < |a| { assert s[k] == a[k]; } else { assert s[k] == b[k - |a|]; }
        }
      }
      TrimAllSpace(s);
    } else {
      PaddedEdges(a, r, b);
      assert Trim(s) == s[|a|..|s| - |b|];
      assert s[|a|..|s| - |b|] == r;
    }
  }

  /** Trimming twice is trimming once. */
  lemma TrimIdempotent(s: string)
    ensures Trim(Trim(s)) == Trim(s)
  {
    var r := Trim(s);
    assert [] + r + [] == r;
    TrimNoEdgeSpace(s);
    TrimUnpads([], r, []);
  }

  /** `s.trim()` is empty exactly when `s` is nothing but whitespace. */
  lemma TrimEmptyIff(s: string)
    ensures Trim(s) == [] <==> AllSpace(s)
  {
    if AllSpace(s) {
      TrimAllSpace(s);
    } else {
      TrimSlice(s);
    }
  }

  function LowerChar(c: char): char
  {
    if IsUpper(c) then (c as int + 32) as char else c
  }

  /** A lower-cased character is not upper-case, and a character that is not upper-case is left alone. */
  lemma LowerCharSpec(c: char)
    ensures !IsUpper(LowerChar(c))
    ensures !IsUpper(c) ==> LowerChar(c) == c
  {
  }

  /**
   * The upper-case letters `toLowerCase` maps here: ASCII A-Z and the Latin-1
   * capitals U+00C0..U+00DE other than the multiplication sign U+00D7
   * (which covers the Spanish capitals Á, É, Í, Ñ, Ó, Ú, Ü).
   */
  predicate IsUpper(c: char) {
    ('A' <= c <= 'Z') || ('\U{00C0}' <= c <= '\U{00DE}' && c != '\U{00D7}')
  }

  /** `s.toLowerCase()`, character by character. */
  function Lower(s: string): (r: string)
    ensures |r| == |s|
  {
    seq(|s|, k requires 0 <= k < |s| => LowerChar(s[k]))
  }

  /** The lower-cased text has no upper-case letter left. */
  lemma LowerHasNoUpper(s: string)
    ensures forall k :: 0 <= k < |s| ==> !IsUpper(Lower(s)[k])
  {
    forall k | 0 <= k < |s| ensures !IsUpper(Lower(s)[k]) {
      LowerCharSpec(s[k]);
    }
  }

  /** Lower-casing twice is lower-casing once. */
  lemma LowerIdempotent(s: string)
    ensures Lower(Lower(s)) == Lower(s)
  {
    forall k | 0 <= k < |s| ensures Lower(Lower(s))[k] == Lower(s)[k] {
      LowerCharSpec(s[k]);
      LowerCharSpec(LowerChar(s[k]));
    }
  }

  /** Lower-casing commutes with taking a slice. */
  lemma LowerSlice(s: string, i: int, j: int)
    requires 0 <= i <= j <= |s|
    ensures Lower(s[i..j]) == Lower(s)[i..j]
  {
  }

  /** `hay.includes(needle)`: `needle` occurs in `hay` as a contiguous substring. */
  predicate Contains(hay: string, needle: string) {
    exists i :: 0 <= i <= |hay| - |needle| && OccursAt(hay, needle, i)
  }

  /** `needle` occurs in `hay` starting at position `i`. */
  predicate OccursAt(hay: string, needle: string, i: int) {
    0 <= i <= |hay| - |needle| && hay[i..i + |needle|] == needle
  }

  /** The empty string is found in every string (`"abc".includes("")` holds). */
  lemma ContainsEmpty(hay: string)
    ensures Contains(hay, [])
  {
    assert OccursAt(hay, [], 0);
  }

  /** A needle holding a character the haystack lacks is not found in it. */
  lemma MissingCharNotContained(hay: string, needle: string, k: nat)
    requires k < |needle| && needle[k] !in hay
    ensures !Contains(hay, needle)
  {
    forall i | 0 <= i <= |hay| - |needle|
      ensures !OccursAt(hay, needle, i)
    {
      assert hay[i + k] in hay;
    }
  }

  /** A case-sensitive occurrence is also a case-insensitive one. */
  lemma ContainsLower(hay: string, needle: string)
    requires Contains(hay, needle)
    ensures Contains(Lower(hay), Lower(needle))
  {
    var i :| 0 <= i <= |hay| - |needle| && OccursAt(hay, needle, i);
    assert hay[i..i + |needle|] == needle;
    LowerSlice(hay, i, i + |needle|);
    assert OccursAt(Lower(hay), Lower(needle), i);
  }

  /** Lower-casing the operands again changes nothing: the comparison is already case-insensitive. */
  lemma ContainsLowerStable(hay: string, needle: string)
    ensures Contains(Lower(Lower(hay)), Lower(Lower(needle))) == Contains(Lower(hay), Lower(needle))
  {
    LowerIdempotent(hay);
    LowerIdempotent(needle);
  }
}
