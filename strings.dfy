/**
 * The JavaScript string operations the todo logic relies on:
 * `String.prototype.trim`, `toLowerCase` / `toUpperCase` (ASCII letters
 * only) and `includes`.
 */
module Strings {

  /**
   * The characters `trim` strips: ECMAScript's WhiteSpace (tab, vertical
   * tab, form feed, the byte-order mark and every Unicode space separator)
   * together with its LineTerminators (line feed, carriage return, line and
   * paragraph separators).
   */
  predicate IsWhitespace(c: char) {
    || c == '\t' || c == '\n' || c == '\U{000B}' || c == '\U{000C}' || c == '\r'
    || c == ' ' || c == '\U{00A0}' || c == '\U{1680}'
    || ('\U{2000}' <= c <= '\U{200A}')
    || c == '\U{2028}' || c == '\U{2029}' || c == '\U{202F}' || c == '\U{205F}'
    || c == '\U{3000}' || c == '\U{FEFF}'
  }

  predicate AllWhitespace(s: string) {
    forall i :: 0 <= i < |s| ==> IsWhitespace(s[i])
  }

  /** A string with no whitespace at either end. */
  predicate IsTrimmed(s: string) {
    s == [] || (!IsWhitespace(s[0]) && !IsWhitespace(s[|s| - 1]))
  }

  /** The number of whitespace characters `s` starts with. */
  function LeadingWhitespace(s: string): (n: nat)
    ensures n <= |s|
    ensures n < |s| ==> !IsWhitespace(s[n])
  {
    if s != [] && IsWhitespace(s[0]) then
      var m := LeadingWhitespace(s[1..]);
      assert m < |s| - 1 ==> s[1..][m] == s[m + 1];
      1 + m
    else 0
  }

  lemma {:induction false} LeadingWhitespaceIsWhitespace(s: string)
    ensures forall i :: 0 <= i < LeadingWhitespace(s) ==> IsWhitespace(s[i])
  {
    if s != [] && IsWhitespace(s[0]) {
      LeadingWhitespaceIsWhitespace(s[1..]);
      forall i | 1 <= i < LeadingWhitespace(s)
        ensures IsWhitespace(s[i])
      {
        assert s[i] == s[1..][i - 1];
      }
    }
  }

  /** The number of whitespace characters `s` ends with. */
  function TrailingWhitespace(s: string): (n: nat)
    ensures n <= |s|
    ensures n < |s| ==> !IsWhitespace(s[|s| - 1 - n])
  {
    if s != [] && IsWhitespace(s[|s| - 1]) then
      var m := TrailingWhitespace(s[..|s| - 1]);
      assert m < |s| - 1 ==> s[..|s| - 1][|s| - 2 - m] == s[|s| - 2 - m];
      1 + m
    else 0
  }

  lemma {:induction false} TrailingWhitespaceIsWhitespace(s: string)
    ensures forall i :: |s| - TrailingWhitespace(s) <= i < |s| ==> IsWhitespace(s[i])
  {
    if s != [] && IsWhitespace(s[|s| - 1]) {
      var t := s[..|s| - 1];
      TrailingWhitespaceIsWhitespace(t);
      forall i | |s| - TrailingWhitespace(s) <= i < |s| - 1
        ensures IsWhitespace(s[i])
      {
        assert s[i] == t[i];
      }
    }
  }

  /** `s` without its leading whitespace. */
  function TrimStart(s: string): string {
    s[LeadingWhitespace(s)..]
  }

  /** `s` without its trailing whitespace. */
  function TrimEnd(s: string): string {
    s[..|s| - TrailingWhitespace(s)]
  }

  /** JavaScript's `s.trim()`. */
  function Trim(s: string): (r: string)
    ensures |r| <= |s|
    ensures IsTrimmed(r)
  {
    var a := TrimStart(s);
    var b := TrimEnd(a);
    assert b != [] ==> b[0] == s[LeadingWhitespace(s)];
    assert b != [] ==> b[|b| - 1] == a[|a| - 1 - TrailingWhitespace(a)];
    b
  }

  /** The trimmed string is the slice of `s` that starts after the leading whitespace. */
  lemma TrimIsSlice(s: string)
    ensures var k := LeadingWhitespace(s);
      k + |Trim(s)| <= |s| && Trim(s) == s[k..k + |Trim(s)|]
  {
    var k := LeadingWhitespace(s);
    SliceOfSuffix(s, k, |Trim(s)|);
  }

  /** What `trim` cuts off on either side is whitespace. */
  lemma TrimCutsWhitespace(s: string)
    ensures var k := LeadingWhitespace(s);
      && k + |Trim(s)| <= |s|
      && AllWhitespace(s[..k]) && AllWhitespace(s[k + |Trim(s)|..])
  {
    var k := LeadingWhitespace(s);
    var a := TrimStart(s);
    var n := |Trim(s)|;
    LeadingWhitespaceIsWhitespace(s);
    TrailingWhitespaceIsWhitespace(a);
    var e := s[k + n..];
    forall j | 0 <= j < |e|
      ensures IsWhitespace(e[j])
    {
      assert e[j] == a[n + j];
    }
  }

  /**
   * The trimmed string is the slice of `s` left after cutting whitespace off
   * either side, and it has no whitespace at its ends.
   */
  lemma TrimCharacterization(s: string)
    ensures IsTrimmed(Trim(s))
    ensures var k := LeadingWhitespace(s);
      && k + |Trim(s)| <= |s|
      && Trim(s) == s[k..k + |Trim(s)|]
      && AllWhitespace(s[..k]) && AllWhitespace(s[k + |Trim(s)|..])
  {
    TrimIsSlice(s);
    TrimCutsWhitespace(s);
  }

  /** Slicing the suffix `s[k..]` is slicing `s` at offsets shifted by `k`. */
  lemma SliceOfSuffix<T>(s: seq<T>, k: int, n: int)
    requires 0 <= k <= k + n <= |s|
    ensures s[k..][..n] == s[k..k + n] && s[k..][n..] == s[k + n..]
  {
  }

  lemma TrimStartStartsClean(s: string)
    ensures TrimStart(s) == [] || !IsWhitespace(TrimStart(s)[0])
  {
    var k := LeadingWhitespace(s);
    assert TrimStart(s) != [] ==> TrimStart(s)[0] == s[k];
  }

  lemma {:induction false} LeadingWhitespaceOfBlank(s: string)
    requires AllWhitespace(s)
    ensures LeadingWhitespace(s) == |s|
  {
    if s != [] {
      LeadingWhitespaceOfBlank(s[1..]);
    }
  }

  /** The guard `!text.trim()` fires exactly for empty or whitespace-only text. */
  lemma TrimEmptyIffBlank(s: string)
    ensures Trim(s) == [] <==> AllWhitespace(s)
  {
    var k := LeadingWhitespace(s);
    if Trim(s) == [] {
      LeadingWhitespaceIsWhitespace(s);
      TrimStartStartsClean(s);
      TrailingWhitespaceIsWhitespace(TrimStart(s));
    }
    if AllWhitespace(s) {
      LeadingWhitespaceOfBlank(s);
    }
  }

  /** Trimming leaves a string alone exactly when it has no whitespace at its ends. */
  lemma TrimFixedIffTrimmed(s: string)
    ensures Trim(s) == s <==> IsTrimmed(s)
  {
    if IsTrimmed(s) && s != [] {
      assert LeadingWhitespace(s) == 0;
      assert TrailingWhitespace(s) == 0;
      assert s[0..] == s && s[..|s|] == s;
    }
  }

  /** `trim` is idempotent. */
  lemma TrimIdempotent(s: string)
    ensures Trim(Trim(s)) == Trim(s)
  {
    TrimCharacterization(s);
    TrimFixedIffTrimmed(Trim(s));
  }

  function LowerChar(c: char): (r: char)
    ensures 'A' <= c <= 'Z' ==> r as int == c as int + 32
    ensures !('A' <= c <= 'Z') ==> r == c
  {
    if 'A' <= c <= 'Z' then (c as int + 32) as char else c
  }

  function UpperChar(c: char): (r: char)
    ensures 'a' <= c <= 'z' ==> r as int == c as int - 32
    ensures !('a' <= c <= 'z') ==> r == c
  {
    if 'a' <= c <= 'z' then (c as int - 32) as char else c
  }

  /** `s.toLowerCase()` under ASCII case mapping. */
  function Lower(s: string): (r: string)
    ensures |r| == |s|
    ensures forall i :: 0 <= i < |s| ==> r[i] == LowerChar(s[i])
    ensures forall i :: 0 <= i < |r| ==> !('A' <= r[i] <= 'Z')
  {
    seq(|s|, i requires 0 <= i < |s| => LowerChar(s[i]))
  }

  /** A string without capital letters is its own lowercase. */
  lemma LowerWithoutCapitals(s: string)
    requires forall i :: 0 <= i < |s| ==> !('A' <= s[i] <= 'Z')
    ensures Lower(s) == s
  {
  }

  /** `s.toUpperCase()` under ASCII case mapping. */
  function Upper(s: string): (r: string)
    ensures |r| == |s|
    ensures forall i :: 0 <= i < |s| ==> r[i] == UpperChar(s[i])
  {
    seq(|s|, i requires 0 <= i < |s| => UpperChar(s[i]))
  }

  /** Lowercasing forgets the original case: upper- and lower-cased inputs lowercase alike. */
  lemma LowerIgnoresCase(s: string)
    ensures Lower(Upper(s)) == Lower(s)
    ensures Lower(Lower(s)) == Lower(s)
  {
  }

  /** Case mapping does not touch whitespace, so it does not change blankness. */
  lemma UpperKeepsBlankness(s: string)
    ensures Trim(Upper(s)) == [] <==> Trim(s) == []
  {
    TrimEmptyIffBlank(s);
    TrimEmptyIffBlank(Upper(s));
    var u := Upper(s);
    forall i | 0 <= i < |s|
      ensures IsWhitespace(u[i]) == IsWhitespace(s[i])
    {
      UpperCharKeepsWhitespace(s[i]);
    }
  }

  lemma UpperCharKeepsWhitespace(c: char)
    ensures IsWhitespace(UpperChar(c)) == IsWhitespace(c)
  {
  }

  lemma LowerKeepsBlankness(s: string)
    ensures Trim(Lower(s)) == [] <==> Trim(s) == []
  {
    TrimEmptyIffBlank(s);
    TrimEmptyIffBlank(Lower(s));
    var l := Lower(s);
    forall i | 0 <= i < |s|
      ensures IsWhitespace(l[i]) == IsWhitespace(s[i])
    {
      LowerCharKeepsWhitespace(s[i]);
    }
  }

  lemma LowerCharKeepsWhitespace(c: char)
    ensures IsWhitespace(LowerChar(c)) == IsWhitespace(c)
  {
  }

  /** `needle` occurs in `hay` starting at offset `i`. */
  predicate OccursAt(hay: string, needle: string, i: int) {
    0 <= i <= |hay| - |needle| && hay[i..i + |needle|] == needle
  }

  /** `hay.includes(needle)`: `needle` occurs in `hay` at some offset. */
  function Contains(hay: string, needle: string): (r: bool)
    ensures needle == [] ==> r
    ensures r ==> |needle| <= |hay|
    decreases |hay|
  {
    if |needle| > |hay| then false
    else hay[..|needle|] == needle || Contains(hay[1..], needle)
  }

  /** `Contains` agrees with the definition by an explicit offset. */
  lemma {:induction false} ContainsIffOccurs(hay: string, needle: string)
    ensures Contains(hay, needle) <==> exists i :: OccursAt(hay, needle, i)
    decreases |hay|
  {
    if |needle| <= |hay| {
      if hay[..|needle|] == needle {
        assert OccursAt(hay, needle, 0);
      } else {
        ContainsIffOccurs(hay[1..], needle);
        if exists j :: OccursAt(hay[1..], needle, j) {
          var j :| OccursAt(hay[1..], needle, j);
          OccursInTail(hay, needle, j + 1);
        }
        if exists i :: OccursAt(hay, needle, i) {
          var i :| OccursAt(hay, needle, i);
          assert hay[0..|needle|] == hay[..|needle|];
          OccursInTail(hay, needle, i);
        }
      }
    }
  }

  /** `ContainsIffOccurs` for every text at once. */
  lemma ContainsIffOccursEverywhere(needle: string)
    ensures forall hay :: Contains(hay, needle) <==> exists i :: OccursAt(hay, needle, i)
  {
    forall hay
      ensures Contains(hay, needle) <==> exists i :: OccursAt(hay, needle, i)
    {
      ContainsIffOccurs(hay, needle);
    }
  }

  /** An occurrence after the first character is an occurrence in the tail. */
  lemma OccursInTail(hay: string, needle: string, i: int)
    requires hay != [] && 1 <= i
    ensures OccursAt(hay, needle, i) <==> OccursAt(hay[1..], needle, i - 1)
  {
    if i <= |hay| - |needle| {
      var x, y := hay[i..i + |needle|], hay[1..][i - 1..i - 1 + |needle|];
      forall j | 0 <= j < |needle|
        ensures x[j] == y[j]
      {
        assert x[j] == hay[i + j] == y[j];
      }
      assert x == y;
    }
  }

  /** A non-empty needle can only be found where its first character occurs. */
  lemma {:induction false} ContainsNeedsFirstChar(hay: string, needle: string)
    requires needle != [] && Contains(hay, needle)
    ensures exists i :: 0 <= i < |hay| && hay[i] == needle[0]
    decreases |hay|
  {
    if hay[..|needle|] != needle {
      ContainsNeedsFirstChar(hay[1..], needle);
      var i :| 0 <= i < |hay[1..]| && hay[1..][i] == needle[0];
      assert hay[i + 1] == needle[0];
    } else {
      assert hay[0] == hay[..|needle|][0];
    }
  }
}
