/**
 * The string operations the domain relies on: Python's `str.strip()`,
 * `str.upper()`, `str.replace(c, '')`, the character classes of its regular
 * expressions, and the case-insensitive substring test behind the name
 * searches.
 */
module Text {

  /** Python's `str.isspace()`: the characters `str.strip()` removes. */
  predicate IsSpace(c: char) {
    var n := c as int;
    (9 <= n <= 13) || (28 <= n <= 32) || n == 0x85 || n == 0xA0 || n == 0x1680
    || (0x2000 <= n <= 0x200A) || n == 0x2028 || n == 0x2029 || n == 0x202F
    || n == 0x205F || n == 0x3000
  }

  predicate IsAsciiDigit(c: char) { '0' <= c <= '9' }

  predicate IsAsciiLetter(c: char) { 'a' <= c <= 'z' || 'A' <= c <= 'Z' }

  /** Every character of `s` satisfies `p`. */
  predicate All(s: string, p: char -> bool) {
    forall i :: 0 <= i < |s| ==> p(s[i])
  }

  /** The length of the longest prefix of `s` whose characters satisfy `p`. */
  function LeadingCount(s: string, p: char -> bool): (n: nat)
    ensures n <= |s|
    ensures forall k :: 0 <= k < n ==> p(s[k])
    ensures n < |s| ==> !p(s[n])
  {
    if |s| > 0 && p(s[0]) then 1 + LeadingCount(s[1..], p) else 0
  }

  /** The length of the longest suffix of `s` whose characters satisfy `p`. */
  function TrailingCount(s: string, p: char -> bool): (n: nat)
    ensures n <= |s|
    ensures forall k :: |s| - n <= k < |s| ==> p(s[k])
    ensures n < |s| ==> !p(s[|s| - 1 - n])
  {
    if |s| > 0 && p(s[|s| - 1]) then 1 + TrailingCount(s[..|s| - 1], p) else 0
  }

  /** The two properties above determine the leading count. */
  lemma LeadingCountIs(s: string, p: char -> bool, n: nat)
    requires n <= |s|
    requires forall k :: 0 <= k < n ==> p(s[k])
    requires n < |s| ==> !p(s[n])
    ensures LeadingCount(s, p) == n
  {
  }

  /** The two properties above determine the trailing count. */
  lemma TrailingCountIs(s: string, p: char -> bool, n: nat)
    requires n <= |s|
    requires forall k :: |s| - n <= k < |s| ==> p(s[k])
    requires n < |s| ==> !p(s[|s| - 1 - n])
    ensures TrailingCount(s, p) == n
  {
  }

  /** `r` is the piece of `s` at position `i`, with only whitespace around it. */
  predicate CutAt(s: string, r: string, i: int) {
    && 0 <= i <= |s| - |r|
    && r == s[i..i + |r|]
    && (forall k :: 0 <= k < i ==> IsSpace(s[k]))
    && (forall k :: i + |r| <= k < |s| ==> IsSpace(s[k]))
  }

  /**
   * Python's `str.strip()`: `s` without its leading and trailing whitespace.
   * The result is the infix of `s` left after cutting whitespace from both
   * ends, and it neither starts nor ends with whitespace.
   */
  function Strip(s: string): (r: string)
    ensures |r| <= |s|
    ensures r == [] || (!IsSpace(r[0]) && !IsSpace(r[|r| - 1]))
    ensures exists i :: CutAt(s, r, i)
  {
    var lead := LeadingCount(s, IsSpace);
    var trail := TrailingCount(s[lead..], IsSpace);
    StripCut(s, lead, trail);
    s[lead..|s| - trail]
  }

  lemma StripCut(s: string, lead: nat, trail: nat)
    requires lead == LeadingCount(s, IsSpace)
    requires trail == TrailingCount(s[lead..], IsSpace)
    ensures lead + trail <= |s|
    ensures CutAt(s, s[lead..|s| - trail], lead)
    ensures var r := s[lead..|s| - trail]; r == [] || (!IsSpace(r[0]) && !IsSpace(r[|r| - 1]))
  {
    var rest := s[lead..];
    assert forall k :: |rest| - trail <= k < |rest| ==> IsSpace(rest[k]);
    forall k | |s| - trail <= k < |s|
      ensures IsSpace(s[k])
    {
      assert s[k] == rest[k - lead];
    }
  }

  /** A string with no whitespace at either end is its own strip. */
  lemma StripOfStripped(s: string)
    requires s == [] || (!IsSpace(s[0]) && !IsSpace(s[|s| - 1]))
    ensures Strip(s) == s
  {
    LeadingCountIs(s, IsSpace, 0);
    TrailingCountIs(s, IsSpace, 0);
  }

  /** Stripping twice is stripping once. */
  lemma StripIdempotent(s: string)
    ensures Strip(Strip(s)) == Strip(s)
  {
    StripOfStripped(Strip(s));
  }

  /** Python's `str.upper()` on one character (ASCII letters only). */
  function UpperChar(c: char): char {
    if 'a' <= c <= 'z' then (c as int - 32) as char else c
  }

  /** Python's `str.upper()` (ASCII letters only): the same length, each character upper-cased. */
  function Upper(s: string): (r: string)
    ensures |r| == |s|
    ensures forall i :: 0 <= i < |s| ==> r[i] == UpperChar(s[i])
  {
    if s == [] then [] else [UpperChar(s[0])] + Upper(s[1..])
  }

  /** Upper-casing twice is upper-casing once. */
  lemma UpperIdempotent(s: string)
    ensures Upper(Upper(s)) == Upper(s)
  {
    assert forall i :: 0 <= i < |s| ==> UpperChar(UpperChar(s[i])) == UpperChar(s[i]);
  }

  /** `needle` occurs in `hay` as a contiguous piece. */
  predicate IsInfix(needle: string, hay: string)
    decreases |hay|
  {
    |needle| <= |hay|
    && (needle == hay[..|needle|] || (|hay| > 0 && IsInfix(needle, hay[1..])))
  }

  /** A copy of `needle` starts at position `i` of `hay`. */
  predicate OccursAt(needle: string, hay: string, i: int) {
    0 <= i <= |hay| - |needle| && hay[i..i + |needle|] == needle
  }

  /** `IsInfix` is "some position of `hay` starts a copy of `needle`". */
  lemma {:induction false} IsInfixAt(needle: string, hay: string)
    ensures IsInfix(needle, hay) <==> exists i :: OccursAt(needle, hay, i)
    decreases |hay|
  {
    if |needle| > |hay| {
    } else if needle == hay[..|needle|] {
      assert OccursAt(needle, hay, 0);
    } else if |hay| > 0 {
      var tail := hay[1..];
      IsInfixAt(needle, tail);
      if IsInfix(needle, tail) {
        var i :| OccursAt(needle, tail, i);
        assert hay[i + 1..i + 1 + |needle|] == tail[i..i + |needle|];
        assert OccursAt(needle, hay, i + 1);
      } else {
        forall i | 0 < i <= |hay| - |needle|
          ensures !OccursAt(needle, hay, i)
        {
          assert hay[i..i + |needle|] == tail[i - 1..i - 1 + |needle|];
          assert !OccursAt(needle, tail, i - 1);
        }
        assert !OccursAt(needle, hay, 0);
      }
    }
  }

  /**
   * Case-insensitive containment, the `icontains` lookup behind the name
   * searches (ASCII case folding).
   */
  predicate ContainsIgnoreCase(hay: string, needle: string) {
    IsInfix(Upper(needle), Upper(hay))
  }

  /** Python's `s.replace(c, '')`: every occurrence of `c` removed, the rest kept in order. */
  function Without(s: string, c: char): (r: string)
    ensures |r| <= |s|
    ensures forall x :: x in r <==> x in s && x != c
  {
    if s == [] then [] else (if s[0] == c then [] else [s[0]]) + Without(s[1..], c)
  }

  /** Removing a character that does not occur leaves the text as it is. */
  lemma {:induction false} WithoutAbsent(s: string, c: char)
    requires c !in s
    ensures Without(s, c) == s
  {
    if s != [] {
      assert s[1..] == s[1..] && c !in s[1..];
      WithoutAbsent(s[1..], c);
      assert s == [s[0]] + s[1..];
    }
  }

  /** Removing a character distributes over concatenation. */
  lemma {:induction false} WithoutAppend(a: string, b: string, c: char)
    ensures Without(a + b, c) == Without(a, c) + Without(b, c)
  {
    if a == [] {
      assert a + b == b;
    } else {
      assert (a + b)[1..] == a[1..] + b;
      WithoutAppend(a[1..], b, c);
    }
  }

  /** Removing `c` also removes one `c` inserted in the middle. */
  lemma WithoutInserted(a: string, b: string, c: char, d: char)
    ensures Without(a + [c] + b, d) == Without(a, d) + (if c == d then [] else [c]) + Without(b, d)
  {
    WithoutAppend(a + [c], b, d);
    WithoutAppend(a, [c], d);
    assert [c][1..] == [];
  }

  /**
   * What `re.match(r'^P$', s)` accepts when `full` says whether a whole string
   * matches P: Python's `$` also matches just before one final newline, so a
   * match followed by a single '\n' is accepted too.
   */
  predicate DollarMatch(s: string, full: string -> bool) {
    full(s) || (|s| > 0 && s[|s| - 1] == '\n' && full(s[..|s| - 1]))
  }
}
