/**
 * Character and string helpers shared by the model: ASCII classes, ASCII case
 * folding, whitespace trimming, prefix/suffix/substring tests, splitting on a
 * separator, decimal rendering and UTF-8 byte length.
 *
 * Rust strings are UTF-8 byte buffers; here a string is a sequence of Unicode
 * scalar values and `Utf8Len` gives the byte length that `str::len` reports.
 */
module Strings {

  predicate IsAsciiUpper(c: char) { 'A' <= c <= 'Z' }
  predicate IsAsciiLower(c: char) { 'a' <= c <= 'z' }
  predicate IsAsciiAlpha(c: char) { IsAsciiUpper(c) || IsAsciiLower(c) }
  predicate IsAsciiDigit(c: char) { '0' <= c <= '9' }
  predicate IsAsciiAlnum(c: char) { IsAsciiAlpha(c) || IsAsciiDigit(c) }

  predicate AllDigits(s: string) { forall i :: 0 <= i < |s| ==> IsAsciiDigit(s[i]) }

  /** The ASCII whitespace characters that `str::trim` removes. */
  predicate IsWhitespace(c: char) {
    c == ' ' || c == '\t' || c == '\n' || c == '\r' || c == '\U{000B}' || c == '\U{000C}'
  }

  function LowerChar(c: char): (r: char)
    ensures IsAsciiUpper(c) ==> IsAsciiLower(r)
    ensures !IsAsciiUpper(c) ==> r == c
  {
    if IsAsciiUpper(c) then (c as int + 32) as char else c
  }

  /** ASCII lower-casing, character by character. */
  function ToLower(s: string): (r: string)
    ensures |r| == |s|
    ensures forall i :: 0 <= i < |s| ==> r[i] == LowerChar(s[i])
  {
    seq(|s|, i requires 0 <= i < |s| => LowerChar(s[i]))
  }

  /** `str::eq_ignore_ascii_case`. */
  predicate EqIgnoreAsciiCase(a: string, b: string) {
    ToLower(a) == ToLower(b)
  }

  /** The first position at or after `i` that does not hold whitespace, or `|s|`. */
  function SkipSpace(s: string, i: nat): (k: nat)
    requires i <= |s|
    ensures i <= k <= |s|
    ensures k < |s| ==> !IsWhitespace(s[k])
    decreases |s| - i
  {
    if i < |s| && IsWhitespace(s[i]) then SkipSpace(s, i + 1) else i
  }

  /** Moving back from `j`, no further than `lo`: one past the last position that does not hold whitespace, or `lo`. */
  function SkipSpaceBack(s: string, lo: nat, j: nat): (k: nat)
    requires lo <= j <= |s|
    ensures lo <= k <= j
    ensures k > lo ==> !IsWhitespace(s[k - 1])
    decreases j - lo
  {
    if j > lo && IsWhitespace(s[j - 1]) then SkipSpaceBack(s, lo, j - 1) else j
  }

  /** Everything `SkipSpace` passes over is whitespace. */
  lemma {:induction false} SkippedAreSpaces(s: string, i: nat)
    requires i <= |s|
    ensures forall m :: i <= m < SkipSpace(s, i) ==> IsWhitespace(s[m])
    decreases |s| - i
  {
    if i < |s| && IsWhitespace(s[i]) {
      SkippedAreSpaces(s, i + 1);
    }
  }

  /** Everything `SkipSpaceBack` passes over is whitespace. */
  lemma {:induction false} SkippedBackAreSpaces(s: string, lo: nat, j: nat)
    requires lo <= j <= |s|
    ensures forall m :: SkipSpaceBack(s, lo, j) <= m < j ==> IsWhitespace(s[m])
    decreases j - lo
  {
    if j > lo && IsWhitespace(s[j - 1]) {
      SkippedBackAreSpaces(s, lo, j - 1);
    }
  }

  /** Over a stretch of whitespace `SkipSpace` runs to the end. */
  lemma {:induction false} SkipAllSpaces(s: string, i: nat)
    requires i <= |s| && forall m :: i <= m < |s| ==> IsWhitespace(s[m])
    ensures SkipSpace(s, i) == |s|
    decreases |s| - i
  {
    if i < |s| {
      SkipAllSpaces(s, i + 1);
    }
  }

  /**
   * `str::trim`: the longest middle part with no whitespace at either end; what
   * is cut off on either side is whitespace.
   */
  function Trim(s: string): (r: string)
    ensures r == [] || (!IsWhitespace(r[0]) && !IsWhitespace(r[|r| - 1]))
  {
    var a := SkipSpace(s, 0);
    s[a..SkipSpaceBack(s, a, |s|)]
  }

  /** What `Trim` cuts off on either side is whitespace, and it keeps the middle intact. */
  lemma TrimCutsOnlyWhitespace(s: string)
    ensures exists a, b ::
      && 0 <= a <= b <= |s| && Trim(s) == s[a..b]
      && (forall m :: 0 <= m < a ==> IsWhitespace(s[m]))
      && (forall m :: b <= m < |s| ==> IsWhitespace(s[m]))
  {
    var a := SkipSpace(s, 0);
    var b := SkipSpaceBack(s, a, |s|);
    SkippedAreSpaces(s, 0);
    SkippedBackAreSpaces(s, a, |s|);
    assert Trim(s) == s[a..b];
  }

  /** A string with no whitespace at either end is its own trim. */
  lemma TrimUnpadded(s: string)
    requires s == [] || (!IsWhitespace(s[0]) && !IsWhitespace(s[|s| - 1]))
    ensures Trim(s) == s
  {
    if s != [] {
      assert SkipSpace(s, 0) == 0;
      assert SkipSpaceBack(s, 0, |s|) == |s|;
      assert s[0..|s|] == s;
    }
  }

  /** An all-whitespace string trims to nothing. */
  lemma TrimBlank(s: string)
    requires forall m :: 0 <= m < |s| ==> IsWhitespace(s[m])
    ensures Trim(s) == []
  {
    SkipAllSpaces(s, 0);
  }

  /** Trimming twice is trimming once. */
  lemma TrimIdempotent(s: string)
    ensures Trim(Trim(s)) == Trim(s)
  {
    TrimUnpadded(Trim(s));
  }

  /** Lower-casing leaves whitespace alone and makes nothing whitespace. */
  lemma LowerKeepsWhitespace(c: char)
    ensures IsWhitespace(LowerChar(c)) <==> IsWhitespace(c)
  {
  }

  lemma {:induction false} SkipSpaceLower(s: string, i: nat)
    requires i <= |s|
    ensures SkipSpace(ToLower(s), i) == SkipSpace(s, i)
    decreases |s| - i
  {
    if i < |s| {
      LowerKeepsWhitespace(s[i]);
      SkipSpaceLower(s, i + 1);
    }
  }

  lemma {:induction false} SkipSpaceBackLower(s: string, lo: nat, j: nat)
    requires lo <= j <= |s|
    ensures SkipSpaceBack(ToLower(s), lo, j) == SkipSpaceBack(s, lo, j)
    decreases j - lo
  {
    if j > lo {
      LowerKeepsWhitespace(s[j - 1]);
      SkipSpaceBackLower(s, lo, j - 1);
    }
  }

  /** Trimming and ASCII lower-casing commute. */
  lemma TrimLowerCommute(s: string)
    ensures Trim(ToLower(s)) == ToLower(Trim(s))
  {
    SkipSpaceLower(s, 0);
    var a := SkipSpace(s, 0);
    SkipSpaceBackLower(s, a, |s|);
    var b := SkipSpaceBack(s, a, |s|);
    LowerSlice(s, a, b);
  }

  /** Lower-casing a slice is slicing the lower-cased string. */
  lemma LowerSlice(s: string, a: nat, b: nat)
    requires a <= b <= |s|
    ensures ToLower(s)[a..b] == ToLower(s[a..b])
  {
  }

  lemma LowerIdempotent(s: string)
    ensures ToLower(ToLower(s)) == ToLower(s)
  {
  }

  lemma {:induction false} SkipSpaceShift(s: string, c: char, i: nat)
    requires i <= |s|
    ensures SkipSpace([c] + s, i + 1) == SkipSpace(s, i) + 1
    decreases |s| - i
  {
    var t := [c] + s;
    if i < |s| {
      assert t[i + 1] == s[i];
      SkipSpaceShift(s, c, i + 1);
    }
  }

  lemma {:induction false} SkipSpaceBackShift(s: string, c: char, lo: nat, j: nat)
    requires lo <= j <= |s|
    ensures SkipSpaceBack([c] + s, lo + 1, j + 1) == SkipSpaceBack(s, lo, j) + 1
    decreases j - lo
  {
    var t := [c] + s;
    if j > lo {
      assert t[j] == s[j - 1];
      SkipSpaceBackShift(s, c, lo, j - 1);
    }
  }

  /** Whitespace added in front changes nothing after trimming. */
  lemma TrimIgnoresLeadingSpace(s: string, c: char)
    requires IsWhitespace(c)
    ensures Trim([c] + s) == Trim(s)
  {
    var t := [c] + s;
    SkipSpaceShift(s, c, 0);
    var a := SkipSpace(s, 0);
    SkipSpaceBackShift(s, c, a, |s|);
    var b := SkipSpaceBack(s, a, |s|);
    assert SkipSpace(t, 0) == a + 1 by {
      assert t[0] == c;
    }
    TrimBetween(t, a + 1, b + 1);
    ConsSlice(c, s, a, b);
  }

  /** `Trim` keeps what lies between the two skips. */
  lemma TrimBetween(s: string, a: nat, b: nat)
    requires a == SkipSpace(s, 0) && b == SkipSpaceBack(s, a, |s|)
    ensures Trim(s) == s[a..b]
  {
  }

  lemma ConsSlice(c: char, s: string, a: nat, b: nat)
    requires a <= b <= |s|
    ensures ([c] + s)[a + 1..b + 1] == s[a..b]
  {
  }

  lemma {:induction false} SkipSpaceAppend(s: string, c: char, i: nat)
    requires IsWhitespace(c) && i <= |s|
    ensures var k := SkipSpace(s, i);
      SkipSpace(s + [c], i) == if k == |s| then |s| + 1 else k
    decreases |s| - i
  {
    var t := s + [c];
    if i < |s| {
      assert t[i] == s[i];
      SkipSpaceAppend(s, c, i + 1);
    } else {
      assert t[i] == c;
    }
  }

  lemma {:induction false} SkipSpaceBackPrefix(s: string, c: char, lo: nat, j: nat)
    requires lo <= j <= |s|
    ensures SkipSpaceBack(s + [c], lo, j) == SkipSpaceBack(s, lo, j)
    decreases j - lo
  {
    if j > lo {
      assert (s + [c])[j - 1] == s[j - 1];
      SkipSpaceBackPrefix(s, c, lo, j - 1);
    }
  }

  /** Whitespace added at the end changes nothing after trimming. */
  lemma TrimIgnoresTrailingSpace(s: string, c: char)
    requires IsWhitespace(c)
    ensures Trim(s + [c]) == Trim(s)
  {
    var t := s + [c];
    SkipSpaceAppend(s, c, 0);
    var a := SkipSpace(s, 0);
    if a < |s| {
      assert SkipSpace(t, 0) == a;
      assert t[|t| - 1] == c;
      var bt := SkipSpaceBack(t, a, |t|);
      assert bt == SkipSpaceBack(t, a, |s|);
      SkipSpaceBackPrefix(s, c, a, |s|);
      var b := SkipSpaceBack(s, a, |s|);
      assert Trim(t) == t[a..b];
      assert t[a..b] == s[a..b];
    }
  }

  predicate StartsWith(s: string, p: string) { |p| <= |s| && s[..|p|] == p }
  predicate EndsWith(s: string, p: string) { |p| <= |s| && s[|s| - |p|..] == p }
  predicate OccursAt(s: string, p: string, i: int) {
    0 <= i <= |s| - |p| && s[i..i + |p|] == p
  }
  predicate Contains(s: string, p: string) {
    exists i :: 0 <= i <= |s| - |p| && OccursAt(s, p, i)
  }

  function IndexOf(s: string, c: char): (i: nat)
    requires c in s
    ensures i < |s| && s[i] == c && c !in s[..i]
  {
    if s[0] == c then 0 else 1 + IndexOf(s[1..], c)
  }

  /** `str::split(sep)`: the pieces between separators, empty pieces included. */
  function Split(s: string, sep: char): (parts: seq<string>)
    ensures |parts| >= 1
    decreases |s|
  {
    if sep !in s then [s]
    else
      var i := IndexOf(s, sep);
      [s[..i]] + Split(s[i + 1..], sep)
  }

  /**
   * `p` occurs in `s` at `i`, bounded on the left by the start or `sep`
   * and on the right by the end or `sep`.
   */
  predicate DelimitedAt(s: string, p: string, sep: char, i: int) {
    0 <= i && i + |p| <= |s| && s[i..i + |p|] == p
    && (i == 0 || s[i - 1] == sep)
    && (i + |p| == |s| || s[i + |p|] == sep)
  }

  lemma SliceOfSuffix(s: string, a: nat, j: nat, n: nat)
    requires a + j + n <= |s|
    ensures s[a..][j..j + n] == s[a + j..a + j + n]
  {
    var suffix := s[a..];
    var t, u := suffix[j..j + n], s[a + j..a + j + n];
    forall k | 0 <= k < n ensures t[k] == u[k] {
      assert t[k] == suffix[j + k] == s[a + j + k];
    }
  }

  /** A delimited occurrence in the text after a separator is a delimited occurrence in the whole. */
  lemma ShiftDelimited(s: string, sep: char, p: string, i0: nat, j: int)
    requires i0 < |s| && s[i0] == sep && DelimitedAt(s[i0 + 1..], p, sep, j)
    ensures DelimitedAt(s, p, sep, i0 + 1 + j)
  {
    var rest := s[i0 + 1..];
    var i := i0 + 1 + j;
    SliceOfSuffix(s, i0 + 1, j, |p|);
    assert j == 0 || s[i - 1] == rest[j - 1];
    assert i + |p| == |s| || s[i + |p|] == rest[j + |p|];
  }

  /** A delimited occurrence after the first separator is a delimited occurrence in the text after it. */
  lemma UnshiftDelimited(s: string, sep: char, p: string, i0: nat, i: int)
    requires i0 < |s| && s[i0] == sep && i > i0 && DelimitedAt(s, p, sep, i)
    ensures DelimitedAt(s[i0 + 1..], p, sep, i - i0 - 1)
  {
    var rest := s[i0 + 1..];
    var j := i - i0 - 1;
    SliceOfSuffix(s, i0 + 1, j, |p|);
    assert j == 0 || rest[j - 1] == s[i - 1];
    assert j + |p| == |rest| || rest[j + |p|] == s[i + |p|];
  }

  lemma FirstDelimitedIsHead(s: string, sep: char, p: string, i0: nat)
    requires i0 < |s| && s[i0] == sep && sep !in s[..i0]
    requires sep !in p && DelimitedAt(s, p, sep, 0)
    ensures p == s[..i0]
  {
    assert forall k :: 0 <= k < |p| ==> s[k] == p[k];
    assert forall k :: 0 <= k < i0 ==> s[..i0][k] == s[k];
    assert |p| == i0;
  }

  lemma LaterDelimitedIsAfterSeparator(s: string, sep: char, p: string, i0: nat, i: int)
    requires i0 < |s| && sep !in s[..i0]
    requires i != 0 && DelimitedAt(s, p, sep, i)
    ensures i > i0
  {
    assert forall k :: 0 <= k < i0 ==> s[..i0][k] == s[k];
  }

  /** Every piece of `Split(s, sep)` is separator-free and delimited in `s`. */
  lemma WholeIsDelimited(s: string, sep: char)
    ensures DelimitedAt(s, s, sep, 0)
  {
    assert s[0..|s|] == s;
  }

  lemma HeadIsDelimited(s: string, sep: char, i0: nat)
    requires i0 < |s| && s[i0] == sep
    ensures DelimitedAt(s, s[..i0], sep, 0)
  {
    assert s[0..i0] == s[..i0];
  }

  lemma {:induction false} PieceIsDelimited(s: string, sep: char, p: string) returns (i: int)
    requires p in Split(s, sep)
    ensures sep !in p && DelimitedAt(s, p, sep, i)
    decreases |s|
  {
    if sep !in s {
      i := 0;
      assert p == s;
      WholeIsDelimited(s, sep);
      assert DelimitedAt(s, p, sep, i);
    } else {
      var i0 := IndexOf(s, sep);
      var rest := s[i0 + 1..];
      assert Split(s, sep) == [s[..i0]] + Split(rest, sep);
      if p == s[..i0] {
        i := 0;
        HeadIsDelimited(s, sep, i0);
        assert DelimitedAt(s, p, sep, i);
      } else {
        assert p in Split(rest, sep);
        var j := PieceIsDelimited(rest, sep, p);
        ShiftDelimited(s, sep, p, i0, j);
        i := i0 + 1 + j;
        assert DelimitedAt(s, p, sep, i);
      }
    }
  }

  /** Every separator-free string delimited in `s` is a piece of `Split(s, sep)`. */
  lemma DelimitedWithoutSeparator(s: string, sep: char, p: string, i: int)
    requires sep !in s && DelimitedAt(s, p, sep, i)
    ensures p == s
  {
    assert forall k :: 0 <= k < |s| ==> s[k] != sep;
    assert s[0..|s|] == s;
  }

  lemma {:induction false} DelimitedIsPiece(s: string, sep: char, p: string, i: int)
    requires sep !in p && DelimitedAt(s, p, sep, i)
    ensures p in Split(s, sep)
    decreases |s|
  {
    if sep !in s {
      DelimitedWithoutSeparator(s, sep, p, i);
    } else {
      var i0 := IndexOf(s, sep);
      var rest := s[i0 + 1..];
      assert Split(s, sep) == [s[..i0]] + Split(rest, sep);
      if i == 0 {
        FirstDelimitedIsHead(s, sep, p, i0);
      } else {
        LaterDelimitedIsAfterSeparator(s, sep, p, i0, i);
        UnshiftDelimited(s, sep, p, i0, i);
        DelimitedIsPiece(rest, sep, p, i - i0 - 1);
      }
    }
  }

  function DigitChar(d: nat): (c: char)
    requires d < 10
    ensures IsAsciiDigit(c)
  {
    ('0' as int + d) as char
  }

  /** Decimal rendering of a natural number, as `format!("{}", n)` gives it. */
  function NatToString(n: nat): (r: string)
    ensures |r| >= 1 && AllDigits(r)
  {
    if n < 10 then [DigitChar(n)] else NatToString(n / 10) + [DigitChar(n % 10)]
  }

  /** Decimal rendering of an integer with a leading '-' when negative. */
  function IntToString(i: int): (r: string)
    ensures |r| >= 1
  {
    if i < 0 then "-" + NatToString(-i) else NatToString(i)
  }

  /** Number of bytes of the UTF-8 encoding of one scalar value. */
  function CharUtf8Len(c: char): (n: nat)
    ensures 1 <= n <= 4
    ensures (c as int < 0x80) <==> n == 1
  {
    if c as int < 0x80 then 1
    else if c as int < 0x800 then 2
    else if c as int < 0x10000 then 3
    else 4
  }

  /** `str::len`: the UTF-8 byte length of a string. */
  function Utf8Len(s: string): (n: nat)
    ensures |s| <= n <= 4 * |s|
  {
    if s == [] then 0 else CharUtf8Len(s[0]) + Utf8Len(s[1..])
  }

  /** `lines.join(sep)`. */
  function Join(lines: seq<string>, sep: string): string
  {
    if |lines| == 0 then ""
    else if |lines| == 1 then lines[0]
    else lines[0] + sep + Join(lines[1..], sep)
  }
}
