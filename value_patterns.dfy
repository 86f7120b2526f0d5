/**
 * Value PHI sniffer: a trimmed cell value is matched against six shapes in a
 * fixed order (email, US phone, SSN, US ZIP, Canadian postal code, long
 * mixed alphanumeric identifier) and the first shape it has names the PHI
 * found. The anchored regular expressions are written out as predicates:
 * the fixed-width ones as sequences of one-character pieces, some optional,
 * and the email and long-identifier ones as explicit splits.
 */
module ValuePatterns {
  import opened Strings
  import opened Types

  /** A one-character class of the regular expressions. */
  datatype CharClass =
    | Digit          // \d
    | Letter         // [A-Za-z]
    | Space          // \s
    | Separator      // [-.\s]
    | Exactly(c: char)

  predicate InClass(k: CharClass, c: char) {
    match k
    case Digit => IsAsciiDigit(c)
    case Letter => IsAsciiAlpha(c)
    case Space => IsWhitespace(c)
    case Separator => c == '-' || c == '.' || IsWhitespace(c)
    case Exactly(x) => c == x
  }

  /** One character of a class, or (`Maybe`) at most one. */
  datatype Piece = One(k: CharClass) | Maybe(k: CharClass)

  /** The whole of `s` matches the pieces in sequence. */
  predicate MatchPieces(s: string, ps: seq<Piece>)
    decreases |ps|
  {
    if ps == [] then s == []
    else
      var consume := |s| > 0 && InClass(ps[0].k, s[0]) && MatchPieces(s[1..], ps[1..]);
      match ps[0]
      case One(_) => consume
      case Maybe(_) => consume || MatchPieces(s, ps[1..])
  }

  function Digits(n: nat): (ps: seq<Piece>)
    ensures |ps| == n && forall i :: 0 <= i < n ==> ps[i] == One(Digit)
  {
    seq(n, _ => One(Digit))
  }

  /** `^\(?\d{3}\)?[-.\s]?\d{3}[-.\s]?\d{4}$` */
  const PHONE_PIECES: seq<Piece> :=
    [Maybe(Exactly('('))] + Digits(3) + [Maybe(Exactly(')')), Maybe(Separator)]
    + Digits(3) + [Maybe(Separator)] + Digits(4)

  /** `^\d{3}-?\d{2}-?\d{4}$` */
  const SSN_PIECES: seq<Piece> :=
    Digits(3) + [Maybe(Exactly('-'))] + Digits(2) + [Maybe(Exactly('-'))] + Digits(4)

  /** `^\d{5}$` and `^\d{5}-\d{4}$`, the two readings of `^\d{5}(-\d{4})?$` */
  const ZIP5_PIECES: seq<Piece> := Digits(5)
  const ZIP9_PIECES: seq<Piece> := Digits(5) + [One(Exactly('-'))] + Digits(4)

  /** `^[A-Za-z]\d[A-Za-z]\s?\d[A-Za-z]\d$` */
  const POSTAL_PIECES: seq<Piece> :=
    [One(Letter), One(Digit), One(Letter), Maybe(Space), One(Digit), One(Letter), One(Digit)]

  predicate IsPhone(s: string) { MatchPieces(s, PHONE_PIECES) }
  predicate IsSsn(s: string) { MatchPieces(s, SSN_PIECES) }
  predicate IsZip(s: string) { MatchPieces(s, ZIP5_PIECES) || MatchPieces(s, ZIP9_PIECES) }
  predicate IsPostal(s: string) { MatchPieces(s, POSTAL_PIECES) }

  predicate IsEmailLocalChar(c: char) {
    IsAsciiAlnum(c) || c == '.' || c == '_' || c == '%' || c == '+' || c == '-'
  }
  predicate IsEmailDomainChar(c: char) { IsAsciiAlnum(c) || c == '.' || c == '-' }

  /**
   * `s` reads as local part, '@' at `at`, domain, '.' at `dot`, and a
   * top-level part of two or more letters.
   */
  predicate EmailSplit(s: string, at: int, dot: int) {
    && 0 < at < dot < |s| - 2
    && s[at] == '@' && s[dot] == '.'
    && at + 1 < dot
    && (forall i :: 0 <= i < at ==> IsEmailLocalChar(s[i]))
    && (forall i :: at < i < dot ==> IsEmailDomainChar(s[i]))
    && (forall i :: dot < i < |s| ==> IsAsciiAlpha(s[i]))
  }

  /** `^[a-zA-Z0-9._%+-]+@[a-zA-Z0-9.-]+\.[a-zA-Z]{2,}$` */
  predicate IsEmail(s: string) {
    exists at, dot :: 0 <= at < |s| && 0 <= dot < |s| && EmailSplit(s, at, dot)
  }

  /** `^[A-Za-z0-9]{10,}$` */
  predicate IsLongAlnum(s: string) {
    |s| >= 10 && forall i :: 0 <= i < |s| ==> IsAsciiAlnum(s[i])
  }

  predicate HasLetter(s: string) { exists i :: 0 <= i < |s| && IsAsciiAlpha(s[i]) }
  predicate HasDigit(s: string) { exists i :: 0 <= i < |s| && IsAsciiDigit(s[i]) }

  /** `is_suspicious_long_id`: ten or more alphanumerics, mixing letters and digits. */
  predicate IsSuspiciousLongId(s: string) {
    IsLongAlnum(s) && HasLetter(s) && HasDigit(s)
  }

  datatype ValuePatternResult = ValuePatternResult(
    isPhi: bool,
    matchedPattern: Option<string>,
    description: Option<string>)

  function SafeResult(): (r: ValuePatternResult)
    ensures !r.isPhi && r.matchedPattern.None? && r.description.None?
  {
    ValuePatternResult(false, None, None)
  }

  function PhiResult(pattern: string, description: string): (r: ValuePatternResult)
    ensures r.isPhi && r.matchedPattern == Some(pattern) && r.description == Some(description)
  {
    ValuePatternResult(true, Some(pattern), Some(description))
  }

  /** `check_value_pattern` on an already trimmed value. */
  function CheckTrimmed(t: string): (r: ValuePatternResult)
    ensures r.isPhi <==> r.matchedPattern.Some?
    ensures r.isPhi <==> r.description.Some?
    ensures r.isPhi <==> IsEmail(t) || IsPhone(t) || IsSsn(t) || IsZip(t) || IsPostal(t) || IsSuspiciousLongId(t)
    ensures r.matchedPattern == Some("email") <==> IsEmail(t)
    ensures r.matchedPattern == Some("phone") <==> !IsEmail(t) && IsPhone(t)
    ensures r.matchedPattern == Some("ssn") <==> !IsEmail(t) && !IsPhone(t) && IsSsn(t)
    ensures r.matchedPattern == Some("zip") <==> !IsEmail(t) && !IsPhone(t) && !IsSsn(t) && IsZip(t)
    ensures r.matchedPattern == Some("postal") <==>
      !IsEmail(t) && !IsPhone(t) && !IsSsn(t) && !IsZip(t) && IsPostal(t)
    ensures r.matchedPattern == Some("long_id") <==>
      !IsEmail(t) && !IsPhone(t) && !IsSsn(t) && !IsZip(t) && !IsPostal(t) && IsSuspiciousLongId(t)
  {
    if t == [] then EmptyHasNoShape(); SafeResult()
    else if IsEmail(t) then PhiResult("email", "Value appears to be an email address")
    else if IsPhone(t) then PhiResult("phone", "Value appears to be a phone number")
    else if IsSsn(t) then PhiResult("ssn", "Value appears to be a Social Security Number")
    else if IsZip(t) then PhiResult("zip", "Value appears to be a US ZIP code")
    else if IsPostal(t) then PhiResult("postal", "Value appears to be a Canadian postal code")
    else if IsSuspiciousLongId(t) then
      PhiResult("long_id", "Value appears to be a long alphanumeric identifier")
    else SafeResult()
  }

  /** `check_value_pattern`: the cascade runs on the trimmed value. */
  function CheckValuePattern(value: string): (r: ValuePatternResult)
    ensures r == CheckTrimmed(Trim(value))
    ensures Trim(value) == [] ==> r == SafeResult()
  {
    CheckTrimmed(Trim(value))
  }

  // ----- Facts about the piece matcher -----

  function Required(ps: seq<Piece>): nat {
    if ps == [] then 0 else (if ps[0].One? then 1 else 0) + Required(ps[1..])
  }

  /** A match is at least as long as the mandatory pieces and at most one character per piece. */
  lemma {:induction false} MatchLength(s: string, ps: seq<Piece>)
    requires MatchPieces(s, ps)
    ensures Required(ps) <= |s| <= |ps|
    decreases |ps|
  {
    if ps != [] {
      if |s| > 0 && InClass(ps[0].k, s[0]) && MatchPieces(s[1..], ps[1..]) {
        MatchLength(s[1..], ps[1..]);
      } else {
        MatchLength(s, ps[1..]);
      }
    }
  }

  /** Every mandatory piece is matched by some character of the string. */
  lemma {:induction false} MandatoryPieceUsed(s: string, ps: seq<Piece>, i: int) returns (j: int)
    requires MatchPieces(s, ps) && 0 <= i < |ps| && ps[i].One?
    ensures 0 <= j < |s| && InClass(ps[i].k, s[j])
    decreases |ps|
  {
    if |s| > 0 && InClass(ps[0].k, s[0]) && MatchPieces(s[1..], ps[1..]) {
      if i == 0 {
        j := 0;
      } else {
        var j' := MandatoryPieceUsed(s[1..], ps[1..], i - 1);
        j := j' + 1;
      }
    } else {
      var j' := MandatoryPieceUsed(s, ps[1..], i - 1);
      j := j';
    }
  }

  /** Some digit belongs to the class. */
  predicate ClassHasDigit(k: CharClass) {
    k.Digit? || (k.Exactly? && IsAsciiDigit(k.c))
  }

  /** Pieces whose mandatory characters are digits and whose optional characters never are. */
  predicate DigitsWithOptionalPunctuation(ps: seq<Piece>) {
    forall i :: 0 <= i < |ps| ==>
      (ps[i].One? ==> ps[i].k == Digit) && (ps[i].Maybe? ==> !ClassHasDigit(ps[i].k))
  }

  /** On a string of digits such pieces match exactly when the length is the number of mandatory digits. */
  lemma {:induction false} DigitRunMatch(s: string, ps: seq<Piece>)
    requires AllDigits(s) && DigitsWithOptionalPunctuation(ps)
    ensures MatchPieces(s, ps) <==> |s| == Required(ps)
    decreases |ps|
  {
    if ps != [] {
      assert DigitsWithOptionalPunctuation(ps[1..]) by {
        forall i | 0 <= i < |ps[1..]| ensures ps[1..][i] == ps[i + 1] { }
      }
      if |s| > 0 {
        assert AllDigits(s[1..]);
      }
      if ps[0].One? {
        if |s| > 0 {
          DigitRunMatch(s[1..], ps[1..]);
        }
      } else {
        assert |s| > 0 ==> !InClass(ps[0].k, s[0]);
        DigitRunMatch(s, ps[1..]);
      }
    }
  }

  lemma {:induction false} RequiredAppend(a: seq<Piece>, b: seq<Piece>)
    ensures Required(a + b) == Required(a) + Required(b)
    decreases |a|
  {
    if a == [] {
      assert a + b == b;
    } else {
      assert (a + b)[1..] == a[1..] + b;
      RequiredAppend(a[1..], b);
    }
  }

  lemma {:induction false} RequiredDigits(n: nat)
    ensures Required(Digits(n)) == n
  {
    if n > 0 {
      assert Digits(n)[1..] == Digits(n - 1);
      RequiredDigits(n - 1);
    }
  }

  lemma {:induction false} MatchAppend(a: string, p: seq<Piece>, b: string, q: seq<Piece>)
    requires MatchPieces(a, p) && MatchPieces(b, q)
    ensures MatchPieces(a + b, p + q)
    decreases |p|
  {
    if p == [] {
      assert a + b == b && p + q == q;
    } else {
      assert (p + q)[0] == p[0] && (p + q)[1..] == p[1..] + q;
      if |a| > 0 && InClass(p[0].k, a[0]) && MatchPieces(a[1..], p[1..]) {
        MatchAppend(a[1..], p[1..], b, q);
        assert (a + b)[0] == a[0] && (a + b)[1..] == a[1..] + b;
      } else {
        MatchAppend(a, p[1..], b, q);
      }
    }
  }

  lemma {:induction false} DigitsMatchDigits(s: string)
    requires AllDigits(s)
    ensures MatchPieces(s, Digits(|s|))
    decreases |s|
  {
    if s != [] {
      assert Digits(|s|)[1..] == Digits(|s| - 1);
      assert AllDigits(s[1..]);
      DigitsMatchDigits(s[1..]);
    }
  }

  /** The sizes and shapes of the fixed-width patterns. */
  lemma PieceFacts()
    ensures Required(PHONE_PIECES) == 10 && Required(SSN_PIECES) == 9
    ensures Required(ZIP5_PIECES) == 5 && |ZIP5_PIECES| == 5 && Required(ZIP9_PIECES) == 10
    ensures Required(POSTAL_PIECES) == 6 && |POSTAL_PIECES| == 7
    ensures DigitsWithOptionalPunctuation(PHONE_PIECES)
    ensures DigitsWithOptionalPunctuation(SSN_PIECES)
    ensures DigitsWithOptionalPunctuation(ZIP5_PIECES)
    ensures PHONE_PIECES[1] == One(Digit) && SSN_PIECES[0] == One(Digit)
    ensures ZIP5_PIECES[0] == One(Digit) && ZIP9_PIECES[0] == One(Digit)
    ensures ZIP9_PIECES[5] == One(Exactly('-'))
    ensures POSTAL_PIECES[0] == One(Letter) && POSTAL_PIECES[1] == One(Digit)
  {
    RequiredDigits(2); RequiredDigits(3); RequiredDigits(4); RequiredDigits(5);
    var d3 := Digits(3);
    RequiredAppend([Maybe(Exactly('('))], d3);
    RequiredAppend([Maybe(Exactly('('))] + d3, [Maybe(Exactly(')')), Maybe(Separator)]);
    RequiredAppend([Maybe(Exactly('('))] + d3 + [Maybe(Exactly(')')), Maybe(Separator)], d3);
    RequiredAppend([Maybe(Exactly('('))] + d3 + [Maybe(Exactly(')')), Maybe(Separator)] + d3, [Maybe(Separator)]);
    RequiredAppend([Maybe(Exactly('('))] + d3 + [Maybe(Exactly(')')), Maybe(Separator)] + d3 + [Maybe(Separator)], Digits(4));
    var dash := [Maybe(Exactly('-'))];
    RequiredAppend(d3, dash);
    RequiredAppend(d3 + dash, Digits(2));
    RequiredAppend(d3 + dash + Digits(2), dash);
    RequiredAppend(d3 + dash + Digits(2) + dash, Digits(4));
    RequiredAppend(Digits(5), [One(Exactly('-'))]);
    RequiredAppend(Digits(5) + [One(Exactly('-'))], Digits(4));
  }

  /** The empty string has none of the six shapes, so the explicit empty check changes nothing. */
  lemma EmptyHasNoShape()
    ensures !IsEmail([]) && !IsPhone([]) && !IsSsn([]) && !IsZip([]) && !IsPostal([])
    ensures !IsSuspiciousLongId([])
  {
    PieceFacts();
    if IsPhone([]) { MatchLength([], PHONE_PIECES); }
    if IsSsn([]) { MatchLength([], SSN_PIECES); }
    if MatchPieces([], ZIP5_PIECES) { MatchLength([], ZIP5_PIECES); }
    if MatchPieces([], ZIP9_PIECES) { MatchLength([], ZIP9_PIECES); }
    if IsPostal([]) { MatchLength([], POSTAL_PIECES); }
  }

  // ----- Properties of the sniffer -----

  /** An empty or all-whitespace value is never PHI. */
  lemma BlankIsSafe(v: string)
    requires forall i :: 0 <= i < |v| ==> IsWhitespace(v[i])
    ensures CheckValuePattern(v) == SafeResult()
  {
    TrimBlank(v);
  }

  /** Whitespace around a value does not change the verdict: only the trimmed value is inspected. */
  lemma SurroundingWhitespaceIgnored(v: string)
    ensures CheckValuePattern(Trim(v)) == CheckValuePattern(v)
  {
    TrimIdempotent(v);
  }

  predicate AllLetters(s: string) { forall i :: 0 <= i < |s| ==> IsAsciiAlpha(s[i]) }

  /** A value made only of letters, however long, is not PHI. */
  lemma LettersOnlyNotPhi(t: string)
    requires AllLetters(t)
    ensures !CheckTrimmed(t).isPhi
  {
    PieceFacts();
    if IsPhone(t) { var j := MandatoryPieceUsed(t, PHONE_PIECES, 1); }
    if IsSsn(t) { var j := MandatoryPieceUsed(t, SSN_PIECES, 0); }
    if MatchPieces(t, ZIP5_PIECES) { var j := MandatoryPieceUsed(t, ZIP5_PIECES, 0); }
    if MatchPieces(t, ZIP9_PIECES) { var j := MandatoryPieceUsed(t, ZIP9_PIECES, 0); }
    if IsPostal(t) { var j := MandatoryPieceUsed(t, POSTAL_PIECES, 1); }
  }

  /**
   * A non-empty value made only of digits is PHI exactly when it has 5, 9
   * or 10 digits: 10 digits read as a phone number, 9 as an SSN and 5 as a
   * ZIP code; a digits-only value is never a long identifier.
   */
  lemma DigitsOnlyPhi(t: string)
    requires t != [] && AllDigits(t)
    ensures CheckTrimmed(t).isPhi <==> |t| == 5 || |t| == 9 || |t| == 10
    ensures |t| == 10 ==> CheckTrimmed(t).matchedPattern == Some("phone")
    ensures |t| == 9 ==> CheckTrimmed(t).matchedPattern == Some("ssn")
    ensures |t| == 5 ==> CheckTrimmed(t).matchedPattern == Some("zip")
  {
    PieceFacts();
    DigitRunMatch(t, PHONE_PIECES);
    DigitRunMatch(t, SSN_PIECES);
    DigitRunMatch(t, ZIP5_PIECES);
    if MatchPieces(t, ZIP9_PIECES) { var j := MandatoryPieceUsed(t, ZIP9_PIECES, 5); }
    if IsPostal(t) { var j := MandatoryPieceUsed(t, POSTAL_PIECES, 0); }
  }

  /** Five digits, a dash and four digits (a ZIP+4 code) are flagged. */
  lemma ZipPlusFourIsPhi(a: string, b: string)
    requires |a| == 5 && |b| == 4 && AllDigits(a) && AllDigits(b)
    ensures IsZip(a + "-" + b)
    ensures CheckTrimmed(a + "-" + b).isPhi
  {
    DigitsMatchDigits(a);
    DigitsMatchDigits(b);
    assert MatchPieces("-", [One(Exactly('-'))]);
    MatchAppend(a, Digits(5), "-", [One(Exactly('-'))]);
    MatchAppend(a + "-", Digits(5) + [One(Exactly('-'))], b, Digits(4));
  }

  /** A two-digit number is not PHI. */
  lemma ShortNumberExample()
    ensures !CheckValuePattern("42").isPhi
  {
    TrimUnpadded("42");
    DigitsOnlyPhi("42");
  }

  /** A decimal number is not PHI: too short for the digit shapes and letter-free. */
  lemma DecimalExample()
    ensures !CheckTrimmed("3.14159").isPhi
  {
    var t := "3.14159";
    PieceFacts();
    if IsPhone(t) { MatchLength(t, PHONE_PIECES); }
    if IsSsn(t) { MatchLength(t, SSN_PIECES); }
    if MatchPieces(t, ZIP5_PIECES) { MatchLength(t, ZIP5_PIECES); }
    if MatchPieces(t, ZIP9_PIECES) { MatchLength(t, ZIP9_PIECES); }
    if IsPostal(t) {
      var j := MandatoryPieceUsed(t, POSTAL_PIECES, 0);
    }
  }

  /** A match of `p + q` splits into a match of `p` followed by a match of `q`. */
  lemma {:induction false} MatchSplit(s: string, p: seq<Piece>, q: seq<Piece>) returns (i: int)
    requires MatchPieces(s, p + q)
    ensures 0 <= i <= |s| && MatchPieces(s[..i], p) && MatchPieces(s[i..], q)
    decreases |p|
  {
    if p == [] {
      assert p + q == q;
      i := 0;
    } else {
      assert (p + q)[0] == p[0] && (p + q)[1..] == p[1..] + q;
      if |s| > 0 && InClass(p[0].k, s[0]) && MatchPieces(s[1..], p[1..] + q) {
        var i' := MatchSplit(s[1..], p[1..], q);
        i := i' + 1;
        assert s[..i][1..] == s[1..][..i'];
        assert s[i..] == s[1..][i'..];
      } else {
        i := MatchSplit(s, p[1..], q);
      }
    }
  }

  predicate AllMandatory(ps: seq<Piece>) { forall i :: 0 <= i < |ps| ==> ps[i].One? }

  /** Mandatory pieces only: one character per piece, each in its class. */
  lemma {:induction false} MandatoryMatch(s: string, ps: seq<Piece>)
    requires AllMandatory(ps)
    ensures MatchPieces(s, ps) <==> |s| == |ps| && forall i :: 0 <= i < |s| ==> InClass(ps[i].k, s[i])
    decreases |ps|
  {
    if ps != [] {
      assert AllMandatory(ps[1..]) by {
        forall i | 0 <= i < |ps[1..]| ensures ps[1..][i].One? { assert ps[1..][i] == ps[i + 1]; }
      }
      if |s| > 0 {
        MandatoryMatch(s[1..], ps[1..]);
        if |s| == |ps| && forall i :: 0 <= i < |s| ==> InClass(ps[i].k, s[i]) {
          forall i | 0 <= i < |s[1..]| ensures InClass(ps[1..][i].k, s[1..][i]) {
            assert s[1..][i] == s[i + 1] && ps[1..][i] == ps[i + 1];
          }
        }
      }
    }
  }

  predicate PostalHalf(s: string, start: int, k1: CharClass, k2: CharClass, k3: CharClass)
    requires 0 <= start && start + 3 <= |s|
  {
    InClass(k1, s[start]) && InClass(k2, s[start + 1]) && InClass(k3, s[start + 2])
  }

  const POSTAL_FIRST: seq<Piece> := [One(Letter), One(Digit), One(Letter)]
  const POSTAL_LAST: seq<Piece> := [One(Digit), One(Letter), One(Digit)]

  lemma PostalSplit()
    ensures POSTAL_PIECES == POSTAL_FIRST + ([Maybe(Space)] + POSTAL_LAST)
    ensures ([Maybe(Space)] + POSTAL_LAST)[0] == Maybe(Space) && ([Maybe(Space)] + POSTAL_LAST)[1..] == POSTAL_LAST
  {
  }

  /** A match of the postal pieces has one of the two shapes. */
  lemma PostalMatchShape(s: string)
    requires IsPostal(s)
    ensures || (|s| == 6 && PostalHalf(s, 0, Letter, Digit, Letter) && PostalHalf(s, 3, Digit, Letter, Digit))
            || (|s| == 7 && PostalHalf(s, 0, Letter, Digit, Letter) && IsWhitespace(s[3])
                && PostalHalf(s, 4, Digit, Letter, Digit))
  {
    PostalSplit();
    var rest := [Maybe(Space)] + POSTAL_LAST;
    var i := MatchSplit(s, POSTAL_FIRST, rest);
    MandatoryMatch(s[..i], POSTAL_FIRST);
    var t := s[i..];
    if |t| > 0 && IsWhitespace(t[0]) && MatchPieces(t[1..], POSTAL_LAST) {
      MandatoryMatch(t[1..], POSTAL_LAST);
    } else {
      MandatoryMatch(t, POSTAL_LAST);
    }
  }

  /** Six characters of the right classes are a postal code. */
  lemma PostalSixAccepted(s: string)
    requires |s| == 6 && PostalHalf(s, 0, Letter, Digit, Letter) && PostalHalf(s, 3, Digit, Letter, Digit)
    ensures IsPostal(s)
  {
    PostalSplit();
    var rest := [Maybe(Space)] + POSTAL_LAST;
    MandatoryMatch(s[..3], POSTAL_FIRST);
    MandatoryMatch(s[3..], POSTAL_LAST);
    assert MatchPieces(s[3..], rest[1..]);
    assert MatchPieces(s[3..], rest);
    MatchAppend(s[..3], POSTAL_FIRST, s[3..], rest);
    assert s == s[..3] + s[3..];
  }

  /** Seven characters of the right classes, whitespace in the middle, are a postal code. */
  lemma PostalSevenAccepted(s: string)
    requires |s| == 7 && PostalHalf(s, 0, Letter, Digit, Letter) && IsWhitespace(s[3])
    requires PostalHalf(s, 4, Digit, Letter, Digit)
    ensures IsPostal(s)
  {
    PostalSplit();
    var rest := [Maybe(Space)] + POSTAL_LAST;
    MandatoryMatch(s[..3], POSTAL_FIRST);
    MandatoryMatch(s[4..], POSTAL_LAST);
    var t := s[3..];
    assert t[1..] == s[4..] && t[0] == s[3];
    assert MatchPieces(t[1..], rest[1..]);
    assert MatchPieces(t, rest);
    MatchAppend(s[..3], POSTAL_FIRST, t, rest);
    assert s == s[..3] + t;
  }

  /**
   * A Canadian postal code is letter, digit, letter, an optional whitespace
   * character, then digit, letter, digit, in either letter case.
   */
  lemma PostalShape(s: string)
    ensures IsPostal(s) <==>
      || (|s| == 6 && PostalHalf(s, 0, Letter, Digit, Letter) && PostalHalf(s, 3, Digit, Letter, Digit))
      || (|s| == 7 && PostalHalf(s, 0, Letter, Digit, Letter) && IsWhitespace(s[3])
          && PostalHalf(s, 4, Digit, Letter, Digit))
  {
    if IsPostal(s) {
      PostalMatchShape(s);
    }
    if |s| == 6 && PostalHalf(s, 0, Letter, Digit, Letter) && PostalHalf(s, 3, Digit, Letter, Digit) {
      PostalSixAccepted(s);
    }
    if |s| == 7 && PostalHalf(s, 0, Letter, Digit, Letter) && IsWhitespace(s[3])
      && PostalHalf(s, 4, Digit, Letter, Digit)
    {
      PostalSevenAccepted(s);
    }
  }
}
