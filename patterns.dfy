/** The four field patterns of the registration form, each written as a
    direct matcher over the characters of a string.

    `String.matches` in java.util.regex succeeds only when the pattern
    consumes the WHOLE input, so every matcher below is anchored at both
    ends: a trailing line break is never accepted (see
    TrailingLineBreakRejected). Each matcher follows the shape of its regular
    expression (a bounded repetition scanned one character at a time, an
    alternation of two-character groups, a literal suffix), and each is
    proved equal to an independent description of the strings it accepts. */
module Patterns {

  /** `[A-Za-z]`: ASCII letters only. */
  predicate IsAsciiLetter(c: char) {
    'A' <= c <= 'Z' || 'a' <= c <= 'z'
  }

  /** `[0-9]`, and also `\d`, which java.util.regex reads as ASCII digits
      unless UNICODE_CHARACTER_CLASS is set. */
  predicate IsAsciiDigit(c: char) {
    '0' <= c <= '9'
  }

  /** `[a-zA-Z0-9._%+-]`, the class of the e-mail local part; inside a
      class `.` is a literal full stop and the final `-` a literal hyphen. */
  predicate IsLocalChar(c: char) {
    IsAsciiLetter(c) || IsAsciiDigit(c) || c == '.' || c == '_' || c == '%' || c == '+' || c == '-'
  }

  /** The characters that the regex wildcard `.` does not match when the
      DOTALL and UNIX_LINES flags are off: Java's line terminators. */
  predicate IsLineTerminator(c: char) {
    c == '\n' || c == '\r' || c == '\U{85}' || c == '\U{2028}' || c == '\U{2029}'
  }

  datatype CharClass = Letters | Digits | LocalChars

  predicate InClass(c: char, k: CharClass) {
    match k
    case Letters => IsAsciiLetter(c)
    case Digits => IsAsciiDigit(c)
    case LocalChars => IsLocalChar(c)
  }

  predicate AllInClass(s: string, k: CharClass) {
    forall i :: 0 <= i < |s| ==> InClass(s[i], k)
  }

  /** The anchored repetition `k{lo,hi}`: consumes one character of class `k`
      at a time, owing `lo` more and allowing `hi` more. */
  function MatchRepeat(s: string, k: CharClass, lo: nat, hi: nat): bool
    decreases |s|
  {
    if s == [] then lo == 0
    else hi > 0 && InClass(s[0], k) && MatchRepeat(s[1..], k, if lo > 0 then lo - 1 else 0, hi - 1)
  }

  lemma {:induction false} MatchRepeatIff(s: string, k: CharClass, lo: nat, hi: nat)
    ensures MatchRepeat(s, k, lo, hi) <==> lo <= |s| <= hi && AllInClass(s, k)
    decreases |s|
  {
    if s != [] && hi > 0 {
      MatchRepeatIff(s[1..], k, if lo > 0 then lo - 1 else 0, hi - 1);
      assert AllInClass(s, k) <==> InClass(s[0], k) && AllInClass(s[1..], k) by {
        if InClass(s[0], k) && AllInClass(s[1..], k) {
          forall i | 0 <= i < |s| ensures InClass(s[i], k) {
            if i > 0 { assert s[i] == s[1..][i - 1]; }
          }
        }
      }
    }
  }

  // ---------------------------------------------------------------------
  // NAME_PATTERN  ^[A-Za-z]{2,25}$

  function IsNameValid(s: string): bool {
    MatchRepeat(s, Letters, 2, 25)
  }

  lemma NameValidIff(s: string)
    ensures IsNameValid(s) <==> 2 <= |s| <= 25 && forall i :: 0 <= i < |s| ==> IsAsciiLetter(s[i])
  {
    MatchRepeatIff(s, Letters, 2, 25);
  }

  // ---------------------------------------------------------------------
  // ZIP_CODE_PATTERN  ^\d{5}$

  function IsZipValid(s: string): bool {
    MatchRepeat(s, Digits, 5, 5)
  }

  lemma ZipValidIff(s: string)
    ensures IsZipValid(s) <==> |s| == 5 && forall i :: 0 <= i < |s| ==> IsAsciiDigit(s[i])
  {
    MatchRepeatIff(s, Digits, 5, 5);
  }

  // ---------------------------------------------------------------------
  // DOB_PATTERN  ^(0[1-9]|1[012])/(0[1-9]|[12][0-9]|3[01])/(19|20)\d\d$

  /** `0[1-9]|1[012]` */
  predicate MonthGroup(a: char, b: char) {
    (a == '0' && '1' <= b <= '9') || (a == '1' && '0' <= b <= '2')
  }

  /** `0[1-9]|[12][0-9]|3[01]` */
  predicate DayGroup(a: char, b: char) {
    (a == '0' && '1' <= b <= '9') || ('1' <= a <= '2' && IsAsciiDigit(b)) || (a == '3' && '0' <= b <= '1')
  }

  /** `19|20` */
  predicate CenturyGroup(a: char, b: char) {
    (a == '1' && b == '9') || (a == '2' && b == '0')
  }

  function IsDobValid(s: string): bool {
    |s| == 10 &&
    MonthGroup(s[0], s[1]) && s[2] == '/' &&
    DayGroup(s[3], s[4]) && s[5] == '/' &&
    CenturyGroup(s[6], s[7]) && MatchRepeat(s[8..], Digits, 2, 2)
  }

  function DigitValue(c: char): int {
    c as int - '0' as int
  }

  /** The decimal number written by a string of digits. */
  function NumberValue(s: string): int
    decreases |s|
  {
    if s == [] then 0 else 10 * NumberValue(s[..|s| - 1]) + DigitValue(s[|s| - 1])
  }

  /** Reference reading of a date of birth: three all-digit numbers split by
      slashes, with month 1..12, day 1..31 and year 1900..2099. There is no
      calendar check, so a day that does not exist in its month passes. */
  predicate DobByValue(s: string) {
    |s| == 10 && s[2] == '/' && s[5] == '/' &&
    AllInClass(s[..2], Digits) && AllInClass(s[3..5], Digits) && AllInClass(s[6..], Digits) &&
    1 <= NumberValue(s[..2]) <= 12 &&
    1 <= NumberValue(s[3..5]) <= 31 &&
    1900 <= NumberValue(s[6..]) <= 2099
  }

  lemma TwoDigitValue(s: string)
    requires |s| == 2
    ensures NumberValue(s) == 10 * DigitValue(s[0]) + DigitValue(s[1])
  {
    var head := s[..1];
    assert head[..0] == [] && head[0] == s[0];
    assert NumberValue(head) == DigitValue(s[0]);
  }

  lemma FourDigitValue(s: string)
    requires |s| == 4
    ensures NumberValue(s) == 1000 * DigitValue(s[0]) + 100 * DigitValue(s[1]) + 10 * DigitValue(s[2]) + DigitValue(s[3])
  {
    TwoDigitValue(s[..2]);
    assert s[..3][..2] == s[..2];
  }

  lemma TwoDigitsAllInClass(s: string)
    requires |s| == 2
    ensures AllInClass(s, Digits) <==> IsAsciiDigit(s[0]) && IsAsciiDigit(s[1])
  {
  }

  lemma FourDigitsAllInClass(s: string)
    requires |s| == 4
    ensures AllInClass(s, Digits) <==> IsAsciiDigit(s[0]) && IsAsciiDigit(s[1]) && IsAsciiDigit(s[2]) && IsAsciiDigit(s[3])
  {
  }

  lemma DobValidIff(s: string)
    ensures IsDobValid(s) <==> DobByValue(s)
  {
    if |s| == 10 {
      MatchRepeatIff(s[8..], Digits, 2, 2);
      TwoDigitsAllInClass(s[..2]);
      TwoDigitsAllInClass(s[3..5]);
      TwoDigitsAllInClass(s[8..]);
      FourDigitsAllInClass(s[6..]);
      TwoDigitValue(s[..2]);
      TwoDigitValue(s[3..5]);
      FourDigitValue(s[6..]);
    }
  }

  /** The date that does not exist is still accepted: the check is syntactic. */
  lemma ImpossibleDateAccepted()
    ensures IsDobValid("02/30/2024")
    ensures !IsDobValid("13/01/2000") && !IsDobValid("01/32/2000") && !IsDobValid("01/01/2100")
  {
  }

  // ---------------------------------------------------------------------
  // EMAIL_PATTERN  ^[a-zA-Z0-9._%+-]+@farmingdale.edu$
  // The '.' before "edu" is not escaped, so it is the wildcard.

  const DomainHead: string := "@farmingdale"
  const DomainTail: string := "edu"

  /** `@farmingdale.edu` with `.` read as the wildcard. */
  predicate MatchDomain(s: string) {
    |s| == 16 && s[..12] == DomainHead && !IsLineTerminator(s[12]) && s[13..] == DomainTail
  }

  /** `[a-zA-Z0-9._%+-]*` followed by the domain. The repetition is scanned
      greedily with no backtracking; that loses no match because the domain
      starts with '@', which is not in the local-part class. */
  function MatchLocalThenDomain(s: string): bool
    decreases |s|
  {
    if s != [] && IsLocalChar(s[0]) then MatchLocalThenDomain(s[1..]) else MatchDomain(s)
  }

  /** `[a-zA-Z0-9._%+-]+` is one local character, then the starred form. */
  function IsEmailValid(s: string): bool {
    s != [] && IsLocalChar(s[0]) && MatchLocalThenDomain(s[1..])
  }

  /** `s` is `local`, then "@farmingdale", then the one character `c`, then "edu". */
  predicate EmailParts(s: string, local: string, c: char) {
    |local| > 0 && AllInClass(local, LocalChars) && !IsLineTerminator(c) &&
    s == local + DomainHead + [c] + DomainTail
  }

  lemma AllInClassCons(s: string, k: CharClass)
    requires s != []
    ensures AllInClass(s, k) <==> InClass(s[0], k) && AllInClass(s[1..], k)
  {
  }

  /** The domain begins with '@', which no local part contains. */
  lemma DomainStartsWithAt(s: string)
    requires MatchDomain(s)
    ensures s[0] == '@' && !IsLocalChar(s[0])
  {
  }

  /** Reference reading of the starred local part followed by the domain:
      the last sixteen characters are the domain, all before them local. */
  predicate LocalThenDomain(s: string) {
    |s| >= 16 && AllInClass(s[..|s| - 16], LocalChars) && MatchDomain(s[|s| - 16..])
  }

  lemma LocalThenDomainStep(s: string)
    requires s != [] && IsLocalChar(s[0])
    ensures LocalThenDomain(s) <==> LocalThenDomain(s[1..])
  {
    if |s| > 16 {
      var n := |s| - 16;
      assert s[1..][..n - 1] == s[..n][1..];
      assert s[1..][n - 1..] == s[n..];
      AllInClassCons(s[..n], LocalChars);
    } else if |s| == 16 && MatchDomain(s) {
      DomainStartsWithAt(s);
    }
  }

  lemma LocalThenDomainStop(s: string)
    requires s == [] || !IsLocalChar(s[0])
    ensures LocalThenDomain(s) <==> MatchDomain(s)
  {
  }

  lemma {:induction false} MatchLocalThenDomainIff(s: string)
    ensures MatchLocalThenDomain(s) <==> LocalThenDomain(s)
    decreases |s|
  {
    if s != [] && IsLocalChar(s[0]) {
      MatchLocalThenDomainIff(s[1..]);
      LocalThenDomainStep(s);
    } else {
      LocalThenDomainStop(s);
    }
  }

  lemma EmailValidIff(s: string)
    ensures IsEmailValid(s) <==> exists local, c :: EmailParts(s, local, c)
  {
    if IsEmailValid(s) {
      MatchLocalThenDomainIff(s[1..]);
      var n := |s| - 16;
      var local, c := s[..n], s[n + 12];
      assert s[1..][..|s| - 17] == s[1..n];
      assert s[1..][|s| - 17..] == s[n..];
      assert AllInClass(local, LocalChars) by {
        forall i | 0 <= i < n ensures IsLocalChar(local[i]) {
          if i > 0 { assert local[i] == s[1..n][i - 1]; }
        }
      }
      assert s[n..][..12] == DomainHead;
      assert s[n..][13..] == DomainTail;
      assert s == local + DomainHead + [c] + DomainTail;
      assert EmailParts(s, local, c);
    }
    if exists local, c :: EmailParts(s, local, c) {
      var local, c :| EmailParts(s, local, c);
      var n := |local|;
      assert s[..n] == local;
      assert s[n..] == DomainHead + [c] + DomainTail;
      assert s[0] == local[0];
      MatchLocalThenDomainIff(s[1..]);
      assert s[1..][..|s| - 17] == local[1..];
      assert s[1..][|s| - 17..] == s[n..];
      assert AllInClass(local[1..], LocalChars) by {
        forall i | 0 <= i < n - 1 ensures IsLocalChar(local[1..][i]) {
          assert local[1..][i] == local[i + 1];
        }
      }
      assert InClass(local[0], LocalChars);
    }
  }

  /** The wildcard admits any one non-line-break character between
      "@farmingdale" and "edu". */
  lemma EmailWildcardAccepted()
    ensures IsEmailValid("a.b+c@farmingdale.edu")
    ensures IsEmailValid("a@farmingdaleXedu")
  {
    assert EmailParts("a.b+c@farmingdale.edu", "a.b+c", '.');
    assert EmailParts("a@farmingdaleXedu", "a", 'X');
    EmailValidIff("a.b+c@farmingdale.edu");
    EmailValidIff("a@farmingdaleXedu");
  }

  /** Any other domain, an empty local part, and a line break in place of
      the wildcard are rejected. */
  lemma EmailOthersRejected()
    ensures !IsEmailValid("a.b+c@other.com")
    ensures !IsEmailValid("@farmingdale.edu")
    ensures !IsEmailValid("a@farmingdale\nedu")
  {
    EmailValidIff("a.b+c@other.com");
    EmailValidIff("@farmingdale.edu");
    EmailValidIff("a@farmingdale\nedu");
  }

  // ---------------------------------------------------------------------
  // The four patterns as values, applied with String.matches

  datatype Pattern = NamePattern | DobPattern | EmailPattern | ZipPattern

  function Matches(s: string, p: Pattern): bool {
    match p
    case NamePattern => IsNameValid(s)
    case DobPattern => IsDobValid(s)
    case EmailPattern => IsEmailValid(s)
    case ZipPattern => IsZipValid(s)
  }

  /** Every pattern needs at least two characters, so the empty text of a
      fresh field never matches. */
  lemma EmptyRejected(p: Pattern)
    ensures !Matches("", p)
  {
  }

  /** A full-string match: a text ending in a line break matches no pattern,
      although `$` alone would match before it. */
  lemma TrailingLineBreakRejected(s: string, p: Pattern)
    ensures !Matches(s + "\n", p)
  {
    var t := s + "\n";
    assert t[|t| - 1] == '\n';
    match p
    case NamePattern =>
      NameValidIff(t);
    case ZipPattern =>
      ZipValidIff(t);
    case DobPattern =>
      if |t| == 10 {
        MatchRepeatIff(t[8..], Digits, 2, 2);
        assert t[8..][1] == '\n';
      }
    case EmailPattern =>
      EmailValidIff(t);
  }
}
