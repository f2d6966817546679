/**
 * The string helpers of pkg/utils/validation.go: the e-mail, password and
 * username checks, the sanitiser and truncation.
 *
 * Strings are sequences of characters; Go's `len` counts UTF-8 bytes, which
 * agrees with `|s|` on ASCII text.
 */
module Validation {

  predicate IsAsciiLetter(c: char) {
    'a' <= c <= 'z' || 'A' <= c <= 'Z'
  }

  predicate IsAsciiDigit(c: char) {
    '0' <= c <= '9'
  }

  /** `[a-zA-Z0-9._%+-]`: the characters of the local part. */
  predicate IsLocalChar(c: char) {
    IsAsciiLetter(c) || IsAsciiDigit(c) || c == '.' || c == '_' || c == '%' || c == '+' || c == '-'
  }

  /** `[a-zA-Z0-9.-]`: the characters of the domain part. */
  predicate IsDomainChar(c: char) {
    IsAsciiLetter(c) || IsAsciiDigit(c) || c == '.' || c == '-'
  }

  /** `[a-zA-Z0-9_]`: the characters of a username. */
  predicate IsWordChar(c: char) {
    IsAsciiLetter(c) || IsAsciiDigit(c) || c == '_'
  }

  predicate AllLocal(s: string) { forall i :: 0 <= i < |s| ==> IsLocalChar(s[i]) }
  predicate AllDomain(s: string) { forall i :: 0 <= i < |s| ==> IsDomainChar(s[i]) }
  predicate AllLetters(s: string) { forall i :: 0 <= i < |s| ==> IsAsciiLetter(s[i]) }
  predicate AllWord(s: string) { forall i :: 0 <= i < |s| ==> IsWordChar(s[i]) }

  // ---------------------------------------------------------------------------
  // IsValidEmail: the language of ^[a-zA-Z0-9._%+-]+@[a-zA-Z0-9.-]+\.[a-zA-Z]{2,}$
  // ---------------------------------------------------------------------------

  /**
   * `s` splits as L "@" D "." T with the '@' at `at` and the final '.' at
   * `at + 1 + dot`: L non-empty over the local characters, D non-empty over the
   * domain characters, T at least two letters.
   */
  ghost predicate EmailSplit(s: string, at: int, dot: int) {
    && 0 < at < |s|
    && s[at] == '@'
    && AllLocal(s[..at])
    && 0 < dot
    && at + dot + 4 <= |s|
    && AllDomain(s[at + 1..at + 1 + dot])
    && s[at + 1 + dot] == '.'
    && AllLetters(s[at + 2 + dot..])
  }

  /** The regular expression's language, stated as the existence of a split. */
  ghost predicate MatchesEmailPattern(s: string) {
    exists at, dot :: EmailSplit(s, at, dot)
  }

  /** The index of the first `c` in `s`, or `|s|` when there is none. */
  function IndexOf(s: string, c: char): (k: nat)
    ensures k <= |s|
    ensures k < |s| ==> s[k] == c
    ensures forall i :: 0 <= i < k ==> s[i] != c
  {
    if s == [] then 0
    else if s[0] == c then 0
    else 1 + IndexOf(s[1..], c)
  }

  /** The index of the last `c` in `s`, or -1 when there is none. */
  function LastIndexOf(s: string, c: char): (k: int)
    ensures -1 <= k < |s|
    ensures 0 <= k ==> s[k] == c
    ensures forall i :: k < i < |s| ==> s[i] != c
  {
    if s == [] then -1
    else if s[|s| - 1] == c then |s| - 1
    else LastIndexOf(s[..|s| - 1], c)
  }

  /**
   * The e-mail check as a decision: the local part runs up to the first '@'
   * (neither part may contain one), and since the top-level domain consists of
   * letters only, its '.' must be the last '.' of the domain part.
   */
  function IsValidEmail(s: string): bool {
    var at := IndexOf(s, '@');
    if at == 0 || at == |s| then false
    else
      var rest := s[at + 1..];
      var dot := LastIndexOf(rest, '.');
      && AllLocal(s[..at])
      && AllDomain(rest)
      && 0 < dot
      && dot + 2 < |rest|
      && AllLetters(rest[dot + 1..])
  }

  lemma AllDomainSplit(d: string, t: string)
    requires AllDomain(d) && AllLetters(t)
    ensures AllDomain(d + "." + t)
  {
    var s := d + "." + t;
    forall i | 0 <= i < |s| ensures IsDomainChar(s[i]) {
      if i < |d| { assert s[i] == d[i]; }
      else if i > |d| { assert s[i] == t[i - |d| - 1]; }
    }
  }

  /** Every string the decision accepts splits as the regular expression demands. */
  lemma IsValidEmailSound(s: string)
    requires IsValidEmail(s)
    ensures MatchesEmailPattern(s)
  {
    var at := IndexOf(s, '@');
    var rest := s[at + 1..];
    var dot := LastIndexOf(rest, '.');
    assert rest[..dot] == s[at + 1..at + 1 + dot];
    assert rest[dot + 1..] == s[at + 2 + dot..];
    assert EmailSplit(s, at, dot);
  }

  /** An '@' preceded only by local characters is the first '@'. */
  lemma FirstAt(s: string, a: int)
    requires 0 <= a < |s| && s[a] == '@' && AllLocal(s[..a])
    ensures IndexOf(s, '@') == a
  {
    assert !IsLocalChar('@');
    assert forall i :: 0 <= i < a ==> s[..a][i] == s[i];
  }

  /** A `c` with no `c` after it is the last `c`. */
  lemma LastIndexOfIs(s: string, c: char, k: int)
    requires 0 <= k < |s| && s[k] == c
    requires forall i :: k < i < |s| ==> s[i] != c
    ensures LastIndexOf(s, c) == k
  {
  }

  /** A '.' followed only by letters is the last '.'. */
  lemma LastDot(r: string, k: int)
    requires 0 <= k < |r| && r[k] == '.' && AllLetters(r[k + 1..])
    ensures LastIndexOf(r, '.') == k
  {
    forall i | k < i < |r| ensures r[i] != '.' {
      assert r[k + 1..][i - k - 1] == r[i];
    }
    LastIndexOfIs(r, '.', k);
  }

  /** Every split the regular expression admits is found by the decision. */
  lemma IsValidEmailComplete(s: string, a: int, d: int)
    requires EmailSplit(s, a, d)
    ensures IsValidEmail(s)
  {
    FirstAt(s, a);
    var domain := s[a + 1..a + 1 + d];
    var tld := s[a + 2 + d..];
    var rest := s[a + 1..];
    assert rest == domain + "." + tld;
    AllDomainSplit(domain, tld);
    assert rest[d + 1..] == tld;
    LastDot(rest, d);
  }

  /** The decision procedure accepts exactly the language of the regular expression. */
  lemma IsValidEmailCorrect(s: string)
    ensures IsValidEmail(s) <==> MatchesEmailPattern(s)
  {
    if IsValidEmail(s) {
      IsValidEmailSound(s);
    }
    if MatchesEmailPattern(s) {
      var a, d :| EmailSplit(s, a, d);
      IsValidEmailComplete(s, a, d);
    }
  }

  // ---------------------------------------------------------------------------
  // IsValidPassword and IsValidUsername
  // ---------------------------------------------------------------------------

  /** At least six characters. */
  function IsValidPassword(password: string): (ok: bool)
    ensures ok <==> |password| >= 6
  {
    if |password| < 6 then false else true
  }

  /** Between 3 and 50 characters, each a letter, digit or underscore. */
  function IsValidUsername(username: string): (ok: bool)
    ensures ok <==> 3 <= |username| <= 50 && forall i :: 0 <= i < |username| ==> IsWordChar(username[i])
  {
    if |username| < 3 || |username| > 50 then false
    else AllWord(username)
  }

  // ---------------------------------------------------------------------------
  // SanitizeString: strings.ToLower(strings.TrimSpace(s))
  // ---------------------------------------------------------------------------

  /** Go's `unicode.IsSpace`: the ASCII blanks plus the Unicode White_Space characters. */
  predicate IsSpace(c: char) {
    || c == '\t' || c == '\n' || c == '\U{000B}' || c == '\U{000C}' || c == '\r' || c == ' '
    || c == '\U{0085}' || c == '\U{00A0}' || c == '\U{1680}'
    || ('\U{2000}' <= c <= '\U{200A}')
    || c == '\U{2028}' || c == '\U{2029}' || c == '\U{202F}' || c == '\U{205F}' || c == '\U{3000}'
  }

  function TrimLeft(s: string): (r: string)
    ensures |r| <= |s| && r == s[|s| - |r|..]
    ensures r != [] ==> !IsSpace(r[0])
    ensures forall i :: 0 <= i < |s| - |r| ==> IsSpace(s[i])
  {
    if s != [] && IsSpace(s[0]) then TrimLeft(s[1..]) else s
  }

  function TrimRight(s: string): (r: string)
    ensures |r| <= |s| && r == s[..|r|]
    ensures r != [] ==> !IsSpace(r[|r| - 1])
    ensures forall i :: |r| <= i < |s| ==> IsSpace(s[i])
  {
    if s != [] && IsSpace(s[|s| - 1]) then TrimRight(s[..|s| - 1]) else s
  }

  /** `strings.TrimSpace`: drop leading and trailing white space. */
  function TrimSpace(s: string): string {
    TrimRight(TrimLeft(s))
  }

  function LowerChar(c: char): char {
    if 'A' <= c <= 'Z' then (c as int + 32) as char else c
  }

  /** `strings.ToLower`, on ASCII letters; every other character is kept. */
  function ToLower(s: string): (r: string)
    ensures |r| == |s|
    ensures forall i :: 0 <= i < |s| ==> r[i] == LowerChar(s[i])
  {
    if s == [] then [] else [LowerChar(s[0])] + ToLower(s[1..])
  }

  function SanitizeString(s: string): string {
    ToLower(TrimSpace(s))
  }

  lemma LowerCharFacts(c: char)
    ensures IsSpace(LowerChar(c)) <==> IsSpace(c)
    ensures !('A' <= LowerChar(c) <= 'Z')
    ensures LowerChar(LowerChar(c)) == LowerChar(c)
  {
  }

  /** TrimSpace leaves no white space at either end. */
  lemma TrimSpaceTrimmed(s: string)
    ensures var t := TrimSpace(s); t != [] ==> !IsSpace(t[0]) && !IsSpace(t[|t| - 1])
  {
    var l := TrimLeft(s);
    var t := TrimRight(l);
    if t != [] {
      assert t[0] == l[0];
    }
  }

  /** A string with no white space at either end is its own TrimSpace. */
  lemma TrimSpaceOfTrimmed(r: string)
    requires r != [] ==> !IsSpace(r[0]) && !IsSpace(r[|r| - 1])
    ensures TrimSpace(r) == r
  {
    assert TrimLeft(r) == r;
  }

  /** ToLower keeps white space where it is, leaves no upper-case ASCII letter and is idempotent. */
  lemma ToLowerFacts(t: string)
    ensures var r := ToLower(t);
      && (r != [] ==> (IsSpace(r[0]) <==> IsSpace(t[0])) && (IsSpace(r[|r| - 1]) <==> IsSpace(t[|t| - 1])))
      && (forall i :: 0 <= i < |r| ==> !('A' <= r[i] <= 'Z'))
      && ToLower(r) == r
  {
    var r := ToLower(t);
    if r != [] {
      LowerCharFacts(t[0]);
      LowerCharFacts(t[|t| - 1]);
    }
    forall i | 0 <= i < |r| ensures !('A' <= r[i] <= 'Z') && ToLower(r)[i] == r[i] {
      LowerCharFacts(t[i]);
    }
  }

  /** The sanitised string has no leading or trailing white space and no upper-case ASCII letter. */
  lemma SanitizeStringNormalises(s: string)
    ensures var r := SanitizeString(s);
      && (r != [] ==> !IsSpace(r[0]) && !IsSpace(r[|r| - 1]))
      && (forall i :: 0 <= i < |r| ==> !('A' <= r[i] <= 'Z'))
  {
    TrimSpaceTrimmed(s);
    ToLowerFacts(TrimSpace(s));
  }

  /** Sanitising a sanitised string changes nothing. */
  lemma SanitizeStringIdempotent(s: string)
    ensures SanitizeString(SanitizeString(s)) == SanitizeString(s)
  {
    var t := TrimSpace(s);
    var r := ToLower(t);
    TrimSpaceTrimmed(s);
    ToLowerFacts(t);
    TrimSpaceOfTrimmed(r);
  }

  // ---------------------------------------------------------------------------
  // TruncateString
  // ---------------------------------------------------------------------------

  /** Keep at most `length` characters; a negative `length` makes Go's slice expression panic. */
  function TruncateString(s: string, length: int): (r: string)
    requires length >= 0
    ensures |r| == if |s| <= length then |s| else length
    ensures r == s[..|r|]
  {
    if |s| <= length then s else s[..length]
  }
}
