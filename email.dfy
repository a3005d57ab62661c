/**
 * The e-mail format check of the payment form (`isValidEmail`, main.go).
 *
 * The source matches the regular expression
 *   ^[a-zA-Z0-9._%+-]+@[a-zA-Z0-9.-]+\.[a-zA-Z]{2,}$
 * This module gives a hand-written recogniser for it (`IsValidEmail`) and,
 * independently, the language of the expression as a split of the address
 * into its five pieces (`EmailSplitAt`), and proves the two agree.
 */
module Email {
  import opened Wrappers

  predicate IsAsciiLetter(c: char) {
    ('a' <= c <= 'z') || ('A' <= c <= 'Z')
  }

  predicate IsAsciiDigit(c: char) {
    '0' <= c <= '9'
  }

  /** The class [a-zA-Z0-9._%+-] of the local part. */
  predicate IsLocalChar(c: char) {
    IsAsciiLetter(c) || IsAsciiDigit(c) || c == '.' || c == '_' || c == '%' || c == '+' || c == '-'
  }

  /** The class [a-zA-Z0-9.-] of the domain part. */
  predicate IsDomainChar(c: char) {
    IsAsciiLetter(c) || IsAsciiDigit(c) || c == '.' || c == '-'
  }

  predicate AllLocal(s: string) {
    forall i :: 0 <= i < |s| ==> IsLocalChar(s[i])
  }

  predicate AllDomain(s: string) {
    forall i :: 0 <= i < |s| ==> IsDomainChar(s[i])
  }

  predicate AllLetters(s: string) {
    forall i :: 0 <= i < |s| ==> IsAsciiLetter(s[i])
  }

  /** Index of the first occurrence of `c` in `s`. */
  function IndexOf(s: string, c: char): (r: Option<nat>)
    ensures r.Some? ==> r.value < |s| && s[r.value] == c
    ensures r.Some? ==> forall k :: 0 <= k < r.value ==> s[k] != c
    ensures r.None? ==> forall k :: 0 <= k < |s| ==> s[k] != c
  {
    if s == [] then None
    else if s[0] == c then Some(0)
    else match IndexOf(s[1..], c)
      case None => None
      case Some(i) => Some(i + 1)
  }

  /** Index of the last occurrence of `c` in `s`. */
  function LastIndexOf(s: string, c: char): (r: Option<nat>)
    ensures r.Some? ==> r.value < |s| && s[r.value] == c
    ensures r.Some? ==> forall k :: r.value < k < |s| ==> s[k] != c
    ensures r.None? ==> forall k :: 0 <= k < |s| ==> s[k] != c
  {
    if s == [] then None
    else if s[|s| - 1] == c then Some(|s| - 1)
    else LastIndexOf(s[..|s| - 1], c)
  }

  /**
   * The part after the '@': domain characters only, and its last dot is
   * not its first character and is followed by at least two letters.
   */
  predicate IsValidDomain(d: string) {
    AllDomain(d) &&
    match LastIndexOf(d, '.')
    case None => false
    case Some(j) => 0 < j && j + 2 < |d| && AllLetters(d[j + 1..])
  }

  /**
   * The recogniser: split at the first '@' and check both sides. An accepted
   * address has at least six characters, starts with a local-part character
   * and ends with a letter.
   */
  predicate IsValidEmail(email: string)
    ensures IsValidEmail(email) ==>
      6 <= |email| && IsLocalChar(email[0]) && IsAsciiLetter(email[|email| - 1])
  {
    match IndexOf(email, '@')
    case None => false
    case Some(at) => 0 < at && AllLocal(email[..at]) && IsValidDomain(email[at + 1..])
  }

  /**
   * The regular expression read as a split: `email` is
   * email[..at] + "@" + email[at+1..dot] + "." + email[dot+1..]
   * with a non-empty local part, a non-empty domain body and a top-level
   * part of at least two letters.
   */
  predicate EmailSplitAt(email: string, at: int, dot: int) {
    0 < at && at + 1 < dot && dot + 2 < |email| &&
    (forall k :: 0 <= k < at ==> IsLocalChar(email[k])) &&
    email[at] == '@' &&
    (forall k :: at < k < dot ==> IsDomainChar(email[k])) &&
    email[dot] == '.' &&
    (forall k :: dot < k < |email| ==> IsAsciiLetter(email[k]))
  }

  ghost predicate MatchesEmailPattern(email: string) {
    exists at, dot :: EmailSplitAt(email, at, dot)
  }

  /** The recogniser accepts exactly the language of the regular expression. */
  lemma IsValidEmailMatchesPattern(email: string)
    ensures IsValidEmail(email) <==> MatchesEmailPattern(email)
  {
    if IsValidEmail(email) {
      var at := IndexOf(email, '@').value;
      var d := email[at + 1..];
      var j := LastIndexOf(d, '.').value;
      var dot := at + 1 + j;
      assert forall k :: at < k < dot ==> email[k] == d[k - at - 1];
      assert forall k :: dot < k < |email| ==> email[k] == d[j + 1..][k - dot - 1];
      assert EmailSplitAt(email, at, dot);
    }
    if MatchesEmailPattern(email) {
      var at, dot :| EmailSplitAt(email, at, dot);
      SplitIsValid(email, at, dot);
    }
  }

  lemma SplitIsValid(email: string, at: int, dot: int)
    requires EmailSplitAt(email, at, dot)
    ensures IsValidEmail(email)
  {
  }

  /** An accepted address uses no character outside the local-part class and '@'. */
  lemma ValidEmailAlphabet(email: string)
    requires IsValidEmail(email)
    ensures forall k :: 0 <= k < |email| ==> IsLocalChar(email[k]) || email[k] == '@'
  {
  }

  /** An accepted address contains exactly one '@'. */
  lemma ValidEmailHasOneAt(email: string)
    requires IsValidEmail(email)
    ensures exists at :: 0 <= at < |email| && email[at] == '@'
    ensures forall i, j :: 0 <= i < |email| && 0 <= j < |email| && email[i] == '@' && email[j] == '@' ==> i == j
  {
  }
}
