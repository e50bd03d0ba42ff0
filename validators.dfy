/** Field validators of the reviews app: the release-year bound and the
    username pattern, together with the whitespace trimming that the API's
    character fields apply before any validator sees a value. */
module Validators {

  // ---------------------------------------------------------------- year

  /** A release year is valid when it is not later than the current year.
      `validator_year` reads the current year from the clock; here it is a
      parameter. */
  predicate YearValid(year: int, currentYear: int) {
    year <= currentYear
  }

  /** The current year itself is accepted, the next one is not, and validity
      is closed downwards. */
  lemma YearBoundary(year: int, earlier: int, currentYear: int)
    ensures YearValid(currentYear, currentYear)
    ensures !YearValid(currentYear + 1, currentYear)
    ensures YearValid(year, currentYear) && earlier <= year ==> YearValid(earlier, currentYear)
  {
  }

  // ---------------------------------------------------------------- username

  /** Python's `\w`, restricted to ASCII: letters, digits and underscore. */
  predicate IsWordChar(c: char) {
    ('a' <= c <= 'z') || ('A' <= c <= 'Z') || ('0' <= c <= '9') || c == '_'
  }

  /** The character class `[\w.@+-]` of the username pattern. */
  predicate IsUsernameChar(c: char) {
    IsWordChar(c) || c == '.' || c == '@' || c == '+' || c == '-'
  }

  /** The full-string reading of the pattern: one or more characters of the
      class and nothing else. */
  predicate IsUsername(s: string) {
    |s| > 0 && forall i :: 0 <= i < |s| ==> IsUsernameChar(s[i])
  }

  /** The length of the run that `[\w.@+-]+` consumes greedily from the start. */
  function LeadingRun(s: string): (k: nat)
    ensures k <= |s|
    ensures forall i :: 0 <= i < k ==> IsUsernameChar(s[i])
    ensures k < |s| ==> !IsUsernameChar(s[k])
  {
    if s == [] || !IsUsernameChar(s[0]) then 0 else 1 + LeadingRun(s[1..])
  }

  /** The validator as written: a search for `^[\w.@+-]+$`, where Python's `$`
      matches at the end of the string and also just before a final newline. */
  predicate UsernameMatchesAsWritten(s: string) {
    var k := LeadingRun(s);
    k >= 1 && (k == |s| || (k == |s| - 1 && s[k] == '\n'))
  }

  /** What the pattern as written accepts: a username, or a username followed
      by one newline. */
  lemma AsWrittenCharacterisation(s: string)
    ensures UsernameMatchesAsWritten(s) <==>
            IsUsername(s) || (|s| >= 2 && s[|s| - 1] == '\n' && IsUsername(s[..|s| - 1]))
  {
    var k := LeadingRun(s);
    if |s| >= 2 && s[|s| - 1] == '\n' && IsUsername(s[..|s| - 1]) {
      forall i | 0 <= i < |s| - 1 ensures IsUsernameChar(s[i]) {
        assert s[i] == s[..|s| - 1][i];
      }
      assert k == |s| - 1;
    }
  }

  /** The discrepancy: "bob" followed by a newline passes the validator as
      written but is not a username. */
  lemma AsWrittenAcceptsTrailingNewline()
    ensures UsernameMatchesAsWritten("bob\n")
    ensures !IsUsername("bob\n")
  {
    var s := "bob\n";
    assert !IsUsernameChar(s[3]);
    AsWrittenCharacterisation(s);
    assert s[..3] == "bob";
  }

  /** On a string that does not end in a newline the validator as written and
      the full-string reading agree. */
  lemma AsWrittenAgreesWithoutTrailingNewline(s: string)
    requires s == [] || s[|s| - 1] != '\n'
    ensures UsernameMatchesAsWritten(s) <==> IsUsername(s)
  {
    AsWrittenCharacterisation(s);
  }

  /** `/` and whitespace are rejected wherever they occur, although the
      validator's message lists `/` among the allowed signs. */
  lemma UsernameRejectsSlashAndSpace(prefix: string, c: char, suffix: string)
    requires c == '/' || IsSpace(c)
    ensures !IsUsername(prefix + [c] + suffix)
  {
    assert (prefix + [c] + suffix)[|prefix|] == c;
  }

  /** No character of the class is `/` or whitespace. */
  lemma UsernameCharIsNotSpace(c: char)
    requires IsUsernameChar(c)
    ensures c != '/' && !IsSpace(c)
  {
  }

  /** The empty string is not a username, and usernames are closed under
      concatenation. */
  lemma UsernameConcat(a: string, b: string)
    requires IsUsername(a) && IsUsername(b)
    ensures IsUsername(a + b)
    ensures !IsUsername("")
  {
  }

  // ---------------------------------------------------------------- whitespace

  /** Python's `str.isspace` on one character. */
  predicate IsSpace(c: char) {
    c == ' ' || c == '\t' || c == '\n' || c == '\r' || c == '\U{0B}' || c == '\U{0C}'
    || ('\U{1C}' <= c <= '\U{1F}') || c == '\U{85}' || c == '\U{A0}' || c == '\U{1680}'
    || ('\U{2000}' <= c <= '\U{200A}') || c == '\U{2028}' || c == '\U{2029}'
    || c == '\U{202F}' || c == '\U{205F}' || c == '\U{3000}'
  }

  /** Drops leading whitespace. */
  function TrimStart(s: string): (r: string)
    ensures |r| <= |s| && r == s[|s| - |r|..]
    ensures r == [] || !IsSpace(r[0])
    ensures forall i :: 0 <= i < |s| - |r| ==> IsSpace(s[i])
  {
    if s != [] && IsSpace(s[0]) then TrimStart(s[1..]) else s
  }

  /** Drops trailing whitespace. */
  function TrimEnd(s: string): (r: string)
    ensures r <= s
    ensures r == [] || !IsSpace(r[|r| - 1])
    ensures forall i :: |r| <= i < |s| ==> IsSpace(s[i])
  {
    if s != [] && IsSpace(s[|s| - 1]) then TrimEnd(s[..|s| - 1]) else s
  }

  /** Every character is whitespace. */
  predicate SpaceOnly(s: string) {
    forall i :: 0 <= i < |s| ==> IsSpace(s[i])
  }

  /** `r` is the part `s[a..b]` of `s`, and everything around it is whitespace. */
  predicate TrimmedFrom(s: string, r: string, a: int, b: int) {
    0 <= a <= b <= |s| && r == s[a..b] && SpaceOnly(s[..a]) && SpaceOnly(s[b..])
  }

  /** `str.strip()`, which the API's character fields apply to every input:
      the input with its surrounding whitespace, and only that, removed. */
  function Strip(s: string): (r: string)
    ensures exists a, b :: TrimmedFrom(s, r, a, b)
    ensures r == [] || (!IsSpace(r[0]) && !IsSpace(r[|r| - 1]))
    ensures r == [] <==> forall i :: 0 <= i < |s| ==> IsSpace(s[i])
  {
    var t := TrimStart(s);
    var r := TrimEnd(t);
    assert r != [] ==> r[0] == t[0];
    TrimmedIsSlice(s);
    r
  }

  /** A prefix of a suffix is a slice, and what follows it is the rest of the suffix. */
  lemma PrefixOfSuffix<T>(s: seq<T>, t: seq<T>, r: seq<T>)
    requires |t| <= |s| && t == s[|s| - |t|..] && r <= t
    ensures r == s[|s| - |t|..|s| - |t| + |r|] && s[|s| - |t| + |r|..] == t[|r|..]
  {
  }

  lemma LeadingSpaces(s: string)
    ensures SpaceOnly(s[..|s| - |TrimStart(s)|])
  {
  }

  lemma TrailingSpaces(t: string)
    ensures SpaceOnly(t[|TrimEnd(t)|..])
  {
  }

  /** Trimming both ends keeps a middle part of the input and drops only the
      whitespace around it. */
  lemma TrimmedIsSlice(s: string)
    ensures exists a, b :: TrimmedFrom(s, TrimEnd(TrimStart(s)), a, b)
  {
    var t := TrimStart(s);
    var r := TrimEnd(t);
    PrefixOfSuffix(s, t, r);
    LeadingSpaces(s);
    TrailingSpaces(t);
    assert TrimmedFrom(s, r, |s| - |t|, |s| - |t| + |r|);
  }

  /** A string without surrounding whitespace is left as it is. */
  lemma StripKeepsTrimmed(s: string)
    requires s == [] || (!IsSpace(s[0]) && !IsSpace(s[|s| - 1]))
    ensures Strip(s) == s
  {
  }

  /** Trimming is idempotent. */
  lemma StripIdempotent(s: string)
    ensures Strip(Strip(s)) == Strip(s)
  {
    StripKeepsTrimmed(Strip(s));
  }

  /** A trimmed value never ends in a newline, so on trimmed input the
      validator as written behaves as intended. */
  lemma TrimmedUsernameCheckAgrees(raw: string)
    ensures UsernameMatchesAsWritten(Strip(raw)) <==> IsUsername(Strip(raw))
  {
    AsWrittenAgreesWithoutTrailingNewline(Strip(raw));
  }
}
