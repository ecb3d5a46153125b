/** `validateEmail` (backend/server.js): a purely syntactic check of a candidate
    recipient address. No DNS or network lookup takes place. */
module Validation {
  import opened Wrappers
  import opened Text

  /** The characters JavaScript's `\s` matches. */
  predicate IsWhitespace(c: char)
  {
    c == ' ' || c == '\t' || c == '\n' || c == '\U{000B}' || c == '\U{000C}' || c == '\r' ||
    c == '\U{00A0}' || c == '\U{1680}' || ('\U{2000}' <= c <= '\U{200A}') ||
    c == '\U{2028}' || c == '\U{2029}' || c == '\U{202F}' || c == '\U{205F}' ||
    c == '\U{3000}' || c == '\U{FEFF}'
  }

  /** The character class `[^\s@]`. */
  predicate Plain(c: char)
  {
    c != '@' && !IsWhitespace(c)
  }

  /** `[^\s@]+`: a non-empty run of plain characters. */
  predicate PlainRun(t: string)
  {
    |t| > 0 && forall k :: 0 <= k < |t| ==> Plain(t[k])
  }

  /** The regular expression `^[^\s@]+@[^\s@]+\.[^\s@]+$`, written as the
      decomposition of the whole string into its five parts. */
  predicate MatchesPattern(s: string)
  {
    exists at, dot | 0 <= at < dot < |s| ::
      s[at] == '@' && s[dot] == '.' &&
      PlainRun(s[..at]) && PlainRun(s[at + 1..dot]) && PlainRun(s[dot + 1..])
  }

  /** `validateEmail(email)`, check by check as the source runs them. */
  function ValidateEmail(email: string): bool
  {
    if !MatchesPattern(email) then false
    else if Contains(email, "..") || EndsWith(email, ".") || StartsWith(email, ".") then false
    else if Contains(email, "@@") || StartsWith(email, "@") then false
    else
      var domain := Piece(Split(email, "@"), 1);
      // `!domain` is true of `undefined` and of the empty string
      if domain.None? || domain.value == "" || |domain.value| < 3 then false
      else
        var tld := Last(Split(domain.value, "."));
        !(tld == "" || |tld| < 2)
  }

  /** The addresses `ValidateEmail` accepts, stated character by character: exactly
      one `@`, not first; no whitespace; no leading `.`, no `..`; the domain after the
      `@` has a `.` with text on both sides, and its last two characters are not `.`
      (so the top-level label is at least two characters long). */
  ghost predicate AcceptedAddress(s: string)
  {
    exists at :: AcceptedAt(s, at)
  }

  /** `AcceptedAddress`, with the position of the `@` given. */
  ghost predicate AcceptedAt(s: string, at: int)
  {
    0 < at < |s| && s[at] == '@' &&
    (exists dot | at + 1 < dot < |s| - 2 :: s[dot] == '.') &&
    (forall k | 0 <= k < |s| && k != at :: Plain(s[k])) &&
    s[0] != '.' &&
    (forall k | 0 <= k < |s| - 1 :: !(s[k] == '.' && s[k + 1] == '.')) &&
    s[|s| - 1] != '.' && s[|s| - 2] != '.'
  }

  lemma OccursAtPair(s: string, a: char, b: char, k: int)
    ensures OccursAt(s, [a, b], k) <==> 0 <= k && k + 1 < |s| && s[k] == a && s[k + 1] == b
  {
    if 0 <= k && k + 1 < |s| {
      assert s[k..k + 2] == [s[k], s[k + 1]];
    }
  }

  /** With a single `@` at `at`, `split('@')` gives the local part and the domain. */
  lemma SplitAtSoleAt(s: string, at: nat)
    requires at < |s| && s[at] == '@'
    requires forall k | 0 <= k < |s| && k != at :: s[k] != '@'
    ensures Split(s, "@") == [s[..at], s[at + 1..]]
  {
    forall j ensures OccursAt(s, "@", j) ==> j == at {
      OccursAtChar(s, '@', j);
    }
    OccursAtChar(s, '@', at);
    SplitAtOnlyOccurrence(s, "@", at);
  }

  /** The three runs of the pattern leave only the `@` as a non-plain character. */
  lemma PlainAwayFromAt(s: string, at: int, dot: int)
    requires 0 <= at < dot < |s| && s[at] == '@' && s[dot] == '.'
    requires PlainRun(s[..at]) && PlainRun(s[at + 1..dot]) && PlainRun(s[dot + 1..])
    ensures forall k | 0 <= k < |s| && k != at :: Plain(s[k])
  {
    forall k | 0 <= k < |s| && k != at ensures Plain(s[k]) {
      if k < at { assert s[..at][k] == s[k]; }
      else if k < dot { assert s[at + 1..dot][k - at - 1] == s[k]; }
      else if k > dot { assert s[dot + 1..][k - dot - 1] == s[k]; }
    }
  }

  /** The checks after the pattern, read off character by character. */
  lemma AcceptedFromChecks(s: string, at: int, dot: int)
    requires 0 <= at && at + 1 < dot < |s| && s[at] == '@' && s[dot] == '.'
    requires PlainRun(s[..at]) && PlainRun(s[dot + 1..])
    requires forall k | 0 <= k < |s| && k != at :: Plain(s[k])
    requires !Contains(s, "..") && !StartsWith(s, ".") && !EndsWith(s, ".")
    requires |Last(Split(s[at + 1..], "."))| >= 2
    ensures AcceptedAt(s, at)
  {
    assert s[0] != '.' by { assert s[..1] == [s[0]]; }
    assert s[|s| - 1] != '.' by { assert s[|s| - 1..] == [s[|s| - 1]]; }
    forall k | 0 <= k < |s| - 1 ensures !(s[k] == '.' && s[k + 1] == '.') {
      OccursAtPair(s, '.', '.', k);
    }
    assert s[|s| - 2] != '.' by {
      var domain := s[at + 1..];
      LastPieceAtLeastTwo(domain, '.');
      assert domain[|domain| - 2] == s[|s| - 2];
    }
    assert at + 1 < dot < |s| - 2 && s[dot] == '.';
  }

  /** Everything `ValidateEmail` accepts is an `AcceptedAddress`. */
  lemma AcceptedWhenValid(s: string)
    requires ValidateEmail(s)
    ensures AcceptedAddress(s)
  {
    var at, dot :| 0 <= at < dot < |s| &&
      s[at] == '@' && s[dot] == '.' &&
      PlainRun(s[..at]) && PlainRun(s[at + 1..dot]) && PlainRun(s[dot + 1..]);
    PlainAwayFromAt(s, at, dot);
    SplitAtSoleAt(s, at);
    AcceptedFromChecks(s, at, dot);
  }

  /** An accepted address matches the regular expression. */
  lemma PatternOfAccepted(s: string, at: int)
    requires AcceptedAt(s, at)
    ensures MatchesPattern(s)
  {
    var dot :| at + 1 < dot < |s| - 2 && s[dot] == '.';
    assert PlainRun(s[..at]);
    assert PlainRun(s[at + 1..dot]);
    assert PlainRun(s[dot + 1..]);
  }

  /** An accepted address passes the checks for typos. */
  lemma TyposOfAccepted(s: string, at: int)
    requires AcceptedAt(s, at)
    ensures !Contains(s, "..") && !EndsWith(s, ".") && !StartsWith(s, ".")
    ensures !Contains(s, "@@") && !StartsWith(s, "@")
  {
    forall k ensures !OccursAt(s, "..", k) && !OccursAt(s, "@@", k) {
      OccursAtPair(s, '.', '.', k);
      OccursAtPair(s, '@', '@', k);
    }
    assert s[..1] == [s[0]];
    assert s[|s| - 1..] == [s[|s| - 1]];
  }

  /** The domain of an accepted address is the text after its `@`, and its last
      label has at least two characters. */
  lemma DomainOfAccepted(s: string, at: int)
    requires AcceptedAt(s, at)
    ensures Split(s, "@") == [s[..at], s[at + 1..]]
    ensures |s[at + 1..]| >= 3 && |Last(Split(s[at + 1..], "."))| >= 2
  {
    SplitAtSoleAt(s, at);
    var domain := s[at + 1..];
    LastPieceAtLeastTwo(domain, '.');
    assert domain[|domain| - 1] == s[|s| - 1] && domain[|domain| - 2] == s[|s| - 2];
  }

  /** Every `AcceptedAddress` passes `ValidateEmail`. */
  lemma ValidWhenAccepted(s: string)
    requires AcceptedAddress(s)
    ensures ValidateEmail(s)
  {
    var at :| AcceptedAt(s, at);
    PatternOfAccepted(s, at);
    TyposOfAccepted(s, at);
    DomainOfAccepted(s, at);
  }

  /** `ValidateEmail` accepts exactly the `AcceptedAddress` strings. */
  lemma ValidateEmailMeaning(s: string)
    ensures ValidateEmail(s) <==> AcceptedAddress(s)
  {
    if ValidateEmail(s) { AcceptedWhenValid(s); }
    if AcceptedAddress(s) { ValidWhenAccepted(s); }
  }

  /** The regular expression alone already forces a domain of at least three
      characters, so the source's `domain.length < 3` test never rejects anything. */
  lemma PatternGivesLongDomain(s: string)
    requires MatchesPattern(s)
    ensures Piece(Split(s, "@"), 1).Some? && |Piece(Split(s, "@"), 1).value| >= 3
  {
    var at, dot :| 0 <= at < dot < |s| &&
      s[at] == '@' && s[dot] == '.' &&
      PlainRun(s[..at]) && PlainRun(s[at + 1..dot]) && PlainRun(s[dot + 1..]);
    PlainAwayFromAt(s, at, dot);
    SplitAtSoleAt(s, at);
  }

  /** A well-formed address is accepted. */
  lemma AcceptsExample()
    ensures ValidateEmail("user@example.com")
  {
    var good := "user@example.com";
    assert good[4] == '@' && good[12] == '.';
    assert AcceptedAt(good, 4);
    ValidWhenAccepted(good);
  }

  /** A doubled dot, a leading or trailing dot, a doubled `@`, a two-character
      domain and a one-character top-level label are each rejected. */
  lemma RejectsExamples()
    ensures !ValidateEmail("a@b..c") && !ValidateEmail(".a@b.com")
    ensures !ValidateEmail("a@b.com.") && !ValidateEmail("a@@b.com")
    ensures !ValidateEmail("a@ab") && !ValidateEmail("a@b.c")
  {
    var s1, s2, s3, s4, s5, s6 := "a@b..c", ".a@b.com", "a@b.com.", "a@@b.com", "a@ab", "a@b.c";
    forall at ensures !AcceptedAt(s1, at) { assert s1[3] == '.' && s1[4] == '.'; }
    forall at ensures !AcceptedAt(s2, at) { assert s2[0] == '.'; }
    forall at ensures !AcceptedAt(s3, at) { assert s3[|s3| - 1] == '.'; }
    forall at ensures !AcceptedAt(s4, at) { assert s4[1] == '@' && s4[2] == '@'; }
    forall at ensures !AcceptedAt(s5, at) { }
    forall at ensures !AcceptedAt(s6, at) { assert s6[3] == '.'; }
    ValidateEmailMeaning(s1);
    ValidateEmailMeaning(s2);
    ValidateEmailMeaning(s3);
    ValidateEmailMeaning(s4);
    ValidateEmailMeaning(s5);
    ValidateEmailMeaning(s6);
  }
}
