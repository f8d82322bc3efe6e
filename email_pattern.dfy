/**
 * The address check of the contact form, the case-insensitive regular
 * expression `^[A-Z0-9._%+-]+@[A-Z0-9.-]+\.[A-Z]{2,}$` (without the `u` flag,
 * case folding maps no non-ASCII character into A-Z, so every class below is
 * ASCII).
 *
 * `Matches` describes the regular expression directly: some `@` and some later
 * `.` split the string into a local part, a domain and a final label.
 * `MatchesEmail` decides it by looking only at the first `@` and the last `.`;
 * `MatchesEmailIff` proves the two agree on every string.
 */
module EmailPattern {
  import opened JsText
  import opened Sequences

  /** `[A-Z0-9._%+-]` under the `i` flag. */
  predicate IsLocalChar(c: char) {
    IsAsciiLetter(c) || IsAsciiDigit(c) || c == '.' || c == '_' || c == '%' || c == '+' || c == '-'
  }

  /** `[A-Z0-9.-]` under the `i` flag. */
  predicate IsDomainChar(c: char) {
    IsAsciiLetter(c) || IsAsciiDigit(c) || c == '.' || c == '-'
  }

  /**
   * The regular expression matches `s` with its `@` at `at` and the `.` before
   * the final label at `dot`: one or more local characters before `at`, one or
   * more domain characters strictly between, two or more letters after `dot`
   * up to the end.
   */
  ghost predicate SplitsAt(s: string, at: int, dot: int) {
    && 1 <= at && at + 2 <= dot && dot + 3 <= |s|
    && s[at] == '@' && s[dot] == '.'
    && (forall k :: 0 <= k < at ==> IsLocalChar(s[k]))
    && (forall k :: at < k < dot ==> IsDomainChar(s[k]))
    && (forall k :: dot < k < |s| ==> IsAsciiLetter(s[k]))
  }

  /** The language of the regular expression. */
  ghost predicate Matches(s: string) {
    exists at, dot :: SplitsAt(s, at, dot)
  }

  /** `pattern.test(s)`, deciding the split from the first `@` and the last `.`. */
  function MatchesEmail(s: string): bool {
    var at := IndexOf(s, '@');
    var dot := LastIndexOf(s, '.');
    && 1 <= at && at + 2 <= dot && dot + 3 <= |s|
    && (forall k | 0 <= k < at :: IsLocalChar(s[k]))
    && (forall k | at < k < dot :: IsDomainChar(s[k]))
    && (forall k | dot < k < |s| :: IsAsciiLetter(s[k]))
  }

  /** In any match, the `@` is the first one and the `.` is the last one. */
  lemma SplitIsFirstAtLastDot(s: string, at: int, dot: int)
    requires SplitsAt(s, at, dot)
    ensures IndexOf(s, '@') == at && LastIndexOf(s, '.') == dot
  {
  }

  /** The scanner accepts exactly the strings the regular expression matches. */
  lemma MatchesEmailIff(s: string)
    ensures MatchesEmail(s) <==> Matches(s)
  {
    if MatchesEmail(s) {
      assert SplitsAt(s, IndexOf(s, '@'), LastIndexOf(s, '.'));
    }
    if Matches(s) {
      var at, dot :| SplitsAt(s, at, dot);
      SplitIsFirstAtLastDot(s, at, dot);
    }
  }

  /** A sequence of characters none of which is `c` holds no copy of `c`. */
  lemma CountAbsent(t: string, c: char)
    requires forall k :: 0 <= k < |t| ==> t[k] != c
    ensures multiset(t)[c] == 0
  {
  }

  /** A match holds exactly one `@`. */
  lemma SingleAt(s: string, at: int, dot: int)
    requires SplitsAt(s, at, dot)
    ensures multiset(s)['@'] == 1
  {
    var local, rest := s[..at], s[at + 1..];
    assert s == local + [s[at]] + rest;
    CountAbsent(local, '@');
    assert forall k :: 0 <= k < |rest| ==> rest[k] == s[at + 1 + k];
    CountAbsent(rest, '@');
    assert multiset(s) == multiset(local) + multiset([s[at]]) + multiset(rest);
  }

  /** A match holds no whitespace. */
  lemma NoWhitespace(s: string, at: int, dot: int)
    requires SplitsAt(s, at, dot)
    ensures forall k :: 0 <= k < |s| ==> !IsWhitespace(s[k])
  {
  }

  /**
   * What an accepted address looks like: exactly one `@`, with at least one
   * character before it; no whitespace anywhere; and a `.` followed by at
   * least two ASCII letters at the end.
   */
  lemma AcceptedShape(s: string)
    requires Matches(s)
    ensures multiset(s)['@'] == 1
    ensures IndexOf(s, '@') >= 1
    ensures forall k :: 0 <= k < |s| ==> !IsWhitespace(s[k])
    ensures exists dot :: 0 <= dot <= |s| - 3 && s[dot] == '.' &&
              forall k :: dot < k < |s| ==> IsAsciiLetter(s[k])
  {
    var at, dot :| SplitsAt(s, at, dot);
    SplitIsFirstAtLastDot(s, at, dot);
    SingleAt(s, at, dot);
    NoWhitespace(s, at, dot);
  }

  /** An address that matches cannot be blank. */
  lemma MatchIsNotBlank(s: string)
    requires Matches(s)
    ensures !IsBlank(s)
  {
  }
}
