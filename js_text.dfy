/**
 * The JavaScript string built-ins the contact form and the category buttons
 * use: `String.prototype.trim`, `.length` (counted in UTF-16 code units),
 * and upper-casing of a single ASCII character.
 *
 * Dafny's `char` is a Unicode scalar value, so a character outside the Basic
 * Multilingual Plane is one `char` here but two code units to JavaScript.
 */
module JsText {

  /**
   * The code points `trim` removes: ECMAScript's WhiteSpace (tab, vertical tab,
   * form feed, space, no-break space, byte order mark and the other `Zs`
   * characters) and LineTerminator (line feed, carriage return, line and
   * paragraph separators).
   */
  predicate IsWhitespace(c: char) {
    var n := c as int;
    n == 0x09 || n == 0x0A || n == 0x0B || n == 0x0C || n == 0x0D || n == 0x20 ||
    n == 0xA0 || n == 0x1680 || 0x2000 <= n <= 0x200A || n == 0x2028 || n == 0x2029 ||
    n == 0x202F || n == 0x205F || n == 0x3000 || n == 0xFEFF
  }

  /** Every character of `s` is whitespace (vacuously so for ""). */
  predicate IsBlank(s: string) {
    forall i :: 0 <= i < |s| ==> IsWhitespace(s[i])
  }

  /**
   * `s.trim()`: `s` without its leading and trailing whitespace. It is empty
   * exactly when `s` holds nothing but whitespace, and otherwise starts and
   * ends with a non-whitespace character of `s`.
   */
  function Trim(s: string): (r: string)
    ensures |r| <= |s|
    ensures r == [] <==> IsBlank(s)
    ensures r != [] ==> !IsWhitespace(r[0]) && !IsWhitespace(r[|r| - 1])
  {
    if |s| > 0 && IsWhitespace(s[0]) then
      assert forall i :: 0 < i < |s| ==> s[i] == s[1..][i - 1];
      Trim(s[1..])
    else if |s| > 0 && IsWhitespace(s[|s| - 1]) then
      assert forall i :: 0 <= i < |s| - 1 ==> s[i] == s[..|s| - 1][i];
      Trim(s[..|s| - 1])
    else
      s
  }

  /** Whitespace joined to a blank string, on either side, is blank. */
  lemma BlankJoin(a: string, b: string)
    requires IsBlank(a) && IsBlank(b)
    ensures IsBlank(a + b)
  {
  }

  /** `s` is `mid` between a blank prefix and a blank suffix. */
  ghost predicate BlankAround(s: string, mid: string) {
    exists i, j :: 0 <= i <= j <= |s| && mid == s[i..j] && IsBlank(s[..i]) && IsBlank(s[j..])
  }

  /** Whitespace in front of a string keeps what surrounds its middle blank. */
  lemma BlankAroundCons(s: string, mid: string)
    requires |s| > 0 && IsWhitespace(s[0]) && BlankAround(s[1..], mid)
    ensures BlankAround(s, mid)
  {
    var t := s[1..];
    var i, j :| 0 <= i <= j <= |t| && mid == t[i..j] && IsBlank(t[..i]) && IsBlank(t[j..]);
    assert mid == s[i + 1..j + 1];
    assert s[j + 1..] == t[j..];
    assert s[..i + 1] == s[..1] + t[..i];
    BlankJoin(s[..1], t[..i]);
  }

  /** Whitespace after a string keeps what surrounds its middle blank. */
  lemma BlankAroundSnoc(s: string, mid: string)
    requires |s| > 0 && IsWhitespace(s[|s| - 1]) && BlankAround(s[..|s| - 1], mid)
    ensures BlankAround(s, mid)
  {
    var t := s[..|s| - 1];
    var i, j :| 0 <= i <= j <= |t| && mid == t[i..j] && IsBlank(t[..i]) && IsBlank(t[j..]);
    assert mid == s[i..j];
    assert s[..i] == t[..i];
    assert s[j..] == t[j..] + s[|s| - 1..];
    BlankJoin(t[j..], s[|s| - 1..]);
  }

  /** `trim` removes a blank prefix and a blank suffix and keeps what lies between. */
  lemma {:induction false} TrimKeepsMiddle(s: string)
    ensures BlankAround(s, Trim(s))
    decreases |s|
  {
    if |s| > 0 && IsWhitespace(s[0]) {
      TrimKeepsMiddle(s[1..]);
      BlankAroundCons(s, Trim(s));
    } else if |s| > 0 && IsWhitespace(s[|s| - 1]) {
      TrimKeepsMiddle(s[..|s| - 1]);
      BlankAroundSnoc(s, Trim(s));
    } else {
      assert s == s[0..|s|] && s[..0] == [] && s[|s|..] == [];
    }
  }

  /** `s.length`: the number of UTF-16 code units that encode `s`. */
  function Utf16Length(s: string): (n: nat)
    ensures |s| <= n <= 2 * |s|
    ensures n == |s| <==> forall i :: 0 <= i < |s| ==> s[i] as int < 0x1_0000
  {
    if |s| == 0 then 0
    else (if s[0] as int < 0x1_0000 then 1 else 2) + Utf16Length(s[1..])
  }

  predicate IsAsciiLetter(c: char) {
    'A' <= c <= 'Z' || 'a' <= c <= 'z'
  }

  predicate IsAsciiDigit(c: char) {
    '0' <= c <= '9'
  }

  /** `toUpperCase` restricted to ASCII: a lower-case letter becomes its capital. */
  function UpperAscii(c: char): (u: char)
    ensures IsAsciiLetter(c) <==> IsAsciiLetter(u)
    ensures 'a' <= c <= 'z' ==> 'A' <= u <= 'Z' && u as int + 32 == c as int
    ensures !('a' <= c <= 'z') ==> u == c
  {
    if 'a' <= c <= 'z' then (c as int - 32) as char else c
  }
}
