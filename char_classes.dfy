/**
 * The character classes the patterns of app.py rely on, as Python's `re`
 * module defines them for `str` patterns, and the lowercase map of
 * `str.lower()`. The classes are exact for Latin-1 (U+0000..U+00FF), which
 * covers Portuguese text; `\s` is exact for all of Unicode. Beyond Latin-1 a
 * character counts as neither a digit nor a word character and `LowerChar`
 * leaves it alone.
 */
module CharClasses {

  /** `\d`: within Latin-1 only the ASCII digits are decimal digits. */
  predicate IsDigit(c: char) {
    '0' <= c <= '9'
  }

  /** `\s`: the characters `str.isspace()` accepts. */
  predicate IsSpace(c: char) {
    || '\t' <= c <= '\r'
    || '\U{1C}' <= c <= ' '
    || c == '\U{85}' || c == '\U{A0}' || c == '\U{1680}'
    || '\U{2000}' <= c <= '\U{200A}'
    || c == '\U{2028}' || c == '\U{2029}' || c == '\U{202F}' || c == '\U{205F}' || c == '\U{3000}'
  }

  /** `\w`: `_` and the alphanumeric characters of Latin-1. */
  predicate IsWordChar(c: char) {
    || '0' <= c <= '9' || 'A' <= c <= 'Z' || 'a' <= c <= 'z' || c == '_'
    || c == '\U{AA}' || c == '\U{B2}' || c == '\U{B3}' || c == '\U{B5}' || c == '\U{B9}' || c == '\U{BA}'
    || '\U{BC}' <= c <= '\U{BE}'
    || '\U{C0}' <= c <= '\U{D6}' || '\U{D8}' <= c <= '\U{F6}' || '\U{F8}' <= c <= '\U{FF}'
  }

  /** The Latin-1 capitals, which `str.lower()` moves 32 code points up. */
  predicate IsUpper(c: char) {
    'A' <= c <= 'Z' || ('\U{C0}' <= c <= '\U{DE}' && c != '\U{D7}')
  }

  /** `str.lower()` on one Latin-1 character. */
  function LowerChar(c: char): (r: char)
    ensures !IsUpper(r)
    ensures IsUpper(c) ==> r as int == c as int + 32
    ensures !IsUpper(c) ==> r == c
  {
    if IsUpper(c) then (c as int + 32) as char else c
  }

  /** A set of characters a single regex position accepts. */
  datatype Class = Digit | Space | NonSpace | AnyOf(chars: string)

  predicate InClass(c: char, cl: Class) {
    match cl
    case Digit => IsDigit(c)
    case Space => IsSpace(c)
    case NonSpace => !IsSpace(c)
    case AnyOf(cs) => c in cs
  }

  /** `\b` at position `k` of `s`: exactly one of the characters around `k` is a word character. */
  predicate IsBoundary(s: string, k: nat)
    requires k <= |s|
  {
    (0 < k && IsWordChar(s[k - 1])) != (k < |s| && IsWordChar(s[k]))
  }

  /** `n` digits start at position `k` of `s`. */
  predicate DigitsAt(s: string, k: nat, n: nat) {
    k + n <= |s| && forall t :: k <= t < k + n ==> IsDigit(s[t])
  }

  /** The end of the longest run of `cl` characters that starts at `k`. */
  function RunEnd(s: string, k: nat, cl: Class): (e: nat)
    requires k <= |s|
    ensures k <= e <= |s|
    ensures forall t :: k <= t < e ==> InClass(s[t], cl)
    ensures e == |s| || !InClass(s[e], cl)
    decreases |s| - k
  {
    if k < |s| && InClass(s[k], cl) then RunEnd(s, k + 1, cl) else k
  }
}
