/**
 * Character classes and string primitives of JavaScript, as the rest of the
 * model needs them: the line terminators that `^` (with the `m` flag) and `.`
 * test for, the `\s` / `String.prototype.trim` white-space set, `\d`, and
 * `String.prototype.substring` with its clamping and swapping of arguments.
 *
 * Strings are sequences of code points; every character class used here lies
 * in the Basic Multilingual Plane, so a UTF-16 surrogate pair behaves like one
 * ordinary non-space character either way.
 */
module JsText {

  /** ECMAScript LineTerminator: LF, CR, LINE SEPARATOR, PARAGRAPH SEPARATOR. */
  predicate IsLineTerminator(c: char) {
    c == '\n' || c == '\r' || c == '\U{2028}' || c == '\U{2029}'
  }

  /** ECMAScript WhiteSpace: TAB, VT, FF, ZWNBSP and the Zs category. */
  predicate IsWhiteSpace(c: char) {
    c == '\t' || c == '\U{000B}' || c == '\U{000C}' || c == ' ' || c == '\U{00A0}'
    || c == '\U{1680}' || ('\U{2000}' <= c <= '\U{200A}') || c == '\U{202F}'
    || c == '\U{205F}' || c == '\U{3000}' || c == '\U{FEFF}'
  }

  /** The regex class `\s`, which is also the set `trim` removes. */
  predicate IsSpace(c: char) {
    IsWhiteSpace(c) || IsLineTerminator(c)
  }

  /** The regex class `\d` (no `u` flag: ASCII digits only). */
  predicate IsDigit(c: char) {
    '0' <= c <= '9'
  }

  /** `^` under the `m` flag: the start of the input or just after a line terminator. */
  predicate AtLineStart(s: string, i: nat) {
    i == 0 || (i <= |s| && IsLineTerminator(s[i - 1]))
  }

  /** `s.trim() === ""`, i.e. `!s.trim()` in a condition. */
  predicate IsBlank(s: string) {
    forall k :: 0 <= k < |s| ==> IsSpace(s[k])
  }

  /** The pair of indices `substring` uses: both clamped to [0, |s|], then ordered. */
  function SubstringBounds(len: nat, a: int, b: int): (r: (nat, nat))
    ensures r.0 <= r.1 <= len
    ensures 0 <= a <= b <= len ==> r == (a, b)
  {
    var a' := if a < 0 then 0 else if a > len then len else a;
    var b' := if b < 0 then 0 else if b > len then len else b;
    if a' <= b' then (a', b') else (b', a')
  }

  /** `s.substring(a, b)`. */
  function Substring(s: string, a: int, b: int): (r: string)
    ensures 0 <= a <= b <= |s| ==> r == s[a..b]
    ensures |r| <= |s|
  {
    var (lo, hi) := SubstringBounds(|s|, a, b);
    s[lo..hi]
  }

  /** `s.substring(a)`: from `a` to the end. */
  function SubstringFrom(s: string, a: int): (r: string)
    ensures 0 <= a <= |s| ==> r == s[a..]
  {
    Substring(s, a, |s|)
  }

  /**
   * `s.lastIndexOf(c)`: the greatest index holding `c`, or -1 when there is none.
   */
  function LastIndexOf(s: string, c: char): (r: int)
    ensures -1 <= r < |s|
    ensures r >= 0 ==> s[r] == c
    ensures forall k :: r < k < |s| ==> s[k] != c
  {
    if s == [] then -1
    else if s[|s| - 1] == c then |s| - 1
    else LastIndexOf(s[..|s| - 1], c)
  }
}
