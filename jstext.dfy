/**
 * The pieces of JavaScript string behaviour that the geolocation handlers rely on:
 * upper-casing, the characters a regular-expression `.` matches, and
 * `String.prototype.codePointAt`. A JavaScript string is modelled as a Dafny `string`,
 * one `char` per code point; the handlers' inputs are ASCII, where code units and
 * code points coincide.
 */
module JsText {

  datatype Option<T> = None | Some(value: T)

  /** Every character of `s` lies in the ASCII range. */
  predicate IsAscii(s: string) {
    forall i :: 0 <= i < |s| ==> s[i] as int < 128
  }

  predicate IsLowerAscii(c: char) { 'a' <= c <= 'z' }

  predicate IsUpperAscii(c: char) { 'A' <= c <= 'Z' }

  predicate IsAsciiLetter(c: char) { IsLowerAscii(c) || IsUpperAscii(c) }

  /**
   * The characters a regular-expression `.` (without the `s` flag) refuses to match:
   * line feed, carriage return, line separator and paragraph separator.
   */
  predicate IsLineTerminator(c: char) {
    c == '\n' || c == '\r' || c == '\U{2028}' || c == '\U{2029}'
  }

  /** `toUpperCase` on one ASCII character: only `a`..`z` change. */
  function UpperChar(c: char): (u: char)
    requires c as int < 128
    ensures u as int < 128 && !IsLowerAscii(u)
    ensures IsAsciiLetter(u) <==> IsAsciiLetter(c)
    ensures IsLowerAscii(c) ==> u as int == c as int - 32
    ensures !IsLowerAscii(c) ==> u == c
  {
    if IsLowerAscii(c) then (c as int - 32) as char else c
  }

  /** `String.prototype.toUpperCase` on an ASCII string. */
  function ToUpper(s: string): (r: string)
    requires IsAscii(s)
    ensures |r| == |s| && IsAscii(r)
    ensures forall i :: 0 <= i < |s| ==> r[i] == UpperChar(s[i])
    ensures forall i :: 0 <= i < |r| ==> !IsLowerAscii(r[i])
  {
    if s == [] then [] else [UpperChar(s[0])] + ToUpper(s[1..])
  }

  /** Upper-casing twice is upper-casing once. */
  lemma {:induction false} ToUpperIdempotent(s: string)
    requires IsAscii(s)
    ensures ToUpper(ToUpper(s)) == ToUpper(s)
  {
    if s != [] {
      ToUpperIdempotent(s[1..]);
      assert ToUpper(s)[1..] == ToUpper(s[1..]);
    }
  }

  /** How `codePointAt` was called: with no argument, or with `undefined`. */
  datatype PositionArg = Omitted | Undefined

  /**
   * ToIntegerOrInfinity of the position argument: an absent argument and
   * `undefined` both convert to NaN, and NaN converts to 0.
   */
  function PositionOf(p: PositionArg): (n: int)
    ensures n == 0
  {
    match p
    case Omitted => 0
    case Undefined => 0
  }

  /**
   * `s.codePointAt(p)`: the code point at the position, or `None` (JavaScript
   * `undefined`) when the position is outside the string.
   */
  function CodePointAt(s: string, p: PositionArg): (r: Option<int>)
    ensures r.Some? <==> s != []
    ensures s != [] ==> r.value == s[0] as int
  {
    var n := PositionOf(p);
    if 0 <= n < |s| then Some(s[n] as int) else None
  }
}
