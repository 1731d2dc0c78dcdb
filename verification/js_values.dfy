/**
 * The few JavaScript value semantics the route handlers rely on: what a
 * request-body field can hold, which values are truthy, how `String()`
 * renders them, and how `.length` counts (UTF-16 code units).
 */
module JsValues {

  datatype Option<+T> = None | Some(value: T)

  /** A field of a parsed JSON request body, as the handlers destructure it:
      absent (`undefined`), an explicit `null`, or a string. */
  datatype Field = Undefined | Null | Text(s: string)

  /** `!!f`: only a non-empty string is truthy. */
  predicate Truthy(f: Field)
  {
    f.Text? && f.s != ""
  }

  /** `String(f)`, the conversion `RegExp.prototype.test` applies to its argument. */
  function ToJsString(f: Field): (r: string)
    ensures f.Text? ==> r == f.s
  {
    match f
    case Undefined => "undefined"
    case Null => "null"
    case Text(s) => s
  }

  /** A character outside the Basic Multilingual Plane takes two UTF-16 code units. */
  predicate IsAstral(c: char)
  {
    c as int >= 0x1_0000
  }

  /** `s.length` in JavaScript: the number of UTF-16 code units of `s`. */
  function Utf16Length(s: string): (n: nat)
    ensures |s| <= n <= 2 * |s|
    ensures n == |s| <==> forall i :: 0 <= i < |s| ==> !IsAstral(s[i])
  {
    if s == [] then 0 else (if IsAstral(s[0]) then 2 else 1) + Utf16Length(s[1..])
  }

  /** `'x'.repeat(n)`. */
  function Repeat(c: char, n: nat): (r: string)
    ensures |r| == n
    ensures forall i :: 0 <= i < n ==> r[i] == c
  {
    if n == 0 then [] else [c] + Repeat(c, n - 1)
  }

  function AsciiLower(c: char): char
  {
    if 'A' <= c <= 'Z' then (c as int + 32) as char else c
  }

  /** Whether `s.toLowerCase() === 'desc'`. Only the ASCII letters D, E, S and C
      lower-case to `d`, `e`, `s` and `c`, so an ASCII-only lowering decides it. */
  predicate LowersToDesc(s: string)
  {
    |s| == 4 && AsciiLower(s[0]) == 'd' && AsciiLower(s[1]) == 'e'
    && AsciiLower(s[2]) == 's' && AsciiLower(s[3]) == 'c'
  }
}
