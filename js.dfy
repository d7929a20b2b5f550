/** The JavaScript values the React screens keep in their state and the two
    coercions they rely on: truthiness (`a || b`, `if (x)`) and `Number(x)`. */
module Js {
  import opened Wrappers
  import Numerals

  /** A form field or a record field as the screens see it. `Num` holds a
      finite number; NaN never reaches state in the code modelled here. */
  datatype JsValue = Undefined | Null | Bool(b: bool) | Num(n: real) | Str(s: string)

  /** ECMAScript ToBoolean: `undefined`, `null`, `false`, `0` and `''` are falsy. */
  predicate Truthy(v: JsValue) {
    match v
    case Undefined => false
    case Null => false
    case Bool(b) => b
    case Num(n) => n != 0.0
    case Str(s) => s != ""
  }

  /** How an awaited request ends: with the response body, or with the
      exception axios throws (on a transport failure or a non-2xx status),
      carrying `error.response?.data?.message` when there was one. */
  datatype HttpOutcome<+R> = Resolved(body: R) | Thrown(message: Option<string>)

  /** `a || b`: the left operand when it is truthy, otherwise the right one. */
  function Or(a: JsValue, b: JsValue): (r: JsValue)
    ensures Truthy(a) ==> r == a
    ensures !Truthy(a) ==> r == b
    ensures Truthy(r) <==> Truthy(a) || Truthy(b)
  {
    if Truthy(a) then a else b
  }

  /** `message || fallback` for a server message that may be missing. */
  function MessageOr(m: Option<string>, fallback: string): (r: string)
    ensures m.Some? && m.value != "" ==> r == m.value
    ensures m.None? || m.value == "" ==> r == fallback
  {
    if m.Some? && m.value != "" then m.value else fallback
  }

  /** ECMAScript's StrWhiteSpaceChar: the white space and line terminators
      `Number` trims from a string (tab, line feed, vertical tab, form feed,
      carriage return, space, the no-break spaces, the byte order mark, the
      Unicode space separators and the line and paragraph separators). */
  predicate IsJsSpace(c: char) {
    || c as int in {9, 10, 11, 12, 13, 32, 0xA0, 0x1680, 0x2028, 0x2029, 0x202F, 0x205F, 0x3000, 0xFEFF}
    || 0x2000 <= c as int <= 0x200A
  }

  /** `Number(v)`: `None` stands for NaN. Strings are trimmed of JavaScript
      white space, a blank string is 0, and otherwise only the decimal forms
      `[+-]digits[.digits]`, `[+-]digits.` and `[+-].digits` are recognised. */
  function ToNumber(v: JsValue): (r: Option<real>)
    ensures v.Num? ==> r == Some(v.n)
    ensures v.Bool? ==> r == Some(if v.b then 1.0 else 0.0)
    ensures v == Null ==> r == Some(0.0)
    ensures v == Undefined ==> r.None?
    ensures v.Str? && (forall i :: 0 <= i < |v.s| ==> IsJsSpace(v.s[i])) ==> r == Some(0.0)
    ensures v.Str? && v.s != [] && !IsJsSpace(v.s[0]) && !IsJsSpace(v.s[|v.s| - 1]) ==>
      r == Numerals.SignedValue(v.s)
  {
    match v
    case Undefined => None
    case Null => Some(0.0)
    case Bool(b) => Some(if b then 1.0 else 0.0)
    case Num(n) => Some(n)
    case Str(s) =>
      assert s != [] && !IsJsSpace(s[0]) && !IsJsSpace(s[|s| - 1]) ==> Numerals.Strip(s, IsJsSpace) == s by {
        if s != [] && !IsJsSpace(s[0]) && !IsJsSpace(s[|s| - 1]) {
          Numerals.StripUnchanged(s, IsJsSpace);
        }
      }
      Numerals.StripBlank(s, IsJsSpace);
      var t := Numerals.Strip(s, IsJsSpace);
      if t == "" then Some(0.0) else Numerals.SignedValue(t)
  }

  /** `Number` ignores JavaScript white space around a clean-ended text, so
      `Number(' 12 ')` is 12. */
  lemma PaddedNumber(pre: string, t: string, post: string)
    requires forall i :: 0 <= i < |pre| ==> IsJsSpace(pre[i])
    requires forall i :: 0 <= i < |post| ==> IsJsSpace(post[i])
    requires t != [] && !IsJsSpace(t[0]) && !IsJsSpace(t[|t| - 1])
    ensures ToNumber(Str(pre + t + post)) == Numerals.SignedValue(t)
  {
    Numerals.StripPadded(pre, t, post, IsJsSpace);
  }

  /** A numeral as `\d+\.?\d*` matches it converts as Python's `float`
      reads it, and a run of digits converts to its decimal value. */
  lemma NumeralToNumber(t: string)
    requires Numerals.IsNumeral(t)
    ensures ToNumber(Str(t)) == Numerals.ParseFloat(t)
    ensures Numerals.AllDigits(t) ==> ToNumber(Str(t)) == Some(Numerals.NatValue(t) as real)
  {
    DigitOrPointEnds(t);
    Numerals.NumeralParses(t);
  }

  /** A numeral starts with a digit and ends with a digit or a point, none of
      which is white space to JavaScript or to Python. */
  lemma DigitOrPointEnds(t: string)
    requires Numerals.IsNumeral(t)
    ensures t != [] && !IsJsSpace(t[0]) && !IsJsSpace(t[|t| - 1])
    ensures !Numerals.IsSpace(t[0]) && !Numerals.IsSpace(t[|t| - 1])
  {
    var k := Numerals.PrefixLen(t, Numerals.IsDigit);
    assert Numerals.IsDigit(t[0]);
    var c := t[|t| - 1];
    assert Numerals.IsDigit(c) || c == '.' by {
      if k < |t| - 1 { assert Numerals.IsDigit(t[k + 1..][|t| - k - 2]); }
    }
  }

  /** Digits followed by text that starts with neither a digit nor a point,
      as in `"12abc"`, convert to NaN. */
  lemma TrailingTextIsNaN(digits: string, rest: string)
    requires digits != [] && Numerals.AllDigits(digits)
    requires rest != [] && !Numerals.IsDigit(rest[0]) && rest[0] != '.'
    requires !IsJsSpace(rest[|rest| - 1])
    ensures ToNumber(Str(digits + rest)).None?
  {
    var s := digits + rest;
    assert s[0] == digits[0] && s[|s| - 1] == rest[|rest| - 1];
    assert !IsJsSpace(s[0]);
    Numerals.PrefixLenConcat(digits, rest, Numerals.IsDigit);
    assert s[|digits|] == rest[0];
    assert Numerals.UnsignedValue(s).None?;
  }

  /** `Number(v) || 0`: NaN and 0 both give 0. */
  function NumberOrZero(v: JsValue): (r: real)
    ensures ToNumber(v).None? ==> r == 0.0
    ensures ToNumber(v).Some? ==> r == ToNumber(v).value
  {
    match ToNumber(v)
    case None => 0.0
    case Some(n) => n
  }
}
