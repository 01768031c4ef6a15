/**
 * JavaScript values as the request handlers see them after `request.json()`,
 * with the two conversions the handlers rely on: truthiness (`if (x)`,
 * `x || d`) and string conversion (`String(x)`, template literals).
 * Numbers are integers here; the decimal text of a number is written out.
 */
module Js {

  datatype Option<+T> = None | Some(value: T)

  datatype Result<+T, +E> = Ok(value: T) | Err(error: E)

  /** `env.SLIDES.get(key)` on a store modelled as a map: `None` when the key is absent. */
  function Get<V>(store: map<string, V>, key: string): Option<V>
  {
    if key in store then Some(store[key]) else None
  }

  /** `s.includes(sub)` for strings. */
  predicate Contains(s: string, sub: string)
  {
    sub <= s || (s != [] && Contains(s[1..], sub))
  }

  /** A value of a parsed JSON body, plus `undefined` for a missing property. */
  datatype JsValue =
    | Undefined
    | Null
    | Bool(b: bool)
    | Num(n: int)
    | Str(s: string)
    | Arr(items: seq<JsValue>)
    | Obj

  /** JavaScript truthiness: `undefined`, `null`, `false`, `0` and `""` are falsy. */
  predicate Truthy(v: JsValue)
  {
    match v
    case Undefined => false
    case Null => false
    case Bool(b) => b
    case Num(n) => n != 0
    case Str(s) => s != ""
    case Arr(_) => true
    case Obj => true
  }

  /** The expression `v || d`. */
  function Or(v: JsValue, d: JsValue): (r: JsValue)
    ensures Truthy(v) ==> r == v
    ensures !Truthy(v) ==> r == d
  {
    if Truthy(v) then v else d
  }

  // ---------------------------------------------------------------------
  // Decimal text of integers

  predicate IsDigit(c: char)
  {
    '0' <= c <= '9'
  }

  predicate AllDigits(s: string)
  {
    forall i :: 0 <= i < |s| ==> IsDigit(s[i])
  }

  function DigitChar(d: nat): (c: char)
    requires d < 10
    ensures IsDigit(c)
  {
    "0123456789"[d]
  }

  function DigitValue(c: char): nat
    requires IsDigit(c)
  {
    c as int - '0' as int
  }

  /** The shortest decimal text of `n`, as `String(n)` writes it. */
  function NatText(n: nat): (s: string)
    decreases n
  {
    if n < 10 then [DigitChar(n)] else NatText(n / 10) + [DigitChar(n % 10)]
  }

  /** The value of a run of decimal digits, as `parseInt` reads it. */
  function DigitsValue(s: string): nat
    requires AllDigits(s)
  {
    if s == [] then 0 else DigitsValue(s[..|s| - 1]) * 10 + DigitValue(s[|s| - 1])
  }

  /** `String(i)` for an integer number. */
  function IntText(i: int): string
  {
    if i < 0 then "-" + NatText(-i) else NatText(i)
  }

  lemma DigitCharValue(d: nat)
    requires d < 10
    ensures DigitValue(DigitChar(d)) == d
  {
  }

  /** The decimal text of `n` is a non-empty run of digits that reads back as `n`. */
  lemma {:induction false} NatTextRoundTrip(n: nat)
    ensures |NatText(n)| > 0 && AllDigits(NatText(n))
    ensures DigitsValue(NatText(n)) == n
  {
    if n < 10 {
      DigitCharValue(n);
    } else {
      NatTextRoundTrip(n / 10);
      var s := NatText(n);
      assert s[..|s| - 1] == NatText(n / 10);
      DigitCharValue(n % 10);
    }
  }

  /** Different numbers have different decimal texts. */
  lemma NatTextInjective(m: nat, n: nat)
    ensures NatText(m) == NatText(n) ==> m == n
  {
    NatTextRoundTrip(m);
    NatTextRoundTrip(n);
  }

  // ---------------------------------------------------------------------
  // String(v)

  /**
   * `String(v)`. An array converts through `join(",")`, in which `null`
   * and `undefined` elements become empty text.
   */
  function ToStr(v: JsValue): (r: string)
    ensures v.Arr? && v.items == [] ==> r == ""
    decreases v, 1, 0
  {
    match v
    case Undefined => "undefined"
    case Null => "null"
    case Bool(b) => if b then "true" else "false"
    case Num(n) => IntText(n)
    case Str(s) => s
    case Arr(items) => JoinFrom(v, 0, ",")
    case Obj => "[object Object]"
  }

  /** `items.slice(i).join(sep)` for the array `v`. */
  function JoinFrom(v: JsValue, i: nat, sep: string): string
    requires v.Arr? && i <= |v.items|
    decreases v, 0, |v.items| - i
  {
    if i == |v.items| then ""
    else
      var e := v.items[i];
      assert e < v;
      var text := if e.Undefined? || e.Null? then "" else ToStr(e);
      if i + 1 == |v.items| then text else text + sep + JoinFrom(v, i + 1, sep)
  }

  /** `answer.join(",")` for an array: the same text as `String(answer)`. */
  function Join(v: JsValue, sep: string): (r: string)
    requires v.Arr?
    ensures v.items == [] ==> r == ""
    ensures sep == "," ==> r == ToStr(v)
  {
    JoinFrom(v, 0, sep)
  }
}
