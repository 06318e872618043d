/**
 * JavaScript values as the front end in `assets/app.js` sees them: what `JSON.parse`
 * produces, plus `undefined` for a missing property. Objects keep their keys in insertion
 * order. Numbers are integers here. The conversions `String(v)`, `Number(v)`, truthiness
 * and `a || b` follow ECMAScript for these values.
 */
module Js {
  import opened Maybe
  import opened Text
  import OrderedMaps

  datatype JsValue =
    | JNull
    | JUndefined
    | JBool(b: bool)
    | JInt(i: int)
    | JStr(s: string)
    | JArray(items: seq<JsValue>)
    | JObject(fields: OrderedMaps.Entries<string, JsValue>)

  /** ToBoolean: null, undefined, false, 0 and "" are falsy; every array and object is truthy. */
  predicate Truthy(v: JsValue) {
    match v
    case JNull => false
    case JUndefined => false
    case JBool(b) => b
    case JInt(i) => i != 0
    case JStr(s) => s != ""
    case _ => true
  }

  /** `a || b`. */
  function Or(a: JsValue, b: JsValue): (v: JsValue)
    ensures Truthy(a) ==> v == a
    ensures !Truthy(a) ==> v == b
  {
    if Truthy(a) then a else b
  }

  /** `v?.name`: undefined when `v` is null or undefined, when `v` is not an object, or when the key is missing. */
  function OptProp(v: JsValue, name: string): JsValue {
    if v.JObject? then OrderedMaps.Get(v.fields, name).GetOr(JUndefined) else JUndefined
  }

  /** `v.name`, which throws a TypeError when `v` is null or undefined. */
  function Prop(v: JsValue, name: string): (r: Option<JsValue>)
    ensures r.None? <==> v.JNull? || v.JUndefined?
    ensures r.Some? ==> r.value == OptProp(v, name)
  {
    if v.JNull? || v.JUndefined? then None else Some(OptProp(v, name))
  }

  function DigitChar(d: int): char
    requires 0 <= d < 10
  {
    ['0', '1', '2', '3', '4', '5', '6', '7', '8', '9'][d]
  }

  /** The decimal digits of a natural number, most significant first. */
  function NatText(n: nat): (s: string)
    ensures |s| >= 1
    decreases n
  {
    if n < 10 then [DigitChar(n)] else NatText(n / 10) + [DigitChar(n % 10)]
  }

  function IntText(i: int): string {
    if i < 0 then "-" + NatText(-i) else NatText(i)
  }

  /** `String(v)`. An array is its items' strings joined with commas, null and undefined items giving "". */
  function ToStr(v: JsValue): string
    decreases v, 1
  {
    match v
    case JNull => "null"
    case JUndefined => "undefined"
    case JBool(b) => if b then "true" else "false"
    case JInt(i) => IntText(i)
    case JStr(s) => s
    case JArray(items) => ItemsText(items)
    case JObject(_) => "[object Object]"
  }

  function ItemsText(items: seq<JsValue>): string
    decreases items, 0
  {
    if items == [] then ""
    else
      var item := items[|items| - 1];
      var text := if item.JNull? || item.JUndefined? then "" else ToStr(item);
      if |items| == 1 then text else ItemsText(items[..|items| - 1]) + "," + text
  }

  /** A number as `Number(v)` gives it: an integer, or NaN. */
  datatype JsNumber = Finite(n: int) | NaN

  predicate IsDigit(c: char) {
    '0' <= c <= '9'
  }

  /** The value of a string of decimal digits. */
  function DigitsValue(s: string): nat
    requires forall i :: 0 <= i < |s| ==> IsDigit(s[i])
    decreases |s|
  {
    if s == [] then 0
    else
      assert IsDigit(s[|s| - 1]);
      DigitsValue(s[..|s| - 1]) * 10 + (s[|s| - 1] as int - '0' as int)
  }

  predicate AllDigits(s: string) {
    s != [] && forall i :: 0 <= i < |s| ==> IsDigit(s[i])
  }

  /** `Number(s)` for integer text: surrounding whitespace ignored, blank text is 0, an optional sign, then digits. */
  function NumberOfText(s: string): JsNumber {
    var t := JsTrim(s);
    if t == "" then Finite(0)
    else if AllDigits(t) then Finite(DigitsValue(t))
    else if (t[0] == '-' || t[0] == '+') && AllDigits(t[1..]) then
      Finite(if t[0] == '-' then -(DigitsValue(t[1..]) as int) else DigitsValue(t[1..]))
    else NaN
  }

  /** `Number(v)`: null is 0, undefined NaN, booleans 0 and 1; strings, arrays and objects go through their text. */
  function ToNumber(v: JsValue): JsNumber {
    match v
    case JNull => Finite(0)
    case JUndefined => NaN
    case JBool(b) => Finite(if b then 1 else 0)
    case JInt(i) => Finite(i)
    case _ => NumberOfText(ToStr(v))
  }

  /** Digits read back give the number. */
  lemma {:induction false} DigitsOfNat(n: nat)
    ensures AllDigits(NatText(n)) && DigitsValue(NatText(n)) == n
    decreases n
  {
    if n >= 10 {
      DigitsOfNat(n / 10);
      var s := NatText(n);
      assert s[..|s| - 1] == NatText(n / 10);
    }
  }

  /** `Number(String(n))` is `n` for every integer. */
  lemma NumberOfIntText(i: int)
    ensures NumberOfText(IntText(i)) == Finite(i)
  {
    var n: nat := if i < 0 then -i else i;
    var digits := NatText(n);
    DigitsOfNat(n);
    var t := IntText(i);
    assert forall k :: 0 <= k < |digits| ==> !IsJsWhitespace(digits[k]) by {
      forall k | 0 <= k < |digits| ensures !IsJsWhitespace(digits[k]) {
        assert IsDigit(digits[k]);
      }
    }
    if i < 0 {
      assert t == "-" + digits && t[1..] == digits;
      assert forall k :: 0 <= k < |t| ==> !IsJsWhitespace(t[k]) by {
        forall k | 0 <= k < |t| ensures !IsJsWhitespace(t[k]) {
          if k > 0 {
            assert t[k] == digits[k - 1];
          }
        }
      }
      TrimNoWhitespace(t, IsJsWhitespace);
      assert JsTrim(t) == t && t != "";
      assert !IsDigit(t[0]);
      assert !AllDigits(t);
      assert t[0] == '-' && AllDigits(t[1..]);
      assert NumberOfText(t) == Finite(-(DigitsValue(digits) as int));
    } else {
      assert t == digits;
      TrimNoWhitespace(t, IsJsWhitespace);
      assert JsTrim(t) == t && t != "" && AllDigits(t);
      assert NumberOfText(t) == Finite(DigitsValue(digits));
    }
  }
}
