/**
 * The JSON values the browser scripts see after response.json(), and the
 * JavaScript operators they apply to them: truthiness, optional property
 * access, Object.values, String() and parseFloat().
 */
module JsValues {
  import opened Wrappers
  import opened Text
  import opened Numerals

  /**
   * A decoded JSON value plus `undefined` (what a missing property reads as).
   * Objects keep their fields in key order, as Object.values and
   * Object.entries report them.  NaN and the infinities are not JSON values.
   */
  datatype JsValue =
    | JUndefined
    | JNull
    | JBool(b: bool)
    | JNum(x: real)
    | JStr(s: string)
    | JArr(items: seq<JsValue>)
    | JObj(fields: seq<(string, JsValue)>)

  /** JavaScript truthiness: every object and array is truthy, even an empty one. */
  predicate Truthy(v: JsValue) {
    match v
    case JUndefined => false
    case JNull => false
    case JBool(b) => b
    case JNum(x) => x != 0.0
    case JStr(s) => s != []
    case JArr(_) => true
    case JObj(_) => true
  }

  /** typeof v === 'object' (null, arrays and objects). */
  predicate IsObjectLike(v: JsValue) {
    v.JNull? || v.JArr? || v.JObj?
  }

  /** The value of the last field called key (JSON.parse keeps the last duplicate). */
  function Field(fields: seq<(string, JsValue)>, key: string): (r: JsValue)
    ensures r == JUndefined || exists i :: 0 <= i < |fields| && fields[i] == (key, r)
    ensures (forall i :: 0 <= i < |fields| ==> fields[i].0 != key) ==> r == JUndefined
  {
    if fields == [] then JUndefined
    else if fields[|fields| - 1].0 == key then
      assert fields[|fields| - 1] == (key, fields[|fields| - 1].1);
      fields[|fields| - 1].1
    else Field(fields[..|fields| - 1], key)
  }

  /** v?.key: a field of an object; undefined on anything else that has no such property. */
  function Member(v: JsValue, key: string): (r: JsValue)
    ensures !v.JObj? ==> r == JUndefined
    ensures v.JObj? ==> r == Field(v.fields, key)
  {
    if v.JObj? then Field(v.fields, key) else JUndefined
  }

  /** Object.values(v): the field values of an object in key order, the items of an array, the characters of a string. */
  function ValuesOf(v: JsValue): (r: seq<JsValue>)
    ensures v.JObj? ==> |r| == |v.fields| && forall i :: 0 <= i < |r| ==> r[i] == v.fields[i].1
    ensures v.JArr? ==> r == v.items
    ensures !(v.JObj? || v.JArr? || v.JStr?) ==> r == []
  {
    match v
    case JObj(fields) => seq(|fields|, i requires 0 <= i < |fields| => fields[i].1)
    case JArr(items) => items
    case JStr(s) => seq(|s|, i requires 0 <= i < |s| => JStr([s[i]]))
    case _ => []
  }

  /** String(v) for the values the scripts stringify; an array joins its items with commas. */
  function Str(v: JsValue): string
    decreases v, 0
  {
    match v
    case JUndefined => "undefined"
    case JNull => "null"
    case JBool(b) => if b then "true" else "false"
    case JNum(x) => JsNumberString(x)
    case JStr(s) => s
    case JArr(items) => JoinComma(seq(|items|, i requires 0 <= i < |items| => ItemStr(items[i])))
    case JObj(_) => "[object Object]"
  }

  /** An array item inside String([..]): null and undefined give the empty string. */
  function ItemStr(v: JsValue): string
    decreases v, 1
  {
    if v.JNull? || v.JUndefined? then "" else Str(v)
  }

  function JoinComma(parts: seq<string>): string
  {
    if parts == [] then []
    else if |parts| == 1 then parts[0]
    else JoinComma(parts[..|parts| - 1]) + "," + parts[|parts| - 1]
  }

  /** parseFloat(v): numbers as they are, strings by their longest numeric prefix; None stands for NaN. */
  function ParseFloat(v: JsValue): (r: Option<real>)
    ensures v.JNum? ==> r == Some(v.x)
    ensures v.JStr? ==> r == JsParseFloat(v.s)
    ensures !(v.JNum? || v.JStr? || v.JArr?) ==> r.None?
  {
    match v
    case JNum(x) => Some(x)
    case JStr(s) => JsParseFloat(s)
    case JArr(_) => JsParseFloat(Str(v))
    case _ => None
  }

  /**
   * Number(v), the conversion behind the arithmetic and comparison operators:
   * undefined is NaN, null is 0, booleans are 0 or 1, a string is read by
   * TextNumber, an array through its String() text (so [] is 0 and [x] reads
   * as String(x)), and an object is NaN.  None stands for NaN.
   */
  function NumberOf(v: JsValue): (r: Option<real>)
    ensures v.JNum? ==> r == Some(v.x)
    ensures v.JUndefined? ==> r.None?
    ensures v.JNull? ==> r == Some(0.0)
    ensures v.JStr? && Strip(v.s) == [] ==> r == Some(0.0)
    ensures v.JStr? && Strip(v.s) != [] ==> r == PyFloat(v.s)
    ensures v.JArr? ==> r == TextNumber(Str(v))
    ensures v == JArr([]) ==> r == Some(0.0)
    ensures v.JObj? ==> r.None?
  {
    match v
    case JUndefined => None
    case JNull => Some(0.0)
    case JBool(b) => Some(if b then 1.0 else 0.0)
    case JNum(x) => Some(x)
    case JStr(s) => TextNumber(s)
    case JArr(_) => TextNumber(Str(v))
    case JObj(_) => None
  }

  /** Number() of a string: 0 when it is blank, otherwise a decimal literal between optional whitespace. */
  function TextNumber(s: string): (r: Option<real>)
    ensures Strip(s) == [] ==> r == Some(0.0)
    ensures Strip(s) != [] ==> r == PyFloat(s)
  {
    if Strip(s) == [] then Some(0.0) else PyFloat(s)
  }

  /** An array of one item converts as that item's text: Number([x]) is Number(String(x)) for a non-null x. */
  lemma NumberOfSingleton(x: JsValue)
    requires !x.JNull? && !x.JUndefined?
    ensures NumberOf(JArr([x])) == NumberOf(JStr(Str(x)))
  {
    assert Str(JArr([x])) == JoinComma([ItemStr(x)]);
  }

  /** JsParseFloat reads back the text of a non-negative integer. */
  lemma ParseNatText(n: nat)
    ensures JsParseFloat(NatToString(n)) == Some(n as real)
  {
    JsParseNat(n);
    var s := NatToString(n);
    assert s[0] != '+' && s[0] != '-' && !IsSpace(s[0]) by {
      assert IsDigit(s[0]);
    }
  }

  /** JsParseFloat reads back a sign followed by the text of an integer. */
  lemma ParseSignedText(sign: char, n: nat)
    requires sign == '+' || sign == '-'
    ensures JsParseFloat([sign] + NatToString(n)) == Some(if sign == '-' then -(n as real) else n as real)
  {
    JsParseNat(n);
    var s := [sign] + NatToString(n);
    assert TrimStart(s) == s;
    assert s[1..] == NatToString(n);
  }
}
