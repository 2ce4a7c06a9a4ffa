/** JavaScript values as the quiz server sees them: request bodies and provider
    replies are decoded with JSON.parse, and the handlers read them with
    truthiness tests, property access and `===`. */
module Js {

  datatype Option<+T> = None | Some(value: T)

  datatype Result<+T, +E> = Ok(value: T) | Err(error: E)

  /** A JSON value as JSON.parse builds it. Numbers are restricted to integers. */
  datatype Json =
    | JNull
    | JBool(b: bool)
    | JNum(n: int)
    | JStr(s: string)
    | JArray(items: seq<Json>)
    | JObject(members: seq<(string, Json)>)

  /** A value read out of a parsed body: `undefined` when the key is absent. */
  datatype JsValue = Undefined | Defined(json: Json)

  /** ECMAScript ToBoolean on a parsed value: exactly undefined, null, false,
      0 and "" are falsy; every array and object is truthy, even an empty one. */
  predicate Truthy(v: JsValue): (truthy: bool)
    ensures !truthy <==>
      v == Undefined || v == Defined(JNull) || v == Defined(JBool(false))
      || v == Defined(JNum(0)) || v == Defined(JStr(""))
  {
    match v
    case Undefined => false
    case Defined(j) =>
      match j
      case JNull => false
      case JBool(b) => b
      case JNum(n) => n != 0
      case JStr(s) => s != ""
      case JArray(_) => true
      case JObject(_) => true
  }

  predicate IsComposite(j: Json) {
    j.JArray? || j.JObject?
  }

  /** `a === b` for two values taken out of JSON.parse results: primitives
      compare by value, and every array or object JSON.parse builds is a
      distinct reference, so no two of them are ever identical. */
  predicate StrictEquals(a: JsValue, b: JsValue): (same: bool)
    ensures same <==> a == b && (a.Undefined? || !IsComposite(a.json))
  {
    match (a, b)
    case (Undefined, Undefined) => true
    case (Defined(x), Defined(y)) => !IsComposite(x) && !IsComposite(y) && x == y
    case _ => false
  }

  /** `obj[key]` on an object built by JSON.parse: a repeated key keeps its last value. */
  function Member(members: seq<(string, Json)>, key: string): (v: JsValue) {
    if members == [] then Undefined
    else if members[|members| - 1].0 == key then Defined(members[|members| - 1].1)
    else Member(members[..|members| - 1], key)
  }

  /** A property read finds a value exactly when some member has the key, and
      the value is one held under that key. */
  lemma {:induction false} MemberSpec(members: seq<(string, Json)>, key: string)
    ensures Member(members, key).Defined? <==> exists k :: 0 <= k < |members| && members[k].0 == key
    ensures Member(members, key).Defined? ==>
      exists k :: 0 <= k < |members| && members[k] == (key, Member(members, key).json)
        && forall j :: k < j < |members| ==> members[j].0 != key
    decreases |members|
  {
    if members != [] && members[|members| - 1].0 != key {
      var init := members[..|members| - 1];
      MemberSpec(init, key);
      assert forall k :: 0 <= k < |init| ==> init[k] == members[k];
    }
  }

  /** The property key that indexing with a number produces: its decimal form. */
  function DecimalString(n: nat): (key: string) {
    if n < 10 then [Digit(n)] else DecimalString(n / 10) + [Digit(n % 10)]
  }

  /** The number a string of decimal digits denotes, most significant first. */
  function DigitsValue(s: string): (n: nat)
    requires forall k :: 0 <= k < |s| ==> '0' <= s[k] <= '9'
  {
    if s == [] then 0
    else DigitsValue(s[..|s| - 1]) * 10 + (s[|s| - 1] as int - '0' as int)
  }

  /** The decimal form denotes the number, and it has no leading zero. */
  lemma {:induction false} DecimalStringValue(n: nat)
    ensures |DecimalString(n)| >= 1
    ensures forall k :: 0 <= k < |DecimalString(n)| ==> '0' <= DecimalString(n)[k] <= '9'
    ensures DigitsValue(DecimalString(n)) == n
    ensures n > 0 ==> DecimalString(n)[0] != '0'
  {
    if n >= 10 {
      var init := DecimalString(n / 10);
      DecimalStringValue(n / 10);
      assert DecimalString(n)[..|DecimalString(n)| - 1] == init;
    }
  }

  /** Two indices never read the same property: distinct numbers have
      distinct decimal forms. */
  lemma {:induction false} DecimalStringInjective(m: nat, n: nat)
    ensures DecimalString(m) == DecimalString(n) ==> m == n
  {
    DecimalStringValue(m);
    DecimalStringValue(n);
  }

  function Digit(d: nat): (c: char)
    requires d < 10
    ensures '0' <= c <= '9' && c as int - '0' as int == d
  {
    ['0', '1', '2', '3', '4', '5', '6', '7', '8', '9'][d]
  }
}
