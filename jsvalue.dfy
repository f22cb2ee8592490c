/**
 * The JavaScript values the front-end helpers and the Node handlers receive:
 * what `JSON.parse`, a form or a query string can produce.  Numbers are
 * integers only (floating point is not part of this model).  Objects keep
 * their entries in insertion order; a later entry for the same key wins, as
 * when a JSON text with a repeated key is parsed.
 */
module Js {
  import opened Base

  datatype JsValue =
    | JUndefined
    | JNull
    | JBool(b: bool)
    | JNum(n: int)
    | JStr(s: string)
    | JArr(items: seq<JsValue>)
    | JObj(entries: seq<(string, JsValue)>)

  /** Boolean coercion (`!!v`, `if (v)`, `||`). */
  predicate Truthy(v: JsValue) {
    match v
    case JUndefined => false
    case JNull => false
    case JBool(b) => b
    case JNum(n) => n != 0
    case JStr(s) => s != []
    case JArr(_) => true
    case JObj(_) => true
  }

  predicate IsNullish(v: JsValue) { v == JUndefined || v == JNull }

  /** `a ?? b`. */
  function Coalesce(a: JsValue, b: JsValue): (r: JsValue)
    ensures IsNullish(a) ==> r == b
    ensures !IsNullish(a) ==> r == a
  {
    if IsNullish(a) then b else a
  }

  /** `a || b`. */
  function Or(a: JsValue, b: JsValue): (r: JsValue)
    ensures Truthy(r) <==> Truthy(a) || Truthy(b)
    ensures Truthy(a) ==> r == a
    ensures !Truthy(a) ==> r == b
  {
    if Truthy(a) then a else b
  }

  /** `typeof v === 'object'` (true for `null`, arrays and plain objects). */
  predicate IsObjectType(v: JsValue) { v.JNull? || v.JArr? || v.JObj? }

  /** `v?.[key]`: a property of a plain object; anything else has none. */
  function Get(v: JsValue, key: string): (r: JsValue)
    ensures !v.JObj? ==> r == JUndefined
    ensures v.JObj? && r != JUndefined ==> exists i :: 0 <= i < |v.entries| && v.entries[i] == (key, r)
  {
    if v.JObj? then Lookup(v.entries, key) else JUndefined
  }

  /** The value of the last entry with `key`, or `undefined` when there is none. */
  function Lookup(entries: seq<(string, JsValue)>, key: string): (r: JsValue)
    ensures r != JUndefined ==> exists i :: 0 <= i < |entries| && entries[i] == (key, r)
    ensures (forall i :: 0 <= i < |entries| ==> entries[i].0 != key) ==> r == JUndefined
  {
    if entries == [] then JUndefined
    else if entries[|entries| - 1].0 == key then entries[|entries| - 1].1
    else Lookup(entries[..|entries| - 1], key)
  }

  /** The properties of `v` named by `keys`, in that order. */
  function Props(v: JsValue, keys: seq<string>): (vs: seq<JsValue>)
    ensures |vs| == |keys| && forall i :: 0 <= i < |keys| ==> vs[i] == Get(v, keys[i])
  {
    seq(|keys|, i requires 0 <= i < |keys| => Get(v, keys[i]))
  }

  /** `String(v)`: arrays join their elements with commas, objects render as `[object Object]`. */
  function ToStr(v: JsValue): string
    decreases v, 1
  {
    match v
    case JUndefined => "undefined"
    case JNull => "null"
    case JBool(b) => if b then "true" else "false"
    case JNum(n) => IntToString(n)
    case JStr(s) => s
    case JArr(items) => JoinItems(v, items)
    case JObj(_) => "[object Object]"
  }

  /** `items.join(',')`, where `null` and `undefined` elements render empty. */
  function JoinItems(ghost parent: JsValue, items: seq<JsValue>): string
    requires parent.JArr? && forall i :: 0 <= i < |items| ==> items[i] in parent.items
    decreases parent, 0, |items|
  {
    if items == [] then ""
    else
      assert items[0] in parent.items;
      var head := if IsNullish(items[0]) then "" else ToStr(items[0]);
      if |items| == 1 then head else head + "," + JoinItems(parent, items[1..])
  }

  /** `String(v ?? '')`. */
  function TextOf(v: JsValue): (r: string)
    ensures IsNullish(v) ==> r == ""
    ensures v.JStr? ==> r == v.s
  {
    ToStr(Coalesce(v, JStr("")))
  }

  /** `String(v ?? '').trim()`. */
  function TrimmedText(v: JsValue): (r: string)
    ensures r == [] || (!IsJsSpace(r[0]) && !IsJsSpace(r[|r| - 1]))
  {
    JsTrim(TextOf(v))
  }

  /** `String(v ?? '').replace(/\D/g, '')`. */
  function OnlyDigits(v: JsValue): (r: string)
    ensures AllDigits(r)
  {
    Digits(TextOf(v))
  }

  /**
   * `Number(text)` for decimal integer text: surrounding whitespace is
   * ignored, blank text is 0, and an optional sign precedes the digits.
   * `None` stands for NaN and for numeric text this model does not read
   * (fractions, exponents, hexadecimal).
   */
  function NumberText(s: string): (r: Option<int>)
    ensures JsTrim(s) == [] ==> r == Some(0)
    ensures AllDigits(JsTrim(s)) ==> r == Some(ParseNat(JsTrim(s)))
  {
    var t := JsTrim(s);
    if t == [] then Some(0)
    else if AllDigits(t) then Some(ParseNat(t))
    else if (t[0] == '-' || t[0] == '+') && |t| > 1 && AllDigits(t[1..]) then
      Some(if t[0] == '-' then 0 - ParseNat(t[1..]) as int else ParseNat(t[1..]))
    else None
  }

  /**
   * `parseInt(s, 10)`: leading whitespace is skipped, an optional sign is
   * read, then the longest run of digits; no digits is NaN (`None`).
   */
  function ParseIntText(s: string): (r: Option<int>)
    ensures Digits(s) == [] ==> r == None
  {
    var t := TrimStart(s, IsJsSpace);
    var signed := t != [] && (t[0] == '-' || t[0] == '+');
    var body := if signed then t[1..] else t;
    var d := body[..LeadingCount(body, IsDigit)];
    if d == [] then None
    else
      DigitsEmptyIff(s);
      assert d[0] in s;
      Some(if signed && t[0] == '-' then 0 - ParseNat(d) as int else ParseNat(d))
  }

  /** A text of digits parses to its value. */
  lemma ParseIntOfDigits(s: string)
    ensures s != [] && AllDigits(s) ==> ParseIntText(s) == Some(ParseNat(s))
  {
    if s != [] && AllDigits(s) {
      assert !IsJsSpace(s[0]);
      assert TrimStart(s, IsJsSpace) == s;
      assert LeadingCount(s, IsDigit) == |s|;
      assert s[..|s|] == s;
    }
  }

  /** `Number(v)`, with `None` for NaN. */
  function NumberOf(v: JsValue): (r: Option<int>)
    ensures v.JNum? ==> r == Some(v.n)
    ensures v == JUndefined ==> r == None
    ensures v == JNull ==> r == Some(0)
  {
    match v
    case JUndefined => None
    case JNull => Some(0)
    case JBool(b) => Some(if b then 1 else 0)
    case JNum(n) => Some(n)
    case _ => NumberText(ToStr(v))
  }

  /** `Number(v) || 0`: NaN and zero both give 0. */
  function NumberOrZero(v: JsValue): int
  {
    match NumberOf(v)
    case None => 0
    case Some(n) => n
  }

  /** `toNumberOrNull`: `None` for `null`, `undefined`, the empty text and what is not a number. */
  function NumberOrNull(v: JsValue): (r: Option<int>)
    ensures IsNullish(v) || v == JStr("") ==> r == None
    ensures v.JNum? ==> r == Some(v.n)
  {
    if IsNullish(v) || v == JStr("") then None else NumberOf(v)
  }

  /**
   * The properties every object literal inherits from `Object.prototype`:
   * reading one of these names from `{}` finds a function (or, for
   * `__proto__`, the prototype itself), never `undefined`.
   */
  const ObjectPrototypeNames: set<string> := {
    "constructor", "__defineGetter__", "__defineSetter__", "hasOwnProperty", "__lookupGetter__",
    "__lookupSetter__", "isPrototypeOf", "propertyIsEnumerable", "toString", "valueOf", "__proto__",
    "toLocaleString"}

  /** A property name that is an array index: the canonical decimal form of a number below 2^32 - 1. */
  predicate IsArrayIndex(s: string) {
    s != [] && AllDigits(s) && (s[0] != '0' || |s| == 1) && ParseNat(s) < 0xFFFF_FFFF
  }

  /**
   * The order in which an object lists its own string keys: array indices
   * first, in numeric order, then every other key; a stable sort by this
   * order keeps the other keys in insertion order.
   */
  predicate KeyOrderLe(a: string, b: string) {
    if IsArrayIndex(a) && IsArrayIndex(b) then ParseNat(a) <= ParseNat(b)
    else IsArrayIndex(a) || !IsArrayIndex(b)
  }

  lemma KeyOrderTotal(a: string, b: string)
    ensures KeyOrderLe(a, b) || KeyOrderLe(b, a)
  {
  }

  /** `Array.isArray(v) ? v : []`. */
  function ArrayOrEmpty(v: JsValue): (r: seq<JsValue>)
    ensures v.JArr? ==> r == v.items
    ensures !v.JArr? ==> r == []
  {
    if v.JArr? then v.items else []
  }
}
