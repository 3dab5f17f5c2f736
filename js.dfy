/**
 * JavaScript values as the application handles them: a food record is a plain
 * object whose keys are field names (the open index signature of FoodFormData),
 * and its values are JSON-like. The operators `??`, `||`, `>=`/`<` against a
 * number, `Number(...)` and the equality of `JSON.stringify` results are
 * defined here once and used by every component.
 */
module Js {
  import opened Wrappers

  datatype Value =
    | Undefined
    | Null
    | Bool(b: bool)
    | Num(n: real)
    | NaN
    | Str(s: string)
    | Arr(items: seq<Value>)
    | Obj(members: seq<Member>)  // members in insertion order

  datatype Member = Member(key: string, val: Value)

  /** A record keyed by field name, such as a FoodFormData draft. */
  type Record = map<string, Value>

  /** `v == null` in JavaScript: null or undefined. */
  predicate Nullish(v: Value) {
    v.Undefined? || v.Null?
  }

  /** JavaScript truthiness: false, 0, NaN, "", null and undefined are falsy. */
  predicate Truthy(v: Value) {
    match v
    case Undefined => false
    case Null => false
    case NaN => false
    case Bool(b) => b
    case Num(n) => n != 0.0
    case Str(s) => s != ""
    case Arr(_) => true
    case Obj(_) => true
  }

  /** `record[key]`: undefined when the key is missing. */
  function Get(r: Record, key: string): (v: Value)
    ensures key !in r ==> v == Undefined
    ensures key in r ==> v == r[key]
  {
    if key in r then r[key] else Undefined
  }

  /** `v.key` on a nested object; any other value has no such property. */
  function Prop(v: Value, key: string): Value {
    if v.Obj? then Lookup(v.members, key) else Undefined
  }

  function Lookup(ms: seq<Member>, key: string): (v: Value)
    ensures (forall i :: 0 <= i < |ms| ==> ms[i].key != key) ==> v == Undefined
  {
    if |ms| == 0 then Undefined
    else if ms[0].key == key then ms[0].val
    else Lookup(ms[1..], key)
  }

  /** `a ?? b` */
  function Coalesce(a: Value, b: Value): (r: Value)
    ensures !Nullish(a) ==> r == a
    ensures Nullish(a) ==> r == b
  {
    if Nullish(a) then b else a
  }

  /** `a || b` */
  function Or(a: Value, b: Value): (r: Value)
    ensures Truthy(a) ==> r == a
    ensures !Truthy(a) ==> r == b
  {
    if Truthy(a) then a else b
  }

  /** `texts?.key || fallback`: a dictionary text, or the built-in text when it is missing or empty. */
  function Pick(custom: Option<string>, fallback: string): (r: string)
    ensures custom.Some? && custom.value != "" ==> r == custom.value
    ensures custom.None? || custom.value == "" ==> r == fallback
  {
    if custom.Some? && custom.value != "" then custom.value else fallback
  }

  /** The values a `number | null | undefined` property can hold. */
  predicate NumberLike(v: Value) {
    v.Num? || v.NaN? || v.Null? || v.Undefined?
  }

  /** A value of a `string | null | undefined` property. */
  predicate StringLike(v: Value) {
    v.Str? || Nullish(v)
  }

  /**
   * The number a relational operator compares: null converts to 0, undefined
   * and NaN to NaN (None), with which every comparison is false.
   */
  function Numeric(v: Value): (r: Option<real>)
    requires NumberLike(v)
    ensures v.Num? ==> r == Some(v.n)
    ensures v.Null? ==> r == Some(0.0)
    ensures v.NaN? || v.Undefined? ==> r == None
  {
    match v
    case Num(n) => Some(n)
    case Null => Some(0.0)
    case _ => None
  }

  /** `v >= t` */
  predicate AtLeast(v: Value, t: real)
    requires NumberLike(v)
  {
    Numeric(v).Some? && Numeric(v).value >= t
  }

  /** `v < t` */
  predicate Below(v: Value, t: real)
    requires NumberLike(v)
  {
    Numeric(v).Some? && Numeric(v).value < t
  }

  /**
   * `Number(v)`: the numeric conversion. The conversion of a string is a
   * parameter (`parse` yields None where JavaScript yields NaN). An array
   * converts through its string: the empty array and a lone null or
   * undefined give "" and so 0; a lone element gives its own text, so it
   * converts as that element would; two or more elements give a text with a
   * comma, which is never a number.
   */
  function ToNumber(v: Value, parse: string -> Option<real>): (r: Value)
    ensures r.Num? || r.NaN?
    ensures v.Num? ==> r == v
    ensures v.Null? ==> r == Num(0.0)
    ensures v.Arr? && |v.items| >= 2 ==> r == NaN
  {
    match v
    case Undefined => NaN
    case Null => Num(0.0)
    case Bool(b) => Num(if b then 1.0 else 0.0)
    case Num(_) => v
    case NaN => NaN
    case Str(s) => (match parse(s) case Some(x) => Num(x) case None => NaN)
    case Arr(items) =>
      if |items| == 0 then Num(0.0)
      else if |items| == 1 then
        (match items[0]
         case Undefined => Num(0.0)
         case Null => Num(0.0)
         case Bool(_) => NaN
         case Obj(_) => NaN
         case _ => ToNumber(items[0], parse))
      else NaN
    case Obj(_) => NaN
  }

  /**
   * The shape `JSON.stringify` gives a value: NaN prints as null, an undefined
   * array element prints as null and an object member holding undefined is
   * omitted; a top-level undefined stays undefined (stringify returns
   * undefined). Two values stringify to the same text exactly when their
   * canonical forms are equal.
   */
  function Canon(v: Value): Value
    decreases v, 1
  {
    match v
    case NaN => Null
    case Arr(items) => Arr(CanonItems(items))
    case Obj(ms) => Obj(CanonMembers(ms))
    case _ => v
  }

  function CanonItems(items: seq<Value>): (r: seq<Value>)
    ensures |r| == |items|
    decreases items, 0
  {
    if |items| == 0 then []
    else [if items[0].Undefined? then Null else Canon(items[0])] + CanonItems(items[1..])
  }

  function CanonMembers(ms: seq<Member>): seq<Member>
    decreases ms, 0
  {
    if |ms| == 0 then []
    else if ms[0].val.Undefined? then CanonMembers(ms[1..])
    else [Member(ms[0].key, Canon(ms[0].val))] + CanonMembers(ms[1..])
  }

  /** The elements an array prints as `null`. */
  predicate NullInArray(v: Value) {
    Nullish(v) || v.NaN?
  }

  /** `JSON.stringify(a) === JSON.stringify(b)` */
  predicate SameJson(a: Value, b: Value) {
    Canon(a) == Canon(b)
  }

  /** Two arrays print alike only if they agree element by element, in order. */
  lemma {:induction false} SameJsonArrays(xs: seq<Value>, ys: seq<Value>)
    requires SameJson(Arr(xs), Arr(ys))
    ensures |xs| == |ys|
    ensures forall i :: 0 <= i < |xs| ==> SameJson(xs[i], ys[i]) || (NullInArray(xs[i]) && NullInArray(ys[i]))
  {
    var cx, cy := CanonItems(xs), CanonItems(ys);
    assert cx == cy;
    forall i | 0 <= i < |xs|
      ensures SameJson(xs[i], ys[i]) || (NullInArray(xs[i]) && NullInArray(ys[i]))
    {
      CanonItemsAt(xs, i);
      CanonItemsAt(ys, i);
    }
  }

  lemma {:induction false} CanonItemsAt(items: seq<Value>, i: nat)
    requires i < |items|
    ensures CanonItems(items)[i] == if items[i].Undefined? then Null else Canon(items[i])
    decreases i
  {
    if i > 0 {
      CanonItemsAt(items[1..], i - 1);
    }
  }

  /** Every item is a string, as in a `string[]` value. */
  predicate AllStr(items: seq<Value>) {
    forall i :: 0 <= i < |items| ==> items[i].Str?
  }

  /** The strings held by an array of strings. */
  function StringsOf(items: seq<Value>): (ss: seq<string>)
    requires AllStr(items)
    ensures |ss| == |items|
    ensures forall i :: 0 <= i < |items| ==> ss[i] == items[i].s
  {
    if |items| == 0 then [] else [items[0].s] + StringsOf(items[1..])
  }

  /** The array value holding the given strings. */
  function StrArray(ss: seq<string>): (v: Value)
    ensures v.Arr? && AllStr(v.items) && |v.items| == |ss|
    ensures StringsOf(v.items) == ss
  {
    Arr(seq(|ss|, i requires 0 <= i < |ss| => Str(ss[i])))
  }

  /** The items of an array value, when it is one, are strings. */
  predicate StringItems(v: Value) {
    v.Arr? ==> AllStr(v.items)
  }
}
