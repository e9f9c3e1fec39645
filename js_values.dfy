/**
 * JavaScript values as the library and the application handle them.
 *
 * Numbers are integer-valued (`Num`), with `NaN` kept apart because it is the
 * one number that is not strictly equal to itself. Arrays, objects and
 * functions carry a reference number standing for their identity, because
 * `===` and `indexOf` compare them by identity and not by contents. An object
 * lists its own enumerable properties in iteration order and names, in
 * `protos`, the user-defined constructors on its prototype chain (for
 * `instanceof`; an object is never an instance of `Array` or `Function`).
 */
module JsValues {
  import opened Strings

  datatype JsValue =
    | Undefined
    | Null
    | Bool(b: bool)
    | Num(n: int)
    | NaN
    | Str(s: string)
    | Arr(ref: nat, elems: seq<JsValue>)
    | Obj(ref: nat, protos: set<nat>, entries: seq<(string, JsValue)>)
    | Func(ref: nat, arity: nat, source: string)

  /** Reference numbers of the built-in constructors `Object`, `Array` and `Function`. */
  const ObjectRef: nat := 0
  const ArrayRef: nat := 1
  const FunctionRef: nat := 2

  /** The global `Array` constructor. */
  const ArrayConstructor: JsValue := Func(ArrayRef, 1, "function Array() { [native code] }")

  /** Largest array index underscore's `isArrayLike` accepts (2^53 - 1). */
  const MaxArrayIndex: int := 0x1F_FFFF_FFFF_FFFF

  /** The names `Object.prototype` provides, which every plain object inherits. */
  const ObjectPrototypeNames: set<string> := {
    "constructor", "hasOwnProperty", "isPrototypeOf", "propertyIsEnumerable",
    "toLocaleString", "toString", "valueOf", "__proto__", "__defineGetter__",
    "__defineSetter__", "__lookupGetter__", "__lookupSetter__"
  }

  /** `typeof v`. */
  function TypeOf(v: JsValue): string {
    match v
    case Undefined => "undefined"
    case Null => "object"
    case Bool(_) => "boolean"
    case Num(_) => "number"
    case NaN => "number"
    case Str(_) => "string"
    case Arr(_, _) => "object"
    case Obj(_, _, _) => "object"
    case Func(_, _, _) => "function"
  }

  /** JavaScript truthiness: `if (v)`. */
  predicate IsTruthy(v: JsValue) {
    match v
    case Undefined => false
    case Null => false
    case Bool(b) => b
    case Num(n) => n != 0
    case NaN => false
    case Str(s) => s != ""
    case _ => true
  }

  /** `a === b`: primitives by value (NaN never), everything else by identity. */
  predicate StrictEquals(a: JsValue, b: JsValue) {
    match (a, b)
    case (Undefined, Undefined) => true
    case (Null, Null) => true
    case (Bool(x), Bool(y)) => x == y
    case (Num(x), Num(y)) => x == y
    case (Str(x), Str(y)) => x == y
    case (Arr(r, _), Arr(q, _)) => r == q
    case (Obj(r, _, _), Obj(q, _, _)) => r == q
    case (Func(r, _, _), Func(q, _, _)) => r == q
    case _ => false
  }

  /** `v instanceof C` for the constructor whose reference number is `ctor`. */
  predicate InstanceOf(v: JsValue, ctor: nat) {
    match v
    case Arr(_, _) => ctor == ArrayRef || ctor == ObjectRef
    case Obj(_, protos, _) => ctor == ObjectRef || (ctor in protos && ctor != ArrayRef && ctor != FunctionRef)
    case Func(_, _, _) => ctor == FunctionRef || ctor == ObjectRef
    case _ => false
  }

  /** `Array.prototype.indexOf`: the first position strictly equal to `needle`, or -1. */
  function IndexOf(elems: seq<JsValue>, needle: JsValue): (i: int)
    ensures -1 <= i < |elems|
    ensures i >= 0 ==> StrictEquals(elems[i], needle)
    ensures forall j :: 0 <= j < |elems| && (i == -1 || j < i) ==> !StrictEquals(elems[j], needle)
  {
    if elems == [] then -1
    else if StrictEquals(elems[0], needle) then 0
    else
      var k := IndexOf(elems[1..], needle);
      if k == -1 then -1 else k + 1
  }

  /** The property names of an object's entries, in order. */
  function Keys(entries: seq<(string, JsValue)>): (ks: seq<string>)
    ensures |ks| == |entries| && forall i :: 0 <= i < |entries| ==> ks[i] == entries[i].0
  {
    seq(|entries|, i requires 0 <= i < |entries| => entries[i].0)
  }

  /** An own property of an object: the first entry with that name, or `undefined`. */
  function Lookup(entries: seq<(string, JsValue)>, key: string): (v: JsValue)
    ensures key !in Keys(entries) ==> v == Undefined
    ensures key in Keys(entries) ==> exists i :: 0 <= i < |entries| && entries[i] == (key, v)
  {
    if entries == [] then Undefined
    else if entries[0].0 == key then entries[0].1
    else
      var v := Lookup(entries[1..], key);
      assert Keys(entries) == [entries[0].0] + Keys(entries[1..]);
      v
  }

  /** underscore's `_.has(v, key)`: an own property of a plain object. */
  predicate HasOwn(v: JsValue, key: string) {
    v.Obj? && key in Keys(v.entries)
  }

  /** `v[key]` for an own property; inherited properties read as `undefined`. */
  function GetProperty(v: JsValue, key: string): JsValue {
    if v.Obj? then Lookup(v.entries, key) else Undefined
  }

  /** underscore's `_.isObject`: objects, arrays and functions (not null). */
  predicate IsObjectLike(v: JsValue) {
    v.Arr? || v.Obj? || v.Func?
  }

  /**
   * underscore's `_.size`: the `length` of an array-like value (a string, an
   * array, a function, an object whose own `length` is an array index),
   * otherwise the number of own keys; 0 for null, undefined and other primitives.
   */
  function Size(v: JsValue): nat {
    match v
    case Str(s) => |s|
    case Arr(_, elems) => |elems|
    case Func(_, arity, _) => arity
    case Obj(_, _, entries) =>
      var len := Lookup(entries, "length");
      if len.Num? && 0 <= len.n <= MaxArrayIndex then len.n else |entries|
    case _ => 0
  }

  /** underscore's `_.isEmpty` for a plain object: it has no own keys. */
  predicate IsEmptyObject(v: JsValue)
    requires v.Obj?
  {
    |v.entries| == 0
  }

  /** The names and values `for (key in v)` visits: an object's entries, an array's indices. */
  function ForInEntries(v: JsValue): (es: seq<(string, JsValue)>)
    ensures v.Obj? ==> es == v.entries
    ensures v.Arr? ==> |es| == |v.elems| && forall i :: 0 <= i < |es| ==> es[i] == (NatToDecimal(i), v.elems[i])
    ensures !v.Obj? && !v.Arr? ==> es == []
  {
    match v
    case Obj(_, _, entries) => entries
    case Arr(_, elems) => seq(|elems|, i requires 0 <= i < |elems| => (NatToDecimal(i), elems[i]))
    case _ => []
  }

  /** No name occurs twice. */
  predicate DistinctNames(entries: seq<(string, JsValue)>) {
    forall i, j :: 0 <= i < j < |entries| ==> entries[i].0 != entries[j].0
  }

  /** `obj[key] = v` on an object's own entries: an existing property keeps its place, a new one goes last. */
  function Assign(entries: seq<(string, JsValue)>, key: string, v: JsValue): (r: seq<(string, JsValue)>)
    ensures key in Keys(entries) ==> |r| == |entries|
    ensures key !in Keys(entries) ==> r == entries + [(key, v)]
    ensures Lookup(r, key) == v
    ensures forall k :: k != key ==> Lookup(r, k) == Lookup(entries, k)
  {
    if entries == [] then [(key, v)]
    else if entries[0].0 == key then [(key, v)] + entries[1..]
    else
      assert Keys(entries) == [entries[0].0] + Keys(entries[1..]);
      [entries[0]] + Assign(entries[1..], key, v)
  }

  /** Assigning the pairs one after the other, as a loop filling a fresh object does. */
  function AssignAll(entries: seq<(string, JsValue)>, pairs: seq<(string, JsValue)>): seq<(string, JsValue)>
    decreases |pairs|
  {
    if pairs == [] then entries else AssignAll(Assign(entries, pairs[0].0, pairs[0].1), pairs[1..])
  }

  /** Pairs with distinct names fill a fresh object with exactly those pairs, in order. */
  lemma {:induction false} AssignAllDistinct(entries: seq<(string, JsValue)>, pairs: seq<(string, JsValue)>)
    requires DistinctNames(entries + pairs)
    ensures AssignAll(entries, pairs) == entries + pairs
    decreases |pairs|
  {
    if pairs != [] {
      var p := pairs[0];
      assert p.0 !in Keys(entries) by {
        forall i | 0 <= i < |entries| ensures entries[i].0 != p.0 {
          assert (entries + pairs)[i] == entries[i];
          assert (entries + pairs)[|entries|] == p;
        }
      }
      assert entries + [p] + pairs[1..] == entries + pairs;
      AssignAllDistinct(entries + [p], pairs[1..]);
    }
  }

  /** With distinct names, a lookup by the i-th name finds the i-th value. */
  lemma {:induction false} LookupDistinct(entries: seq<(string, JsValue)>, i: nat)
    requires DistinctNames(entries) && i < |entries|
    ensures Lookup(entries, entries[i].0) == entries[i].1
  {
    if i > 0 {
      assert entries[0].0 != entries[i].0;
      assert entries[1..][i - 1] == entries[i];
      LookupDistinct(entries[1..], i - 1);
    }
  }

  /** `String(v)`. An object renders as "[object Object]", an array as its elements joined by commas. */
  function ToText(v: JsValue): string {
    match v
    case Undefined => "undefined"
    case Null => "null"
    case Bool(b) => if b then "true" else "false"
    case Num(n) => IntToDecimal(n)
    case NaN => "NaN"
    case Str(s) => s
    case Arr(_, elems) => Join(elems)
    case Obj(_, _, _) => "[object Object]"
    case Func(_, _, source) => source
  }

  /** `Array.prototype.join(",")`: null and undefined elements render as empty text. */
  function Join(elems: seq<JsValue>): string
    decreases elems
  {
    if elems == [] then ""
    else
      var head := if elems[0].Undefined? || elems[0].Null? then "" else ToText(elems[0]);
      if |elems| == 1 then head else head + "," + Join(elems[1..])
  }
}
