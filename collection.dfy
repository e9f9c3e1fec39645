/**
 * The keyed collection of the datautils library (lib/collection.js). A
 * `Collection` keeps its models in `data`, an object whose keys are UUIDs in
 * insertion order; models are looked up by key, by position, or by identity.
 *
 * `uuid.v4()` is modelled by NewKey: a UUID-shaped key (eight characters and
 * a dash) that no entry uses yet. Such a key is never integer text and never
 * a name `Object.prototype` provides, which is what keeps the lookups by key
 * and by position apart.
 */
module Collections {
  import opened Strings
  import opened JsValues
  import opened Throws
  import opened DataTypes
  import opened Models

  /** What `add`, `get` and `remove` accept: a plain value, an instance of the collection's model, or an array of these. */
  datatype Item = Value(v: JsValue) | Instance(m: Model) | Items(items: seq<Item>)

  /** What `get` returns: `null`, a model, a key, an inherited member of the data object, or one result per array element. */
  datatype Found = NotFound | FoundModel(m: Model) | FoundKey(key: string) | FoundInherited(name: string) | FoundMany(all: seq<Found>)

  /** What `remove` returns: one boolean, or one per array element. */
  datatype Removed = One(b: bool) | Many(each: seq<bool>)

  /** The collection's `data`: its keys in iteration order and the model under each. */
  datatype Table = Table(order: seq<string>, data: map<string, Model>)

  const EmptyTable := Table([], map[])

  predicate UuidShaped(k: string) {
    |k| > 8 && k[8] == '-'
  }

  /** Distinct UUID-shaped keys, listed in order, with a model under each. */
  ghost predicate TableValid(t: Table) {
    && (forall i, j :: 0 <= i < j < |t.order| ==> t.order[i] != t.order[j])
    && (forall k :: k in t.data <==> k in t.order)
    && (forall k :: k in t.order ==> UuidShaped(k))
  }

  /** The length of the longest key. */
  function Longest(ks: seq<string>): (n: nat)
    ensures forall i :: 0 <= i < |ks| ==> |ks[i]| <= n
  {
    if ks == [] then 0
    else
      var rest := Longest(ks[1..]);
      assert forall i :: 1 <= i < |ks| ==> ks[i] == ks[1..][i - 1];
      if |ks[0]| > rest then |ks[0]| else rest
  }

  /** `uuid.v4()`: a UUID-shaped key no entry uses. */
  function NewKey(ks: seq<string>): (k: string)
    ensures UuidShaped(k) && k !in ks
  {
    var k := "00000000-" + seq(Longest(ks), _ => '0');
    assert forall i :: 0 <= i < |ks| ==> |ks[i]| < |k|;
    k
  }

  lemma UuidNotIntegerText(k: string)
    requires UuidShaped(k)
    ensures !IsIntegerText(k)
  {
    assert !IsDigit(k[8]);
    if k[0] == '-' || k[0] == '+' {
      assert k[1..][7] == k[8];
    }
  }

  lemma UuidNotInherited(k: string)
    requires UuidShaped(k)
    ensures k !in ObjectPrototypeNames
  {
  }

  // ---- Adding ----

  /** A value `add` stores: a model instance, or a non-empty plain object to build a model from. */
  predicate Addable(leaf: Item) {
    leaf.Instance? || (leaf.Value? && leaf.v.Obj? && leaf.v.entries != [])
  }

  /** Not an array: what `add` handles without recursing. */
  predicate IsLeaf(item: Item) {
    !item.Items? && !(item.Value? && item.v.Arr?)
  }

  /** The non-array values `add` reaches, in the order its recursion over arrays visits them. */
  function ItemLeaves(item: Item): (ls: seq<Item>)
    ensures forall i :: 0 <= i < |ls| ==> IsLeaf(ls[i])
    ensures IsLeaf(item) ==> ls == [item]
    decreases item
  {
    match item
    case Items(xs) => ItemsLeaves(xs)
    case Value(v) => ValueLeaves(v)
    case Instance(_) => [item]
  }

  function ItemsLeaves(xs: seq<Item>): (ls: seq<Item>)
    ensures forall i :: 0 <= i < |ls| ==> IsLeaf(ls[i])
    decreases xs
  {
    if xs == [] then [] else ItemLeaves(xs[0]) + ItemsLeaves(xs[1..])
  }

  function ValueLeaves(v: JsValue): (ls: seq<Item>)
    ensures forall i :: 0 <= i < |ls| ==> IsLeaf(ls[i])
    ensures !v.Arr? ==> ls == [Value(v)]
    decreases v
  {
    if v.Arr? then ValuesLeaves(v.elems) else [Value(v)]
  }

  function ValuesLeaves(es: seq<JsValue>): (ls: seq<Item>)
    ensures forall i :: 0 <= i < |ls| ==> IsLeaf(ls[i])
    decreases es
  {
    if es == [] then [] else ValueLeaves(es[0]) + ValuesLeaves(es[1..])
  }

  /** The leaves that are stored, in order. */
  function Addables(ls: seq<Item>): (r: seq<Item>)
    ensures forall i :: 0 <= i < |r| ==> Addable(r[i])
  {
    if ls == [] then []
    else Addables(ls[..|ls| - 1]) + (if Addable(ls[|ls| - 1]) then [ls[|ls| - 1]] else [])
  }

  lemma {:induction false} AddablesAppend(a: seq<Item>, b: seq<Item>)
    ensures Addables(a + b) == Addables(a) + Addables(b)
    decreases |b|
  {
    if b == [] {
      assert a + b == a;
    } else {
      assert (a + b)[..|a + b| - 1] == a + b[..|b| - 1];
      AddablesAppend(a, b[..|b| - 1]);
    }
  }

  // ---- Lookup ----

  /** The position of the first key holding the model `m` (identity), or -1. */
  function FirstIndexOf(order: seq<string>, data: map<string, Model>, m: Model): (i: int)
    ensures -1 <= i < |order|
    ensures i >= 0 ==> order[i] in data && data[order[i]] == m
    ensures forall j :: 0 <= j < |order| && (i == -1 || j < i) && order[j] in data ==> data[order[j]] != m
  {
    if order == [] then -1
    else if order[0] in data && data[order[0]] == m then 0
    else
      var k := FirstIndexOf(order[1..], data, m);
      assert forall j :: 1 <= j < |order| ==> order[j] == order[1..][j - 1];
      if k == -1 then -1 else k + 1
  }

  /** `get(instance, getUUID)`: the key of the first entry holding that very model, or the model; otherwise `null`. */
  function FindInstance(t: Table, m: Model, getUUID: bool): Found {
    var i := FirstIndexOf(t.order, t.data, m);
    if i < 0 then NotFound else if getUUID then FoundKey(t.order[i]) else FoundModel(m)
  }

  /**
   * `this.data[name]` looked up as a key: an entry, or a member the data
   * object inherits from `Object.prototype` (truthy, so it is returned).
   */
  function GetByName(t: Table, name: string, getUUID: bool): Found {
    if name in t.data then (if getUUID then FoundKey(name) else FoundModel(t.data[name]))
    else if name in ObjectPrototypeNames then (if getUUID then FoundKey(name) else FoundInherited(name))
    else NotFound
  }

  /**
   * What `get` can answer for one value: `null`, a stored model, the key of an
   * entry, or a member the data object inherits; keys only when `getUUID`.
   */
  predicate Answers(t: Table, f: Found, getUUID: bool) {
    match f
    case NotFound => true
    case FoundModel(m) => !getUUID && m in t.data.Values
    case FoundKey(k) => getUUID && (k in t.data || k in ObjectPrototypeNames)
    case FoundInherited(name) => !getUUID && name in ObjectPrototypeNames
    case FoundMany(_) => false
  }

  /** `get(id, getUUID)` for a value that is not an array: an integer by position, anything else by its text as a key. */
  function GetScalar(t: Table, v: JsValue, getUUID: bool): (r: Found)
    ensures Answers(t, r, getUUID)
  {
    var n := SetInt(v, Null);
    if n != Null then
      if 0 <= n.n < |t.order| && t.order[n.n] in t.data then
        var m := t.data[t.order[n.n]];
        if getUUID then FindInstance(t, m, true) else FoundModel(m)
      else NotFound
    else GetByName(t, ToText(SetString(v, Null, Undefined)), getUUID)
  }

  /** `get(id, getUUID)` for a plain value: arrays element by element. */
  function GetValue(t: Table, v: JsValue, getUUID: bool): Found
    decreases v
  {
    if v.Arr? then FoundMany(GetValues(t, v.elems, getUUID)) else GetScalar(t, v, getUUID)
  }

  /** One `get` result per element, in order. */
  function GetValues(t: Table, es: seq<JsValue>, getUUID: bool): (r: seq<Found>)
    ensures |r| == |es|
    decreases es
  {
    if es == [] then [] else GetValues(t, es[..|es| - 1], getUUID) + [GetValue(t, es[|es| - 1], getUUID)]
  }

  /** `get(id, getUUID)` with `getUUID` already read as a boolean. */
  function GetSpec(t: Table, id: Item, getUUID: bool): (r: Found)
    ensures r.FoundMany? <==> IsArray(id)
    ensures id.Items? ==> |r.all| == |id.items|
    ensures id.Value? && id.v.Arr? ==> |r.all| == |id.v.elems|
    ensures !IsArray(id) ==> Answers(t, r, getUUID)
    decreases id
  {
    match id
    case Items(xs) => FoundMany(GetItems(t, xs, getUUID))
    case Instance(m) => FindInstance(t, m, getUUID)
    case Value(v) => GetValue(t, v, getUUID)
  }

  /** One `get` result per element, in order. */
  function GetItems(t: Table, xs: seq<Item>, getUUID: bool): (r: seq<Found>)
    ensures |r| == |xs|
    decreases xs
  {
    if xs == [] then [] else GetItems(t, xs[..|xs| - 1], getUUID) + [GetSpec(t, xs[|xs| - 1], getUUID)]
  }

  // ---- Removing ----

  predicate IsArray(id: Item) {
    id.Items? || (id.Value? && id.v.Arr?)
  }

  /** The elements of an array argument. */
  function Elements(id: Item): seq<Item>
    requires IsArray(id)
  {
    if id.Items? then id.items else seq(|id.v.elems|, i requires 0 <= i < |id.v.elems| => Value(id.v.elems[i]))
  }

  /** The key `remove` deletes for `str` when `get(str)` finds something. */
  function NameKey(t: Table, str: JsValue): Option<string> {
    if GetValue(t, str, false) != NotFound then Some(ToText(str)) else None
  }

  /**
   * The key `remove(array)` deletes for one element, if any: the first key
   * holding an instance, the key at an integer position, or a text that
   * `get` finds. A nested array reads as `null`, which names no key.
   */
  function ElementKey(t: Table, e: Item): (r: Option<string>)
    ensures r.Some? ==> r.value in t.data || r.value in ObjectPrototypeNames
    ensures e.Instance? ==> (r.Some? <==> e.m in t.data.Values && exists k :: k in t.order && k in t.data && t.data[k] == e.m)
    ensures e.Instance? && r.Some? ==> r.value in t.data && t.data[r.value] == e.m
  {
    match e
    case Instance(m) =>
      var i := FirstIndexOf(t.order, t.data, m);
      if i < 0 then None else Some(t.order[i])
    case Items(_) => NameKey(t, Null)
    case Value(v) =>
      if v.Arr? then NameKey(t, Null)
      else
        var n := SetInt(v, Null);
        if n == Null then NameKey(t, SetString(v, Null, Undefined))
        else if 0 <= n.n < |t.order| && t.order[n.n] in t.data then Some(t.order[n.n])
        else None
  }

  /** `ElementKey` for this table, as a function of the element. */
  function ElementKeys(t: Table): Item -> Option<string> {
    e => ElementKey(t, e)
  }

  /** One flag per element: whether `keyOf` finds a key for it. */
  function Flags(keyOf: Item -> Option<string>, es: seq<Item>): (bs: seq<bool>)
    ensures |bs| == |es|
  {
    if es == [] then [] else Flags(keyOf, es[..|es| - 1]) + [keyOf(es[|es| - 1]).Some?]
  }

  /** The keys `keyOf` finds for the elements, in order. */
  function Matched(keyOf: Item -> Option<string>, es: seq<Item>): seq<string> {
    if es == [] then []
    else
      var k := keyOf(es[|es| - 1]);
      Matched(keyOf, es[..|es| - 1]) + (if k.Some? then [k.value] else [])
  }

  /** The keys not in `del`, in their order. */
  function Filter(order: seq<string>, del: seq<string>): (r: seq<string>)
    ensures forall k :: k in r <==> k in order && k !in del
  {
    if order == [] then []
    else
      assert forall k :: k in order <==> k == order[0] || k in order[1..];
      (if order[0] in del then [] else [order[0]]) + Filter(order[1..], del)
  }

  /** underscore's `_.omit(data, del)`: the entries whose keys are not in `del`, in order. */
  function Omit(t: Table, del: seq<string>): Table {
    Table(Filter(t.order, del), map k | k in t.data && k !in del :: t.data[k])
  }

  /** A prefix one element longer is the shorter prefix and that element. */
  lemma PrefixSnoc<T>(s: seq<T>, i: nat)
    requires i < |s|
    ensures s[..i + 1] == s[..i] + [s[i]]
  {
  }

  /** One element more adds its flag and, when one is found, its key. */
  lemma FoldSnoc(keyOf: Item -> Option<string>, es: seq<Item>, i: nat)
    requires i < |es|
    ensures Flags(keyOf, es[..i + 1]) == Flags(keyOf, es[..i]) + [keyOf(es[i]).Some?]
    ensures Matched(keyOf, es[..i + 1]) == Matched(keyOf, es[..i]) + (if keyOf(es[i]).Some? then [keyOf(es[i]).value] else [])
  {
    assert es[..i + 1][..i] == es[..i];
  }

  /** `remove(array)` for a non-empty array: a flag per element, and every found key deleted at the end. */
  function RemoveAll(t: Table, es: seq<Item>): (seq<bool>, Table) {
    (Flags(ElementKeys(t), es), Omit(t, Matched(ElementKeys(t), es)))
  }

  /**
   * `remove(name)` for a text: `delete this.data[name]` when the data object
   * answers to the name. An inherited member answers too, and deleting it
   * from the data object does nothing.
   */
  function RemoveName(t: Table, name: string): (r: (Removed, Table))
    ensures r.0 == One(name in t.data || name in ObjectPrototypeNames)
    ensures r.1.data == t.data - {name}
    ensures name !in t.data ==> r.1 == t
    ensures forall k :: k in r.1.order <==> k in t.order && !(name in t.data && k == name)
  {
    if name in t.data then (One(true), Table(Filter(t.order, [name]), t.data - {name}))
    else if name in ObjectPrototypeNames then (One(true), t)
    else (One(false), t)
  }

  /** `remove(instance)`: `remove(key)` with the UUID key of the first entry holding that very model. */
  function RemoveInstance(t: Table, m: Model): (Removed, Table) {
    var i := FirstIndexOf(t.order, t.data, m);
    if i < 0 then (One(false), t) else RemoveName(t, t.order[i])
  }

  /** `remove(id)` for a value that is not an array: an integer as `remove([id])[0]`, anything else by its text. */
  function RemoveScalar(t: Table, v: JsValue): (r: (Removed, Table))
    ensures r.0.One?
    ensures Shrinks(t, r.1)
    ensures t.data.Keys - r.1.data.Keys != {} ==> r.0 == One(true)
  {
    var n := SetInt(v, Null);
    if n != Null then
      FoldSnoc(ElementKeys(t), [Value(n)], 0);
      assert [Value(n)][..1] == [Value(n)] && [Value(n)][..0] == [];
      var (bs, t') := RemoveAll(t, [Value(n)]);
      (One(bs[0]), t')
    else
      var str := SetString(v, Null, Undefined);
      if str != Null then RemoveName(t, str.s) else (One(false), t)
  }

  /** Only removal: the keys and models left are among those there were. */
  predicate Shrinks(t: Table, t': Table) {
    (forall k :: k in t'.order ==> k in t.order)
    && (forall k :: k in t'.data ==> k in t.data && t'.data[k] == t.data[k])
  }

  /** `remove(id)`: the result and the collection's new data. */
  function RemoveSpec(t: Table, id: Item): (r: (Removed, Table))
    ensures Shrinks(t, r.1)
    ensures IsArray(id) && |Elements(id)| > 0 ==> r.0.Many? && |r.0.each| == |Elements(id)|
    ensures !(IsArray(id) && |Elements(id)| > 0) ==> r.0.One?
  {
    if IsArray(id) then
      var es := Elements(id);
      if |es| > 0 then
        var (bs, t') := RemoveAll(t, es);
        (Many(bs), t')
      else (One(false), t)
    else if id.Instance? then RemoveInstance(t, id.m)
    else RemoveScalar(t, id.v)
  }

  // ---- The collection object ----

  class Collection {
    var order: seq<string>
    var data: map<string, Model>

    /** The model every added plain object is built with: its environment and definition. */
    const env: Env
    const definitionSpec: JsValue

    function Contents(): Table
      reads this
    {
      Table(order, data)
    }

    ghost predicate Valid()
      reads this
    {
      TableValid(Contents())
    }

    /** An empty collection; `new Collection(data)` then adds `data` as Add does. */
    constructor(env: Env, definitionSpec: JsValue)
      ensures Valid() && Contents() == EmptyTable
      ensures this.env == env && this.definitionSpec == definitionSpec
    {
      order := [];
      data := map[];
      this.env := env;
      this.definitionSpec := definitionSpec;
    }

    /** What building a model from a stored leaf gives: the state `new Model(env, definitionSpec, v)` reaches. */
    ghost function Build(leaf: Item): Result<ModelState> {
      if leaf.Value? then ConstructFrom(env, EmptyState, definitionSpec, leaf.v) else Ok(EmptyState)
    }

    /** The build outcome of each leaf, in order. */
    ghost function Builds(stored: seq<Item>): seq<Result<ModelState>> {
      seq(|stored|, j requires 0 <= j < |stored| => Build(stored[j]))
    }

    /**
     * The model `m` is what an added leaf stores: the instance itself, or a
     * model whose state is `built`, the successful outcome of building it.
     */
    ghost predicate Stored(m: Model, leaf: Item, built: Result<ModelState>)
      reads m
    {
      && (leaf.Instance? ==> m == leaf.m)
      && (leaf.Value? ==> built == Ok(m.State()))
    }

    /**
     * Since the keys were `o0` and the data `d0`, the keys in `o0` kept
     * their models and one new key per leaf in `stored` was appended,
     * holding what that leaf stores, with `built` the leaves' build outcomes.
     */
    ghost predicate Extends(o0: seq<string>, d0: map<string, Model>, stored: seq<Item>, built: seq<Result<ModelState>>)
      reads this, data.Values
    {
      && |o0| <= |order| && order[..|o0|] == o0
      && (forall k :: k in d0 ==> k in data && data[k] == d0[k])
      && |order| - |o0| == |stored| == |built|
      && (forall j :: |o0| <= j < |order| ==> order[j] in data && Stored(data[order[j]], stored[j - |o0|], built[j - |o0|]))
    }

    /** `this.data[uuid.v4()] = m`. */
    method Append(m: Model, ghost leaf: Item, ghost b: Result<ModelState>,
                  ghost o0: seq<string>, ghost d0: map<string, Model>, ghost stored: seq<Item>, ghost built: seq<Result<ModelState>>)
      requires Valid() && Extends(o0, d0, stored, built) && Stored(m, leaf, b)
      modifies this
      ensures Valid() && Extends(o0, d0, stored + [leaf], built + [b])
      ensures order == old(order) + [NewKey(old(order))] && data == old(data)[NewKey(old(order)) := m]
    {
      var key := NewKey(order);
      order := order + [key];
      data := data[key := m];
    }

    /** `add` of a value that is not an array. */
    method AddOne(leaf: Item, ghost o0: seq<string>, ghost d0: map<string, Model>, ghost stored: seq<Item>, ghost built: seq<Result<ModelState>>)
      returns (r: Result<()>)
      requires Valid() && IsLeaf(leaf)
      requires Extends(o0, d0, stored, built)
      modifies this
      ensures Valid()
      ensures Addable(leaf) && r.Ok? ==> Extends(o0, d0, stored + [leaf], built + [Build(leaf)])
      ensures !(Addable(leaf) && r.Ok?) ==> Extends(o0, d0, stored, built)
      ensures !Addable(leaf) ==> r == Ok(()) && Contents() == old(Contents())
      ensures leaf.Instance? ==> r.Ok?
      ensures Addable(leaf) && r.Throw? ==>
        Contents() == old(Contents()) && leaf.Value? && Build(leaf) == Throw(r.thrown)
      ensures Addable(leaf) && r.Ok? ==>
        var key := NewKey(old(order));
        && order == old(order) + [key] && key in data && data == old(data)[key := data[key]]
        && (leaf.Value? ==> fresh(data[key]))
    {
      if leaf.Instance? {
        Append(leaf.m, leaf, Build(leaf), o0, d0, stored, built);
        return Ok(());
      }
      var input := SetObject(leaf.v, Null);
      if input == Null || input.entries == [] {
        return Ok(());
      }
      assert input == leaf.v;
      var m := new Model();
      r := m.Construct(env, definitionSpec, input);
      if r.Throw? {
        return;
      }
      Append(m, leaf, Build(leaf), o0, d0, stored, built);
    }

    /**
     * What adding the leaves `stored` one by one leaves behind, starting from
     * keys `o0` and data `d0`: the models of the first n leaves under n new
     * keys, where n is all of them, or those before the first leaf whose
     * model could not be built, which the call then throws for.
     */
    ghost predicate AddOutcome(o0: seq<string>, d0: map<string, Model>, stored: seq<Item>, r: Result<()>)
      reads this, data.Values
    {
      && |o0| <= |order| <= |o0| + |stored|
      && Extends(o0, d0, stored[..|order| - |o0|], Builds(stored)[..|order| - |o0|])
      && (r.Ok? ==> |order| - |o0| == |stored|)
      && (r.Throw? ==> |order| - |o0| < |stored| && stored[|order| - |o0|].Value?
                       && Build(stored[|order| - |o0|]) == Throw(r.thrown))
    }

    /** `add(model)` for each of the stored leaves in turn, stopping at the first that throws. */
    method AddLeaves(stored: seq<Item>) returns (r: Result<()>)
      requires Valid()
      requires forall i :: 0 <= i < |stored| ==> IsLeaf(stored[i]) && Addable(stored[i])
      modifies this
      ensures Valid()
      ensures AddOutcome(old(order), old(data), stored, r)
    {
      ghost var built := Builds(stored);
      var i := 0;
      while i < |stored|
        invariant 0 <= i <= |stored|
        invariant Valid()
        invariant Extends(old(order), old(data), stored[..i], built[..i])
      {
        assert IsLeaf(stored[i]) && Addable(stored[i]);
        PrefixSnoc(stored, i);
        PrefixSnoc(built, i);
        assert built[i] == Build(stored[i]);
        r := AddOne(stored[i], old(order), old(data), stored[..i], built[..i]);
        if r.Throw? {
          assert |order| - |old(order)| == i;
          return;
        }
        i := i + 1;
      }
      assert stored[..i] == stored;
      assert built[..i] == built;
      assert |order| - |old(order)| == i;
      r := Ok(());
    }

    /**
     * `add(data)`: every stored leaf, in order, under a new key; the leaves
     * before one whose model cannot be built stay added, and nothing after
     * it is added. The leaves that are not stored are skipped: `add` does nothing for
     * them (see AddOne).
     */
    method Add(item: Item) returns (r: Result<()>)
      requires Valid()
      modifies this
      ensures Valid()
      ensures AddOutcome(old(order), old(data), Addables(ItemLeaves(item)), r)
    {
      r := AddLeaves(Addables(ItemLeaves(item)));
    }

    /** `get(instance, getUUID)`: a loop over the keys in order. */
    method FindModel(m: Model, getUUID: bool) returns (r: Found)
      ensures r == FindInstance(Contents(), m, getUUID)
    {
      var i := 0;
      while i < |order|
        invariant 0 <= i <= |order|
        invariant forall j :: 0 <= j < i && order[j] in data ==> data[order[j]] != m
      {
        if order[i] in data && data[order[i]] == m {
          assert FirstIndexOf(order, data, m) == i;
          return if getUUID then FoundKey(order[i]) else FoundModel(data[order[i]]);
        }
        i := i + 1;
      }
      assert FirstIndexOf(order, data, m) == -1;
      return NotFound;
    }

    /** `get(array, getUUID)`: one result per element. */
    method FindValues(es: seq<JsValue>, getUUID: bool) returns (r: seq<Found>)
      ensures r == GetValues(Contents(), es, getUUID)
      decreases es
    {
      ghost var t := Contents();
      r := [];
      var i := 0;
      while i < |es|
        invariant 0 <= i <= |es|
        invariant r == GetValues(t, es[..i], getUUID)
      {
        assert es[..i + 1][..i] == es[..i];
        var f := FindValue(es[i], getUUID);
        r := r + [f];
        i := i + 1;
      }
      assert es[..i] == es;
    }

    /** `get(id, getUUID)` for a plain value. */
    method FindValue(v: JsValue, getUUID: bool) returns (r: Found)
      ensures r == GetValue(Contents(), v, getUUID)
      decreases v
    {
      ghost var t := Contents();
      if v.Arr? {
        var all := FindValues(v.elems, getUUID);
        return FoundMany(all);
      }
      r := FindScalar(v, getUUID);
    }

    /** `get(id, getUUID)` for a value that is not an array. */
    method FindScalar(v: JsValue, getUUID: bool) returns (r: Found)
      ensures r == GetScalar(Contents(), v, getUUID)
    {
      var n := SetInt(v, Null);
      if n != Null {
        if 0 <= n.n < |order| && order[n.n] in data {
          var m := data[order[n.n]];
          if getUUID {
            r := FindModel(m, true);
          } else {
            r := FoundModel(m);
          }
        } else {
          r := NotFound;
        }
      } else {
        r := GetByName(Contents(), ToText(SetString(v, Null, Undefined)), getUUID);
      }
    }

    method Find(id: Item, getUUID: bool) returns (r: Found)
      ensures r == GetSpec(Contents(), id, getUUID)
      decreases id
    {
      ghost var t := Contents();
      match id
      case Items(xs) =>
        var out: seq<Found> := [];
        var i := 0;
        while i < |xs|
          invariant 0 <= i <= |xs|
          invariant out == GetItems(t, xs[..i], getUUID)
        {
          assert xs[..i + 1][..i] == xs[..i];
          var f := Find(xs[i], getUUID);
          out := out + [f];
          i := i + 1;
        }
        assert xs[..i] == xs;
        r := FoundMany(out);
      case Instance(m) =>
        r := FindModel(m, getUUID);
      case Value(v) =>
        r := FindValue(v, getUUID);
    }

    /** `get(id, getUUID)`, with `getUUID` read by `setBool(getUUID, false)`. */
    method Get(id: Item, getUUID: JsValue) returns (r: Found)
      ensures r == GetSpec(Contents(), id, IsTruthy(SetBool(getUUID, Bool(false))))
    {
      r := Find(id, IsTruthy(SetBool(getUUID, Bool(false))));
    }

    /** The key one element of `remove(array)` names, found with the loops `remove` runs. */
    method FindElementKey(e: Item) returns (k: Option<string>)
      ensures k == ElementKey(Contents(), e)
    {
      if e.Instance? {
        var f := FindModel(e.m, true);
        return if f.FoundKey? then Some(f.key) else None;
      }
      var n := if e.Value? then SetInt(e.v, Null) else Null;
      if n == Null {
        var str := if e.Value? then SetString(e.v, Null, Undefined) else Null;
        var f := FindValue(str, false);
        return if f != NotFound then Some(ToText(str)) else None;
      }
      k := None;
      var i := 0;
      while i < |order|
        invariant 0 <= i <= |order|
        invariant k == if 0 <= n.n < i && order[n.n] in data then Some(order[n.n]) else None
      {
        if i == n.n && order[i] in data {
          k := Some(order[i]);
        }
        i := i + 1;
      }
    }

    /** `remove(array)` for a non-empty array: find a key per element, then omit them all. */
    method RemoveElements(es: seq<Item>) returns (out: seq<bool>)
      requires Valid()
      modifies this
      ensures Valid()
      ensures (out, Contents()) == RemoveAll(old(Contents()), es)
    {
      out := [];
      var toDelete: seq<string> := [];
      var i := 0;
      while i < |es|
        invariant 0 <= i <= |es|
        invariant Contents() == old(Contents())
        invariant out == Flags(ElementKeys(Contents()), es[..i]) && toDelete == Matched(ElementKeys(Contents()), es[..i])
      {
        var k := FindElementKey(es[i]);
        FoldSnoc(ElementKeys(Contents()), es, i);
        out := out + [k.Some?];
        if k.Some? {
          toDelete := toDelete + [k.value];
        }
        i := i + 1;
      }
      assert es[..i] == es;
      OmitValid(Contents(), toDelete);
      order, data := Filter(order, toDelete), map k | k in data && k !in toDelete :: data[k];
    }

    /** `delete this.data[name]` when the data object answers to the name. */
    method RemoveByName(name: string) returns (r: Removed)
      requires Valid()
      modifies this
      ensures Valid()
      ensures (r, Contents()) == RemoveName(old(Contents()), name)
    {
      if name in data {
        OmitValid(Contents(), [name]);
        assert data - {name} == map k | k in data && k !in [name] :: data[k];
        order, data := Filter(order, [name]), data - {name};
        return One(true);
      }
      return One(name in ObjectPrototypeNames);
    }

    /** `remove(model)`. */
    method Remove(id: Item) returns (r: Removed)
      requires Valid()
      modifies this
      ensures Valid()
      ensures (r, Contents()) == RemoveSpec(old(Contents()), id)
    {
      if IsArray(id) {
        var es := Elements(id);
        if |es| > 0 {
          var bs := RemoveElements(es);
          return Many(bs);
        }
        return One(false);
      }
      if id.Instance? {
        r := RemoveModel(id.m);
        return;
      }
      r := RemoveValue(id.v);
    }

    /** `remove(instance)`: a loop over the keys in order. */
    method RemoveModel(m: Model) returns (r: Removed)
      requires Valid()
      modifies this
      ensures Valid()
      ensures (r, Contents()) == RemoveInstance(old(Contents()), m)
    {
      var i := 0;
      while i < |order|
        invariant 0 <= i <= |order|
        invariant Contents() == old(Contents())
        invariant forall j :: 0 <= j < i && order[j] in data ==> data[order[j]] != m
      {
        if order[i] in data && data[order[i]] == m {
          assert FirstIndexOf(order, data, m) == i;
          r := RemoveByName(order[i]);
          return;
        }
        i := i + 1;
      }
      assert FirstIndexOf(order, data, m) == -1;
      return One(false);
    }

    /** `remove(id)` for a value that is not an array. */
    method RemoveValue(v: JsValue) returns (r: Removed)
      requires Valid()
      modifies this
      ensures Valid()
      ensures (r, Contents()) == RemoveScalar(old(Contents()), v)
    {
      var n := SetInt(v, Null);
      if n != Null {
        var bs := RemoveElements([Value(n)]);
        return One(bs[0]);
      }
      var str := SetString(v, Null, Undefined);
      if str != Null {
        r := RemoveByName(str.s);
        return;
      }
      return One(false);
    }

    /** `reset()`: false on an empty collection; otherwise empty the data and return true. */
    method Reset() returns (r: bool)
      requires Valid()
      modifies this
      ensures Valid()
      ensures r <==> old(order) != []
      ensures Contents() == EmptyTable
    {
      if order == [] {
        assert data == map[];
        return false;
      }
      order, data := [], map[];
      return true;
    }

    /** `getCount()`: the number of entries. */
    function GetCount(): (n: nat)
      reads this
      requires Valid()
      ensures n == |data|
    {
      DistinctOrderCount(Contents());
      |order|
    }

    /** `getKeys()`: every key once, in insertion order. */
    function GetKeys(): (ks: seq<string>)
      reads this
      requires Valid()
      ensures forall k :: k in ks <==> k in data
      ensures forall i, j :: 0 <= i < j < |ks| ==> ks[i] != ks[j]
    {
      order
    }

    /** `toJSON()`: each model's `toObject()`, in key order. */
    method ToJson() returns (r: seq<seq<(string, JsValue)>>)
      requires Valid()
      ensures |r| == |order|
      ensures forall i :: 0 <= i < |order| ==> r[i] == ObjectEntries(data[order[i]].State())
    {
      r := [];
      var i := 0;
      while i < |order|
        invariant 0 <= i <= |order|
        invariant |r| == i
        invariant forall j :: 0 <= j < i ==> r[j] == ObjectEntries(data[order[j]].State())
      {
        assert order[i] in data;
        var m := data[order[i]];
        var o := m.ToObject();
        r := r + [o];
        i := i + 1;
      }
    }
  }

  /** Omitting keys keeps the keys distinct, UUID-shaped and in step with the data. */
  lemma OmitValid(t: Table, del: seq<string>)
    requires TableValid(t)
    ensures TableValid(Omit(t, del))
  {
    FilterDistinct(t.order, del);
  }

  lemma {:induction false} FilterDistinct(order: seq<string>, del: seq<string>)
    requires forall i, j :: 0 <= i < j < |order| ==> order[i] != order[j]
    ensures forall i, j :: 0 <= i < j < |Filter(order, del)| ==> Filter(order, del)[i] != Filter(order, del)[j]
  {
    if order != [] {
      var rest := Filter(order[1..], del);
      FilterDistinct(order[1..], del);
      assert forall i :: 1 <= i < |order| ==> order[i] == order[1..][i - 1];
      assert order[0] !in order[1..];
      var r := Filter(order, del);
      if order[0] in del {
        assert r == rest;
      } else {
        assert r == [order[0]] + rest;
        forall i, j | 0 <= i < j < |r| ensures r[i] != r[j] {
          assert r[j] == rest[j - 1] && rest[j - 1] in rest;
          if i > 0 {
            assert r[i] == rest[i - 1];
          } else {
            assert r[i] == order[0];
          }
        }
      }
    }
  }

  /** A table lists as many keys as its data holds. */
  lemma DistinctOrderCount(t: Table)
    requires TableValid(t)
    ensures |t.order| == |t.data|
  {
    DistinctCard(t.order);
    assert t.data.Keys == set k | k in t.order;
  }

  lemma {:induction false} DistinctCard(ks: seq<string>)
    requires forall i, j :: 0 <= i < j < |ks| ==> ks[i] != ks[j]
    ensures |set k | k in ks| == |ks|
  {
    if ks != [] {
      DistinctCard(ks[1..]);
      assert (set k | k in ks) == (set k | k in ks[1..]) + {ks[0]};
      assert ks[0] !in ks[1..];
    }
  }
}
