/**
 * Properties of the collection's lookups and removals (lib/collection.js),
 * stated over the `Table` a collection holds: what a key or a position
 * finds, what `remove` deletes and what it leaves alone, and how adding one
 * model and removing it again round-trip.
 */
module CollectionProperties {
  import opened Strings
  import opened JsValues
  import opened Throws
  import opened DataTypes
  import opened Models
  import opened Collections

  // ---- Lookup by position ----

  /** `get(i)` for a position in range finds the model at that position. */
  lemma GetByPosition(t: Table, i: int)
    requires TableValid(t) && 0 <= i < |t.order|
    ensures GetSpec(t, Value(Num(i)), false) == FoundModel(t.data[t.order[i]])
  {
    SetIntOfNumber(i, Null);
  }

  /**
   * `get(i, true)` for a position in range gives the key of the first entry
   * holding the model at that position: its own key, unless the same model
   * was added earlier under another key.
   */
  lemma GetKeyByPosition(t: Table, i: int)
    requires TableValid(t) && 0 <= i < |t.order|
    ensures var j := FirstIndexOf(t.order, t.data, t.data[t.order[i]]);
            0 <= j <= i && GetSpec(t, Value(Num(i)), true) == FoundKey(t.order[j])
  {
    SetIntOfNumber(i, Null);
  }

  /** `get(i)` for a position out of range (negative or past the end) finds nothing. */
  lemma GetOutOfRange(t: Table, i: int, getUUID: bool)
    requires i < 0 || i >= |t.order|
    ensures GetSpec(t, Value(Num(i)), getUUID) == NotFound
    ensures GetSpec(t, Value(Str(IntToDecimal(i))), getUUID) == NotFound
  {
    SetIntOfNumber(i, Null);
    SetIntOfDecimal(i, Null);
  }

  // ---- Lookup by key ----

  /** `get(key)` for a key of the collection finds its model; `get(key, true)` gives the key back. */
  lemma GetByKey(t: Table, k: string)
    requires TableValid(t) && k in t.data
    ensures GetSpec(t, Value(Str(k)), false) == FoundModel(t.data[k])
    ensures GetSpec(t, Value(Str(k)), true) == FoundKey(k)
  {
    UuidNotIntegerText(k);
    SetIntStrings(k, Null);
  }

  /** A text that is no key, no integer and no inherited name finds nothing. */
  lemma GetMissingName(t: Table, s: string, getUUID: bool)
    requires s !in t.data && !IsIntegerText(s) && s !in ObjectPrototypeNames
    ensures GetSpec(t, Value(Str(s)), getUUID) == NotFound
  {
    SetIntStrings(s, Null);
  }

  /** A name every object inherits is found although no model is stored under it. */
  lemma GetInheritedName(t: Table)
    requires TableValid(t)
    ensures GetSpec(t, Value(Str("constructor")), false) == FoundInherited("constructor")
    ensures GetSpec(t, Value(Str("toString")), true) == FoundKey("toString")
  {
    assert !UuidShaped("constructor");
    assert !UuidShaped("toString");
    SetIntStrings("constructor", Null);
    SetIntStrings("toString", Null);
    assert !IsDigit('c') && !IsDigit('t');
  }

  /** Looking up an instance finds a key holding that very model exactly when some key holds it. */
  lemma GetInstanceIff(t: Table, m: Model)
    ensures GetSpec(t, Instance(m), true).FoundKey? <==> exists k :: k in t.order && k in t.data && t.data[k] == m
    ensures GetSpec(t, Instance(m), true).FoundKey? ==>
              var k := GetSpec(t, Instance(m), true).key;
              k in t.data && t.data[k] == m
    ensures GetSpec(t, Instance(m), false) == NotFound || GetSpec(t, Instance(m), false) == FoundModel(m)
  {
    var i := FirstIndexOf(t.order, t.data, m);
    if exists k :: k in t.order && k in t.data && t.data[k] == m {
      var k :| k in t.order && k in t.data && t.data[k] == m;
      var j :| 0 <= j < |t.order| && t.order[j] == k;
      assert i != -1;
    }
  }

  /** `get` of an array answers element by element, in order. */
  lemma {:induction false} GetArrayPointwise(t: Table, xs: seq<Item>, getUUID: bool)
    ensures GetSpec(t, Items(xs), getUUID) == FoundMany(GetItems(t, xs, getUUID))
    ensures forall i :: 0 <= i < |xs| ==> GetItems(t, xs, getUUID)[i] == GetSpec(t, xs[i], getUUID)
  {
    GetItemsPointwise(t, xs, getUUID);
  }

  lemma {:induction false} GetItemsPointwise(t: Table, xs: seq<Item>, getUUID: bool)
    ensures forall i :: 0 <= i < |xs| ==> GetItems(t, xs, getUUID)[i] == GetSpec(t, xs[i], getUUID)
  {
    if xs != [] {
      var init := xs[..|xs| - 1];
      GetItemsPointwise(t, init, getUUID);
      assert forall i :: 0 <= i < |init| ==> xs[i] == init[i];
    }
  }

  // ---- Removing ----

  /** Filtering out nothing keeps the keys as they are. */
  lemma {:induction false} FilterNothing(order: seq<string>)
    ensures Filter(order, []) == order
  {
    if order != [] {
      FilterNothing(order[1..]);
      assert order == [order[0]] + order[1..];
    }
  }

  /** Filtering out a key that is not there keeps the keys as they are. */
  lemma {:induction false} FilterAbsent(order: seq<string>, k: string)
    requires k !in order
    ensures Filter(order, [k]) == order
  {
    if order != [] {
      assert k !in order[1..];
      FilterAbsent(order[1..], k);
      assert order == [order[0]] + order[1..];
    }
  }

  /** Filtering distributes over concatenation. */
  lemma {:induction false} FilterAppend(a: seq<string>, b: seq<string>, del: seq<string>)
    ensures Filter(a + b, del) == Filter(a, del) + Filter(b, del)
  {
    if a != [] {
      assert (a + b)[1..] == a[1..] + b;
      FilterAppend(a[1..], b, del);
    } else {
      assert a + b == b;
    }
  }

  /** Omitting no key leaves the table as it is. */
  lemma OmitNothing(t: Table)
    ensures Omit(t, []) == t
  {
    FilterNothing(t.order);
    assert (map k | k in t.data && k !in [] :: t.data[k]) == t.data;
  }

  /** `remove(key)` for a key of the collection deletes that key and nothing else. */
  lemma RemoveByKey(t: Table, k: string)
    requires TableValid(t) && k in t.data
    ensures RemoveSpec(t, Value(Str(k))) == (One(true), Table(Filter(t.order, [k]), t.data - {k}))
    ensures TableValid(RemoveSpec(t, Value(Str(k))).1)
  {
    RemoveKey(t, k);
    OmitValid(t, [k]);
    DeleteIsOmit(t, k);
  }

  lemma RemoveKey(t: Table, k: string)
    requires TableValid(t) && k in t.data
    ensures RemoveSpec(t, Value(Str(k))) == (One(true), Table(Filter(t.order, [k]), t.data - {k}))
  {
    UuidNotIntegerText(k);
    UuidNotInherited(k);
    SetIntStrings(k, Null);
  }

  /** After `remove(key)`, `get(key)` finds nothing. */
  lemma RemoveThenGet(t: Table, k: string)
    requires TableValid(t) && k in t.data
    ensures GetSpec(RemoveSpec(t, Value(Str(k))).1, Value(Str(k)), false) == NotFound
  {
    RemoveByKey(t, k);
    UuidNotIntegerText(k);
    UuidNotInherited(k);
    SetIntStrings(k, Null);
  }

  /** `remove(text)` for a text that is no key, no integer and no inherited name removes nothing. */
  lemma RemoveMissingName(t: Table, s: string)
    requires s !in t.data && !IsIntegerText(s) && s !in ObjectPrototypeNames
    ensures RemoveSpec(t, Value(Str(s))) == (One(false), t)
  {
    SetIntStrings(s, Null);
  }

  /** `remove("constructor")` answers true and removes nothing: the name is an inherited member. */
  lemma RemoveInheritedName(t: Table)
    requires TableValid(t)
    ensures RemoveSpec(t, Value(Str("constructor"))) == (One(true), t)
  {
    assert !UuidShaped("constructor");
    SetIntStrings("constructor", Null);
    assert !IsDigit('c');
  }

  /** `remove(i)` for a position in range deletes the key at that position; out of range it deletes nothing. */
  lemma RemoveByPosition(t: Table, i: int)
    requires TableValid(t)
    ensures 0 <= i < |t.order| ==> RemoveSpec(t, Value(Num(i))) == (One(true), Omit(t, [t.order[i]]))
    ensures !(0 <= i < |t.order|) ==> RemoveSpec(t, Value(Num(i))) == (One(false), t)
  {
    SetIntOfNumber(i, Null);
    FoldOne(ElementKeys(t), Value(Num(i)));
    if !(0 <= i < |t.order|) {
      OmitNothing(t);
    }
  }

  /** The flags and the keys of a single element. */
  lemma FoldOne(keyOf: Item -> Option<string>, e: Item)
    ensures Flags(keyOf, [e]) == [keyOf(e).Some?]
    ensures Matched(keyOf, [e]) == if keyOf(e).Some? then [keyOf(e).value] else []
  {
    assert [e][..0] == [];
  }

  /** One flag per element, each saying whether a key was found for that element. */
  lemma {:induction false} FlagsPointwise(keyOf: Item -> Option<string>, es: seq<Item>)
    ensures forall i :: 0 <= i < |es| ==> Flags(keyOf, es)[i] == keyOf(es[i]).Some?
  {
    if es != [] {
      var init := es[..|es| - 1];
      FlagsPointwise(keyOf, init);
      assert forall i :: 0 <= i < |init| ==> es[i] == init[i];
    }
  }

  /** A key is deleted by `remove(array)` exactly when it was found for some element. */
  lemma {:induction false} MatchedIff(keyOf: Item -> Option<string>, es: seq<Item>, k: string)
    ensures k in Matched(keyOf, es) <==> exists i :: 0 <= i < |es| && keyOf(es[i]) == Some(k)
  {
    if es != [] {
      var init := es[..|es| - 1];
      MatchedIff(keyOf, init, k);
      assert forall i :: 0 <= i < |init| ==> es[i] == init[i];
      if exists i :: 0 <= i < |es| && keyOf(es[i]) == Some(k) {
        var i :| 0 <= i < |es| && keyOf(es[i]) == Some(k);
        if i < |init| {
          assert keyOf(init[i]) == Some(k);
        }
      }
    }
  }

  /**
   * `remove(array)` of a non-empty array answers with one flag per element,
   * true exactly when a key was found for it, and deletes exactly the keys
   * found; every other key keeps its model and its place.
   */
  lemma RemoveArray(t: Table, es: seq<Item>)
    requires TableValid(t) && |es| > 0
    ensures var (r, t') := RemoveSpec(t, Items(es));
      && r.Many? && |r.each| == |es|
      && (forall i :: 0 <= i < |es| ==> (r.each[i] <==> ElementKey(t, es[i]).Some?))
      && TableValid(t')
      && (forall k :: k in t'.data <==> k in t.data && !(exists i :: 0 <= i < |es| && ElementKey(t, es[i]) == Some(k)))
      && (forall k :: k in t'.data ==> t'.data[k] == t.data[k])
      && t'.order == Filter(t.order, Matched(ElementKeys(t), es))
  {
    RemoveArrayIs(t, es);
    RemoveAllFlags(t, es);
    RemoveAllKeys(t, es);
  }

  lemma RemoveArrayIs(t: Table, es: seq<Item>)
    requires |es| > 0
    ensures RemoveSpec(t, Items(es)) == (Many(RemoveAll(t, es).0), RemoveAll(t, es).1)
  {
  }

  lemma RemoveAllFlags(t: Table, es: seq<Item>)
    ensures forall i :: 0 <= i < |es| ==> (RemoveAll(t, es).0[i] <==> ElementKey(t, es[i]).Some?)
  {
    FlagsPointwise(ElementKeys(t), es);
  }

  lemma RemoveAllKeys(t: Table, es: seq<Item>)
    requires TableValid(t)
    ensures var t' := RemoveAll(t, es).1;
      && TableValid(t')
      && (forall k :: k in t'.data <==> k in t.data && !(exists i :: 0 <= i < |es| && ElementKey(t, es[i]) == Some(k)))
      && (forall k :: k in t'.data ==> t'.data[k] == t.data[k])
      && t'.order == Filter(t.order, Matched(ElementKeys(t), es))
  {
    var del := Matched(ElementKeys(t), es);
    OmitValid(t, del);
    forall k | k in t.data
      ensures k in del <==> exists i :: 0 <= i < |es| && ElementKey(t, es[i]) == Some(k)
    {
      MatchedIff(ElementKeys(t), es, k);
    }
    OmitKeeps(t, del);
  }

  /** Omitting keys keeps every other key with its model. */
  lemma OmitKeeps(t: Table, del: seq<string>)
    ensures forall k :: k in Omit(t, del).data <==> k in t.data && k !in del
    ensures forall k :: k in Omit(t, del).data ==> Omit(t, del).data[k] == t.data[k]
  {
  }

  /** What `remove` leaves behind: the old table with some keys omitted. */
  ghost predicate IsOmission(t: Table, t': Table) {
    exists del :: t' == Omit(t, del)
  }

  /** Deleting one key is omitting it. */
  lemma DeleteIsOmit(t: Table, k: string)
    ensures Table(Filter(t.order, [k]), t.data - {k}) == Omit(t, [k])
  {
    assert Omit(t, [k]).data == t.data - {k};
  }

  /** A removal by name only ever deletes that name's entry. */
  lemma RemoveNameShrinks(t: Table, name: string)
    ensures IsOmission(t, RemoveName(t, name).1)
  {
    if name in t.data {
      DeleteIsOmit(t, name);
      assert RemoveName(t, name).1 == Omit(t, [name]);
    } else {
      OmitNothing(t);
      assert RemoveName(t, name).1 == Omit(t, []);
    }
  }

  /** Whatever it is given, `remove` keeps the table valid and only deletes entries. */
  lemma RemoveShrinks(t: Table, id: Item)
    requires TableValid(t)
    ensures IsOmission(t, RemoveSpec(t, id).1)
    ensures TableValid(RemoveSpec(t, id).1)
  {
    if IsArray(id) && |Elements(id)| > 0 {
      RemoveAllShrinks(t, Elements(id));
    } else if IsArray(id) {
      OmitNothing(t);
      assert RemoveSpec(t, id).1 == Omit(t, []);
    } else if id.Instance? {
      RemoveInstanceShrinks(t, id.m);
    } else {
      RemoveScalarShrinks(t, id.v);
    }
  }

  lemma RemoveNameValid(t: Table, name: string)
    requires TableValid(t)
    ensures TableValid(RemoveName(t, name).1)
  {
    if name in t.data {
      DeleteIsOmit(t, name);
      OmitValid(t, [name]);
    }
  }

  lemma RemoveInstanceShrinks(t: Table, m: Model)
    requires TableValid(t)
    ensures IsOmission(t, RemoveInstance(t, m).1)
    ensures TableValid(RemoveInstance(t, m).1)
  {
    var i := FirstIndexOf(t.order, t.data, m);
    var name := if i < 0 then "" else t.order[i];
    RemoveNameShrinks(t, name);
    RemoveNameValid(t, name);
    if i < 0 {
      assert RemoveInstance(t, m).1 == RemoveName(t, "").1 by {
        OmitNothing(t);
      }
    }
  }

  lemma RemoveScalarShrinks(t: Table, v: JsValue)
    requires TableValid(t)
    ensures IsOmission(t, RemoveScalar(t, v).1)
    ensures TableValid(RemoveScalar(t, v).1)
  {
    var t' := RemoveScalar(t, v).1;
    var n := SetInt(v, Null);
    if n != Null {
      RemoveAllShrinks(t, [Value(n)]);
      ghost var a := RemoveAll(t, [Value(n)]).1;
      assert t' == a;
    } else {
      ScalarNameShrinks(t, v);
    }
  }

  lemma ScalarNameShrinks(t: Table, v: JsValue)
    requires TableValid(t) && SetInt(v, Null) == Null
    ensures IsOmission(t, RemoveScalar(t, v).1)
    ensures TableValid(RemoveScalar(t, v).1)
  {
    var str := SetString(v, Null, Undefined);
    if str != Null {
      RemoveNameShrinks(t, str.s);
      RemoveNameValid(t, str.s);
    } else {
      OmitNothing(t);
      assert RemoveScalar(t, v).1 == Omit(t, []);
    }
  }

  lemma RemoveAllShrinks(t: Table, es: seq<Item>)
    requires TableValid(t)
    ensures IsOmission(t, RemoveAll(t, es).1)
    ensures TableValid(RemoveAll(t, es).1)
  {
    var del := Matched(ElementKeys(t), es);
    OmitValid(t, del);
    assert RemoveAll(t, es).1 == Omit(t, del);
  }

  // ---- Adding then removing ----

  /** The table after `this.data[uuid.v4()] = m`. */
  function Appended(t: Table, m: Model): (t': Table)
    ensures t'.order == t.order + [NewKey(t.order)]
  {
    Table(t.order + [NewKey(t.order)], t.data[NewKey(t.order) := m])
  }

  /** An added model is found at the last position and under its new key. */
  lemma AppendThenGet(t: Table, m: Model)
    requires TableValid(t)
    ensures TableValid(Appended(t, m))
    ensures GetSpec(Appended(t, m), Value(Num(|t.order|)), false) == FoundModel(m)
    ensures GetSpec(Appended(t, m), Value(Str(NewKey(t.order))), false) == FoundModel(m)
  {
    var t' := Appended(t, m);
    var key := NewKey(t.order);
    assert key !in t.data;
    assert forall k :: k in t'.order <==> k in t.order || k == key;
    GetByPosition(t', |t.order|);
    GetByKey(t', key);
  }

  /** Removing the key an add just created gives back the table from before the add. */
  lemma AppendThenRemove(t: Table, m: Model)
    requires TableValid(t)
    ensures RemoveSpec(Appended(t, m), Value(Str(NewKey(t.order)))) == (One(true), t)
  {
    AppendedValid(t, m);
    RemoveKey(Appended(t, m), NewKey(t.order));
    DeleteAppended(t, m);
  }

  /** Deleting the appended key restores the table. */
  lemma DeleteAppended(t: Table, m: Model)
    requires TableValid(t)
    ensures var k := NewKey(t.order);
            Table(Filter(Appended(t, m).order, [k]), Appended(t, m).data - {k}) == t
  {
    var key := NewKey(t.order);
    FilterAppended(t.order, key);
    assert t.data[key := m] - {key} == t.data by {
      assert key !in t.data;
    }
  }

  lemma AppendedValid(t: Table, m: Model)
    requires TableValid(t)
    ensures TableValid(Appended(t, m))
  {
    var key := NewKey(t.order);
    assert forall k :: k in Appended(t, m).order <==> k in t.order || k == key;
  }

  /** Filtering the last key out of a sequence it ends gives the rest. */
  lemma FilterAppended(order: seq<string>, k: string)
    requires k !in order
    ensures Filter(order + [k], [k]) == order
  {
    FilterAppend(order, [k], [k]);
    FilterAbsent(order, k);
    assert [k][1..] == [];
    assert order + [] == order;
  }

  // ---- What add stores ----

  /** A value that is not an array and not a non-empty plain object stores nothing. */
  lemma AddNothing(v: JsValue)
    requires !v.Arr? && !(v.Obj? && v.entries != [])
    ensures Addables(ItemLeaves(Value(v))) == []
  {
    assert ItemLeaves(Value(v)) == [Value(v)];
    assert [Value(v)][..0] == [];
  }

  /** A non-empty plain object or a model instance is stored as it is. */
  lemma AddSingle(item: Item)
    requires Addable(item)
    ensures Addables(ItemLeaves(item)) == [item]
  {
    assert ItemLeaves(item) == [item];
    assert [item][..0] == [];
  }

  lemma {:induction false} ItemsLeavesAppend(a: seq<Item>, b: seq<Item>)
    ensures ItemsLeaves(a + b) == ItemsLeaves(a) + ItemsLeaves(b)
  {
    if a == [] {
      assert a + b == b;
    } else {
      assert (a + b)[0] == a[0] && (a + b)[1..] == a[1..] + b;
      ItemsLeavesAppend(a[1..], b);
    }
  }

  /** Adding an array stores what adding its parts one after the other stores, in the same order. */
  lemma AddArraySplits(a: seq<Item>, b: seq<Item>)
    ensures Addables(ItemLeaves(Items(a + b))) == Addables(ItemLeaves(Items(a))) + Addables(ItemLeaves(Items(b)))
  {
    ItemsLeavesAppend(a, b);
    AddablesAppend(ItemsLeaves(a), ItemsLeaves(b));
  }
}
