/**
 * The error accumulator of the datautils library (lib/modelError.js): a
 * `ModelError` collects, per model key, the details of the rules that failed.
 */
module ModelErrors {
  import opened JsValues
  import opened Throws

  /** One failed rule: `{message, value, params?}`. */
  datatype ErrorDetail = ErrorDetail(message: JsValue, value: JsValue, params: Option<seq<JsValue>>)

  /**
   * The plain object `this.errors`: its own keys in the order they were
   * created, which is the order `getErrors()` lists them in, and the list of
   * details under each key.
   */
  datatype ErrorMap = ErrorMap(names: seq<string>, lists: map<string, seq<ErrorDetail>>)

  /** The keys of `errors`, in creation order (none while it is `null`). */
  function NamesOf(errors: Option<ErrorMap>): seq<string> {
    if errors.Some? then errors.value.names else []
  }

  /** The lists of `errors` by key (none while it is `null`). */
  function ListsOf(errors: Option<ErrorMap>): map<string, seq<ErrorDetail>> {
    if errors.Some? then errors.value.lists else map[]
  }

  /** The details recorded under `key` so far (none when `errors` is still `null`). */
  function ErrorsFor(errors: Option<ErrorMap>, key: string): seq<ErrorDetail> {
    if key in ListsOf(errors) then ListsOf(errors)[key] else []
  }

  /**
   * What `addError` keeps of the object it fills: each key listed once,
   * exactly the keys that hold a list, and no list empty.
   */
  ghost predicate Consistent(e: ErrorMap) {
    && (forall i, j :: 0 <= i < j < |e.names| ==> e.names[i] != e.names[j])
    && (forall k :: k in e.lists <==> k in e.names)
    && (forall k :: k in e.lists ==> e.lists[k] != [])
  }

  /**
   * The error object after recording `detail` under `key`: a key without a
   * list gets one holding just `detail` and, being a new property, is listed
   * last; a key with a list keeps its place and its list grows by `detail`.
   */
  function Added(errors: Option<ErrorMap>, key: string, detail: ErrorDetail): (r: ErrorMap)
    ensures key in r.lists && r.lists[key] == ErrorsFor(errors, key) + [detail]
    ensures forall k :: k != key ==> ErrorsFor(Some(r), k) == ErrorsFor(errors, k)
    ensures r.lists.Keys == ListsOf(errors).Keys + {key}
  {
    var m := ListsOf(errors);
    if key in m then ErrorMap(NamesOf(errors), m[key := m[key] + [detail]])
    else ErrorMap(NamesOf(errors) + [key], m[key := [detail]])
  }

  /** A key that had no list is listed last; a key that had one keeps its place. */
  lemma AddedOrder(errors: Option<ErrorMap>, key: string, detail: ErrorDetail)
    ensures key !in ListsOf(errors) ==> Added(errors, key, detail).names == NamesOf(errors) + [key]
    ensures key in ListsOf(errors) ==> Added(errors, key, detail).names == NamesOf(errors)
  {
  }

  /** Recording a detail keeps the object consistent, and afterwards it has a key. */
  lemma AddedConsistent(errors: Option<ErrorMap>, key: string, detail: ErrorDetail)
    requires errors.None? || Consistent(errors.value)
    ensures Consistent(Added(errors, key, detail)) && Added(errors, key, detail).names != []
  {
    AddedOrder(errors, key, detail);
  }

  class ModelError {
    /** `this.errors`: `null` until the first error is added. */
    var errors: Option<ErrorMap>

    /** The read-only `type` property. */
    const errorType: string := "ModelError"

    /** Once created, the error object is consistent and has a key. */
    ghost predicate Valid()
      reads this
    {
      errors.Some? ==> Consistent(errors.value) && errors.value.names != []
    }

    /** A fresh ModelError has no errors. */
    constructor()
      ensures errors == None && Valid()
      ensures !HasErrors() && GetErrors() == None
    {
      errors := None;
    }

    /**
     * `addError(key, err)`: appends `err` to the list for `key`, creating the
     * object and the list when they are missing; every other list is
     * unchanged, and a key that is new goes last.
     * Every key is treated as an own property here (see AddErrorAsWritten).
     */
    method AddError(key: string, detail: ErrorDetail)
      modifies this
      ensures errors == Some(Added(old(errors), key, detail))
      ensures old(Valid()) ==> Valid()
      ensures HasErrors()
      ensures ErrorsFor(errors, key) == ErrorsFor(old(errors), key) + [detail]
    {
      if Valid() {
        AddedConsistent(errors, key, detail);
      }
      if errors == None {
        errors := Some(ErrorMap([], map[]));
      }
      var e := errors.value;
      if key !in e.lists {
        e := ErrorMap(e.names + [key], e.lists[key := []]);
      }
      errors := Some(e.(lists := e.lists[key := e.lists[key] + [detail]]));
      assert errors.value.names == Added(old(errors), key, detail).names;
      assert errors.value.lists == Added(old(errors), key, detail).lists;
    }

    /** `getErrors()`: `null` exactly when nothing was added, otherwise a consistent object with a key. */
    function GetErrors(): (r: Option<ErrorMap>)
      reads this
      ensures r.None? <==> !HasErrors()
      ensures Valid() && r.Some? ==> Consistent(r.value) && r.value.names != []
    {
      errors
    }

    /** `hasErrors()`: some detail has been recorded under some key. */
    function HasErrors(): (r: bool)
      reads this
      ensures Valid() ==> (r <==> NamesOf(errors) != [])
      ensures Valid() ==> forall k :: k in NamesOf(errors) ==> ErrorsFor(errors, k) != []
    {
      errors != None
    }

    /** `getType()`: always "ModelError". */
    function GetType(): (t: string)
      ensures t == "ModelError"
    {
      errorType
    }
  }

  /**
   * The map a sequence of `addError` calls builds from a fresh ModelError:
   * `null` when there were none.
   */
  function Grouped(failures: seq<(string, ErrorDetail)>): (r: Option<ErrorMap>)
    ensures r.None? <==> failures == []
  {
    if failures == [] then None
    else Some(Added(Grouped(failures[..|failures| - 1]), failures[|failures| - 1].0, failures[|failures| - 1].1))
  }

  /** One more `addError` call extends the grouped map by that detail. */
  lemma GroupedSnoc(failures: seq<(string, ErrorDetail)>, key: string, detail: ErrorDetail)
    ensures Grouped(failures + [(key, detail)]) == Some(Added(Grouped(failures), key, detail))
  {
    assert (failures + [(key, detail)])[..|failures|] == failures;
  }

  /** The keys of `failures`, each once, in the order each first appears. */
  function FirstSeen(failures: seq<(string, ErrorDetail)>): seq<string> {
    if failures == [] then []
    else
      var before := FirstSeen(failures[..|failures| - 1]);
      var key := failures[|failures| - 1].0;
      if key in before then before else before + [key]
  }

  /**
   * `getErrors()` after a sequence of `addError` calls lists its keys in the
   * order of their first failure.
   */
  lemma {:induction false} GroupedOrder(failures: seq<(string, ErrorDetail)>)
    ensures NamesOf(Grouped(failures)) == FirstSeen(failures)
  {
    if failures != [] {
      var init := failures[..|failures| - 1];
      GroupedOrder(init);
      GroupedKeysNames(init);
      AddedOrder(Grouped(init), failures[|failures| - 1].0, failures[|failures| - 1].1);
      GroupedKeys(init, failures[|failures| - 1].0);
    }
  }

  /** The grouped object lists exactly the keys holding a list. */
  lemma GroupedKeysNames(failures: seq<(string, ErrorDetail)>)
    ensures forall k :: k in ListsOf(Grouped(failures)) <==> k in NamesOf(Grouped(failures))
  {
    GroupedConsistent(failures);
  }

  /** The object a sequence of `addError` calls builds is consistent and has a key. */
  lemma {:induction false} GroupedConsistent(failures: seq<(string, ErrorDetail)>)
    ensures Grouped(failures).Some? ==> Consistent(Grouped(failures).value) && Grouped(failures).value.names != []
  {
    if failures != [] {
      var init := failures[..|failures| - 1];
      GroupedConsistent(init);
      AddedOrder(Grouped(init), failures[|failures| - 1].0, failures[|failures| - 1].1);
      AddedConsistent(Grouped(init), failures[|failures| - 1].0, failures[|failures| - 1].1);
    }
  }

  /** The details of the failures recorded under `key`, in order. */
  function DetailsFor(failures: seq<(string, ErrorDetail)>, key: string): seq<ErrorDetail> {
    if failures == [] then []
    else
      var last := failures[|failures| - 1];
      DetailsFor(failures[..|failures| - 1], key) + (if last.0 == key then [last.1] else [])
  }

  /** Grouping keeps, under each key, exactly the details added with that key, in the order added. */
  lemma {:induction false} GroupedCollects(failures: seq<(string, ErrorDetail)>, key: string)
    ensures ErrorsFor(Grouped(failures), key) == DetailsFor(failures, key)
  {
    if failures != [] {
      GroupedCollects(failures[..|failures| - 1], key);
    }
  }

  /** A key appears in the grouped map exactly when some failure was recorded under it. */
  lemma {:induction false} GroupedKeys(failures: seq<(string, ErrorDetail)>, key: string)
    ensures key in ListsOf(Grouped(failures))
            <==> exists i :: 0 <= i < |failures| && failures[i].0 == key
  {
    if failures != [] {
      var init := failures[..|failures| - 1];
      GroupedKeys(init, key);
      if exists i :: 0 <= i < |init| && init[i].0 == key {
        var i :| 0 <= i < |init| && init[i].0 == key;
        assert failures[i].0 == key;
      }
      if exists i :: 0 <= i < |failures| && failures[i].0 == key {
        var i :| 0 <= i < |failures| && failures[i].0 == key;
        if i < |init| {
          assert init[i].0 == key;
        }
      }
    }
  }

  // ---- addError as written ----

  /**
   * `addError` as the source writes it. `this.errors` is a plain object, so
   * `this.errors[key]` for a name `Object.prototype` provides is the inherited
   * member, not `undefined`; no list is created and `.push` is not a function
   * of it, so the call throws a TypeError.
   */
  function AddErrorAsWritten(errors: Option<ErrorMap>, key: string, detail: ErrorDetail): (r: Result<ErrorMap>)
    ensures key !in ObjectPrototypeNames ==> r == Ok(Added(errors, key, detail))
  {
    if key in ObjectPrototypeNames && key !in ListsOf(errors) then
      Throw(TypeError("this.errors[key].push is not a function"))
    else
      Ok(Added(errors, key, detail))
  }

  /** A model whose field is named "constructor" cannot record a validation error for it. */
  lemma AddErrorConstructorKey(detail: ErrorDetail)
    ensures AddErrorAsWritten(None, "constructor", detail).Throw?
    ensures AddErrorAsWritten(None, "toString", detail).Throw?
  {
  }

  /** The as-written call never records a key `Object.prototype` provides. */
  lemma AddErrorAsWrittenInheritedNames(errors: Option<ErrorMap>, key: string, detail: ErrorDetail)
    requires key in ObjectPrototypeNames && key !in ListsOf(errors)
    ensures AddErrorAsWritten(errors, key, detail).Throw?
  {
  }
}
