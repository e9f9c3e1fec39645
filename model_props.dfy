/**
 * What the model promises across several calls: validation passes exactly
 * when no rule fails and records each failure under its key, fields start at
 * their defaults, coercions store the converted value, a second primary key
 * is refused, and the stored form written by `toData` is read back by
 * `toModel`.
 */
module ModelProperties {
  import opened Strings
  import opened JsValues
  import opened Throws
  import opened DataTypes
  import opened ModelErrors
  import opened Models

  // ---- validate ----

  /** The run of rules completes exactly when no check throws. */
  lemma {:induction false} FailedOkIff(rules: seq<Rule>, check: Rule -> Result<Option<ErrorDetail>>)
    ensures Failed(rules, check).Ok? <==> forall j :: 0 <= j < |rules| ==> check(rules[j]).Ok?
  {
    if rules != [] {
      var init := rules[..|rules| - 1];
      FailedOkIff(init, check);
      assert forall j :: 0 <= j < |init| ==> init[j] == rules[j];
    }
  }

  /** No detail is reported exactly when the check passes every rule. */
  lemma {:induction false} FailedEmptyIff(rules: seq<Rule>, check: Rule -> Result<Option<ErrorDetail>>)
    ensures Failed(rules, check) == Ok([]) <==> forall j :: 0 <= j < |rules| ==> check(rules[j]) == Ok(None)
  {
    if rules != [] {
      var init, last := rules[..|rules| - 1], rules[|rules| - 1];
      FailedEmptyIff(init, check);
      assert forall j :: 0 <= j < |init| ==> init[j] == rules[j];
      if Failed(init, check).Ok? && check(last).Ok? {
        assert Failed(rules, check).value == Failed(init, check).value + (if check(last).value.Some? then [check(last).value.value] else []);
      }
    }
  }

  /** The run over keys completes exactly when no key's rules throw. */
  lemma {:induction false} CollectedOkIff(ks: seq<string>, perKey: string -> Result<seq<ErrorDetail>>)
    ensures Collected(ks, perKey).Ok? <==> forall i :: 0 <= i < |ks| ==> perKey(ks[i]).Ok?
  {
    if ks != [] {
      var init := ks[..|ks| - 1];
      CollectedOkIff(init, perKey);
      assert forall i :: 0 <= i < |init| ==> init[i] == ks[i];
    }
  }

  /** Nothing is collected exactly when no key has a detail. */
  lemma {:induction false} CollectedEmptyIff(ks: seq<string>, perKey: string -> Result<seq<ErrorDetail>>)
    ensures Collected(ks, perKey) == Ok([]) <==> forall i :: 0 <= i < |ks| ==> perKey(ks[i]) == Ok([])
  {
    if ks != [] {
      var init := ks[..|ks| - 1];
      CollectedEmptyIff(init, perKey);
      assert forall i :: 0 <= i < |init| ==> init[i] == ks[i];
    }
  }

  /** `validate()` returns true, rather than throwing, exactly when every rule of every field passes. */
  lemma ValidatePassesIff(env: Env, s: ModelState)
    ensures Failures(env, s, s.keys) == Ok([])
        <==> forall i, j :: 0 <= i < |s.keys| && 0 <= j < |RulesOf(s, s.keys[i])| ==> FailureOf(env, s, s.keys[i], RulesOf(s, s.keys[i])[j]) == Ok(None)
  {
    CollectedEmptyIff(s.keys, KeyDetails(env, s));
    forall i | 0 <= i < |s.keys|
      ensures KeyDetails(env, s)(s.keys[i]) == Ok([])
          <==> forall j :: 0 <= j < |RulesOf(s, s.keys[i])| ==> FailureOf(env, s, s.keys[i], RulesOf(s, s.keys[i])[j]) == Ok(None)
    {
      FailedEmptyIff(RulesOf(s, s.keys[i]), RuleCheck(env, s, s.keys[i]));
    }
  }

  /**
   * `validate()` throws something other than its ModelError exactly when
   * some rule of some field throws `null` or `undefined`.
   */
  lemma ValidateEscapesIff(env: Env, s: ModelState)
    ensures Failures(env, s, s.keys).Throw?
        <==> exists i, j :: 0 <= i < |s.keys| && 0 <= j < |RulesOf(s, s.keys[i])| && FailureOf(env, s, s.keys[i], RulesOf(s, s.keys[i])[j]).Throw?
  {
    CollectedOkIff(s.keys, KeyDetails(env, s));
    forall i | 0 <= i < |s.keys|
      ensures KeyDetails(env, s)(s.keys[i]).Ok?
          <==> forall j :: 0 <= j < |RulesOf(s, s.keys[i])| ==> FailureOf(env, s, s.keys[i], RulesOf(s, s.keys[i])[j]).Ok?
    {
      FailedOkIff(RulesOf(s, s.keys[i]), RuleCheck(env, s, s.keys[i]));
    }
  }

  lemma {:induction false} DetailsForAppend(a: seq<(string, ErrorDetail)>, b: seq<(string, ErrorDetail)>, key: string)
    ensures DetailsFor(a + b, key) == DetailsFor(a, key) + DetailsFor(b, key)
    decreases |b|
  {
    if b != [] {
      var init := b[..|b| - 1];
      assert (a + b)[..|a + b| - 1] == a + init;
      DetailsForAppend(a, init, key);
    } else {
      assert a + b == a;
    }
  }

  lemma {:induction false} DetailsForTagged(tag: string, ds: seq<ErrorDetail>, key: string)
    ensures DetailsFor(Tagged(tag, ds), key) == if key == tag then ds else []
  {
    if ds != [] {
      var init := ds[..|ds| - 1];
      assert Tagged(tag, ds)[..|ds| - 1] == Tagged(tag, init);
      DetailsForTagged(tag, init, key);
    }
  }

  /** With distinct keys, the details collected under a key are that key's own. */
  lemma {:induction false} DetailsOfCollected(ks: seq<string>, perKey: string -> Result<seq<ErrorDetail>>, key: string)
    requires forall i, j :: 0 <= i < j < |ks| ==> ks[i] != ks[j]
    requires Collected(ks, perKey).Ok?
    ensures key in ks ==> perKey(key).Ok?
    ensures DetailsFor(Collected(ks, perKey).value, key) == if key in ks then perKey(key).value else []
  {
    if ks != [] {
      var init := ks[..|ks| - 1];
      var last := ks[|ks| - 1];
      assert forall i :: 0 <= i < |init| ==> init[i] == ks[i];
      DetailsOfCollected(init, perKey, key);
      DetailsForAppend(Collected(init, perKey).value, Tagged(last, perKey(last).value), key);
      DetailsForTagged(last, perKey(last).value, key);
      assert ks == init + [last];
      if key == last {
        assert key !in init;
      }
    }
  }

  /** The keys of `ks` whose run reports some detail, in the order of `ks`. */
  function FailingKeys(ks: seq<string>, perKey: string -> Result<seq<ErrorDetail>>): (r: seq<string>)
    ensures forall k :: k in r ==> k in ks
  {
    if ks == [] then []
    else
      var last := ks[|ks| - 1];
      FailingKeys(ks[..|ks| - 1], perKey) + (if perKey(last).Ok? && perKey(last).value != [] then [last] else [])
  }

  /** Tagged details add their key after the keys seen before, unless it was seen already. */
  lemma {:induction false} FirstSeenTagged(a: seq<(string, ErrorDetail)>, tag: string, ds: seq<ErrorDetail>)
    ensures FirstSeen(a + Tagged(tag, ds)) == FirstSeen(a) + (if ds != [] && tag !in FirstSeen(a) then [tag] else [])
  {
    if ds == [] {
      assert a + Tagged(tag, ds) == a;
    } else {
      var init := ds[..|ds| - 1];
      FirstSeenTagged(a, tag, init);
      assert (a + Tagged(tag, ds))[..|a + Tagged(tag, ds)| - 1] == a + Tagged(tag, init);
    }
  }

  /** With distinct keys, the keys first seen in the collected failures are the failing keys, in key order. */
  lemma {:induction false} FirstSeenCollected(ks: seq<string>, perKey: string -> Result<seq<ErrorDetail>>)
    requires forall i, j :: 0 <= i < j < |ks| ==> ks[i] != ks[j]
    requires Collected(ks, perKey).Ok?
    ensures FirstSeen(Collected(ks, perKey).value) == FailingKeys(ks, perKey)
  {
    if ks != [] {
      var init := ks[..|ks| - 1];
      var last := ks[|ks| - 1];
      assert forall i :: 0 <= i < |init| ==> init[i] == ks[i];
      FirstSeenCollected(init, perKey);
      FirstSeenTagged(Collected(init, perKey).value, last, perKey(last).value);
      assert last !in init;
    }
  }

  /**
   * The ModelError `validate` throws lists its keys in definition-key order:
   * exactly the fields with a failing rule, as `getErrors()` enumerates them.
   */
  lemma ErrorKeysInOrder(env: Env, s: ModelState)
    requires WellFormed(s) && Failures(env, s, s.keys).Ok?
    ensures NamesOf(Grouped(Failures(env, s, s.keys).value)) == FailingKeys(s.keys, KeyDetails(env, s))
  {
    GroupedOrder(Failures(env, s, s.keys).value);
    FirstSeenCollected(s.keys, KeyDetails(env, s));
  }

  /**
   * The ModelError `validate` throws lists, under each field, the details of
   * that field's failing rules in rule order, and nothing under other names.
   */
  lemma ErrorsOfKey(env: Env, s: ModelState, key: string)
    requires WellFormed(s) && Failures(env, s, s.keys).Ok?
    ensures key in s.keys ==> RuleFailures(env, s, key, RulesOf(s, key)).Ok?
    ensures ErrorsFor(Grouped(Failures(env, s, s.keys).value), key)
         == if key in s.keys then RuleFailures(env, s, key, RulesOf(s, key)).value else []
  {
    GroupedCollects(Failures(env, s, s.keys).value, key);
    DetailsOfCollected(s.keys, KeyDetails(env, s), key);
  }

  /**
   * `get` after a successful `set` of a defined field reads the coerced value;
   * every other field reads as before.
   */
  lemma SetThenGet(env: Env, s: ModelState, key: string, value: JsValue, other: string)
    requires key in s.definition && Coerce(env, s.definition[key], value).Ok?
    ensures SetSpec(env, s, key, value).Ok?
    ensures AttrOf(SetSpec(env, s, key, value).value, key) == Coerce(env, s.definition[key], value).value
    ensures other != key ==> AttrOf(SetSpec(env, s, key, value).value, other) == AttrOf(s, other)
  {
  }

  /** A field still holding its default passes every rule that is not "required", without running it. */
  lemma DefaultSkipsOptionalRules(env: Env, s: ModelState, key: string, rule: Rule)
    requires StrictEquals(AttrOf(s, key), rule.defaultValue) && !rule.isRequired
    ensures FailureOf(env, s, key, rule) == Ok(None)
  {
    FailureOfIff(env, s, key, rule);
  }

  /** A "required" rule on an empty field fails with VALUE_REQUIRED, whatever the default. */
  lemma RequiredRuleRejectsEmpty(env: Env, s: ModelState, key: string, param: JsValue, defaultValue: JsValue)
    requires AttrOf(s, key) == Str("") || AttrOf(s, key) == Null || AttrOf(s, key) == Undefined
    ensures FailureOf(env, s, key, Rule(Builtin("required"), param, defaultValue, true))
         == Ok(Some(ErrorDetail(Str("VALUE_REQUIRED"), AttrOf(s, key), None)))
  {
  }

  /** A "match" rule compares with the other field by strict equality and reports that field's value. */
  lemma MatchRuleCompares(env: Env, s: ModelState, key: string, other: string, defaultValue: JsValue)
    requires !StrictEquals(AttrOf(s, key), defaultValue)
    ensures FailureOf(env, s, key, Rule(MatchRule, Str(other), defaultValue, false)) == Ok(None)
        <==> StrictEquals(AttrOf(s, key), AttrOf(s, other))
    ensures !StrictEquals(AttrOf(s, key), AttrOf(s, other)) ==>
              FailureOf(env, s, key, Rule(MatchRule, Str(other), defaultValue, false))
              == Ok(Some(ErrorDetail(Str("VALUE_DOES_NOT_MATCH"), AttrOf(s, key), Some([AttrOf(s, other)]))))
  {
    var args := RuleArgs(AttrOf(s, key), Str(other));
    assert args == [AttrOf(s, key), Str(other)];
  }

  /** A custom rule returning false records CUSTOM_VALIDATION_FAILED. */
  lemma CustomFalseFails(env: Env, s: ModelState, key: string, f: JsValue, param: JsValue, defaultValue: JsValue)
    requires !StrictEquals(AttrOf(s, key), defaultValue)
    requires env.call(f, RuleArgs(AttrOf(s, key), param)) == Ok(Bool(false))
    ensures FailureOf(env, s, key, Rule(Custom(f), param, defaultValue, false))
         == Ok(Some(ErrorDetail(Str("CUSTOM_VALIDATION_FAILED"), AttrOf(s, key), None)))
  {
  }

  /** A custom rule throwing `null` makes `validate` throw a TypeError instead of recording a detail. */
  lemma CustomNullEscapes(env: Env, s: ModelState, key: string, f: JsValue, param: JsValue, defaultValue: JsValue)
    requires !StrictEquals(AttrOf(s, key), defaultValue)
    requires env.call(f, RuleArgs(AttrOf(s, key), param)) == Throw(Raw(Null))
    ensures FailureOf(env, s, key, Rule(Custom(f), param, defaultValue, false))
         == Throw(TypeError("Cannot read properties of null (reading 'message')"))
  {
    assert RuleOutcome(env, s, Rule(Custom(f), param, defaultValue, false), AttrOf(s, key)) == Throw(Raw(Null));
  }

  // ---- set and the definition ----

  /** An integer field stores the number its decimal text stands for. */
  lemma IntegerFieldParsesText(env: Env, s: ModelState, key: string, n: int)
    requires key in s.definition && s.definition[key].typ == Named("integer")
    ensures SetSpec(env, s, key, Str(IntToDecimal(n))) == Ok(s.(attr := s.attr[key := Num(n)]))
  {
    SetIntOfDecimal(n, s.definition[key].value);
  }

  /** A boolean field stores true for "yes" and false for "0". */
  lemma BooleanFieldReadsSpellings(env: Env, s: ModelState, key: string)
    requires key in s.definition && s.definition[key].typ == Named("boolean")
    ensures SetSpec(env, s, key, Str("yes")) == Ok(s.(attr := s.attr[key := Bool(true)]))
    ensures SetSpec(env, s, key, Str("0")) == Ok(s.(attr := s.attr[key := Bool(false)]))
  {
    SetBoolTrueSpellings("yes", "YES", s.definition[key].value);
    SetBoolFalseSpellings("0", "0", s.definition[key].value);
  }

  /** A field of an unknown type name, or of no type, refuses every value with DATATYPE_NOT_VALID and changes nothing. */
  lemma UnknownTypeThrows(env: Env, s: ModelState, key: string, value: JsValue)
    requires key in s.definition && !s.definition[key].typ.Coercer?
    requires !(s.definition[key].typ.Named? && s.definition[key].typ.name in TypeNames)
    ensures SetSpec(env, s, key, value).Throw?
    ensures ThrownMessage(SetSpec(env, s, key, value).thrown) == Str("DATATYPE_NOT_VALID")
  {
  }

  /** With every type but date, float, enum and a coercion function, setting `undefined` stores the default. */
  lemma UndefinedGivesDefault(env: Env, d: Definition)
    requires d.typ.Named? && d.typ.name in TypeNames - {"date", "float", "enum"}
    ensures Coerce(env, d, Undefined) == Ok(d.value)
  {
  }

  /**
   * Defining a field with a falsy definition fails: such a field has no type,
   * so setting its default throws DATATYPE_NOT_VALID with a null type.
   */
  lemma FalsyDefinitionThrows(env: Env, s: ModelState, key: string, objDef: JsValue)
    requires !IsTruthy(objDef)
    ensures DefineOne(env, s, key, objDef) == Throw(DatatypeError(Null))
  {
  }

  /**
   * After a field is defined its key is listed once, its definition is stored,
   * and for the plain types its value is the declared default.
   */
  lemma DefineStoresDefault(env: Env, s: ModelState, key: string, d: Definition, primary: bool)
    requires WellFormed(s)
    requires DefineParsed(env, s, key, d, primary).Ok?
    ensures var s1 := DefineParsed(env, s, key, d, primary).value;
            WellFormed(s1) && key in s1.keys && s1.definition[key] == d
            && (d.typ.Named? && d.typ.name in TypeNames - {"date", "float", "enum"} ==> AttrOf(s1, key) == d.value)
  {
    var s1 := s.(keys := if key in s.definition then s.keys else s.keys + [key], definition := s.definition[key := d]);
    assert WellFormed(s1) by {
      if key !in s.definition {
        forall i, j | 0 <= i < j < |s1.keys| ensures s1.keys[i] != s1.keys[j] {
          if j == |s.keys| {
            assert s1.keys[i] == s.keys[i];
          }
        }
      }
    }
  }

  /** A second field declared as primary key makes the definition throw CANNOT_SET_MULTIPLE_PRIMARY_KEYS. */
  lemma SecondPrimaryKeyThrows(env: Env, s: ModelState, key: string, objDef: JsValue)
    requires s.primaryKey.Some?
    requires ParseDefinition(key, objDef).Ok? && ParseDefinition(key, objDef).value.1
    ensures DefineOne(env, s, key, objDef) == Throw(PlainError("CANNOT_SET_MULTIPLE_PRIMARY_KEYS"))
  {
  }

  /** A key without a definition, other than an inherited name, is ignored by construction's data loop. */
  lemma UndefinedKeysIgnored(env: Env, s: ModelState, key: string, value: JsValue)
    requires key !in s.definition && key !in ObjectPrototypeNames
    ensures SetSpec(env, s, key, value) == Ok(s)
  {
  }

  /** Data carrying a property named like an inherited member ("toString") makes construction throw, even with no such field. */
  lemma InheritedDataKeyThrows(env: Env, s: ModelState, value: JsValue)
    requires "toString" !in s.definition
    ensures SetAll(env, s, [("toString", value)]) == Throw(DatatypeError(Undefined))
  {
  }

  // ---- toObject, isSet ----

  /** `isSet()` is true exactly when some field differs from its default. */
  lemma IsSetIff(s: ModelState)
    requires WellFormed(s)
    ensures (exists i :: 0 <= i < |ObjectEntries(s)| && !StrictEquals(ObjectEntries(s)[i].1, DefaultOf(s, ObjectEntries(s)[i].0)))
        <==> exists i :: 0 <= i < |s.keys| && !StrictEquals(AttrOf(s, s.keys[i]), DefaultOf(s, s.keys[i]))
  {
    ObjectEntriesAreFields(s);
  }

  // ---- toData and toModel ----

  /** The column names as text are pairwise distinct. */
  ghost predicate DistinctColumns(s: ModelState) {
    forall i, j :: 0 <= i < j < |s.keys| ==> ToText(Column(s, s.keys[i])) != ToText(Column(s, s.keys[j]))
  }

  /**
   * Round trip: when the columns are distinct, the object the corrected
   * `toData()` builds, read column by column as `toModel` reads it, gives
   * back each field with its value.
   */
  lemma ToDataToModel(s: ModelState, ref: nat, protos: set<nat>)
    requires WellFormed(s) && DistinctColumns(s)
    ensures ReadColumns(ColumnKeys(s), Obj(ref, protos, CorrectedDataEntries(s))) == ObjectPairs(s)
  {
    var pairs := CorrectedDataPairs(s);
    assert DistinctNames([] + pairs);
    AssignAllDistinct([], pairs);
    assert CorrectedDataEntries(s) == pairs;
    forall i | 0 <= i < |s.keys|
      ensures GetProperty(Obj(ref, protos, pairs), ToText(Column(s, s.keys[i]))) == AttrOf(s, s.keys[i])
    {
      LookupDistinct(pairs, i);
    }
  }

  /** The as-written `toData()` writes a field whose column is null under the name "null". */
  lemma NullColumnWrittenAsNull(s: ModelState, v: JsValue)
    requires s.keys == ["name"] && "name" in s.definition && s.definition["name"].column == Null
    requires s.attr == map["name" := v]
    ensures DataEntries(s) == [("null", v)]
  {
    var ps := DataPairs(s);
    assert ps[0] == (ToText(Null), v);
    assert ps[1..] == [];
    assert AssignAll([], ps) == AssignAll(Assign([], "null", v), ps[1..]);
  }

  /** So `toModel` reads that field (by its key, since the column is falsy) from a name `toData` never wrote: the value is lost. */
  lemma NullColumnLostByToModel(s: ModelState, ref: nat, protos: set<nat>)
    requires s.keys == ["name"] && "name" in s.definition && s.definition["name"].column == Null
    requires s.attr == map["name" := Str("Rex")]
    ensures ReadColumns(ColumnKeys(s), Obj(ref, protos, DataEntries(s))) == [("name", Undefined)]
    ensures ObjectPairs(s) == [("name", Str("Rex"))]
  {
    NullColumnWrittenAsNull(s, Str("Rex"));
  }
}
