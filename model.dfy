/**
 * The schema-driven record of the datautils library (lib/model.js).
 *
 * A model is built from a definition object: each key names a field with a
 * type, a default value, a column name for the stored form and a list of
 * validation rules. `set` coerces a value through the datatypes functions,
 * `toData` and `toObject` copy the fields out, `validate` runs every rule and
 * collects the failures into a ModelError.
 *
 * The model's fields are held in a class; what each operation computes is
 * given by functions on the value `ModelState` those fields make up.
 */
module Models {
  import opened Strings
  import opened JsValues
  import opened Throws
  import opened DataTypes
  import opened Validation
  import opened ModelErrors

  /**
   * Code the library calls but this model does not define: a function value
   * the application supplies (a custom type or a custom rule), called with its
   * arguments; the validation functions built on regular expressions,
   * floating point or deep comparison (and the `Object.prototype` members a
   * rule name can reach); and the float and date coercions.
   */
  datatype Env = Env(
    call: (JsValue, seq<JsValue>) -> Result<JsValue>,
    validator: (string, seq<JsValue>) -> Result<JsValue>,
    setFloat: (JsValue, JsValue) -> JsValue,
    setDate: (JsValue, JsValue) -> JsValue)

  /** A field's `type`: missing, a type name, or a coercion function. */
  datatype TypeSpec = NoType | Named(name: string) | Coercer(f: JsValue)

  /** What a rule runs: a custom function, a function of the validation module, or the model's own `_match`. */
  datatype RuleFn = Custom(f: JsValue) | Builtin(name: string) | MatchRule

  /** The closure `createClosure` builds: the function, its `param`, the field's default and whether it is "required". */
  datatype Rule = Rule(fn: RuleFn, param: JsValue, defaultValue: JsValue, isRequired: bool)

  /** One entry of `_definition`: type, default `value`, `column`, validation closures and `enum` values. */
  datatype Definition = Definition(typ: TypeSpec, value: JsValue, column: JsValue, validation: seq<Rule>, allowed: seq<JsValue>)

  /** The fields of a model: definition keys in order, `_definition`, `_attr` and `_primaryKey`. */
  datatype ModelState = ModelState(keys: seq<string>, definition: map<string, Definition>, attr: map<string, JsValue>, primaryKey: Option<string>)

  const EmptyState: ModelState := ModelState([], map[], map[], None)

  /** A fresh `[]` used as a default; its identity is never observed. */
  const EmptyArray: JsValue := Arr(0, [])

  /** Each definition key is listed once, and the list holds exactly the defined keys. */
  ghost predicate WellFormed(s: ModelState) {
    (forall i, j :: 0 <= i < j < |s.keys| ==> s.keys[i] != s.keys[j])
    && (forall k :: k in s.definition <==> k in s.keys)
  }

  /** `this._attr[key]`: `undefined` for a key never set. */
  function AttrOf(s: ModelState, key: string): JsValue {
    if key in s.attr then s.attr[key] else Undefined
  }

  /** Converting a step's result: the new state, or what it threw. */
  function Outcome(r: Result<()>, s: ModelState): Result<ModelState> {
    if r.Ok? then Ok(s) else Throw(r.thrown)
  }

  // ---- Validation rules ----

  /** The functions the validation module exports. */
  const ValidatorNames: set<string> := {
    "email", "equal", "greaterThan", "greaterThanOrEqual", "length", "lengthBetween",
    "lessThan", "lessThanOrEqual", "maxLength", "minLength", "regex", "required"
  }

  /** `typeof validationutils[name] === "function"`: an export, or a function every object inherits. */
  predicate IsValidationFunction(name: string) {
    name in ValidatorNames || (name in ObjectPrototypeNames && name != "__proto__")
  }

  /** The TypeError message for reading `rule` of null or undefined. */
  function ReadingRuleError(what: string): string {
    "Cannot read properties of " + what + " (reading 'rule')"
  }

  /** One element of a `validation` array read into a rule; `obj.rule` on null or undefined is a TypeError. */
  function ParseRule(obj: JsValue, defaultValue: JsValue): (r: Result<Rule>)
    ensures obj.Undefined? || obj.Null? ==> r.Throw?
    ensures r.Ok? ==> r.value.param == GetProperty(obj, "param") && r.value.defaultValue == defaultValue
    ensures r.Ok? && GetProperty(obj, "rule").Func? ==> r.value.fn == Custom(GetProperty(obj, "rule"))
    ensures r.Ok? && r.value.fn.Builtin? ==> IsValidationFunction(r.value.fn.name)
  {
    if obj.Undefined? || obj.Null? then
      Throw(TypeError(ReadingRuleError(ToText(obj))))
    else
      var rule := GetProperty(obj, "rule");
      var param := GetProperty(obj, "param");
      if TypeOf(rule) == "function" then Ok(Rule(Custom(rule), param, defaultValue, false))
      else if TypeOf(rule) == "string" then
        var name := SetString(rule, Null, Undefined);
        if name.s == "match" then Ok(Rule(MatchRule, param, defaultValue, false))
        else if !IsValidationFunction(name.s) then Throw(PlainError(rule.s + " is not a validation function"))
        else Ok(Rule(Builtin(name.s), param, defaultValue, name.s == "required"))
      else Throw(PlainError(ToText(rule) + " is not a function or string"))
  }

  /**
   * A rule reads exactly when the element is not null or undefined and its
   * `rule` is a function, "match" or the name of a validation function.
   */
  lemma ParseRuleIff(obj: JsValue, defaultValue: JsValue)
    ensures ParseRule(obj, defaultValue).Ok?
        <==> !obj.Undefined? && !obj.Null?
             && (GetProperty(obj, "rule").Func?
                 || (GetProperty(obj, "rule").Str?
                     && (GetProperty(obj, "rule").s == "match" || IsValidationFunction(GetProperty(obj, "rule").s))))
  {
    if !obj.Undefined? && !obj.Null? {
      var rule := GetProperty(obj, "rule");
      if rule.Str? {
        assert SetString(rule, Null, Undefined) == rule;
      }
    }
  }

  /** A rule that reads keeps the element's `param` and the field's default, and is "required" only for that name. */
  lemma ParseRuleFields(obj: JsValue, defaultValue: JsValue)
    requires ParseRule(obj, defaultValue).Ok?
    ensures ParseRule(obj, defaultValue).value.param == GetProperty(obj, "param")
    ensures ParseRule(obj, defaultValue).value.defaultValue == defaultValue
    ensures ParseRule(obj, defaultValue).value.isRequired <==> GetProperty(obj, "rule") == Str("required")
  {
    var rule := GetProperty(obj, "rule");
    if rule.Str? {
      assert SetString(rule, Null, Undefined) == rule;
    }
  }

  /** A null or undefined element fails reading its `rule`. */
  lemma ParseRuleMissingErrors(defaultValue: JsValue)
    ensures ParseRule(Undefined, defaultValue) == Throw(TypeError(ReadingRuleError("undefined")))
    ensures ParseRule(Null, defaultValue) == Throw(TypeError(ReadingRuleError("null")))
  {
  }

  /** The messages for a `rule` that names no validation function, and for one that is neither a string nor a function. */
  lemma ParseRuleNameErrors(obj: JsValue, defaultValue: JsValue)
    requires !obj.Undefined? && !obj.Null?
    ensures GetProperty(obj, "rule").Str? && GetProperty(obj, "rule").s != "match" && !IsValidationFunction(GetProperty(obj, "rule").s)
            ==> ParseRule(obj, defaultValue) == Throw(PlainError(GetProperty(obj, "rule").s + " is not a validation function"))
    ensures !GetProperty(obj, "rule").Str? && !GetProperty(obj, "rule").Func?
            ==> ParseRule(obj, defaultValue) == Throw(PlainError(ToText(GetProperty(obj, "rule")) + " is not a function or string"))
  {
  }

  /** The rules of a validation array, or the first element's error. */
  function ParseRules(elems: seq<JsValue>, defaultValue: JsValue): (r: Result<seq<Rule>>)
    ensures r.Ok? ==> |r.value| == |elems|
    ensures r.Ok? ==> forall i :: 0 <= i < |r.value| ==> r.value[i].defaultValue == defaultValue
  {
    if elems == [] then Ok([])
    else
      var first :- ParseRule(elems[0], defaultValue);
      var rest :- ParseRules(elems[1..], defaultValue);
      Ok([first] + rest)
  }

  /** Reading succeeds iff every element reads, and then gives each element's rule in place. */
  lemma {:induction false} ParseRulesPointwise(elems: seq<JsValue>, defaultValue: JsValue)
    ensures ParseRules(elems, defaultValue).Ok? <==> forall i :: 0 <= i < |elems| ==> ParseRule(elems[i], defaultValue).Ok?
    ensures ParseRules(elems, defaultValue).Ok? ==>
              |ParseRules(elems, defaultValue).value| == |elems|
              && forall i :: 0 <= i < |elems| ==> ParseRules(elems, defaultValue).value[i] == ParseRule(elems[i], defaultValue).value
  {
    if elems != [] {
      ParseRulesPointwise(elems[1..], defaultValue);
      assert forall i :: 1 <= i < |elems| ==> elems[1..][i - 1] == elems[i];
    }
  }

  /** A failure is the error of the first element that does not read. */
  lemma {:induction false} ParseRulesFirstError(elems: seq<JsValue>, defaultValue: JsValue)
    requires ParseRules(elems, defaultValue).Throw?
    ensures exists i :: 0 <= i < |elems| && ParseRule(elems[i], defaultValue) == Throw(ParseRules(elems, defaultValue).thrown)
                        && forall j :: 0 <= j < i ==> ParseRule(elems[j], defaultValue).Ok?
  {
    if ParseRule(elems[0], defaultValue).Ok? {
      ParseRulesFirstError(elems[1..], defaultValue);
      var i :| 0 <= i < |elems[1..]| && ParseRule(elems[1..][i], defaultValue) == Throw(ParseRules(elems[1..], defaultValue).thrown)
               && forall j :: 0 <= j < i ==> ParseRule(elems[1..][j], defaultValue).Ok?;
      assert forall j :: 1 <= j < i + 1 ==> elems[j] == elems[1..][j - 1];
      assert ParseRule(elems[i + 1], defaultValue) == Throw(ParseRules(elems, defaultValue).thrown);
    } else {
      assert ParseRule(elems[0], defaultValue) == Throw(ParseRules(elems, defaultValue).thrown);
    }
  }

  /** The rules read so far followed by those of the rest, or the rest's error. */
  function Prepend(done: seq<Rule>, rest: Result<seq<Rule>>): Result<seq<Rule>> {
    if rest.Ok? then Ok(done + rest.value) else rest
  }

  /** Reading a non-empty array: the first element's error, or its rule before those of the rest. */
  lemma ParseRulesCons(elems: seq<JsValue>, defaultValue: JsValue)
    requires elems != []
    ensures ParseRule(elems[0], defaultValue).Throw? ==> ParseRules(elems, defaultValue) == Throw(ParseRule(elems[0], defaultValue).thrown)
    ensures ParseRule(elems[0], defaultValue).Ok?
            ==> ParseRules(elems, defaultValue) == Prepend([ParseRule(elems[0], defaultValue).value], ParseRules(elems[1..], defaultValue))
  {
  }

  /** Rules read so far, one more, then the rest: the same as the longer prefix then the rest. */
  lemma PrependJoin(done: seq<Rule>, rule: Rule, rest: Result<seq<Rule>>)
    ensures Prepend(done, Prepend([rule], rest)) == Prepend(done + [rule], rest)
  {
    if rest.Ok? {
      assert done + ([rule] + rest.value) == (done + [rule]) + rest.value;
    }
  }

  /** One step of `_setValidationRule`'s loop: the element's error ends the reading, its rule joins those read so far. */
  lemma ParseRulesStep(elems: seq<JsValue>, defaultValue: JsValue, i: nat, done: seq<Rule>, all: Result<seq<Rule>>)
    requires i < |elems| && all == Prepend(done, ParseRules(elems[i..], defaultValue))
    ensures ParseRule(elems[i], defaultValue).Throw? ==> all == Throw(ParseRule(elems[i], defaultValue).thrown)
    ensures ParseRule(elems[i], defaultValue).Ok?
            ==> all == Prepend(done + [ParseRule(elems[i], defaultValue).value], ParseRules(elems[i + 1..], defaultValue))
  {
    assert elems[i..][0] == elems[i];
    assert elems[i..][1..] == elems[i + 1..];
    ParseRulesCons(elems[i..], defaultValue);
    var first := ParseRule(elems[i], defaultValue);
    if first.Ok? {
      PrependJoin(done, first.value, ParseRules(elems[i + 1..], defaultValue));
    }
  }

  /** Reading everything from the start, and nothing left to read. */
  lemma ParseRulesEnds(elems: seq<JsValue>, defaultValue: JsValue, done: seq<Rule>)
    ensures Prepend([], ParseRules(elems[0..], defaultValue)) == ParseRules(elems, defaultValue)
    ensures Prepend(done, ParseRules(elems[|elems|..], defaultValue)) == Ok(done)
  {
    assert elems[0..] == elems;
    assert elems[|elems|..] == [];
    assert done + [] == done;
    var all := ParseRules(elems, defaultValue);
    assert all.Ok? ==> [] + all.value == all.value;
  }

  /** `_setValidationRule(arrValidation, defaultValue)`: a non-array gives no rules. */
  method SetValidationRule(arrValidation: JsValue, defaultValue: JsValue) returns (r: Result<seq<Rule>>)
    ensures r == ParseRules(SetArray(arrValidation, EmptyArray).elems, defaultValue)
  {
    var validation := SetArray(arrValidation, EmptyArray).elems;
    ghost var all := ParseRules(validation, defaultValue);
    var arrRules: seq<Rule> := [];
    var i := 0;
    ParseRulesEnds(validation, defaultValue, []);
    while i < |validation|
      invariant 0 <= i <= |validation|
      invariant all == Prepend(arrRules, ParseRules(validation[i..], defaultValue))
    {
      ParseRulesStep(validation, defaultValue, i, arrRules, all);
      var rule := ParseRule(validation[i], defaultValue);
      if rule.Throw? {
        return Throw(rule.thrown);
      }
      arrRules := arrRules + [rule.value];
      i := i + 1;
    }
    ParseRulesEnds(validation, defaultValue, arrRules);
    return Ok(arrRules);
  }

  /** The `_match(value, key)` rule: the value must be strictly equal to the value held under `key`. */
  function MatchOutcome(s: ModelState, args: seq<JsValue>): (r: Result<JsValue>)
    ensures r.Ok? <==> StrictEquals(Arg(args, 0), AttrOf(s, ToText(Arg(args, 1))))
    ensures r.Throw? ==> r.thrown == Error("Error", "VALUE_DOES_NOT_MATCH", Arg(args, 0), Some([AttrOf(s, ToText(Arg(args, 1)))]))
  {
    var matchValue := AttrOf(s, ToText(Arg(args, 1)));
    if StrictEquals(Arg(args, 0), matchValue) then Ok(Bool(true))
    else Throw(Error("Error", "VALUE_DOES_NOT_MATCH", Arg(args, 0), Some([matchValue])))
  }

  /** The i-th argument of a call; missing arguments are `undefined`. */
  function Arg(args: seq<JsValue>, i: nat): JsValue {
    if i < |args| then args[i] else Undefined
  }

  /** Converts a validator's verdict into what the call returns. */
  function Verdict(r: Result<bool>): Result<JsValue> {
    if r.Ok? then Ok(Bool(r.value)) else Throw(r.thrown)
  }

  /** Calling a function of the validation module with the given arguments. */
  function CallValidator(env: Env, name: string, args: seq<JsValue>): (r: Result<JsValue>)
    ensures name in {"required", "length", "minLength", "maxLength", "lengthBetween"} && r.Ok? ==> r.value == Bool(true)
    ensures name !in {"required", "length", "minLength", "maxLength", "lengthBetween"} ==> r == env.validator(name, args)
  {
    if name == "required" then Verdict(Required(Arg(args, 0)))
    else if name == "length" then Verdict(Length(Arg(args, 0), Arg(args, 1)))
    else if name == "minLength" then Verdict(MinLength(Arg(args, 0), Arg(args, 1)))
    else if name == "maxLength" then Verdict(MaxLength(Arg(args, 0), Arg(args, 1)))
    else if name == "lengthBetween" then Verdict(LengthBetween(Arg(args, 0), Arg(args, 1), Arg(args, 2)))
    else env.validator(name, args)
  }

  /** The arguments a closure passes: the value, then the param (an array is spread; `undefined` adds nothing). */
  function RuleArgs(value: JsValue, param: JsValue): (args: seq<JsValue>)
    ensures |args| >= 1 && args[0] == value
    ensures param.Undefined? ==> args == [value]
    ensures param.Arr? ==> args == [value] + param.elems
    ensures !param.Undefined? && !param.Arr? ==> args == [value, param]
  {
    if TypeOf(param) == "undefined" then [value]
    else if InstanceOf(param, ArrayRef) then [value] + param.elems
    else [value, param]
  }

  /**
   * Running a closure on a value: a rule that is not "required" passes
   * without running when the value is strictly equal to the field's default.
   */
  function RuleOutcome(env: Env, s: ModelState, rule: Rule, value: JsValue): (r: Result<JsValue>)
    ensures StrictEquals(value, rule.defaultValue) && !rule.isRequired ==> r == Ok(Bool(true))
  {
    if StrictEquals(value, rule.defaultValue) && !rule.isRequired then Ok(Bool(true))
    else
      var args := RuleArgs(value, rule.param);
      match rule.fn
      case Custom(f) => env.call(f, args)
      case MatchRule => MatchOutcome(s, args)
      case Builtin(name) => CallValidator(env, name, args)
  }

  /**
   * What `validate` records for one rule of `key`: a thrown error, or
   * CUSTOM_VALIDATION_FAILED for a `false` result; a rule that throws `null`
   * or `undefined` makes the catch block itself throw.
   */
  function FailureOf(env: Env, s: ModelState, key: string, rule: Rule): (r: Result<Option<ErrorDetail>>)
    ensures r.Ok? && r.value.Some? ==> r.value.value.value == AttrOf(s, key)
  {
    var value := AttrOf(s, key);
    match RuleOutcome(env, s, rule, value)
    case Ok(v) => Ok(if StrictEquals(v, Bool(false)) then Some(ErrorDetail(Str("CUSTOM_VALIDATION_FAILED"), value, None)) else None)
    case Throw(t) =>
      var message :- CaughtMessage(t);
      Ok(Some(ErrorDetail(message, value, ThrownParams(t))))
  }

  /**
   * A rule passes exactly when it returns something other than `false`; the
   * detail holds the value checked and what was thrown, or
   * CUSTOM_VALIDATION_FAILED; only a thrown `null` or `undefined` escapes.
   */
  lemma FailureOfIff(env: Env, s: ModelState, key: string, rule: Rule)
    ensures FailureOf(env, s, key, rule) == Ok(None)
        <==> RuleOutcome(env, s, rule, AttrOf(s, key)).Ok? && RuleOutcome(env, s, rule, AttrOf(s, key)).value != Bool(false)
    ensures RuleOutcome(env, s, rule, AttrOf(s, key)) == Ok(Bool(false))
            ==> FailureOf(env, s, key, rule) == Ok(Some(ErrorDetail(Str("CUSTOM_VALIDATION_FAILED"), AttrOf(s, key), None)))
    ensures FailureOf(env, s, key, rule).Throw?
        <==> RuleOutcome(env, s, rule, AttrOf(s, key)).Throw? && RuleOutcome(env, s, rule, AttrOf(s, key)).thrown in {Raw(Null), Raw(Undefined)}
    ensures RuleOutcome(env, s, rule, AttrOf(s, key)).Throw? && RuleOutcome(env, s, rule, AttrOf(s, key)).thrown !in {Raw(Null), Raw(Undefined)} ==>
              FailureOf(env, s, key, rule) == Ok(Some(ErrorDetail(ThrownMessage(RuleOutcome(env, s, rule, AttrOf(s, key)).thrown), AttrOf(s, key),
                                 ThrownParams(RuleOutcome(env, s, rule, AttrOf(s, key)).thrown))))
  {
  }

  /** The details `check` reports among `rules`, in rule order; the first rule whose check throws ends the run. */
  function Failed(rules: seq<Rule>, check: Rule -> Result<Option<ErrorDetail>>): Result<seq<ErrorDetail>> {
    if rules == [] then Ok([])
    else
      var before :- Failed(rules[..|rules| - 1], check);
      var f :- check(rules[|rules| - 1]);
      Ok(before + (if f.Some? then [f.value] else []))
  }

  /** Checking one rule of `key` against the model's current values. */
  function RuleCheck(env: Env, s: ModelState, key: string): Rule -> Result<Option<ErrorDetail>> {
    rule => FailureOf(env, s, key, rule)
  }

  /** The details of the failing rules among `rules`, in order. */
  function RuleFailures(env: Env, s: ModelState, key: string, rules: seq<Rule>): Result<seq<ErrorDetail>> {
    Failed(rules, RuleCheck(env, s, key))
  }

  /** The rules defined for `key`. */
  function RulesOf(s: ModelState, key: string): seq<Rule> {
    if key in s.definition then s.definition[key].validation else []
  }

  /** Pairs each detail with the key. */
  function Tagged(key: string, ds: seq<ErrorDetail>): (fs: seq<(string, ErrorDetail)>)
    ensures |fs| == |ds| && forall i :: 0 <= i < |ds| ==> fs[i] == (key, ds[i])
  {
    seq(|ds|, i requires 0 <= i < |ds| => (key, ds[i]))
  }

  /** The details of each key in `ks`, key by key, each tagged with its key; the first key that throws ends the run. */
  function Collected(ks: seq<string>, perKey: string -> Result<seq<ErrorDetail>>): Result<seq<(string, ErrorDetail)>> {
    if ks == [] then Ok([])
    else
      var before :- Collected(ks[..|ks| - 1], perKey);
      var ds :- perKey(ks[|ks| - 1]);
      Ok(before + Tagged(ks[|ks| - 1], ds))
  }

  /** The failing rules of each key. */
  function KeyDetails(env: Env, s: ModelState): string -> Result<seq<ErrorDetail>> {
    key => RuleFailures(env, s, key, RulesOf(s, key))
  }

  /** The failures of one key, each tagged with the key. */
  function KeyFailures(env: Env, s: ModelState, key: string): Result<seq<(string, ErrorDetail)>> {
    var ds :- RuleFailures(env, s, key, RulesOf(s, key));
    Ok(Tagged(key, ds))
  }

  /** Every failure `validate` records, key by key in definition order, or the error that escapes it. */
  function Failures(env: Env, s: ModelState, ks: seq<string>): Result<seq<(string, ErrorDetail)>> {
    Collected(ks, KeyDetails(env, s))
  }

  // ---- Coercion and the definition ----

  /** The type names `set` understands. */
  const TypeNames: set<string> := {"array", "boolean", "date", "enum", "float", "integer", "object", "string", "mixed"}

  /** The value `set` stores for a field, or the error it throws. */
  function Coerce(env: Env, d: Definition, value: JsValue): (r: Result<JsValue>)
    ensures !d.typ.Coercer? ==> (r.Throw? <==> !(d.typ.Named? && d.typ.name in TypeNames))
    ensures !d.typ.Coercer? && r.Throw? ==> r.thrown == DatatypeError(if d.typ.Named? then Str(d.typ.name) else Null)
  {
    var defaults := d.value;
    match d.typ
    case Coercer(f) => env.call(f, [value, defaults])
    case NoType => Throw(DatatypeError(Null))
    case Named(name) =>
      if name == "array" then Ok(SetArray(value, defaults))
      else if name == "boolean" then Ok(SetBool(value, defaults))
      else if name == "date" then Ok(env.setDate(value, defaults))
      else if name == "enum" then Ok(SetEnum(value, Arr(0, d.allowed), defaults))
      else if name == "float" then Ok(env.setFloat(value, defaults))
      else if name == "integer" then Ok(SetInt(value, defaults))
      else if name == "object" then Ok(SetObject(value, defaults))
      else if name == "string" then Ok(SetString(value, defaults, Undefined))
      else if name == "mixed" then Ok(if value.Undefined? then defaults else value)
      else Throw(DatatypeError(Str(name)))
  }

  /**
   * `set(key, value)`: a key with no definition changes nothing; otherwise the
   * coerced value is stored, or nothing changes and the error is thrown. The
   * definitions are a plain object, so a name every object inherits finds the
   * inherited member, which has no type: DATATYPE_NOT_VALID with type `undefined`.
   */
  function SetSpec(env: Env, s: ModelState, key: string, value: JsValue): (r: Result<ModelState>)
    ensures key !in s.definition && key !in ObjectPrototypeNames ==> r == Ok(s)
    ensures key !in s.definition && key in ObjectPrototypeNames ==> r == Throw(DatatypeError(Undefined))
    ensures key in s.definition ==>
              (Coerce(env, s.definition[key], value).Ok? ==> r == Ok(s.(attr := s.attr[key := Coerce(env, s.definition[key], value).value])))
              && (Coerce(env, s.definition[key], value).Throw? ==> r == Throw(Coerce(env, s.definition[key], value).thrown))
  {
    if key in s.definition then
      var v :- Coerce(env, s.definition[key], value);
      Ok(s.(attr := s.attr[key := v]))
    else if key in ObjectPrototypeNames then Throw(DatatypeError(Undefined))
    else Ok(s)
  }

  /** Setting the pairs one after the other, stopping at the first error. */
  function SetAll(env: Env, s: ModelState, pairs: seq<(string, JsValue)>): (r: Result<ModelState>)
    ensures r.Ok? ==> r.value.keys == s.keys && r.value.definition == s.definition && r.value.primaryKey == s.primaryKey
    ensures r.Ok? ==> forall k :: (forall i :: 0 <= i < |pairs| ==> pairs[i].0 != k) ==> AttrOf(r.value, k) == AttrOf(s, k)
    decreases |pairs|
  {
    if pairs == [] then Ok(s)
    else
      var s1 :- SetSpec(env, s, pairs[0].0, pairs[0].1);
      SetAll(env, s1, pairs[1..])
  }

  /** `_setPrimaryKey(key)`: only the first primary key is accepted. */
  function SetPrimaryKeySpec(s: ModelState, key: string): (r: Result<ModelState>)
    ensures r.Throw? <==> s.primaryKey.Some?
    ensures r.Throw? ==> r.thrown == PlainError("CANNOT_SET_MULTIPLE_PRIMARY_KEYS")
    ensures r.Ok? ==> r.value == s.(primaryKey := Some(key))
  {
    if s.primaryKey == None then Ok(s.(primaryKey := Some(key)))
    else Throw(PlainError("CANNOT_SET_MULTIPLE_PRIMARY_KEYS"))
  }

  /** The `type` a field definition declares. */
  function TypeOfDefinition(objDef: JsValue): TypeSpec {
    if HasOwn(objDef, "type") && TypeOf(GetProperty(objDef, "type")) == "string" then Named(GetProperty(objDef, "type").s)
    else if HasOwn(objDef, "type") && TypeOf(GetProperty(objDef, "type")) == "function" then Coercer(GetProperty(objDef, "type"))
    else NoType
  }

  /** The elements of a definition's `validation` array (none when it is not an array). */
  function RuleElems(objDef: JsValue): (r: seq<JsValue>)
    ensures !objDef.Obj? ==> r == []
  {
    SetArray(GetProperty(objDef, "validation"), EmptyArray).elems
  }

  /** A definition's `enum` values: its own `enum` when that is an array, otherwise none. */
  function AllowedOf(objDef: JsValue): (r: seq<JsValue>)
    ensures HasOwn(objDef, "enum") && GetProperty(objDef, "enum").Arr? ==> r == GetProperty(objDef, "enum").elems
    ensures !(HasOwn(objDef, "enum") && GetProperty(objDef, "enum").Arr?) ==> r == []
  {
    if HasOwn(objDef, "enum") then SetArray(GetProperty(objDef, "enum"), EmptyArray).elems else []
  }

  /** Whether a definition declares its key primary: its own `primaryKey`, read by `setBool` with `false` as default. */
  function DeclaredPrimary(objDef: JsValue): (b: bool)
    ensures b <==> HasOwn(objDef, "primaryKey") && SetBool(GetProperty(objDef, "primaryKey"), Bool(false)) == Bool(true)
  {
    var primaryKey := if HasOwn(objDef, "primaryKey") then SetBool(GetProperty(objDef, "primaryKey"), Bool(false)) else Bool(false);
    assert primaryKey.Bool?;
    IsTruthy(primaryKey)
  }

  /** A definition's declared default: its own `value`, or null. */
  function DeclaredDefault(objDef: JsValue): JsValue {
    if HasOwn(objDef, "value") then GetProperty(objDef, "value") else Null
  }

  /**
   * One field definition read into a definition entry and whether it is the
   * primary key. A falsy definition gives every default: no type, a null
   * default, the key as column, no rules. Only own properties count.
   */
  function ParseDefinition(key: string, objDef: JsValue): (r: Result<(Definition, bool)>)
    ensures !IsTruthy(objDef) ==> r == Ok((Definition(NoType, Null, Str(key), [], []), false))
    ensures r.Ok? ==> r.value.0.typ == TypeOfDefinition(objDef)
    ensures r.Ok? ==> r.value.0.column == (if HasOwn(objDef, "column") then GetProperty(objDef, "column") else Str(key))
    ensures r.Ok? ==> r.value.0.value == (if HasOwn(objDef, "value") then GetProperty(objDef, "value") else Null)
    ensures IsTruthy(objDef) ==> (r.Throw? <==> ParseRules(RuleElems(objDef), DeclaredDefault(objDef)).Throw?)
    ensures IsTruthy(objDef) && r.Throw? ==> r.thrown == ParseRules(RuleElems(objDef), DeclaredDefault(objDef)).thrown
    ensures IsTruthy(objDef) && r.Ok? ==> r.value.0.validation == ParseRules(RuleElems(objDef), DeclaredDefault(objDef)).value
    ensures r.Ok? && HasOwn(objDef, "enum") && GetProperty(objDef, "enum").Arr? ==> r.value.0.allowed == GetProperty(objDef, "enum").elems
    ensures r.Ok? && !(HasOwn(objDef, "enum") && GetProperty(objDef, "enum").Arr?) ==> r.value.0.allowed == []
    ensures r.Ok? ==> (r.value.1 <==> HasOwn(objDef, "primaryKey") && SetBool(GetProperty(objDef, "primaryKey"), Bool(false)) == Bool(true))
  {
    if !IsTruthy(objDef) then Ok((Definition(NoType, Null, Str(key), [], []), false))
    else
      var column := if HasOwn(objDef, "column") then GetProperty(objDef, "column") else Str(key);
      var validation :- ParseRules(RuleElems(objDef), DeclaredDefault(objDef));
      Ok((Definition(TypeOfDefinition(objDef), DeclaredDefault(objDef), column, validation, AllowedOf(objDef)), DeclaredPrimary(objDef)))
  }

  /** The body of `_setDefinition`'s loop for one key: store the definition, claim the primary key, set the default. */
  function DefineOne(env: Env, s: ModelState, key: string, objDef: JsValue): (r: Result<ModelState>)
    ensures ParseDefinition(key, objDef).Throw? ==> r == Throw(ParseDefinition(key, objDef).thrown)
    ensures r.Ok? ==> r.value.definition == s.definition[key := ParseDefinition(key, objDef).value.0]
    ensures r.Ok? ==> r.value.keys == if key in s.definition then s.keys else s.keys + [key]
    ensures r.Ok? && ParseDefinition(key, objDef).value.1 ==> s.primaryKey.None? && r.value.primaryKey == Some(key)
    ensures r.Ok? && !ParseDefinition(key, objDef).value.1 ==> r.value.primaryKey == s.primaryKey
  {
    var pd :- ParseDefinition(key, objDef);
    DefineParsed(env, s, key, pd.0, pd.1)
  }

  /** Storing a definition already read, then the primary key, then the default. */
  function DefineParsed(env: Env, s: ModelState, key: string, d: Definition, primary: bool): Result<ModelState> {
    var s1 := s.(keys := if key in s.definition then s.keys else s.keys + [key], definition := s.definition[key := d]);
    var s2 :- if primary then SetPrimaryKeySpec(s1, key) else Ok(s1);
    SetSpec(env, s2, key, Undefined)
  }

  /** `_setDefinition` over the definitions in iteration order, stopping at the first error. */
  function DefineAll(env: Env, s: ModelState, entries: seq<(string, JsValue)>): (r: Result<ModelState>)
    ensures r.Ok? ==> s.definition.Keys <= r.value.definition.Keys
    ensures r.Ok? ==> forall i :: 0 <= i < |entries| ==> entries[i].0 in r.value.definition
    decreases |entries|
  {
    if entries == [] then Ok(s)
    else
      var s1 :- DefineOne(env, s, entries[0].0, entries[0].1);
      DefineAll(env, s1, entries[1..])
  }

  /** `_construct(data)`: the definition first (only an object counts), then each own property of the data. */
  function ConstructFrom(env: Env, s: ModelState, definitionSpec: JsValue, data: JsValue): (r: Result<ModelState>)
    ensures r.Ok? ==> s.definition.Keys <= r.value.definition.Keys
    ensures r.Ok? ==> forall e :: e in ForInEntries(SetObject(definitionSpec, Null)) ==> e.0 in r.value.definition
  {
    var defs := SetObject(definitionSpec, Null);
    var input := SetObject(data, Null);
    var s1 :- DefineAll(env, s, ForInEntries(defs));
    SetAll(env, s1, ForInEntries(input))
  }

  /** A definition that is not an object defines nothing: `_construct` only sets the data's own properties. */
  lemma ConstructWithoutDefinition(env: Env, s: ModelState, definitionSpec: JsValue, data: JsValue)
    requires !definitionSpec.Obj?
    ensures ConstructFrom(env, s, definitionSpec, data) == SetAll(env, s, ForInEntries(SetObject(data, Null)))
  {
    assert ForInEntries(SetObject(definitionSpec, Null)) == [];
  }

  /** `value.column || key`: the column a key reads from and (as intended) writes to. */
  function Column(s: ModelState, key: string): JsValue {
    if key in s.definition && IsTruthy(s.definition[key].column) then s.definition[key].column else Str(key)
  }

  /** `getColumnKeys()`: each key with its column, in key order. */
  function ColumnKeys(s: ModelState): (r: seq<(string, JsValue)>)
    ensures |r| == |s.keys| && forall i :: 0 <= i < |r| ==> r[i] == (s.keys[i], Column(s, s.keys[i]))
  {
    seq(|s.keys|, i requires 0 <= i < |s.keys| => (s.keys[i], Column(s, s.keys[i])))
  }

  /** The column a definition names as it is written, without the key as fallback. */
  function RawColumn(s: ModelState, key: string): JsValue {
    if key in s.definition then s.definition[key].column else Undefined
  }

  /** The assignments `toData()` makes as written: `obj[column] = get(key)` for each key. */
  function DataPairs(s: ModelState): (ps: seq<(string, JsValue)>)
    ensures |ps| == |s.keys| && forall i :: 0 <= i < |ps| ==> ps[i] == (ToText(RawColumn(s, s.keys[i])), AttrOf(s, s.keys[i]))
  {
    seq(|s.keys|, i requires 0 <= i < |s.keys| => (ToText(RawColumn(s, s.keys[i])), AttrOf(s, s.keys[i])))
  }

  /** The own entries of the object `toData()` builds as written. */
  function DataEntries(s: ModelState): seq<(string, JsValue)> {
    AssignAll([], DataPairs(s))
  }

  /** The assignments `toData()` would make writing each key under the column `toModel` reads: `column || key`. */
  function CorrectedDataPairs(s: ModelState): (ps: seq<(string, JsValue)>)
    ensures |ps| == |s.keys| && forall i :: 0 <= i < |ps| ==> ps[i] == (ToText(Column(s, s.keys[i])), AttrOf(s, s.keys[i]))
  {
    seq(|s.keys|, i requires 0 <= i < |s.keys| => (ToText(Column(s, s.keys[i])), AttrOf(s, s.keys[i])))
  }

  /** The own entries of the object the corrected `toData()` builds. */
  function CorrectedDataEntries(s: ModelState): seq<(string, JsValue)> {
    AssignAll([], CorrectedDataPairs(s))
  }

  /** The assignments `toObject()` makes: each key with its value. */
  function ObjectPairs(s: ModelState): (ps: seq<(string, JsValue)>)
    ensures |ps| == |s.keys| && forall i :: 0 <= i < |ps| ==> ps[i] == (s.keys[i], AttrOf(s, s.keys[i]))
  {
    seq(|s.keys|, i requires 0 <= i < |s.keys| => (s.keys[i], AttrOf(s, s.keys[i])))
  }

  /** The own entries of `toObject()`. */
  function ObjectEntries(s: ModelState): seq<(string, JsValue)> {
    AssignAll([], ObjectPairs(s))
  }

  /** The default value a key's definition declares. */
  function DefaultOf(s: ModelState, key: string): JsValue {
    if key in s.definition then s.definition[key].value else Undefined
  }

  /** The pairs `toModel` sets: each key with what the data holds under its column. */
  function ReadColumns(columns: seq<(string, JsValue)>, data: JsValue): (r: seq<(string, JsValue)>)
    ensures |r| == |columns| && forall i :: 0 <= i < |r| ==> r[i] == (columns[i].0, GetProperty(data, ToText(columns[i].1)))
  {
    seq(|columns|, i requires 0 <= i < |columns| => (columns[i].0, GetProperty(data, ToText(columns[i].1))))
  }

  /** The data `toModel` reads when it is given no object: `{array: []}`. */
  function DefaultModelData(ref: nat): JsValue {
    Obj(ref, {}, [("array", Arr(ref, []))])
  }

  /** `Model.toModel(objData)`: a new model with its defaults, each key then set from the data's column. */
  function ToModelSpec(env: Env, definitionSpec: JsValue, objData: JsValue, ref: nat): (r: Result<ModelState>)
    ensures r.Ok? ==> forall e :: e in ForInEntries(SetObject(definitionSpec, Null)) ==> e.0 in r.value.definition
    ensures r.Ok? ==> ConstructFrom(env, EmptyState, definitionSpec, Undefined).Ok?
                      && r.value.definition == ConstructFrom(env, EmptyState, definitionSpec, Undefined).value.definition
  {
    var data := SetObject(objData, DefaultModelData(ref));
    var s :- ConstructFrom(env, EmptyState, definitionSpec, Undefined);
    SetAll(env, s, ReadColumns(ColumnKeys(s), data))
  }

  // ---- The model object ----

  class Model {
    var keys: seq<string>
    var definition: map<string, Definition>
    var attr: map<string, JsValue>
    var primaryKey: Option<string>

    function State(): ModelState
      reads this
    {
      ModelState(keys, definition, attr, primaryKey)
    }

    ghost predicate Valid()
      reads this
    {
      WellFormed(State())
    }

    /** The empty model `new Model()` starts from, before `_construct` runs. */
    constructor()
      ensures State() == EmptyState && Valid()
    {
      keys := [];
      definition := map[];
      attr := map[];
      primaryKey := None;
    }

    /** `get(key)`: the value last stored for `key`, or undefined for a key never set. */
    function Get(key: string): (v: JsValue)
      reads this
      ensures key in attr ==> v == attr[key]
      ensures key !in attr ==> v == Undefined
    {
      AttrOf(State(), key)
    }

    /** `_setPrimaryKey(key)`. */
    method SetPrimaryKey(key: string) returns (r: Result<()>)
      modifies this
      ensures Outcome(r, State()) == SetPrimaryKeySpec(old(State()), key)
      ensures keys == old(keys) && definition == old(definition) && attr == old(attr)
    {
      if primaryKey == None {
        primaryKey := Some(key);
        return Ok(());
      }
      return Throw(PlainError("CANNOT_SET_MULTIPLE_PRIMARY_KEYS"));
    }

    /** `set(key, value)` without a custom setter. On a throw nothing changes. */
    method Set(env: Env, key: string, value: JsValue) returns (r: Result<()>)
      modifies this
      ensures Outcome(r, State()) == SetSpec(env, old(State()), key, value)
      ensures r.Throw? ==> State() == old(State())
      ensures keys == old(keys) && definition == old(definition) && primaryKey == old(primaryKey)
    {
      if key in definition {
        var v := Coerce(env, definition[key], value);
        if v.Throw? {
          return Throw(v.thrown);
        }
        attr := attr[key := v.value];
      } else if key in ObjectPrototypeNames {
        return Throw(DatatypeError(Undefined));
      }
      return Ok(());
    }

    /** One pass of `_setDefinition`'s loop. */
    method DefineKey(env: Env, key: string, objDef: JsValue) returns (r: Result<()>)
      requires Valid()
      modifies this
      ensures Valid()
      ensures Outcome(r, State()) == DefineOne(env, old(State()), key, objDef)
    {
      var pd := DefinitionOf(key, objDef);
      if pd.Throw? {
        return Throw(pd.thrown);
      }
      r := StoreDefinition(env, key, pd.value.0, pd.value.1);
    }

    /** The rest of `_setDefinition`'s loop body once the definition is read: store it, claim the primary key, set the default. */
    method StoreDefinition(env: Env, key: string, d: Definition, primary: bool) returns (r: Result<()>)
      requires Valid()
      modifies this
      ensures Valid()
      ensures Outcome(r, State()) == DefineParsed(env, old(State()), key, d, primary)
    {
      if key !in definition {
        keys := keys + [key];
      }
      definition := definition[key := d];
      if primary {
        var p := SetPrimaryKey(key);
        if p.Throw? {
          return p;
        }
      }
      r := Set(env, key, Undefined);
    }

    /** `_setDefinition(objDefinitions)`: every definition in iteration order, stopping at the first error. */
    method SetDefinition(env: Env, objDefinitions: JsValue) returns (r: Result<()>)
      requires Valid()
      modifies this
      ensures Valid()
      ensures Outcome(r, State()) == DefineAll(env, old(State()), ForInEntries(objDefinitions))
    {
      if TypeOf(objDefinitions) == "object" && objDefinitions != Null {
        var entries := ForInEntries(objDefinitions);
        var i := 0;
        while i < |entries|
          invariant 0 <= i <= |entries| && Valid()
          invariant DefineAll(env, old(State()), entries) == DefineAll(env, State(), entries[i..])
        {
          assert entries[i..][1..] == entries[i + 1..];
          var d := DefineKey(env, entries[i].0, entries[i].1);
          if d.Throw? {
            return d;
          }
          i := i + 1;
        }
      }
      return Ok(());
    }

    /** Sets each pair in order, stopping at the first error. */
    method SetEntries(env: Env, pairs: seq<(string, JsValue)>) returns (r: Result<()>)
      requires Valid()
      modifies this
      ensures Valid()
      ensures Outcome(r, State()) == SetAll(env, old(State()), pairs)
    {
      var i := 0;
      while i < |pairs|
        invariant 0 <= i <= |pairs| && Valid()
        invariant SetAll(env, old(State()), pairs) == SetAll(env, State(), pairs[i..])
      {
        assert pairs[i..][1..] == pairs[i + 1..];
        var s := Set(env, pairs[i].0, pairs[i].1);
        if s.Throw? {
          return s;
        }
        i := i + 1;
      }
      return Ok(());
    }

    /** `_construct(data)`: read the definition, then apply the data key by key. */
    method Construct(env: Env, definitionSpec: JsValue, data: JsValue) returns (r: Result<()>)
      requires Valid()
      modifies this
      ensures Valid()
      ensures Outcome(r, State()) == ConstructFrom(env, old(State()), definitionSpec, data)
    {
      var input := SetObject(data, Null);
      var d := SetDefinition(env, SetObject(definitionSpec, Null));
      if d.Throw? {
        return d;
      }
      if input != Null {
        r := SetEntries(env, ForInEntries(input));
      } else {
        r := Ok(());
      }
    }

    /** `getColumnKeys()`. */
    method GetColumnKeys() returns (r: seq<(string, JsValue)>)
      ensures r == ColumnKeys(State())
    {
      r := [];
      var i := 0;
      while i < |keys|
        invariant 0 <= i <= |keys|
        invariant r == ColumnKeys(State())[..i]
      {
        var column := if keys[i] in definition && IsTruthy(definition[keys[i]].column) then definition[keys[i]].column else Str(keys[i]);
        r := r + [(keys[i], column)];
        i := i + 1;
      }
    }

    /**
     * `toData()`: the own entries of the object built. Each value is written
     * under `column || key`, the name `toModel` reads it from (the source
     * writes under the raw column; see DataEntries).
     */
    method ToData() returns (r: seq<(string, JsValue)>)
      requires Valid()
      ensures r == CorrectedDataEntries(State())
    {
      var pairs := CorrectedDataPairs(State());
      r := [];
      var i := 0;
      while i < |keys|
        invariant 0 <= i <= |keys|
        invariant AssignAll([], pairs) == AssignAll(r, pairs[i..])
      {
        assert pairs[i..][1..] == pairs[i + 1..];
        var column := definition[keys[i]].column;
        if !IsTruthy(column) {
          column := Str(keys[i]);
        }
        r := Assign(r, ToText(column), Get(keys[i]));
        i := i + 1;
      }
    }

    /** `toObject()`: the own entries of the object built. */
    method ToObject() returns (r: seq<(string, JsValue)>)
      ensures r == ObjectEntries(State())
    {
      var pairs := ObjectPairs(State());
      r := [];
      var i := 0;
      while i < |keys|
        invariant 0 <= i <= |keys|
        invariant AssignAll([], pairs) == AssignAll(r, pairs[i..])
      {
        assert pairs[i..][1..] == pairs[i + 1..];
        r := Assign(r, keys[i], Get(keys[i]));
        i := i + 1;
      }
    }

    /** `isSet()`: some entry of `toObject()` is not strictly equal to its field's default. */
    method IsSet() returns (r: bool)
      ensures r <==> exists i :: 0 <= i < |ObjectEntries(State())| && !StrictEquals(ObjectEntries(State())[i].1, DefaultOf(State(), ObjectEntries(State())[i].0))
    {
      var obj := ToObject();
      var i := 0;
      while i < |obj|
        invariant 0 <= i <= |obj|
        invariant forall j :: 0 <= j < i ==> StrictEquals(obj[j].1, DefaultOf(State(), obj[j].0))
      {
        var def := DefaultOf(State(), obj[i].0);
        if !StrictEquals(obj[i].1, def) {
          return true;
        }
        i := i + 1;
      }
      return false;
    }

    /**
     * `validate()`: `r` is `Ok(true)` when every rule passes and `Ok(false)`
     * when the call throws `err`, a fresh ModelError holding one detail per
     * failing rule; a TypeError raised while reading what a rule threw
     * escapes as `r`'s thrown value.
     */
    method Validate(env: Env) returns (r: Result<bool>, err: ModelError)
      ensures fresh(err) && err.Valid()
      ensures Failures(env, State(), keys).Throw? ==> r == Throw(Failures(env, State(), keys).thrown)
      ensures Failures(env, State(), keys).Ok? ==> r.Ok? && err.errors == Grouped(Failures(env, State(), keys).value)
      ensures r.Ok? ==> (r.value <==> !err.HasErrors())
    {
      var s := State();
      err := new ModelError();
      var i := 0;
      ghost var acc := [];
      while i < |keys|
        invariant 0 <= i <= |keys|
        invariant err.errors == Grouped(acc)
        invariant Failures(env, s, keys[..i]) == Ok(acc)
      {
        var thrown := ValidateKey(env, s, keys[i], err, acc);
        FailuresStep(env, s, keys, i);
        if thrown.Some? {
          CollectedThrowPersists(keys, KeyDetails(env, s), i + 1);
          return Throw(thrown.value), err;
        }
        acc := acc + KeyFailures(env, s, keys[i]).value;
        i := i + 1;
      }
      assert keys[..i] == keys;
      GroupedConsistent(acc);
      r := Ok(!err.HasErrors());
    }
  }

  /**
   * The inner loop of `validate`: runs the rules of one key, recording each
   * failure in `err`, and stops with the error that escapes a rule.
   */
  method ValidateKey(env: Env, s: ModelState, key: string, err: ModelError, ghost done: seq<(string, ErrorDetail)>)
      returns (thrown: Option<Thrown>)
    requires err.errors == Grouped(done)
    modifies err
    ensures thrown.None? <==> KeyFailures(env, s, key).Ok?
    ensures thrown.Some? ==> thrown.value == KeyFailures(env, s, key).thrown
    ensures thrown.None? ==> err.errors == Grouped(done + KeyFailures(env, s, key).value)
    ensures err.Valid()
  {
    var rules := RulesOf(s, key);
    var j := 0;
    ghost var acc := done;
    assert rules[..0] == [] && done + Tagged(key, []) == done;
    while j < |rules|
      invariant 0 <= j <= |rules|
      invariant err.errors == Grouped(acc)
      invariant RuleFailures(env, s, key, rules[..j]).Ok?
      invariant acc == done + Tagged(key, RuleFailures(env, s, key, rules[..j]).value)
    {
      var t;
      ghost var next;
      t, next := ValidateRule(env, s, key, j, err, done, acc);
      if t.Some? {
        GroupedConsistent(acc);
        return t;
      }
      acc := next;
      j := j + 1;
    }
    assert rules[..j] == rules;
    GroupedConsistent(acc);
    thrown := None;
  }

  /**
   * One pass of `validate`'s inner loop: checks rule `j` of `key` and records
   * its failure in `err`, or reports what it throws, leaving `err` as it was.
   */
  method ValidateRule(env: Env, s: ModelState, key: string, j: nat, err: ModelError,
                      ghost done: seq<(string, ErrorDetail)>, ghost acc: seq<(string, ErrorDetail)>)
      returns (thrown: Option<Thrown>, ghost next: seq<(string, ErrorDetail)>)
    requires j < |RulesOf(s, key)| && err.errors == Grouped(acc)
    requires RuleFailures(env, s, key, RulesOf(s, key)[..j]).Ok?
    requires acc == done + Tagged(key, RuleFailures(env, s, key, RulesOf(s, key)[..j]).value)
    modifies err
    ensures thrown.Some? ==> KeyFailures(env, s, key) == Throw(thrown.value) && err.errors == old(err.errors)
    ensures thrown.None? ==> RuleFailures(env, s, key, RulesOf(s, key)[..j + 1]).Ok? && err.errors == Grouped(next)
    ensures thrown.None? ==> next == done + Tagged(key, RuleFailures(env, s, key, RulesOf(s, key)[..j + 1]).value)
  {
    var rules := RulesOf(s, key);
    var f := FailureOf(env, s, key, rules[j]);
    if f.Throw? {
      RuleThrowEnds(env, s, key, j);
      return Some(f.thrown), acc;
    }
    TaggedStep(env, s, key, rules, j, done);
    next := acc + Tagged(key, if f.value.Some? then [f.value.value] else []);
    RecordFailure(key, f.value, err, acc);
    thrown := None;
  }

  /** One rule's outcome in `validate`: a failure is added to `err` under the key, a pass changes nothing. */
  method RecordFailure(key: string, f: Option<ErrorDetail>, err: ModelError, ghost acc: seq<(string, ErrorDetail)>)
    requires err.errors == Grouped(acc)
    modifies err
    ensures err.errors == Grouped(acc + Tagged(key, if f.Some? then [f.value] else []))
  {
    if f.Some? {
      err.AddError(key, f.value);
      GroupedSnoc(acc, key, f.value);
      assert Tagged(key, [f.value]) == [(key, f.value)];
    } else {
      assert acc + Tagged(key, []) == acc;
    }
  }

  /** A rule of `key` that throws ends the key's run with what it throws. */
  lemma RuleThrowEnds(env: Env, s: ModelState, key: string, j: nat)
    requires j < |RulesOf(s, key)| && RuleFailures(env, s, key, RulesOf(s, key)[..j]).Ok?
    requires FailureOf(env, s, key, RulesOf(s, key)[j]).Throw?
    ensures KeyFailures(env, s, key) == Throw(FailureOf(env, s, key, RulesOf(s, key)[j]).thrown)
  {
    RuleFailuresStep(env, s, key, RulesOf(s, key), j);
    FailedThrowPersists(RulesOf(s, key), RuleCheck(env, s, key), j + 1);
  }

  /** Tagging distributes over concatenation. */
  lemma TaggedAppend(done: seq<(string, ErrorDetail)>, key: string, ds: seq<ErrorDetail>, es: seq<ErrorDetail>)
    ensures done + Tagged(key, ds + es) == done + Tagged(key, ds) + Tagged(key, es)
  {
    assert Tagged(key, ds + es) == Tagged(key, ds) + Tagged(key, es);
  }

  /** One more rule that does not throw: its failure, if any, follows those of the rules before it, tagged with the key. */
  lemma TaggedStep(env: Env, s: ModelState, key: string, rules: seq<Rule>, j: nat, done: seq<(string, ErrorDetail)>)
    requires j < |rules| && RuleFailures(env, s, key, rules[..j]).Ok? && FailureOf(env, s, key, rules[j]).Ok?
    ensures RuleFailures(env, s, key, rules[..j + 1]).Ok?
    ensures done + Tagged(key, RuleFailures(env, s, key, rules[..j + 1]).value)
            == done + Tagged(key, RuleFailures(env, s, key, rules[..j]).value)
               + Tagged(key, if FailureOf(env, s, key, rules[j]).value.Some? then [FailureOf(env, s, key, rules[j]).value.value] else [])
  {
    RuleFailuresStep(env, s, key, rules, j);
    var f := FailureOf(env, s, key, rules[j]).value;
    TaggedAppend(done, key, RuleFailures(env, s, key, rules[..j]).value, if f.Some? then [f.value] else []);
  }

  /** Validating one more key adds that key's failures to those of the keys before it, or throws what it throws. */
  lemma FailuresStep(env: Env, s: ModelState, ks: seq<string>, i: nat)
    requires i < |ks| && Failures(env, s, ks[..i]).Ok?
    ensures KeyFailures(env, s, ks[i]).Throw? ==> Failures(env, s, ks[..i + 1]) == Throw(KeyFailures(env, s, ks[i]).thrown)
    ensures KeyFailures(env, s, ks[i]).Ok? ==>
              Failures(env, s, ks[..i + 1]) == Ok(Failures(env, s, ks[..i]).value + KeyFailures(env, s, ks[i]).value)
  {
    assert ks[..i + 1][..i] == ks[..i];
  }

  /** Running one more rule adds its failure, if any, to those of the rules before it, or throws what it throws. */
  lemma RuleFailuresStep(env: Env, s: ModelState, key: string, rules: seq<Rule>, j: nat)
    requires j < |rules| && RuleFailures(env, s, key, rules[..j]).Ok?
    ensures FailureOf(env, s, key, rules[j]).Throw? ==>
              RuleFailures(env, s, key, rules[..j + 1]) == Throw(FailureOf(env, s, key, rules[j]).thrown)
    ensures FailureOf(env, s, key, rules[j]).Ok? ==>
              RuleFailures(env, s, key, rules[..j + 1])
              == Ok(RuleFailures(env, s, key, rules[..j]).value
                    + (if FailureOf(env, s, key, rules[j]).value.Some? then [FailureOf(env, s, key, rules[j]).value.value] else []))
  {
    assert rules[..j + 1][..j] == rules[..j];
  }

  /** Once a rule throws, the rules after it do not run: the whole run throws the same error. */
  lemma {:induction false} FailedThrowPersists(rules: seq<Rule>, check: Rule -> Result<Option<ErrorDetail>>, j: nat)
    requires j <= |rules| && Failed(rules[..j], check).Throw?
    ensures Failed(rules, check) == Failed(rules[..j], check)
    decreases |rules|
  {
    if j < |rules| {
      var init := rules[..|rules| - 1];
      assert init[..j] == rules[..j];
      FailedThrowPersists(init, check, j);
    } else {
      assert rules[..j] == rules;
    }
  }

  /** Once a key throws, the keys after it are not validated: the whole run throws the same error. */
  lemma {:induction false} CollectedThrowPersists(ks: seq<string>, perKey: string -> Result<seq<ErrorDetail>>, i: nat)
    requires i <= |ks| && Collected(ks[..i], perKey).Throw?
    ensures Collected(ks, perKey) == Collected(ks[..i], perKey)
    decreases |ks|
  {
    if i < |ks| {
      var init := ks[..|ks| - 1];
      assert init[..i] == ks[..i];
      CollectedThrowPersists(init, perKey, i);
    } else {
      assert ks[..i] == ks;
    }
  }

  /** `getDefinition`-free reading of `toObject`: with distinct keys, one entry per key holding its value. */
  lemma ObjectEntriesAreFields(s: ModelState)
    requires WellFormed(s)
    ensures |ObjectEntries(s)| == |s.keys|
    ensures forall i :: 0 <= i < |s.keys| ==> ObjectEntries(s)[i] == (s.keys[i], AttrOf(s, s.keys[i]))
  {
    var pairs := seq(|s.keys|, i requires 0 <= i < |s.keys| => (s.keys[i], AttrOf(s, s.keys[i])));
    assert [] + pairs == pairs;
    AssignAllDistinct([], pairs);
  }

  /** `toModel` in its two stages: construction with the defaults, then the columns read from the data. */
  lemma ToModelSpecSteps(env: Env, definitionSpec: JsValue, objData: JsValue, ref: nat)
    ensures ConstructFrom(env, EmptyState, definitionSpec, Undefined).Throw?
            ==> ToModelSpec(env, definitionSpec, objData, ref) == Throw(ConstructFrom(env, EmptyState, definitionSpec, Undefined).thrown)
    ensures ConstructFrom(env, EmptyState, definitionSpec, Undefined).Ok?
            ==> var s := ConstructFrom(env, EmptyState, definitionSpec, Undefined).value;
                ToModelSpec(env, definitionSpec, objData, ref) == SetAll(env, s, ReadColumns(ColumnKeys(s), SetObject(objData, DefaultModelData(ref))))
  {
  }

  /** The `toModel(objData)` static method. */
  method ToModel(env: Env, definitionSpec: JsValue, objData: JsValue, ref: nat) returns (r: Result<Model>)
    ensures r.Ok? ==> fresh(r.value) && r.value.Valid() && ToModelSpec(env, definitionSpec, objData, ref) == Ok(r.value.State())
    ensures r.Throw? ==> ToModelSpec(env, definitionSpec, objData, ref) == Throw(r.thrown)
  {
    var data := SetObject(objData, DefaultModelData(ref));
    var obj := new Model();
    var c := obj.Construct(env, definitionSpec, Undefined);
    if c.Throw? {
      return Throw(c.thrown);
    }
    ToModelSpecSteps(env, definitionSpec, objData, ref);
    var def := obj.GetColumnKeys();
    var s := obj.SetEntries(env, ReadColumns(def, data));
    if s.Throw? {
      return Throw(s.thrown);
    }
    return Ok(obj);
  }

  /** `createClosure`-free reading of one definition: the method form of ParseDefinition. */
  method DefinitionOf(key: string, objDef: JsValue) returns (r: Result<(Definition, bool)>)
    ensures r == ParseDefinition(key, objDef)
  {
    if !IsTruthy(objDef) {
      return Ok((Definition(NoType, Null, Str(key), [], []), false));
    }
    var value := DeclaredDefault(objDef);
    var column := if HasOwn(objDef, "column") then GetProperty(objDef, "column") else Str(key);
    var primaryKey := DeclaredPrimary(objDef);
    var validation := SetValidationRule(GetProperty(objDef, "validation"), value);
    if validation.Throw? {
      return Throw(validation.thrown);
    }
    return Ok((Definition(TypeOfDefinition(objDef), value, column, validation.value, AllowedOf(objDef)), primaryKey));
  }
}
