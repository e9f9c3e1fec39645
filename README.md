# PetBlog data layer and the datautils model library, in Dafny

PetBlog is a small blogging site about pets. Its data layer stores accounts, users, posts, pets and comments in
MongoDB collections and checks input with a validators module. Under `node_modules` it ships `datautils`, a model
library. In that library, `Model` holds typed fields with defaults, column names, a primary key and validation
rules; `Collection` keeps models under UUID keys; helper modules coerce data types and run validators; and
`ModelError` groups validation failures by field.

This project models both parts and proves properties of the model:

- **JavaScript semantics the code relies on** (`Strings`, `JsValues`, `Throws`). These cover `typeof`,
  truthiness, `===` (NaN never equal, objects by identity), `indexOf`, `trim` and its whitespace set,
  ASCII `toUpperCase`/`toLowerCase`, `String(n)`, `for ... in` over own properties, property
  assignment, the inherited `Object.prototype` names that `set`, `addError` and the Collection's
  `get` and `remove` run into when they test a name with a property read, and the values a `throw`
  can carry.
- **datautils.**
  - `ArrayUtils`, `DataTypes` and `Validation` are pure functions.
  - `ModelError` is a class with a mutable error object: its keys in creation order and a list of details under each.
  - `Model` is a class whose fields are the model state. Its methods are proved against specification
    functions (`SetSpec`, `DefineAll`, `ConstructFrom`, `Failures`, ...), and `ModelProperties` proves
    what those functions promise.
  - `Collection` is a class holding its keys (in order) and its models. Its methods are proved against
    `GetSpec`/`RemoveSpec`, and `CollectionProperties` proves properties of those.
- **The application.**
  - `Validators` models `validators/index.js`.
  - `Documents` models the MongoDB collection operations the data files use: `findOne`,
    `find().toArray()`, `insertOne`, and the `Date.now()/1000|0` timestamp.
  - `Accounts`, `Users`, `Posts`, `Pets` and `Comments` model the five data files. Each insert is a
    method on a `DocCollection` object, proved against an outcome function.

Two places where the repository's files do not fit together:

- data/pets.js:14-15 and 50 call `validators.validInt`, `validators.validZip` and `validators.validID`,
  and data/comments.js:12 calls `validators.validID` (data/comments.js:41 tests that member without
  calling it). validators/index.js:21 exports only `validString`, so each of those calls throws a
  TypeError. The model keeps the module as exported (`Validators.Exported`). `Validators.Intended`
  supplies the three checks the callers expect; what those checks accept (an integer age, five decimal
  digits, 24 hexadecimal digits) is this model's assumption, since no code in the repository
  defines them. See Findings.
- `config/mongoCollections.js` exports collection getters named `account`, `animal`, `post`,
  `comment` and `ratings`. The data files read `accounts`, `users`, `posts`, `pets` and `comments`.
  The model passes each collection in as a parameter.

JavaScript numbers are modelled as integers plus NaN. `bcrypt.hash`/`bcrypt.compare`,
`crypto.genHashPassword`, `Date.now()`, `new ObjectId(text)` and `uuid.v4()` are parameters or fixed choices
(`NewKey`, `NewId`). So are the custom type functions, custom rules and the validators that need regular
expressions or floating point (an `Env` value).

## Model

| member | source | states |
|---|---|---|
| ArrayUtils.InArray | node_modules/datautils/lib/arrayutils.js:19-27 | true exactly when the haystack is an array holding an element `===` the needle |
| ArrayUtils.NaNNeverInArray | node_modules/datautils/lib/arrayutils.js:22 | since `indexOf` uses `===`, NaN is never found in any array |
| ArrayUtils.ObjectValues | node_modules/datautils/lib/arrayutils.js:40-53 | a non-object throws TypeError INPUT_NOT_OBJECT (and only a non-object); an object gives one value per own entry |
| JsValues.IndexOf | node_modules/datautils/lib/arrayutils.js:22 | the first position `===` the needle, or -1 when no element is; no earlier position matches |
| JsValues.ForInEntries | node_modules/datautils/lib/model.js:182 | `for (key in v)` visits an object's entries in order, an array's indices as decimal text with their elements, nothing else |
| JsValues.Assign | node_modules/datautils/lib/model.js:581-583 | `obj[key] = v`: the key now reads v, every other key reads as before, a new key goes last and an existing key keeps its place |
| JsValues.AssignAllDistinct | node_modules/datautils/lib/model.js:600-620 | assigning pairs with distinct names to an object adds exactly those pairs, in order |
| JsValues.LookupDistinct | node_modules/datautils/lib/model.js:365-367 | with distinct names, looking up the i-th name finds the i-th value |
| JsValues.Lookup | node_modules/datautils/lib/model.js:805 | an absent name reads `undefined`; a present one reads the value of an entry with that name |
| JsValues.Keys | node_modules/datautils/lib/collection.js:175-177 | one key name per entry, in entry order |
| Throws.CaughtMessage | node_modules/datautils/lib/model.js:658-662 | reading `err.message` of a caught null or undefined throws a TypeError, and only then; any other caught value gives its message |
| Strings.TrimEmptyIff | validators/index.js:14 | `s.trim()` is empty exactly when every character of s is JavaScript whitespace |
| Strings.ToLowerAscii | data/users.js:10 | same length; each character is lower-cased (ASCII letters) |
| Strings.ToUpperAscii | node_modules/datautils/lib/datatypes.js:50 | same length; each character is upper-cased (ASCII letters) |
| Strings.TrimStart | validators/index.js:14 | the result is a suffix of s, everything cut off is whitespace, and it does not start with whitespace |
| Strings.TrimEnd | validators/index.js:14 | the result is a prefix of s, everything cut off is whitespace, and it does not end with whitespace |
| Strings.DecimalRoundTrip | node_modules/datautils/lib/datatypes.js:218-226 | the decimal text of n reads back as n |
| Strings.NatToDecimal | node_modules/datautils/lib/datatypes.js:220 | the decimal text has at least one digit, only digits, and no leading zero |
| DataTypes.SetArray | node_modules/datautils/lib/datatypes.js:25-29 | an array input is returned, anything else gives the default |
| DataTypes.SetBool | node_modules/datautils/lib/datatypes.js:43-78 | booleans come back unchanged; every result is a boolean or the default |
| DataTypes.SetBoolTrueSpellings | node_modules/datautils/lib/datatypes.js:49-55 | "y", "1", "true", "t", "yes" in any mix of case give true |
| DataTypes.SetBoolFalseSpellings | node_modules/datautils/lib/datatypes.js:57-60 | "n", "0", "false", "f", "no" in any mix of case give false |
| DataTypes.SetBoolOtherStrings | node_modules/datautils/lib/datatypes.js:49-62 | any other string gives the default |
| DataTypes.SetBoolNumbers | node_modules/datautils/lib/datatypes.js:64-74 | 1 gives true, 0 gives false, any other number and NaN give the default |
| DataTypes.SetBoolOthers | node_modules/datautils/lib/datatypes.js:76 | values that are not booleans, strings or numbers give the default |
| DataTypes.UpperCaseMatchesAnyCase | node_modules/datautils/lib/datatypes.js:50-53 | for an upper-case alphanumeric word, `s.toUpperCase() === word` exactly when s spells the word in any case |
| DataTypes.SpellingsAreUpperAlnum | node_modules/datautils/lib/datatypes.js:53-58 | every spelling setBool compares against is upper-case alphanumeric |
| DataTypes.SetEnum | node_modules/datautils/lib/datatypes.js:123-131 | the input when the allowed values are an array holding an element `===` it, the default otherwise |
| DataTypes.SetFunction | node_modules/datautils/lib/datatypes.js:171-179 | a function input is returned, anything else gives the default |
| DataTypes.SetInstanceOf | node_modules/datautils/lib/datatypes.js:194-202 | the input or the default; the default when `instance` is not a function; the input when it is an instance |
| DataTypes.SetInt | node_modules/datautils/lib/datatypes.js:216-230 | every result is a number or the default |
| DataTypes.SetIntStrings | node_modules/datautils/lib/datatypes.js:218-226 | a string converts exactly when it matches the integer pattern (optional sign, digits), to the number it denotes; "1.5", "" and NaN give the default |
| DataTypes.SetIntOfDecimal | node_modules/datautils/lib/datatypes.js:218-226 | round trip: setInt of the decimal text of n is n |
| DataTypes.SetIntOfNumber | node_modules/datautils/lib/datatypes.js:218-226 | an integer number is returned as it is |
| DataTypes.SetIntOthers | node_modules/datautils/lib/datatypes.js:218-229 | inputs that are neither strings nor numbers give the default |
| DataTypes.DecimalIsIntegerText | node_modules/datautils/lib/datatypes.js:222-225 | `String(n)` of every integer matches the integer pattern and `parseInt` gives n back |
| DataTypes.SetObject | node_modules/datautils/lib/datatypes.js:247-255 | a plain object input (not array, not null) is returned, anything else gives the default |
| DataTypes.SetString | node_modules/datautils/lib/datatypes.js:312-332 | non-strings and non-numbers give the default; without a values array a string is returned and a number as its decimal text; with one, the text only when the array holds it |
| Validation.Exception | node_modules/datautils/lib/validation.js:24-39 | an Error with that message and value; `params` present exactly when extra arguments were given, and then exactly them |
| Validation.Required | node_modules/datautils/lib/validation.js:540-549 | passes with true or throws VALUE_REQUIRED carrying the value |
| Validation.RequiredIff | node_modules/datautils/lib/validation.js:540-549 | passes exactly for values that are not missing (empty array, falsy other than 0 and false); 0 and false pass |
| Validation.Length | node_modules/datautils/lib/validation.js:288-312 | a pass is always true |
| Validation.LengthIff | node_modules/datautils/lib/validation.js:288-312 | with an integer length, passes exactly when the size equals it; a negative length throws LENGTH_LESS_THAN_ZERO, another mismatch VALUE_DOES_NOT_MATCH_LENGTH |
| Validation.LengthAcceptsDecimalText | node_modules/datautils/lib/validation.js:290-292 | a length given as decimal text passes exactly when the number does |
| Validation.NotMeasurableFailsFirst | node_modules/datautils/lib/validation.js:305-308 | values other than strings, arrays, objects and functions throw the `*_NOT_STRING` error of each length validator, with its arguments |
| Validation.LengthBetween | node_modules/datautils/lib/validation.js:325-358 | a pass is always true |
| Validation.LengthBetweenIff | node_modules/datautils/lib/validation.js:325-358 | with 0 <= min <= max, passes exactly when min <= size <= max |
| Validation.LengthBetweenInvertedBounds | node_modules/datautils/lib/validation.js:344-346 | with 0 <= min and max < min, throws MAXLENGTH_LESS_THAN_MINLENGTH whatever the value |
| Validation.MaxLength | node_modules/datautils/lib/validation.js:430-454 | a pass is always true |
| Validation.MaxLengthIff | node_modules/datautils/lib/validation.js:430-454 | passes exactly when 0 <= n and size <= n; a negative bound throws MAX_LENGTH_LESS_THAN_ZERO |
| Validation.MinLength | node_modules/datautils/lib/validation.js:468-492 | a pass is always true |
| Validation.MinLengthIff | node_modules/datautils/lib/validation.js:468-492 | passes exactly when 0 <= n and size >= n; a negative bound throws MIN_LENGTH_LESS_THAN_ZERO |
| ModelErrors.Added | node_modules/datautils/lib/modelError.js:51-63 | the detail is appended to the key's list; every other key keeps its list; the key set grows by the key |
| ModelErrors.AddedOrder | node_modules/datautils/lib/modelError.js:51-63 | a key that had no list is listed after every existing key; a key that had one keeps its place |
| ModelErrors.AddedConsistent | node_modules/datautils/lib/modelError.js:51-63 | recording keeps every key listed once, exactly the keys holding a list and no list empty, and afterwards the object has a key |
| ModelErrors.ModelError.constructor | node_modules/datautils/lib/modelError.js:15-30 | a new ModelError has no errors: `errors` is null, getErrors() is null and hasErrors is false |
| ModelErrors.ModelError.AddError | node_modules/datautils/lib/modelError.js:51-63 | corrected `addError`: the error object becomes Added(old object, key, detail), so the key's list grows by the detail and a new key is listed last (AddedOrder); a consistent object stays consistent; afterwards hasErrors holds |
| ModelErrors.ModelError.GetErrors | node_modules/datautils/lib/modelError.js:75-77 | null exactly when hasErrors is false; otherwise, on a consistent ModelError, an object with at least one key, each listed once and holding a non-empty list |
| ModelErrors.ModelError.HasErrors | node_modules/datautils/lib/modelError.js:114-116 | on a consistent ModelError, true exactly when the errors object has a key, and every key it has holds at least one detail |
| ModelErrors.ModelError.GetType | node_modules/datautils/lib/modelError.js:101-103 | always "ModelError" |
| ModelErrors.Grouped | node_modules/datautils/lib/model.js:634-688 | the map of a sequence of addError calls is null exactly when there were none |
| ModelErrors.GroupedSnoc | node_modules/datautils/lib/modelError.js:51-63 | one more addError call extends the grouped map by that detail |
| ModelErrors.GroupedCollects | node_modules/datautils/lib/modelError.js:51-63 | under each key the map holds exactly the details added with that key, in order |
| ModelErrors.GroupedKeys | node_modules/datautils/lib/modelError.js:51-63 | a key holds a list exactly when some detail was added under it |
| ModelErrors.GroupedOrder | node_modules/datautils/lib/modelError.js:51-63 | after a sequence of addError calls the object lists its keys in the order of each key's first detail, each once |
| ModelErrors.GroupedKeysNames | node_modules/datautils/lib/modelError.js:51-63 | the object those calls build lists exactly the keys that hold a list |
| ModelErrors.GroupedConsistent | node_modules/datautils/lib/modelError.js:51-63 | the object those calls build is consistent and, once created, has a key |
| ModelErrors.AddErrorAsWritten | node_modules/datautils/lib/modelError.js:51-63 | as written: for a key that is not an inherited name, the same map as Added |
| ModelErrors.AddErrorConstructorKey | node_modules/datautils/lib/modelError.js:57-61 | as written, recording an error under "constructor" or "toString" throws |
| ModelErrors.AddErrorAsWrittenInheritedNames | node_modules/datautils/lib/modelError.js:57-61 | as written, any `Object.prototype` name not yet recorded throws instead of being recorded |
| Models.ParseRuleIff | node_modules/datautils/lib/model.js:297-328 | a validation element reads exactly when it is not null or undefined and its rule is a function, "match", or the name of a validation function |
| Models.ParseRule | node_modules/datautils/lib/model.js:297-336 | a null or undefined element throws; a rule that reads keeps the element's `param` and the field's default, a function rule is custom, and a named rule is a validation function |
| Models.ParseRuleFields | node_modules/datautils/lib/model.js:297-336 | a rule that reads keeps the element's `param` and the field's default, and is "required" only for that name |
| Models.ParseRuleMissingErrors | node_modules/datautils/lib/model.js:297-300 | a null or undefined element throws the TypeError for reading `rule` |
| Models.ParseRuleNameErrors | node_modules/datautils/lib/model.js:309-327 | a string naming no validation function throws "... is not a validation function"; a rule that is neither string nor function throws "... is not a function or string" |
| Models.ParseRulesPointwise | node_modules/datautils/lib/model.js:289-342 | the array reads exactly when every element reads, and then gives each element's rule in place |
| Models.ParseRules | node_modules/datautils/lib/model.js:289-342 | reading gives one rule per element, each with the field's default |
| Models.ParseRulesFirstError | node_modules/datautils/lib/model.js:289-342 | a failure is the error of an element that does not read |
| Models.ParseRulesStep | node_modules/datautils/lib/model.js:295-337 | one loop step: an element's error ends the reading, its rule joins those read so far |
| Models.ParseRulesEnds | node_modules/datautils/lib/model.js:289-342 | reading from the start is reading everything; nothing left gives the rules read |
| Models.SetValidationRule | node_modules/datautils/lib/model.js:289-342 | the rules of the validation array (a non-array reads as no rules), or the first element's error |
| Models.MatchOutcome | node_modules/datautils/lib/model.js:139-153 | `_match` passes exactly when the value `===` the value under the named key; otherwise throws VALUE_DOES_NOT_MATCH with that value as param |
| Models.RuleArgs | node_modules/datautils/lib/model.js:47-58 | the closure passes the value first, then nothing for an undefined param, the elements of an array param, or the param itself |
| Models.RuleOutcome | node_modules/datautils/lib/model.js:41-43 | a value `===` the default passes without running the rule unless the rule is "required" |
| Models.CallValidator | node_modules/datautils/lib/model.js:317-320 | the five modelled validators answer true when they pass; any other validator name is the environment's |
| Models.FailureOfIff | node_modules/datautils/lib/model.js:645-674 | validate records nothing for a rule exactly when it returns something other than false without throwing; false records CUSTOM_VALIDATION_FAILED; a caught null or undefined makes `err.message` throw a TypeError, and exactly then the outcome is a throw; any other caught value records its message, the field's value and its params |
| Models.FailureOf | node_modules/datautils/lib/model.js:650-670 | a recorded failure carries the value validate reads for the field |
| Models.FailedThrowPersists | node_modules/datautils/lib/model.js:647-674 | once a rule's check throws, the rules after it do not run: the whole run throws the same error |
| Models.CollectedThrowPersists | node_modules/datautils/lib/model.js:641-678 | once a key's run throws, the keys after it do not run: validate throws the same error |
| Models.Tagged | node_modules/datautils/lib/model.js:661-670 | each detail paired with the key, in order |
| Models.Coerce | node_modules/datautils/lib/model.js:492-547 | without a coercion function, throws exactly when the type is not a known type name, with DATATYPE_NOT_VALID carrying that type |
| Models.SetSpec | node_modules/datautils/lib/model.js:471-560 | an undefined key is ignored unless it is an inherited name, which throws; a defined key stores the coerced value or throws and changes nothing |
| Models.SetPrimaryKeySpec | node_modules/datautils/lib/model.js:268-276 | throws CANNOT_SET_MULTIPLE_PRIMARY_KEYS exactly when a primary key is already set; otherwise records the key |
| Models.SetAll | node_modules/datautils/lib/model.js:117-122 | one `set` per pair, in order: keys, definitions and primary key are unchanged, and a field no pair names keeps its value |
| Models.RuleElems | node_modules/datautils/lib/model.js:221 | a definition that is not an object has no validation elements |
| Models.AllowedOf | node_modules/datautils/lib/model.js:223-225 | the allowed values are the own `enum` when it is an array, and none otherwise |
| Models.DeclaredPrimary | node_modules/datautils/lib/model.js:216-219 | a key is primary exactly when the definition has its own `primaryKey` and setBool with default false reads it as true |
| Models.ParseDefinition | node_modules/datautils/lib/model.js:183-231 | a falsy definition reads as no type, null default, the key's own column, no rules and no allowed values; otherwise type, column (the key by default), default (null by default) and enum (an array, else none) as declared, the rules or the error of `_setValidationRule` on the declared validation with that default, and primary exactly when `primaryKey` is declared and setBool reads it as true |
| Models.DefinitionOf | node_modules/datautils/lib/model.js:183-231 | reading one definition step by step gives ParseDefinition |
| Models.DefineOne | node_modules/datautils/lib/model.js:182-251 | a definition that does not read throws its error; otherwise the definition is stored under the key, a new key is listed last, and the primary key is claimed exactly when the definition declares one (and none was set) |
| Models.DefineAll | node_modules/datautils/lib/model.js:165-256 | a pass over all definitions keeps every earlier definition and defines every key it was given |
| Models.ConstructFrom | node_modules/datautils/lib/model.js:106-124 | construction keeps every earlier definition and defines every key of an object definition |
| Models.ConstructWithoutDefinition | node_modules/datautils/lib/model.js:109-122 | a definition that is not an object defines nothing: construction only sets the data's own properties |
| Models.ColumnKeys | node_modules/datautils/lib/model.js:378-400 | each key with `column \|\| key`, in key order |
| Models.DataPairs | node_modules/datautils/lib/model.js:571-589 | as written: toData assigns each key's value under the text of the raw column |
| Models.CorrectedDataPairs | node_modules/datautils/lib/model.js:571-589 | corrected: each key's value under the text of `column \|\| key` |
| Models.ObjectPairs | node_modules/datautils/lib/model.js:600-620 | toObject assigns each key's value under the key |
| Models.ReadColumns | node_modules/datautils/lib/model.js:800-808 | toModel sets each key to what the data holds under the key's column |
| Models.ObjectEntriesAreFields | node_modules/datautils/lib/model.js:600-620 | with distinct keys, toObject has one entry per key holding its value |
| Models.Model.constructor | node_modules/datautils/lib/model.js:74-97 | a new Model starts with no keys, definitions, values or primary key |
| Models.Model.SetPrimaryKey | node_modules/datautils/lib/model.js:268-276 | the new state is SetPrimaryKeySpec of the old; nothing else changes |
| Models.Model.Set | node_modules/datautils/lib/model.js:471-560 | the new state is SetSpec of the old; a throw changes nothing; only values change |
| Models.Model.DefineKey | node_modules/datautils/lib/model.js:183-253 | one `_setDefinition` loop pass: the new state is DefineOne of the old; the model stays well-formed |
| Models.Model.StoreDefinition | node_modules/datautils/lib/model.js:234-250 | stores the definition, claims the primary key, sets the default: the new state is DefineParsed of the old |
| Models.Model.SetDefinition | node_modules/datautils/lib/model.js:165-256 | every definition in for-in order, stopping at the first error: the new state is DefineAll of the old |
| Models.Model.SetEntries | node_modules/datautils/lib/model.js:112-121 | sets each pair in order, stopping at the first error: the new state is SetAll of the old |
| Models.Model.Construct | node_modules/datautils/lib/model.js:106-124 | the definition first (only an object counts), then each own property of the data: the new state is ConstructFrom of the old |
| Models.Model.Get | node_modules/datautils/lib/model.js:365-367 | the value last stored under the key, and undefined for a key never set |
| Models.Model.GetColumnKeys | node_modules/datautils/lib/model.js:378-400 | answers ColumnKeys of the state |
| Models.Model.ToData | node_modules/datautils/lib/model.js:571-589 | corrected toData: the entries written under `column \|\| key` |
| Models.Model.ToObject | node_modules/datautils/lib/model.js:600-620 | the entries of the object built, one per key assignment in order |
| Models.Model.IsSet | node_modules/datautils/lib/model.js:440-458 | true exactly when some entry of toObject is not `===` its field's default |
| Models.Model.Validate | node_modules/datautils/lib/model.js:634-688 | when some rule's caught value is null or undefined, the TypeError from `err.message` escapes; otherwise the fresh ModelError holds every failure of every rule of every key grouped by key, recorded with the corrected addError (see Findings), with its keys in the order of their first failure, which ErrorKeysInOrder shows is definition-key order; the ModelError is consistent whatever happens; and the result is true exactly when there are none (false standing for `throw objValidationError`) |
| Models.ValidateKey | node_modules/datautils/lib/model.js:645-674 | runs one key's rules: it throws exactly when that key's run throws, with the same error, and otherwise adds that key's failures to those recorded before; the ModelError stays consistent |
| Models.ValidateRule | node_modules/datautils/lib/model.js:647-670 | one pass of that loop: a rule that throws ends the key's run with that error and leaves the ModelError as it was; otherwise its failure, if any, is recorded after those of the rules before it |
| Models.RuleThrowEnds | node_modules/datautils/lib/model.js:647-670 | a rule of a key that throws, after rules that did not, ends that key's run with what it threw |
| Models.RecordFailure | node_modules/datautils/lib/model.js:650-670 | a failing rule adds its detail under the key; a passing one changes nothing |
| Models.TaggedAppend | node_modules/datautils/lib/model.js:661-670 | tagging distributes over concatenation |
| Models.FailuresStep | node_modules/datautils/lib/model.js:641-676 | validating one more key appends that key's failures, or throws what that key throws |
| Models.RuleFailuresStep | node_modules/datautils/lib/model.js:645-674 | running one more rule appends its failure, if any, or throws what that rule throws |
| Models.ToModelSpecSteps | node_modules/datautils/lib/model.js:792-812 | toModel first constructs a model with no data; if that throws, toModel throws the same, otherwise it sets each key from the data's column (`{array: []}` for a non-object) |
| Models.ToModelSpec | node_modules/datautils/lib/model.js:792-812 | the model toModel returns has every declared field defined, with the definitions a construction without data gives |
| Models.ToModel | node_modules/datautils/lib/model.js:792-812 | a new, well-formed model whose state is ToModelSpec, or the error ToModelSpec throws |
| ModelProperties.FailedEmptyIff | node_modules/datautils/lib/model.js:645-674 | a key's rules report no detail and throw nothing exactly when every rule passes |
| ModelProperties.CollectedEmptyIff | node_modules/datautils/lib/model.js:641-676 | nothing is collected and nothing thrown exactly when every key reports no detail and throws nothing |
| ModelProperties.FailedOkIff | node_modules/datautils/lib/model.js:645-674 | a key's rules run without an escaping error exactly when no single check throws |
| ModelProperties.CollectedOkIff | node_modules/datautils/lib/model.js:641-676 | validate's run over the keys throws nothing exactly when no key's run throws |
| ModelProperties.ValidatePassesIff | node_modules/datautils/lib/model.js:641-686 | validate records nothing and throws nothing (returns true) exactly when every rule of every field passes |
| ModelProperties.ValidateEscapesIff | node_modules/datautils/lib/model.js:652-670 | validate throws out of its catch exactly when the outcome of some rule of some field cannot be recorded (by FailureOfIff: the rule threw null or undefined) |
| ModelProperties.DetailsForAppend | node_modules/datautils/lib/model.js:661-670 | the details of a key in two runs of failures are those of each run, in order |
| ModelProperties.DetailsForTagged | node_modules/datautils/lib/model.js:661-670 | the details tagged with one key belong to that key and no other |
| ModelProperties.DetailsOfCollected | node_modules/datautils/lib/model.js:641-676 | with distinct keys and a run that does not throw, each listed key's run did not throw, and the details collected under a key are that key's own |
| ModelProperties.FailingKeys | node_modules/datautils/lib/model.js:641-676 | the keys of the definition whose run reports some failure, in definition order; every key it lists is a defined key |
| ModelProperties.FirstSeenTagged | node_modules/datautils/lib/model.js:645-674 | one key's tagged failures add that key after the keys seen before, unless it was seen already or there are none |
| ModelProperties.FirstSeenCollected | node_modules/datautils/lib/model.js:641-676 | with distinct keys, the keys in order of first failure are exactly the failing keys, in key order |
| ModelProperties.ErrorKeysInOrder | node_modules/datautils/lib/model.js:634-688 | the ModelError validate throws lists, through getErrors(), exactly the fields with a failing rule, in definition-key order |
| ModelProperties.ErrorsOfKey | node_modules/datautils/lib/model.js:634-688 | when validate does not throw, the error list of a key is exactly the failures of its rules in rule order, and empty for any other name |
| ModelProperties.DefaultSkipsOptionalRules | node_modules/datautils/lib/model.js:41-43 | a field still holding its default passes every rule that is not "required" |
| ModelProperties.RequiredRuleRejectsEmpty | node_modules/datautils/lib/model.js:41-43 | a "required" rule on an empty, null or undefined field fails with VALUE_REQUIRED, whatever the default |
| ModelProperties.MatchRuleCompares | node_modules/datautils/lib/model.js:139-153 | a "match" rule passes when the field `===` the other field, and otherwise reports VALUE_DOES_NOT_MATCH with the other field's value |
| ModelProperties.CustomFalseFails | node_modules/datautils/lib/model.js:652-657 | a custom rule returning false records CUSTOM_VALIDATION_FAILED |
| ModelProperties.CustomNullEscapes | node_modules/datautils/lib/model.js:658-662 | a custom rule that throws null makes validate throw TypeError "Cannot read properties of null (reading 'message')" |
| ModelProperties.IntegerFieldParsesText | node_modules/datautils/lib/model.js:492-547 | an integer field stores the number its decimal text stands for |
| ModelProperties.BooleanFieldReadsSpellings | node_modules/datautils/lib/model.js:492-547 | a boolean field stores true for "yes" and false for "0" |
| ModelProperties.UnknownTypeThrows | node_modules/datautils/lib/model.js:538-547 | an unknown type name, or none, refuses every value with DATATYPE_NOT_VALID |
| ModelProperties.UndefinedGivesDefault | node_modules/datautils/lib/model.js:492-547 | for every named type but date, float and enum, setting undefined stores the default |
| ModelProperties.SetThenGet | node_modules/datautils/lib/model.js:540-560 | after `set` stores a coerced value for a defined field, `get` of that field reads it and `get` of any other field reads as before |
| ModelProperties.FalsyDefinitionThrows | node_modules/datautils/lib/model.js:183-253 | a falsy field definition makes `_setDefinition` throw DATATYPE_NOT_VALID (the default null is set on a field of no type) |
| ModelProperties.DefineStoresDefault | node_modules/datautils/lib/model.js:234-250 | a definition pass that succeeds lists the key once, stores the definition and the coerced default, and keeps the model well-formed |
| ModelProperties.SecondPrimaryKeyThrows | node_modules/datautils/lib/model.js:245-247 | a second primary key makes the definition throw CANNOT_SET_MULTIPLE_PRIMARY_KEYS |
| ModelProperties.UndefinedKeysIgnored | node_modules/datautils/lib/model.js:471-560 | a data key without definition, other than an inherited name, changes nothing |
| ModelProperties.InheritedDataKeyThrows | node_modules/datautils/lib/model.js:471-560 | data with a property "toString" makes construction throw although no such field exists |
| ModelProperties.IsSetIff | node_modules/datautils/lib/model.js:440-458 | isSet is true exactly when some field differs from its default |
| ModelProperties.ToDataToModel | node_modules/datautils/lib/model.js:571-589 | round trip: with distinct columns, toModel reads back from the corrected toData exactly the model's key/value pairs |
| ModelProperties.NullColumnWrittenAsNull | node_modules/datautils/lib/model.js:581-583 | as written, a field whose column is null is written under the name "null" |
| ModelProperties.NullColumnLostByToModel | node_modules/datautils/lib/model.js:805 | so toModel reads that field as undefined although the model held "Rex" |
| Collections.Longest | node_modules/datautils/lib/collection.js:96-97 | every key is at most that long |
| Collections.NewKey | node_modules/datautils/lib/collection.js:96-97 | `uuid.v4()`: a UUID-shaped key not yet used |
| Collections.UuidNotIntegerText | node_modules/datautils/lib/collection.js:218-234 | no UUID key reads as integer text, so get and remove never take it as a position |
| Collections.UuidNotInherited | node_modules/datautils/lib/collection.js:237-241 | no UUID key is an inherited name |
| Collections.ItemLeaves | node_modules/datautils/lib/collection.js:71-75 | add's recursion over arrays reaches only non-array values, and a non-array value is its own only leaf |
| Collections.ItemsLeaves | node_modules/datautils/lib/collection.js:71-75 | the leaves of the elements of an array are non-arrays |
| Collections.ValueLeaves | node_modules/datautils/lib/collection.js:71-75 | the leaves of a plain value are non-arrays; a non-array value is its own leaf |
| Collections.ValuesLeaves | node_modules/datautils/lib/collection.js:71-75 | the leaves of plain elements are non-arrays |
| Collections.Addables | node_modules/datautils/lib/collection.js:78-94 | only model instances and non-empty plain objects are stored |
| Collections.AddablesAppend | node_modules/datautils/lib/collection.js:71-75 | the stored leaves of two runs are those of each run, in order |
| Collections.FirstIndexOf | node_modules/datautils/lib/collection.js:207-213 | the first position whose key holds that very model, or -1 when none does |
| Collections.GetScalar | node_modules/datautils/lib/collection.js:215-250 | get of a plain value answers nothing or one thing: when asked for keys, a key held or an inherited name; otherwise a model the collection holds or an inherited property |
| Collections.GetSpec | node_modules/datautils/lib/collection.js:189-252 | get answers one result per element exactly for an array, and for anything else an answer the collection holds (as for GetScalar) |
| Collections.GetValues | node_modules/datautils/lib/collection.js:193-203 | one get result per element |
| Collections.GetItems | node_modules/datautils/lib/collection.js:193-203 | one get result per element |
| Collections.Flags | node_modules/datautils/lib/collection.js:271-334 | one removal flag per element |
| Collections.ElementKey | node_modules/datautils/lib/collection.js:280-326 | the key an element of remove(array) names is held or inherited; for a model instance one is found exactly when some key holds that very model, and that key holds it |
| Collections.RemoveName | node_modules/datautils/lib/collection.js:355-364 | remove by name answers true exactly when the data answers to the name (a key held or an inherited name), deletes exactly that key, and changes nothing for a name not held |
| Collections.RemoveScalar | node_modules/datautils/lib/collection.js:345-373 | remove of a plain value answers one flag, only deletes entries, and answers true whenever it deleted something |
| Collections.RemoveSpec | node_modules/datautils/lib/collection.js:264-375 | remove only deletes entries; it answers one flag per element for a non-empty array and one flag for anything else |
| Collections.Filter | node_modules/datautils/lib/collection.js:330 | keeps exactly the keys not deleted |
| Collections.FoldSnoc | node_modules/datautils/lib/collection.js:280-326 | one more element adds its flag and, when found, its key |
| Collections.OmitValid | node_modules/datautils/lib/collection.js:330 | `_.omit` keeps the key list distinct, UUID-shaped and in step with the data |
| Collections.FilterDistinct | node_modules/datautils/lib/collection.js:330 | filtering keeps keys distinct |
| Collections.DistinctOrderCount | node_modules/datautils/lib/collection.js:163-165 | the collection lists as many keys as it holds models |
| Collections.DistinctCard | node_modules/datautils/lib/collection.js:163-165 | distinct keys: as many elements as the set of them |
| Collections.Collection.constructor | node_modules/datautils/lib/collection.js:21-55 | an empty, valid collection with the given model environment and definition; `new Collection(data)` ends with `self._construct(options)`, that is `add(data)`, which callers run next as Collection.Add |
| Collections.Collection.Append | node_modules/datautils/lib/collection.js:96-97 | `this.data[uuid.v4()] = m`: the new key goes last and maps to m; nothing else changes |
| Collections.Collection.AddOne | node_modules/datautils/lib/collection.js:78-97 | a instance is stored as is; a non-empty plain object is built into a model and stored, or its build error thrown with nothing changed; anything else changes nothing |
| Collections.Collection.AddLeaves | node_modules/datautils/lib/collection.js:68-102 | the stored leaves are added in order under new keys; on the first build error the earlier ones stay and the error is thrown |
| Collections.Collection.Add | node_modules/datautils/lib/collection.js:68-102 | `add(data)`: AddOutcome of the leaves add stores, from the old keys and data |
| Collections.Collection.FindModel | node_modules/datautils/lib/collection.js:207-213 | answers FindInstance |
| Collections.Collection.FindValues | node_modules/datautils/lib/collection.js:193-203 | answers GetValues |
| Collections.Collection.FindValue | node_modules/datautils/lib/collection.js:189-252 | answers GetValue |
| Collections.Collection.FindScalar | node_modules/datautils/lib/collection.js:215-250 | answers GetScalar |
| Collections.Collection.Find | node_modules/datautils/lib/collection.js:189-252 | answers GetSpec |
| Collections.Collection.Get | node_modules/datautils/lib/collection.js:189-252 | answers GetSpec with getUUID read by setBool(getUUID, false) |
| Collections.Collection.FindElementKey | node_modules/datautils/lib/collection.js:280-326 | the key one element of remove(array) names: ElementKey |
| Collections.Collection.RemoveElements | node_modules/datautils/lib/collection.js:271-334 | a flag per element, and every found key deleted at the end: RemoveAll of the old table |
| Collections.Collection.RemoveByName | node_modules/datautils/lib/collection.js:357-364 | `delete this.data[name]` when the data answers to the name: RemoveName of the old table |
| Collections.Collection.Remove | node_modules/datautils/lib/collection.js:264-375 | the result and the new table are RemoveSpec of the old table |
| Collections.Collection.RemoveModel | node_modules/datautils/lib/collection.js:336-342 | RemoveInstance of the old table |
| Collections.Collection.RemoveValue | node_modules/datautils/lib/collection.js:345-373 | RemoveScalar of the old table |
| Collections.Collection.Reset | node_modules/datautils/lib/collection.js:386-397 | false exactly on an empty collection; afterwards the collection is empty |
| Collections.Collection.GetCount | node_modules/datautils/lib/collection.js:163-165 | the number of models held |
| Collections.Collection.GetKeys | node_modules/datautils/lib/collection.js:175-177 | every key held, each once |
| Collections.Collection.ToJson | node_modules/datautils/lib/collection.js:408-419 | one entry per key in order: that model's toObject |
| CollectionProperties.GetByPosition | node_modules/datautils/lib/collection.js:218-234 | get(i) for a position in range finds the model at that position |
| CollectionProperties.GetKeyByPosition | node_modules/datautils/lib/collection.js:218-234 | get(i, true) gives the key of the first entry holding that model |
| CollectionProperties.GetOutOfRange | node_modules/datautils/lib/collection.js:218-234 | get of a negative or too large position, as number or text, finds nothing |
| CollectionProperties.GetByKey | node_modules/datautils/lib/collection.js:237-241 | get(key) finds its model, get(key, true) the key |
| CollectionProperties.GetMissingName | node_modules/datautils/lib/collection.js:237-250 | a text that is no key, no integer and no inherited name finds nothing |
| CollectionProperties.GetInheritedName | node_modules/datautils/lib/collection.js:237-241 | "constructor" and "toString" are found although nothing is stored under them |
| CollectionProperties.GetInstanceIff | node_modules/datautils/lib/collection.js:207-213 | an instance's key is found exactly when some key holds that very model, and it is the key of one; otherwise nothing or the model |
| CollectionProperties.GetArrayPointwise | node_modules/datautils/lib/collection.js:193-203 | get of an array answers element by element, in order |
| CollectionProperties.GetItemsPointwise | node_modules/datautils/lib/collection.js:193-203 | the i-th result is get of the i-th element |
| CollectionProperties.FilterNothing | node_modules/datautils/lib/collection.js:330 | omitting no key keeps the key list |
| CollectionProperties.FilterAbsent | node_modules/datautils/lib/collection.js:330 | omitting a key not held keeps the key list |
| CollectionProperties.FilterAppend | node_modules/datautils/lib/collection.js:330 | filtering distributes over concatenation |
| CollectionProperties.OmitNothing | node_modules/datautils/lib/collection.js:330 | omitting no key keeps the table |
| CollectionProperties.RemoveByKey | node_modules/datautils/lib/collection.js:357-364 | remove(key) answers true and deletes that key and nothing else; the table stays valid |
| CollectionProperties.RemoveKey | node_modules/datautils/lib/collection.js:357-364 | remove(key) answers true and deletes exactly that key |
| CollectionProperties.RemoveThenGet | node_modules/datautils/lib/collection.js:357-364 | after remove(key), get(key) finds nothing |
| CollectionProperties.RemoveMissingName | node_modules/datautils/lib/collection.js:355-373 | remove of an unknown non-integer text answers false and changes nothing |
| CollectionProperties.RemoveInheritedName | node_modules/datautils/lib/collection.js:357-364 | remove("constructor") answers true and removes nothing |
| CollectionProperties.RemoveByPosition | node_modules/datautils/lib/collection.js:347-352 | remove(i) in range deletes the key at that position and answers true; out of range answers false and changes nothing |
| CollectionProperties.FoldOne | node_modules/datautils/lib/collection.js:280-326 | one element gives its flag and, when found, its key |
| CollectionProperties.FlagsPointwise | node_modules/datautils/lib/collection.js:280-326 | the i-th flag says whether a key was found for the i-th element |
| CollectionProperties.MatchedIff | node_modules/datautils/lib/collection.js:280-330 | a key is deleted by remove(array) exactly when it was found for some element |
| CollectionProperties.RemoveArray | node_modules/datautils/lib/collection.js:271-334 | remove of a non-empty array answers one flag per element and deletes exactly the found keys |
| CollectionProperties.RemoveArrayIs | node_modules/datautils/lib/collection.js:271-334 | remove of a non-empty array is RemoveAll |
| CollectionProperties.RemoveAllFlags | node_modules/datautils/lib/collection.js:280-326 | the i-th flag is true exactly when the i-th element names a key |
| CollectionProperties.RemoveAllKeys | node_modules/datautils/lib/collection.js:280-334 | a key survives remove(array) exactly when no element names it, and keeps its model |
| CollectionProperties.OmitKeeps | node_modules/datautils/lib/collection.js:330 | omitting keeps every other key with its model |
| CollectionProperties.DeleteIsOmit | node_modules/datautils/lib/collection.js:357-364 | deleting one key is omitting it |
| CollectionProperties.RemoveNameShrinks | node_modules/datautils/lib/collection.js:357-364 | a removal by name only deletes entries |
| CollectionProperties.RemoveShrinks | node_modules/datautils/lib/collection.js:264-375 | whatever it is given, remove keeps the table valid and only deletes entries |
| CollectionProperties.RemoveNameValid | node_modules/datautils/lib/collection.js:357-364 | a removal by name keeps the table valid |
| CollectionProperties.RemoveInstanceShrinks | node_modules/datautils/lib/collection.js:336-342 | removing an instance keeps the table valid and only deletes entries |
| CollectionProperties.RemoveScalarShrinks | node_modules/datautils/lib/collection.js:345-373 | removing a plain value keeps the table valid and only deletes entries |
| CollectionProperties.ScalarNameShrinks | node_modules/datautils/lib/collection.js:355-373 | removing a non-integer value keeps the table valid and only deletes entries |
| CollectionProperties.RemoveAllShrinks | node_modules/datautils/lib/collection.js:271-334 | removing an array keeps the table valid and only deletes entries |
| CollectionProperties.Appended | node_modules/datautils/lib/collection.js:96-97 | the new key goes last |
| CollectionProperties.AppendThenGet | node_modules/datautils/lib/collection.js:96-97 | an added model is found at the last position and under its new key |
| CollectionProperties.AppendThenRemove | node_modules/datautils/lib/collection.js:357-364 | removing the key an add created gives back the table from before, answering true |
| CollectionProperties.DeleteAppended | node_modules/datautils/lib/collection.js:357-364 | deleting the appended key restores the table |
| CollectionProperties.AppendedValid | node_modules/datautils/lib/collection.js:96-97 | an add keeps the table valid |
| CollectionProperties.FilterAppended | node_modules/datautils/lib/collection.js:330 | filtering the last key out gives the rest |
| CollectionProperties.AddNothing | node_modules/datautils/lib/collection.js:78-85 | a value that is not an array and not a non-empty plain object stores nothing |
| CollectionProperties.AddSingle | node_modules/datautils/lib/collection.js:78-94 | a non-empty plain object or a model instance is stored as it is |
| CollectionProperties.ItemsLeavesAppend | node_modules/datautils/lib/collection.js:71-75 | the leaves of two element runs are those of each, in order |
| CollectionProperties.AddArraySplits | node_modules/datautils/lib/collection.js:71-75 | adding an array stores what adding its parts one after the other stores |
| Validators.ValidString | validators/index.js:1-19 | true exactly for strings with a character that `trim` keeps |
| Validators.ValidStringCases | validators/index.js:1-19 | null, undefined, non-strings and "" are refused; a string passes exactly when its trim is not empty |
| Validators.CallCheck | data/pets.js:14-15 | calling a member the module lacks throws "... is not a function", and only then |
| Validators.ExportedChecksThrow | validators/index.js:21 | with the module as exported, validInt, validZip and validID calls all throw |
| Validators.ValidInt | data/pets.js:14 | the intended age check: exactly the integer numbers |
| Validators.ValidZip | data/pets.js:15 | the intended zip check: five decimal digits, which is a valid string |
| Validators.ValidId | data/pets.js:50 | the intended id check: exactly the strings of 24 hexadecimal digits, each of which is a valid string |
| Validators.IntendedChecksAnswer | data/comments.js:12 | with the intended checks no call throws and each answers its check |
| Validators.ZipExamples | data/pets.js:15 | "07053" passes; "7053", "abcde" and the number 7053 do not |
| Documents.Names | data/comments.js:25-30 | the field names, in order |
| Documents.Field | data/users.js:15 | a field absent from the document reads undefined |
| Documents.FieldFrom | data/users.js:15 | no field of that name from position i on reads undefined |
| Documents.FirstMatch | data/accounts.js:13 | `findOne`: a matching stored document, or none exactly when no document matches |
| Documents.AllMatches | data/comments.js:46 | `find().toArray()`: exactly the matching documents, no more than stored |
| Documents.AllMatchesEverything | data/posts.js:34 | `find({})` answers every document, in order |
| Documents.AllMatchesAppend | data/comments.js:46 | after an insert, find answers the earlier answers plus the new document when it matches |
| Documents.MaxId | data/accounts.js:17 | no id exceeds it |
| Documents.NewId | data/accounts.js:17 | the id insertOne generates is used by no document |
| Documents.AfterInsert | data/posts.js:15-22 | a throw leaves the collection unchanged; otherwise the record is appended under a fresh id |
| Documents.Acked | data/posts.js:24-26 | a success answers `{name: true}`, a throw passes the thrown value on |
| Documents.InsertKeepsUnique | data/accounts.js:13-23 | appending a record whose value no document holds keeps the field unique |
| Documents.DateSeconds | data/posts.js:21 | `Date.now()/1000\|0` is a 32-bit signed integer, the whole seconds until 2^31 seconds |
| Documents.ToInt32 | data/posts.js:21 | ECMAScript ToInt32: in 32-bit range, congruent modulo 2^32, the identity inside the range |
| Documents.DateWraps | data/comments.js:29 | from 2^31 seconds (19 January 2038) the stored date wraps to -2^31 |
| Documents.DocCollection.constructor | data/accounts.js:12 | a collection holding the given documents |
| Documents.DocCollection.InsertOne | data/accounts.js:17-23 | appends the document under a fresh id, which it returns |
| Documents.InsertKeepsIdsDistinct | data/accounts.js:17-23 | an insert keeps ids distinct |
| Documents.InsertThenFind | data/pets.js:55 | after an insert, `findOne({_id})` of the new id finds the new document |
| Documents.FirstMatchLast | data/accounts.js:13 | a query no stored document matches finds the appended document that matches |
| Accounts.CreateRejectsInvalid | data/accounts.js:9-11 | an input that is not a valid string throws "Error: expected a string for inputs" |
| Accounts.CreateRejectsTaken | data/accounts.js:13-33 | a username some account has throws "Error: user already exists" |
| Accounts.CreateStores | data/accounts.js:8-34 | a success had valid inputs and a free username, and stores the username, the hash and three null profile fields |
| Accounts.CreateOutcome | data/accounts.js:8-34 | create succeeds exactly for two valid strings and a username no account has, storing the account record with the hash; otherwise it throws one of its two messages |
| Accounts.CreateKeepsUsernamesUnique | data/accounts.js:13-33 | usernames stay unique across any create call |
| Accounts.Create | data/accounts.js:8-34 | the accounts become AfterInsert of the outcome, the answer `{accountInserted: true}` or the thrown value |
| Accounts.Get | data/accounts.js:36-44 | throws exactly for an invalid username; otherwise an account with exactly that username, or null when none has it |
| Accounts.CreateThenGet | data/accounts.js:8-44 | after a successful create, get of the username finds the new account |
| Users.NegatedTypeofGuard | data/users.js:8-9 | `!typeof v === 'string'` is always false |
| Users.TrimOf | data/users.js:8-9 | `v.trim()` succeeds exactly for strings, with their trim; anything else throws TypeError |
| Users.Guard | data/users.js:27-29 | a guard passes exactly for a string that does not trim to nothing, is long enough and (when asked) has no space; a failing string throws its message |
| Users.GuardsPass | data/users.js:26-29 | createUser's two guards pass exactly for string inputs it accepts (neither trims to nothing, long enough, no space) |
| Users.CreateUserOutcome | data/users.js:25-50 | createUser does not throw exactly for accepted string inputs; it then inserts exactly when no user has the lower-cased name, storing that name with the hash |
| Users.CheckUser | data/users.js:6-24 | an answer means both guards passed; authenticated means some user has exactly that name and compare accepted the password; `undefined` only for a name that lower-casing changes; string inputs throw only the two field messages or the invalid-credentials message |
| Users.CreateUserResult | data/users.js:45-48 | `{userInserted: true}` after an insert, false for a taken name; throws exactly when the outcome throws |
| Users.CreateUser | data/users.js:25-50 | the users become AfterCreateUser of the outcome; the answer is CreateUserResult |
| Users.CreateUserRejectsEmpty | data/users.js:26 | a falsy username or password throws "error: empty username or password" |
| Users.CreateUserRejectsUsername | data/users.js:27 | a username that trims to nothing, is shorter than 4 or holds a space throws "invalid USERNAME" |
| Users.CreateUserRejectsPassword | data/users.js:29 | with a good username, a password that trims to nothing, is shorter than 6 or holds a space throws "invalid PASSWORD" |
| Users.CreateUserRejectsNonStrings | data/users.js:27 | a truthy non-string username throws TypeError at `username.trim` |
| Users.CreateUserStores | data/users.js:34-49 | accepted inputs insert `{lower-cased name, hash}` exactly when no user has the lower-cased name |
| Users.CreateUserAccepted | data/users.js:34-49 | accepted inputs: the record when the lower-cased name is free, nothing otherwise |
| Users.CreateUserInserts | data/users.js:25-46 | an insert stores the lower-cased name of an accepted string username no user has, with the hash |
| Users.LowerIdempotent | data/users.js:34 | lower-casing twice is lower-casing once |
| Users.CreateUserKeepsInvariants | data/users.js:25-50 | createUser keeps every username lower-case and all usernames unique |
| Users.CheckUserPasswordFirst | data/users.js:8 | a bad password is reported whatever the username is |
| Users.CheckUserUnknown | data/users.js:10-13 | a username no user has, lower-cased, throws "Either the username or password is invalid" |
| Users.CheckUserLowercase | data/users.js:15-23 | a stored lower-case username is authenticated exactly when compare accepts the password, and refused otherwise |
| Users.CheckUserMixedCase | data/users.js:15-24 | a login name typed with an upper-case letter, whose lower-case form is stored, gets `undefined`: neither authenticated nor refused |
| Users.NoUserNamed | data/users.js:11 | no document answers `{username: u}` when none has u |
| Users.CreateFreshUser | data/users.js:36-45 | a lower-case name no user has appends its record under a fresh id |
| Users.CreateThenCheck | data/users.js:6-50 | a user created with a lower-case name is then authenticated with its password |
| Users.PasswordOfRecord | data/users.js:39-42 | the stored `password` field is the hash |
| Posts.CreateCases | data/posts.js:8-30 | create succeeds exactly when all five inputs are valid strings, storing them with the file as `image` and the time in whole seconds; otherwise "Error: invalid input" |
| Posts.CreateOutcome | data/posts.js:8-30 | create succeeds exactly when all five inputs are valid strings, storing the post record with the time in whole seconds; otherwise it throws "Error: invalid input" |
| Posts.Create | data/posts.js:8-30 | the posts become AfterInsert of the outcome, the answer `{accountInserted: true}` or the thrown value |
| Posts.GetAll | data/posts.js:32-35 | every stored post, in order |
| Pets.Create | data/pets.js:9-42 | the pets become AfterInsert of the outcome, the answer `{petInserted: true}` or the thrown value |
| Pets.CreateOutcome | data/pets.js:9-34 | for any checks module: create succeeds exactly when the strings are valid and validInt and validZip exist and accept age and zip, storing the pet record; a bad name or type throws "Error: invalid input"; a missing validInt throws TypeError; nothing else is thrown |
| Pets.CreateAsWritten | data/pets.js:10-21 | as written: a bad name or type throws "Error: invalid input", anything else TypeError at validInt; never stores |
| Pets.CreateIntendedAccepts | data/pets.js:9-34 | with the intended checks, a valid pet is stored as exactly its eight fields |
| Pets.CreateIntendedRejects | data/pets.js:10-21 | with the intended checks, any other pet throws "Error: invalid input" |
| Pets.GetAsWritten | data/pets.js:49-52 | as written, get always throws TypeError at validID |
| Pets.GetIntended | data/pets.js:49-61 | with the intended checks: a malformed id throws "Error: invalid input", an id no pet has "Error: pet does not exist", otherwise the pet with that id |
| Pets.CreateThenGet | data/pets.js:25-61 | a pet just created is found under its new id |
| Pets.GetAll | data/pets.js:44-47 | every stored pet, in order |
| Pets.Get | data/pets.js:49-61 | for any checks module: a missing validID throws TypeError and a refused id "Error: invalid input"; an answer is a stored pet with that id; for an accepted convertible id it throws exactly when no pet has it, with "Error: pet does not exist" |
| Comments.Create | data/comments.js:11-38 | the comments become AfterInsert of the outcome (posts are only read), the answer `{commentInserted: true}` or the thrown value |
| Comments.CreateOutcome | data/comments.js:11-38 | for any checks module: create succeeds exactly when username and comment are valid strings, validID exists and accepts the post id, the id converts and names an existing post, storing the comment record; a missing validID throws TypeError |
| Comments.CreateAsWritten | data/comments.js:12-14 | as written, every call throws: "Error: invalid input" for a bad username, otherwise TypeError at validID |
| Comments.CreateIntendedRejects | data/comments.js:12-14 | with the intended checks, a bad username, post id or comment throws "Error: invalid input" |
| Comments.CreateIntendedAccepts | data/comments.js:16-30 | with valid inputs, a missing post throws "Error: post does not exist", an existing one stores the comment with the post's id and the time |
| Comments.PostIdOfRecord | data/comments.js:27 | the stored `postID` is the post's object id |
| Comments.CreateKeepsReferences | data/comments.js:19-30 | create only stores comments on existing posts, so every comment keeps referring to a post |
| Comments.CreateRecord | data/comments.js:19-30 | an accepted comment is the record for the converted id, and that post exists |
| Comments.GetAllAsWritten | data/comments.js:41-43 | as written, with validID missing the guard rejects every id |
| Comments.GetAll | data/comments.js:40-47 | as written: a missing validID throws "Error: invalid input"; with it present the answer exists exactly when the id converts, and holds exactly the comments on that post |
| Comments.GetAllIgnoresCheck | data/comments.js:40-47 | when the module has validID, the guard never rejects: every id goes on to the query |
| Comments.GetAllCheckedIntended | data/comments.js:40-47 | corrected: throws exactly for malformed ids, otherwise answers exactly the comments on that post |
| Comments.GetAllChecked | data/comments.js:40-47 | corrected, for any checks module: a missing validID throws TypeError and a refused id "Error: invalid input"; an accepted id answers exactly when it converts, with exactly the comments on that post |
| Comments.CreateThenGetAll | data/comments.js:11-47 | a comment just created is among those getAll answers for its post |

## Left out

- Collections.Collection.Add: does not state that the models built from plain objects are new objects. Only their states (`Build`) are tied to the input.
- `Collection.each` (collection.js:112-141) and `getAll` (150-153) are left out: `each` calls a caller-supplied iterator with a JavaScript `this` context, and `getAll` returns the data object itself; GetKeys/ToJson cover the contents.
- `Collection.extend` and `Model.extend` (class-building through prototypes) are left out; the model has one Model class parameterised by its definition.
- `Model.getDefinition`, `getPrimaryKey`, `getPrimaryKeyValue` and the `getSetting` helper are plain field reads, left out; the state they read is the Model's fields.
- Custom setters (`setKey()` methods found by `set`, model.js:481-486) are left out; they exist only in classes built by `extend`.
- Models.SetSpec: for a field named "" the setter name `set` computes is "set" itself, so `set("", v)` with custom setters enabled calls `this.set(v, defaults)`, which sets the field named by `v`; the model instead stores the coerced `v` under "". The same holds for Models.Model.Set.
- Models.Model.Get: a name that is not a field reads as undefined, while for an inherited `Object.prototype` name (such as "toString") `this._attr[key]` reads the inherited function.
- Models.DefineOne: a definition key "__proto__", which `JSON.parse` can produce as an own key, is stored as an ordinary field and listed in `keys`; in JavaScript `self._definition[key] = {...}` (model.js:234) replaces the prototype of the definitions object instead, so the `for ... in` loops of `toObject`, `toData` and `validate` never reach it. The same holds for Models.DefineAll, Models.Model.DefineKey and Models.Model.StoreDefinition.
- Models.MatchOutcome: `_match` reads the other field through `_attr[key]`; the model reads a name that is not a field as undefined, while for an inherited `Object.prototype` name (such as "constructor") JavaScript reads the inherited function.
- Models.ReadColumns: `toModel` reads `objData[column]`; the model reads a column the data does not own as undefined, while for an inherited `Object.prototype` name JavaScript reads the inherited function.
- JsValues.ForInEntries: only own properties are visited; enumerable properties inherited through a prototype chain (a plain object has none) are not.
- Users.Guard: `username.length` and `password.length` count UTF-16 code units, the model counts characters (code points), so a character outside the Basic Multilingual Plane counts once instead of twice: "ab😀" has length 4 in JavaScript and 3 here.
- JsValues.Size: string sizes in the length validators, and Validators.ValidId's 24 characters, count code points in the same way, not UTF-16 code units.
- DataTypes.DecimalIsIntegerText: numbers are unbounded integers, and `String(n)` is modelled as plain decimal text for every n; JavaScript writes exponent form from 1e21 on ("1e+21"), which fails setInt's integer pattern.
- DataTypes.SetIntOfNumber: for |n| >= 1e21 JavaScript's `setInt(n)` sees "1e+21"-style text and returns the default; the model returns n, since integers are unbounded.
- DataTypes.SetIntOfDecimal: JavaScript's `parseInt` result is a double, so decimal text beyond 2^53 rounds (`setInt("9007199254740993")` gives 9007199254740992); the model gives the exact integer.
- DataTypes.SetString: a number's text is its full decimal text, also where JavaScript writes exponent form (`setString(1e21)` is "1e+21" in JavaScript).
- ModelProperties.IntegerFieldParsesText: stores the exact integer of any decimal text, without the rounding beyond 2^53 that JavaScript applies.
- A Model nested inside `toObject` (model.js:611-613) is left out; values are plain JavaScript values.
- `ModelError.getStack` is left out: it reads the JavaScript engine's stack trace.
- `setDate`, `setFloat` and `setRegex`, as well as the `email`, `equal`, `greaterThan`, `greaterThanOrEqual`, `lessThan`, `lessThanOrEqual` and `regex` validators, are left out. They depend on dates, floating point or regular expressions; the model reaches them through the `Env` parameter.
- Floating-point and infinite numbers are left out; numbers are unbounded integers and NaN, so neither the rounding of integers beyond 2^53 nor the exponent form of `String(n)` from 1e21 on is modelled (see the DataTypes lines above).
- Case mapping is ASCII only.
- JavaScript's ordering of integer-like keys before other keys is left out: the objects the library builds (the model's fields, the ModelError's errors, the collection's data) keep their keys in insertion order, so a field named "1" would be listed first by JavaScript but in its definition place here.
- A value thrown as a plain value, not an Error, that carries `params` is not copied into the error detail by `validate`.
- `bcrypt` and `crypto` hashing and comparison, `Date.now()`, `new ObjectId(text)` and `uuid.v4()` are parameters or fixed fresh choices, not their algorithms.
- The "internal server error" and "Insert failed!" branches of the data files are left out: the modelled insert always acknowledges.
- MongoDB queries on array-valued fields are left out; the queries the data layer issues compare whole values.
- `console.log` in `checkUser` and the async/await sequencing are left out.
- `config/mongoCollections.js` is not part of this model: the collections are parameters.
- The routes, the Express app and the seed script are not part of this model.

## Findings

| source | as written | input that shows it | evidently intended | confidence | as-written member | corrected member |
|---|---|---|---|---|---|---|
| node_modules/datautils/lib/modelError.js:57-61 | `addError` tests `this.errors[key]` before creating the key's list, so an inherited name reads as an existing list and pushing onto it throws | a model field named "constructor" or "toString" that fails a rule | record the error under that key like any other | high, not executed | ModelErrors.AddErrorAsWritten | ModelErrors.ModelError.AddError |
| node_modules/datautils/lib/model.js:581-583 | `toData` writes under the raw `column`, while `getColumnKeys` and `toModel` read `column \|\| key` | a field whose definition has `column: null`: toData writes it under "null", toModel reads it back as undefined | write under `column \|\| key`, so toModel(toData()) gives the model back | high, not executed | Models.DataPairs | Models.CorrectedDataPairs |
| data/pets.js:14-15 | `validInt` and `validZip` are not exported by validators/index.js, so `create` throws a TypeError for every pet with a valid name and type | any pet whose username, name and type are valid strings | an integer age and a five-digit zip code are checked | high, not executed | Pets.CreateAsWritten | Pets.CreateIntendedAccepts |
| data/pets.js:50 | `validID` is not exported, so `pets.get` always throws a TypeError | any id | a malformed id is refused, an existing pet found | high, not executed | Pets.GetAsWritten | Pets.GetIntended |
| data/comments.js:12 | `validID` is not exported, so `comments.create` throws for every comment with a valid username | any comment with a valid username | the post id is checked and the comment stored on an existing post | high, not executed | Comments.CreateAsWritten | Comments.CreateIntendedAccepts |
| data/comments.js:41 | the guard tests the member `validators.validID` instead of calling it, so it rejects every id when the member is missing and no id when it exists | any post id | `!validators.validID(postID)` | high, not executed | Comments.GetAllIgnoresCheck | Comments.GetAllCheckedIntended |
