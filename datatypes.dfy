/**
 * Type coercion of the datautils library (lib/datatypes.js): each function
 * takes an input and returns it, converted to one type, or the caller's
 * default when the input cannot be read as that type.
 */
module DataTypes {
  import opened Strings
  import opened JsValues
  import opened ArrayUtils

  /** The text `/^(\-|\+)?\d+$/` matches: an optional sign and at least one decimal digit. */
  predicate IsIntegerText(s: string) {
    if |s| > 0 && (s[0] == '-' || s[0] == '+') then |s| >= 2 && AllDigits(s[1..])
    else |s| >= 1 && AllDigits(s)
  }

  /** `parseInt(s, 10)` of a text that `IsIntegerText` accepts. */
  function ParseIntegerText(s: string): int
    requires IsIntegerText(s)
  {
    if s[0] == '-' then -(DigitsValue(s[1..]) as int)
    else if s[0] == '+' then DigitsValue(s[1..])
    else DigitsValue(s)
  }

  /** `setArray(input, def)`: `setInstanceOf(input, Array, def)`. */
  function SetArray(input: JsValue, def: JsValue): (r: JsValue)
    ensures r == if input.Arr? then input else def
  {
    SetInstanceOf(input, ArrayConstructor, def)
  }

  /** The spellings `setBool` reads as true and as false, after upper-casing. */
  const TrueSpellings: set<string> := {"Y", "1", "TRUE", "T", "YES"}
  const FalseSpellings: set<string> := {"N", "0", "FALSE", "F", "NO"}

  /** `setBool(input, def)`: booleans as they are; recognised strings and the numbers 1 and 0 converted. */
  function SetBool(input: JsValue, def: JsValue): (r: JsValue)
    ensures input.Bool? ==> r == input
    ensures r == def || r.Bool?
  {
    if TypeOf(input) == "boolean" then input
    else if TypeOf(input) == "string" && ToUpperAscii(input.s) in TrueSpellings then Bool(true)
    else if TypeOf(input) == "string" && ToUpperAscii(input.s) in FalseSpellings then Bool(false)
    else if TypeOf(input) == "number" && StrictEquals(input, Num(1)) then Bool(true)
    else if TypeOf(input) == "number" && StrictEquals(input, Num(0)) then Bool(false)
    else def
  }

  /** `setEnum(input, values, def)`: the input when the allowed values hold it. */
  function SetEnum(input: JsValue, values: JsValue, def: JsValue): (r: JsValue)
    ensures r == if values.Arr? && exists i :: 0 <= i < |values.elems| && StrictEquals(values.elems[i], input)
                 then input else def
  {
    if InArray(input, values) then input else def
  }

  /** `setFunction(input, def)`. */
  function SetFunction(input: JsValue, def: JsValue): (r: JsValue)
    ensures r == if input.Func? then input else def
  {
    if TypeOf(input) == "function" then input else def
  }

  /** `setInstanceOf(input, instance, def)`: the input when `instance` is a constructor it is an instance of. */
  function SetInstanceOf(input: JsValue, instance: JsValue, def: JsValue): (r: JsValue)
    ensures r == input || r == def
    ensures !instance.Func? ==> r == def
    ensures instance.Func? && InstanceOf(input, instance.ref) ==> r == input
    ensures instance.Func? && !InstanceOf(input, instance.ref) ==> r == def
  {
    if TypeOf(instance) == "function" && InstanceOf(input, instance.ref) then input else def
  }

  /** `setInt(input, def)`: a string or number whose text is an integer, parsed; otherwise the default. */
  function SetInt(input: JsValue, def: JsValue): (r: JsValue)
    ensures r == def || r.Num?
  {
    if TypeOf(input) == "string" || TypeOf(input) == "number" then
      var value := ToText(input);
      if IsIntegerText(value) then Num(ParseIntegerText(value)) else def
    else def
  }

  /** `setObject(input, def)`: objects other than arrays and null. */
  function SetObject(input: JsValue, def: JsValue): (r: JsValue)
    ensures r == if input.Obj? then input else def
  {
    if TypeOf(input) == "object" && !InstanceOf(input, ArrayRef) && input != Null then input else def
  }

  /**
   * `setString(input, def, values)`: strings and numbers other than NaN as
   * `String(input)`; when `values` is an array, only a text it holds.
   */
  function SetString(input: JsValue, def: JsValue, values: JsValue): (r: JsValue)
    ensures !(input.Str? || input.Num?) ==> r == def
    ensures input.Str? && !values.Arr? ==> r == input
    ensures input.Num? && !values.Arr? ==> r == Str(IntToDecimal(input.n))
    ensures values.Arr? ==> r == def || (r.Str? && r in values.elems && r == Str(ToText(input)))
    ensures values.Arr? && (input.Str? || input.Num?) ==>
      r == (if Str(ToText(input)) in values.elems then Str(ToText(input)) else def)
  {
    var allowed := if InstanceOf(values, ArrayRef) then values else Null;
    if TypeOf(input) == "string" || (TypeOf(input) == "number" && !input.NaN?) then
      var text := ToText(input);
      if allowed.Arr? then
        if IndexOf(allowed.elems, Str(text)) != -1 then Str(text) else def
      else Str(text)
    else def
  }

  // ---- Properties of setInt ----

  /** The decimal rendering of every integer is integer text that parses back to it. */
  lemma {:induction false} DecimalIsIntegerText(n: int)
    ensures IsIntegerText(IntToDecimal(n)) && ParseIntegerText(IntToDecimal(n)) == n
  {
    if n < 0 {
      var d := NatToDecimal(-n);
      assert IntToDecimal(n)[1..] == d;
      DecimalRoundTrip(-n);
    } else {
      var d := NatToDecimal(n);
      assert d[0] != '-' && d[0] != '+' by { assert IsDigit(d[0]); }
      DecimalRoundTrip(n);
    }
  }

  /** Round trip: `setInt` of the decimal rendering of n is n. */
  lemma SetIntOfDecimal(n: int, def: JsValue)
    ensures SetInt(Str(IntToDecimal(n)), def) == Num(n)
  {
    DecimalIsIntegerText(n);
  }

  /** A number is returned as it is. */
  lemma SetIntOfNumber(n: int, def: JsValue)
    ensures SetInt(Num(n), def) == Num(n)
  {
    DecimalIsIntegerText(n);
  }

  /** A string converts exactly when it is integer text; NaN, fractions, the empty string and non-strings give the default. */
  lemma SetIntStrings(s: string, def: JsValue)
    ensures SetInt(Str(s), def) == if IsIntegerText(s) then Num(ParseIntegerText(s)) else def
    ensures SetInt(Str("1.5"), def) == def && SetInt(Str(""), def) == def && SetInt(NaN, def) == def
  {
    assert !AllDigits("1.5") by { assert !IsDigit("1.5"[1]); }
    assert !AllDigits("NaN") by { assert !IsDigit("NaN"[0]); }
  }

  /** Only strings and numbers can convert. */
  lemma SetIntOthers(input: JsValue, def: JsValue)
    requires !input.Str? && !input.Num?
    ensures SetInt(input, def) == def
  {
    assert IsIntegerText("NaN") == false by { assert !IsDigit("NaN"[0]); }
  }

  // ---- Properties of setBool ----

  /** `s` spells `word` (given in upper case) in any mix of ASCII upper and lower case. */
  predicate AnyCase(s: string, word: string) {
    |s| == |word| && forall i :: 0 <= i < |s| ==> s[i] == word[i] || s[i] == LowerChar(word[i])
  }

  /** A text of upper-case ASCII letters and digits. */
  predicate UpperAlnum(word: string) {
    forall i :: 0 <= i < |word| ==> ('A' <= word[i] <= 'Z') || IsDigit(word[i])
  }

  lemma UpperCaseMatchesAnyCase(s: string, word: string)
    requires UpperAlnum(word)
    ensures ToUpperAscii(s) == word <==> AnyCase(s, word)
  {
    if AnyCase(s, word) {
      assert forall i :: 0 <= i < |s| ==> ToUpperAscii(s)[i] == word[i];
    }
    if ToUpperAscii(s) == word {
      forall i | 0 <= i < |s| ensures s[i] == word[i] || s[i] == LowerChar(word[i]) {
        assert UpperChar(s[i]) == word[i];
      }
    }
  }

  lemma SpellingsAreUpperAlnum()
    ensures forall w :: w in TrueSpellings + FalseSpellings ==> UpperAlnum(w)
  {
  }

  /** "y", "1", "true", "t" and "yes" in any case give true. */
  lemma SetBoolTrueSpellings(s: string, word: string, def: JsValue)
    requires word in TrueSpellings && AnyCase(s, word)
    ensures SetBool(Str(s), def) == Bool(true)
  {
    SpellingsAreUpperAlnum();
    UpperCaseMatchesAnyCase(s, word);
  }

  /** "n", "0", "false", "f" and "no" in any case give false. */
  lemma SetBoolFalseSpellings(s: string, word: string, def: JsValue)
    requires word in FalseSpellings && AnyCase(s, word)
    ensures SetBool(Str(s), def) == Bool(false)
  {
    SpellingsAreUpperAlnum();
    UpperCaseMatchesAnyCase(s, word);
    assert ToUpperAscii(s) !in TrueSpellings;
  }

  /** Every other string gives the default. */
  lemma SetBoolOtherStrings(s: string, def: JsValue)
    requires forall w :: w in TrueSpellings + FalseSpellings ==> !AnyCase(s, w)
    ensures SetBool(Str(s), def) == def
  {
    SpellingsAreUpperAlnum();
    var u := ToUpperAscii(s);
    if u in TrueSpellings + FalseSpellings {
      UpperCaseMatchesAnyCase(s, u);
    }
  }

  /** The number 1 gives true, 0 gives false, any other number (NaN included) the default. */
  lemma SetBoolNumbers(n: int, def: JsValue)
    ensures SetBool(Num(n), def) == if n == 1 then Bool(true) else if n == 0 then Bool(false) else def
    ensures SetBool(NaN, def) == def
  {
  }

  /** Values that are neither booleans, strings nor numbers give the default. */
  lemma SetBoolOthers(input: JsValue, def: JsValue)
    requires !input.Bool? && !input.Str? && !input.Num? && !input.NaN?
    ensures SetBool(input, def) == def
  {
  }
}
