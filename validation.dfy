/**
 * Validators of the datautils library (lib/validation.js): each returns true
 * or throws an `Error` built by the file's private `Exception` helper.
 */
module Validation {
  import opened Strings
  import opened JsValues
  import opened Throws
  import opened DataTypes

  /**
   * `new Exception(message, value, ...extra)`: an Error carrying the value,
   * and a `params` array only when arguments beyond the value were given.
   */
  function Exception(message: string, value: JsValue, extra: seq<JsValue>): (t: Thrown)
    ensures t.Error? && t.name == "Error" && t.message == message && t.value == value
    ensures t.params.Some? <==> |extra| > 0
    ensures t.params.Some? ==> t.params.value == extra
  {
    Error("Error", message, value, if |extra| > 0 then Some(extra) else None)
  }

  /** The values the length validators measure: strings and everything `_.isObject` accepts. */
  predicate Measurable(value: JsValue) {
    TypeOf(value) == "string" || IsObjectLike(value)
  }

  /** `required(value)`: a non-empty array, a truthy value, 0 or false. */
  function Required(value: JsValue): (r: Result<bool>)
    ensures r.Ok? ==> r.value
    ensures r.Throw? ==> r.thrown == Exception("VALUE_REQUIRED", value, [])
  {
    if InstanceOf(value, ArrayRef) then
      if |value.elems| > 0 then Ok(true) else Throw(Exception("VALUE_REQUIRED", value, []))
    else if IsTruthy(value) || StrictEquals(value, Num(0)) || StrictEquals(value, Bool(false)) then Ok(true)
    else Throw(Exception("VALUE_REQUIRED", value, []))
  }

  /** `length(value, length)`: the value's size is exactly the given integer length. */
  function Length(value: JsValue, length: JsValue): (r: Result<bool>)
    ensures r.Ok? ==> r.value
  {
    var iLength := SetInt(length, Null);
    if Measurable(value) then
      if iLength == Null then Throw(Exception("LENGTH_NOT_INTEGER", value, [length]))
      else if iLength.n < 0 then Throw(Exception("LENGTH_LESS_THAN_ZERO", value, [iLength]))
      else if !StrictEquals(Num(Size(value)), iLength) then Throw(Exception("VALUE_DOES_NOT_MATCH_LENGTH", value, [iLength]))
      else Ok(true)
    else Throw(Exception("VALUE_LENGTH_NOT_STRING", value, [length]))
  }

  /** `lengthBetween(value, minLength, maxLength)`: min <= size <= max. */
  function LengthBetween(value: JsValue, minLength: JsValue, maxLength: JsValue): (r: Result<bool>)
    ensures r.Ok? ==> r.value
  {
    var iMin := SetInt(minLength, Null);
    var iMax := SetInt(maxLength, Null);
    if Measurable(value) then
      if iMin == Null then Throw(Exception("LENGTH_BETWEEN_MINLENGTH_NOT_INTEGER", value, [iMin, iMax]))
      else if iMax == Null then Throw(Exception("LENGTH_BETWEEN_MAXLENGTH_NOT_INTEGER", value, [iMin, iMax]))
      else if iMin.n < 0 then Throw(Exception("LENGTH_BETWEEN_MINLENGTH_LESS_THAN_ZERO", value, [iMin, iMax]))
      else if iMax.n < iMin.n then Throw(Exception("LENGTH_BETWEEN_MAXLENGTH_LESS_THAN_MINLENGTH", value, [iMin, iMax]))
      else if Size(value) < iMin.n || Size(value) > iMax.n then
        Throw(Exception("VALUE_NOT_BETWEEN_MINLENGTH_AND_MAXLENGTH", value, [iMin, iMax]))
      else Ok(true)
    else Throw(Exception("VALUE_LENGTH_BETWEEN_NOT_STRING", value, [iMin, iMax]))
  }

  /** `maxLength(value, length)`: the value's size is at most the given length. */
  function MaxLength(value: JsValue, length: JsValue): (r: Result<bool>)
    ensures r.Ok? ==> r.value
  {
    var iLength := SetInt(length, Null);
    if Measurable(value) then
      if iLength == Null then Throw(Exception("MAX_LENGTH_NOT_INTEGER", value, [length]))
      else if iLength.n < 0 then Throw(Exception("MAX_LENGTH_LESS_THAN_ZERO", value, [iLength]))
      else if Size(value) > iLength.n then Throw(Exception("VALUE_GREATER_THAN_MAX_LENGTH", value, [iLength]))
      else Ok(true)
    else Throw(Exception("VALUE_MAX_LENGTH_NOT_STRING", value, [length]))
  }

  /** `minLength(value, length)`: the value's size is at least the given length. */
  function MinLength(value: JsValue, length: JsValue): (r: Result<bool>)
    ensures r.Ok? ==> r.value
  {
    var iLength := SetInt(length, Null);
    if Measurable(value) then
      if iLength == Null then Throw(Exception("MIN_LENGTH_NOT_INTEGER", value, [length]))
      else if iLength.n < 0 then Throw(Exception("MIN_LENGTH_LESS_THAN_ZERO", value, [iLength]))
      else if Size(value) < iLength.n then Throw(Exception("VALUE_LESS_THAN_MIN_LENGTH", value, [iLength]))
      else Ok(true)
    else Throw(Exception("VALUE_MIN_LENGTH_NOT_STRING", value, [length]))
  }

  // ---- Properties ----

  /** The values `required` rejects, stated independently of truthiness. */
  predicate Missing(value: JsValue) {
    value == Undefined || value == Null || value == Str("") || value == NaN || (value.Arr? && value.elems == [])
  }

  /** `required` passes exactly the values that are not missing: so 0, false and non-empty arrays pass. */
  lemma RequiredIff(value: JsValue)
    ensures Required(value).Ok? <==> !Missing(value)
    ensures Required(Num(0)).Ok? && Required(Bool(false)).Ok?
  {
  }

  /** Only the strings, arrays, objects and functions reach a bound check; anything else fails with the `*_NOT_STRING` error. */
  lemma NotMeasurableFailsFirst(value: JsValue, a: JsValue, b: JsValue)
    requires !(value.Str? || value.Arr? || value.Obj? || value.Func?)
    ensures Length(value, a) == Throw(Exception("VALUE_LENGTH_NOT_STRING", value, [a]))
    ensures MinLength(value, a) == Throw(Exception("VALUE_MIN_LENGTH_NOT_STRING", value, [a]))
    ensures MaxLength(value, a) == Throw(Exception("VALUE_MAX_LENGTH_NOT_STRING", value, [a]))
    ensures LengthBetween(value, a, b) == Throw(Exception("VALUE_LENGTH_BETWEEN_NOT_STRING", value, [SetInt(a, Null), SetInt(b, Null)]))
  {
  }

  /** With an integer length, `length` passes iff the size equals it, and otherwise names the mismatch or the negative length. */
  lemma LengthIff(value: JsValue, n: int)
    requires Measurable(value)
    ensures Length(value, Num(n)).Ok? <==> Size(value) == n
    ensures n < 0 ==> Length(value, Num(n)) == Throw(Exception("LENGTH_LESS_THAN_ZERO", value, [Num(n)]))
    ensures 0 <= n != Size(value) ==> Length(value, Num(n)) == Throw(Exception("VALUE_DOES_NOT_MATCH_LENGTH", value, [Num(n)]))
  {
    SetIntOfNumber(n, Null);
  }

  /** `maxLength` fails only when the size exceeds the bound (a size equal to it passes); a negative bound always fails. */
  lemma MaxLengthIff(value: JsValue, n: int)
    requires Measurable(value)
    ensures MaxLength(value, Num(n)).Ok? <==> 0 <= n && Size(value) <= n
    ensures n < 0 ==> MaxLength(value, Num(n)) == Throw(Exception("MAX_LENGTH_LESS_THAN_ZERO", value, [Num(n)]))
  {
    SetIntOfNumber(n, Null);
  }

  /** `minLength` fails only when the size is below the bound; a negative bound always fails. */
  lemma MinLengthIff(value: JsValue, n: int)
    requires Measurable(value)
    ensures MinLength(value, Num(n)).Ok? <==> 0 <= n && Size(value) >= n
    ensures n < 0 ==> MinLength(value, Num(n)) == Throw(Exception("MIN_LENGTH_LESS_THAN_ZERO", value, [Num(n)]))
  {
    SetIntOfNumber(n, Null);
  }

  /** With a non-negative minimum, a maximum below it fails with MAXLENGTH_LESS_THAN_MINLENGTH whatever the measured value. */
  lemma LengthBetweenInvertedBounds(value: JsValue, lo: int, hi: int)
    requires Measurable(value) && 0 <= lo && hi < lo
    ensures LengthBetween(value, Num(lo), Num(hi))
         == Throw(Exception("LENGTH_BETWEEN_MAXLENGTH_LESS_THAN_MINLENGTH", value, [Num(lo), Num(hi)]))
  {
    SetIntOfNumber(lo, Null);
    SetIntOfNumber(hi, Null);
  }

  /** With valid bounds, `lengthBetween` passes iff min <= size <= max. */
  lemma LengthBetweenIff(value: JsValue, lo: int, hi: int)
    requires Measurable(value) && 0 <= lo <= hi
    ensures LengthBetween(value, Num(lo), Num(hi)).Ok? <==> lo <= Size(value) <= hi
  {
    SetIntOfNumber(lo, Null);
    SetIntOfNumber(hi, Null);
  }

  /** A length given as decimal text behaves like the number itself. */
  lemma LengthAcceptsDecimalText(value: JsValue, n: int)
    ensures Length(value, Str(IntToDecimal(n))).Ok? == Length(value, Num(n)).Ok?
  {
    SetIntOfDecimal(n, Null);
    SetIntOfNumber(n, Null);
  }
}
