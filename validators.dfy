/**
 * The application's input validators (validators/index.js).
 *
 * The module defines and exports only `validString`. The data layer also
 * calls `validInt`, `validZip` and `validID` on it; a member the module does
 * not export reads as `undefined`, so calling it throws a TypeError. The
 * members besides `validString` are therefore a parameter, `Checks`, with
 * `Exported` for the module as it is and `Intended` for the three checks the
 * data layer expects.
 */
module Validators {
  import opened Strings
  import opened JsValues
  import opened Throws

  /**
   * `validString(str)`: false for `null` and `undefined`, for non-strings, for
   * the empty string and for a string `trim` empties; true otherwise.
   */
  function ValidString(v: JsValue): (r: bool)
    ensures r <==> v.Str? && !AllWhitespace(v.s)
  {
    if v == Null || v == Undefined then false
    else if TypeOf(v) != "string" then false
    else if |v.s| == 0 then false
    else
      TrimEmptyIff(v.s);
      |Trim(v.s)| != 0
  }

  /** `validString` picks out exactly the strings with a character `trim` keeps. */
  lemma ValidStringCases(v: JsValue)
    ensures v == Null || v == Undefined ==> !ValidString(v)
    ensures !v.Str? ==> !ValidString(v)
    ensures v == Str("") ==> !ValidString(v)
    ensures v.Str? ==> (ValidString(v) <==> Trim(v.s) != [])
  {
    if v.Str? {
      TrimEmptyIff(v.s);
    }
  }

  /** The members of the validators module other than `validString`, when it has them. */
  datatype Checks = Checks(
    validInt: Option<JsValue -> bool>,
    validZip: Option<JsValue -> bool>,
    validID: Option<JsValue -> bool>)

  /** The module as written: `module.exports = {validString}`. */
  const Exported: Checks := Checks(None, None, None)

  /** `callee(v)` for a member of the module: its answer, or a TypeError when the module lacks it. */
  function CallCheck(check: Option<JsValue -> bool>, callee: string, v: JsValue): (r: Result<bool>)
    ensures r.Throw? <==> check.None?
    ensures r.Throw? ==> r.thrown == NotAFunction(callee)
  {
    match check
    case None => Throw(NotAFunction(callee))
    case Some(f) => Ok(f(v))
  }

  /** Every call of a check the module lacks throws. */
  lemma ExportedChecksThrow(v: JsValue)
    ensures CallCheck(Exported.validInt, "validators.validInt", v).Throw?
    ensures CallCheck(Exported.validZip, "validators.validZip", v).Throw?
    ensures CallCheck(Exported.validID, "validators.validID", v).Throw?
  {
  }

  // ---- The checks the data layer expects ----

  predicate IsHexDigit(c: char) {
    '0' <= c <= '9' || 'a' <= c <= 'f' || 'A' <= c <= 'F'
  }

  /** An integer number; a numeric string is not one. */
  function ValidInt(v: JsValue): (r: bool)
    ensures r <==> v.Num?
  {
    v.Num?
  }

  /** A string of exactly five decimal digits. */
  function ValidZip(v: JsValue): (r: bool)
    ensures r ==> ValidString(v)
  {
    v.Str? && |v.s| == 5 && AllDigits(v.s)
  }

  /** A valid string of 24 hexadecimal digits: the text of an object id. */
  function ValidId(v: JsValue): (r: bool)
    ensures r ==> ValidString(v)
    ensures r <==> v.Str? && |v.s| == 24 && forall i :: 0 <= i < |v.s| ==> IsHexDigit(v.s[i])
  {
    ValidString(v) && |v.s| == 24 && forall i :: 0 <= i < |v.s| ==> IsHexDigit(v.s[i])
  }

  /** The module with the three checks the data layer calls. */
  const Intended: Checks := Checks(Some(ValidInt), Some(ValidZip), Some(ValidId))

  /** With the intended checks, no call throws and each answers its check. */
  lemma IntendedChecksAnswer(v: JsValue)
    ensures CallCheck(Intended.validInt, "validators.validInt", v) == Ok(v.Num?)
    ensures CallCheck(Intended.validZip, "validators.validZip", v) == Ok(ValidZip(v))
    ensures CallCheck(Intended.validID, "validators.validID", v) == Ok(ValidId(v))
  {
  }

  /** Some zip codes: five digits pass, four digits or letters do not. */
  lemma ZipExamples()
    ensures ValidZip(Str("07053"))
    ensures !ValidZip(Str("7053")) && !ValidZip(Str("abcde")) && !ValidZip(Num(7053))
  {
    assert !IsDigit('a');
  }
}
