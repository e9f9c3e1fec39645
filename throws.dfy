/**
 * What a JavaScript function can throw, and the result of a call that either
 * returns a value or throws.
 */
module Throws {
  import opened JsValues

  /**
   * A thrown value: an `Error` object (its constructor name, its message, the
   * `value` and `params` properties the library's `Exception` helper attaches),
   * the TypeError "DATATYPE_NOT_VALID" that carries the offending `type` of a
   * model definition, or any other value thrown as it is (the application
   * throws strings).
   */
  datatype Thrown =
    | Error(name: string, message: string, value: JsValue, params: Option<seq<JsValue>>)
    | DatatypeError(typ: JsValue)
    | Raw(v: JsValue)

  datatype Option<T> = None | Some(value: T)

  datatype Result<T> = Ok(value: T) | Throw(thrown: Thrown)
  {
    predicate IsFailure() {
      Throw?
    }

    function PropagateFailure<U>(): Result<U>
      requires Throw?
    {
      Throw(thrown)
    }

    function Extract(): T
      requires Ok?
    {
      value
    }
  }

  /** `new Error(message)`: no value, no params. */
  function PlainError(message: string): Thrown
  {
    Error("Error", message, Undefined, None)
  }

  /** `new TypeError(message)`. */
  function TypeError(message: string): Thrown
  {
    Error("TypeError", message, Undefined, None)
  }

  /** The message a caught value exposes: `err.message`. */
  function ThrownMessage(t: Thrown): JsValue {
    match t
    case Error(_, message, _, _) => Str(message)
    case DatatypeError(_) => Str("DATATYPE_NOT_VALID")
    case Raw(v) => GetProperty(v, "message")
  }

  /**
   * Reading `err.message` in a catch block: the message, except that a caught
   * `null` or `undefined` has no properties, so the read throws a TypeError.
   */
  function CaughtMessage(t: Thrown): (r: Result<JsValue>)
    ensures r.Throw? <==> t.Raw? && (t.v.Null? || t.v.Undefined?)
    ensures r.Ok? ==> r.value == ThrownMessage(t)
    ensures r.Throw? ==> r.thrown.Error? && r.thrown.name == "TypeError"
  {
    if t == Raw(Null) then Throw(TypeError("Cannot read properties of null (reading 'message')"))
    else if t == Raw(Undefined) then Throw(TypeError("Cannot read properties of undefined (reading 'message')"))
    else Ok(ThrownMessage(t))
  }

  /** The `params` a caught value exposes, when it is an Error that has them. */
  function ThrownParams(t: Thrown): Option<seq<JsValue>> {
    if t.Error? then t.params else None
  }

  /** The TypeError for calling something that is not a function: `callee is not a function`. */
  function NotAFunction(callee: string): Thrown
  {
    TypeError(callee + " is not a function")
  }

  /** A string thrown by the application (`throw "Error: ..."`). */
  function Message(s: string): Thrown
  {
    Raw(Str(s))
  }
}
