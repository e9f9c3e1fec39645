/**
 * Array helpers of the datautils library (lib/arrayutils.js).
 */
module ArrayUtils {
  import opened JsValues
  import opened Throws

  /** `inArray(needle, haystack)`: the haystack is an array holding an element strictly equal to the needle. */
  function InArray(needle: JsValue, haystack: JsValue): (r: bool)
    ensures r <==> haystack.Arr? && exists i :: 0 <= i < |haystack.elems| && StrictEquals(haystack.elems[i], needle)
  {
    if TypeOf(haystack) == "object" && InstanceOf(haystack, ArrayRef) then
      IndexOf(haystack.elems, needle) != -1
    else
      false
  }

  /** Because `indexOf` compares with `===`, NaN is never found, whatever the array holds. */
  lemma NaNNeverInArray(haystack: JsValue)
    ensures !InArray(NaN, haystack)
  {
  }

  /**
   * `objectValues(obj)`: the values of a plain object's properties, one per key
   * in iteration order; anything else (a primitive, null, an array, a
   * function) throws `TypeError("INPUT_NOT_OBJECT")`.
   */
  method ObjectValues(obj: JsValue) returns (r: Result<seq<JsValue>>)
    ensures !obj.Obj? <==> r == Throw(TypeError("INPUT_NOT_OBJECT"))
    ensures obj.Obj? ==> r.Ok? && |r.value| == |obj.entries|
                         && forall i :: 0 <= i < |obj.entries| ==> r.value[i] == obj.entries[i].1
  {
    if TypeOf(obj) != "object" || InstanceOf(obj, ArrayRef) || obj == Null {
      return Throw(TypeError("INPUT_NOT_OBJECT"));
    }
    var arrOut: seq<JsValue> := [];
    var i := 0;
    while i < |obj.entries|
      invariant 0 <= i <= |obj.entries|
      invariant |arrOut| == i
      invariant forall j :: 0 <= j < i ==> arrOut[j] == obj.entries[j].1
    {
      arrOut := arrOut + [obj.entries[i].1];
      i := i + 1;
    }
    return Ok(arrOut);
  }
}
