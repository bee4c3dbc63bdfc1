/** The API-misuse checks the configuration layer delegates to. The
    validator's own implementation is not part of this model: depth
    validation is taken to reject exactly the negative depths, and the
    general check to fail exactly when its condition is false. */
module ApiValidator {
  import opened Wrappers
  import opened JavaInt

  /** The "API misuse" condition, carrying the offending values. */
  datatype ApiError =
    | InvalidDepth(depth: int32)
    | InvalidRange(lo: int, hi: int)

  /** validateDepth: hands back a non-negative depth, rejects a negative one. */
  function ValidateDepth(depth: int32): (r: Result<int32, ApiError>)
    ensures r.Success? <==> depth >= 0
    ensures r.Success? ==> r.value == depth
    ensures r.Failure? ==> r.error == InvalidDepth(depth)
  {
    if depth >= 0 then Success(depth) else Failure(InvalidDepth(depth))
  }

  /** isTrue: passes when the condition holds, otherwise raises the error. */
  function IsTrue(condition: bool, error: ApiError): (r: Option<ApiError>)
    ensures r.None? <==> condition
    ensures r.Some? ==> r.value == error
  {
    if condition then None else Some(error)
  }
}
