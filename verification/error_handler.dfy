/**
 * The global error middleware (src/middleware/errorHandler.js): classifies a
 * thrown error into the error envelope sent back. Logging is not modelled.
 */
module ErrorHandler {
  import opened Wrappers
  import opened ResponseHandler

  /**
   * The parts of a thrown error the middleware reads; `errors` lists the
   * `message` of each entry of `err.errors`, in the object's key order, and
   * is None when the error carries no `errors` object.
   */
  datatype ErrorObj = ErrorObj(
    name: Option<string>, code: Option<int>, statusCode: Option<int>,
    message: Option<string>, errors: Option<seq<string>>)

  const DuplicateKeyCode := 11000

  /** `err.statusCode || 500`: an absent or zero status falls back to 500. */
  function StatusOrDefault(err: ErrorObj): (r: int)
    ensures r != 0
    ensures err.statusCode.Some? && err.statusCode.value != 0 ==> r == err.statusCode.value
  {
    if err.statusCode.Some? && err.statusCode.value != 0 then err.statusCode.value else DefaultErrorStatus
  }

  /** `err.message || 'Internal Server Error'`: an absent or empty message falls back. */
  function MessageOrDefault(err: ErrorObj): (r: string)
    ensures r != ""
    ensures err.message.Some? && err.message.value != "" ==> r == err.message.value
  {
    if err.message.Some? && err.message.value != "" then err.message.value else "Internal Server Error"
  }

  /** What `Object.values(undefined)` throws: the middleware itself fails and sends nothing. */
  const NoErrorsObject := "TypeError: Cannot convert undefined or null to object"

  /**
   * `errorHandler(err, req, res, next)`. The branches are tried in order and
   * the first that matches answers: a validation error (400, 'Validation
   * Error', the field messages), a duplicate key (400, 'Duplicate entry
   * found'), a cast error (400, 'Invalid ID format'), and otherwise the
   * error's own status and message with their fallbacks. Only the first
   * branch sends an `errors` key. A validation error without an `errors`
   * object makes the handler throw before anything is sent.
   */
  function HandleError(err: ErrorObj): (r: Result<Response<()>>)
    ensures r.Failure? <==> err.name == Some("ValidationError") && err.errors.None?
    ensures r.Failure? ==> r.error == NoErrorsObject
    ensures r.Success? ==> !r.value.body.Succeeded()
    ensures r.Success? ==> (r.value.body.errors.Some? <==> err.name == Some("ValidationError"))
    ensures err.name == Some("ValidationError") && err.errors.Some? ==>
              r == Success(Response(400, ErrorBody("Validation Error", err.errors)))
    ensures err.name != Some("ValidationError") && err.code == Some(DuplicateKeyCode) ==>
              r == Success(Response(400, ErrorBody("Duplicate entry found", None)))
    ensures err.name == Some("CastError") && err.code != Some(DuplicateKeyCode) ==>
              r == Success(Response(400, ErrorBody("Invalid ID format", None)))
    ensures err.name != Some("ValidationError") && err.name != Some("CastError") && err.code != Some(DuplicateKeyCode) ==>
              r == Success(Response(StatusOrDefault(err), ErrorBody(MessageOrDefault(err), None)))
  {
    if err.name == Some("ValidationError") then
      if err.errors.None? then Failure(NoErrorsObject)
      else Success(SendError(Some("Validation Error"), Some(400), err.errors))
    else if err.code == Some(DuplicateKeyCode) then
      Success(SendError(Some("Duplicate entry found"), Some(400), None))
    else if err.name == Some("CastError") then
      Success(SendError(Some("Invalid ID format"), Some(400), None))
    else
      Success(SendError(Some(MessageOrDefault(err)), Some(StatusOrDefault(err)), None))
  }

  /** The four branches of the middleware, each described without reference to the order they are tried in. */
  predicate IsValidation(err: ErrorObj) { err.name == Some("ValidationError") }
  predicate IsDuplicate(err: ErrorObj) { err.name != Some("ValidationError") && err.code == Some(DuplicateKeyCode) }
  predicate IsCast(err: ErrorObj) { err.name == Some("CastError") && err.code != Some(DuplicateKeyCode) }
  predicate IsOther(err: ErrorObj) {
    err.name != Some("ValidationError") && err.name != Some("CastError") && err.code != Some(DuplicateKeyCode)
  }

  function Indicator(b: bool): nat { if b then 1 else 0 }

  /** Every error falls in exactly one branch. */
  lemma BranchesPartition(err: ErrorObj)
    ensures Indicator(IsValidation(err)) + Indicator(IsDuplicate(err)) + Indicator(IsCast(err)) + Indicator(IsOther(err)) == 1
  {
  }

  /**
   * The handler answers 400 exactly for validation, duplicate-key and cast
   * errors, and for other errors whose own status is 400.
   */
  lemma HandleErrorBadRequest(err: ErrorObj)
    requires HandleError(err).Success?
    ensures HandleError(err).value.status == 400 <==>
              err.name == Some("ValidationError") || err.name == Some("CastError") ||
              err.code == Some(DuplicateKeyCode) || StatusOrDefault(err) == 400
  {
  }
}
