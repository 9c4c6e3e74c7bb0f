/**
 * The request-validation gate (src/middleware/validateRequest.js): after the
 * route's validation chains ran, either the request goes on to its handler
 * or a 400 answer lists every validation message.
 */
module ValidateRequest {
  import opened Wrappers
  import opened ResponseHandler

  /** One entry of `validationResult(req).array()`: the field and its message. */
  datatype FieldError = FieldError(path: string, msg: string)

  /** Exactly one of: call `next()`, or send a response. */
  datatype Gate = Next | Respond(response: Response<()>)

  /** `errors.array().map((err) => err.msg)`. */
  function Messages(errs: seq<FieldError>): (r: seq<string>)
    ensures |r| == |errs|
    ensures forall i :: 0 <= i < |errs| ==> r[i] == errs[i].msg
  {
    if errs == [] then [] else [errs[0].msg] + Messages(errs[1..])
  }

  /**
   * `validateRequest(req, res, next)`: with no errors the request passes on
   * and nothing is sent; otherwise a 400 'Validation failed' answer carries
   * the messages, same number and same order, and `next` is not called.
   */
  function Validate(errs: seq<FieldError>): (r: Gate)
    ensures r.Next? <==> errs == []
    ensures r.Respond? ==> r.response.status == 400
    ensures r.Respond? ==> r.response.body == ErrorBody("Validation failed", Some(Messages(errs)))
  {
    if errs == [] then Next
    else Respond(SendError(Some("Validation failed"), Some(400), Some(Messages(errs))))
  }
}
