/**
 * The JSON envelopes every endpoint answers with (src/utils/responseHandler.js).
 * An omitted argument is `None`; the defaults are the ones the source
 * declares.
 */
module ResponseHandler {
  import opened Wrappers

  /**
   * The JSON body: `{success: true, message, data}` or
   * `{success: false, message}` with an `errors` key only when errors were given.
   */
  datatype Body<D> =
    | SuccessBody(message: string, data: D)
    | ErrorBody(message: string, errors: Option<seq<string>>)
  {
    /** The `success` field of the JSON body. */
    predicate Succeeded() {
      SuccessBody?
    }
  }

  /** The HTTP status set on the response and the body sent with it. */
  datatype Response<D> = Response(status: int, body: Body<D>)

  const DefaultSuccessMessage := "Success"
  const DefaultSuccessStatus := 200
  const DefaultErrorMessage := "Error"
  const DefaultErrorStatus := 500

  /**
   * `sendSuccess(res, data, message, statusCode)`: a successful envelope
   * carrying `data`; the message defaults to 'Success' and the status to 200
   * only when omitted.
   */
  function SendSuccess<D>(data: D, message: Option<string>, status: Option<int>): (r: Response<D>)
    ensures r.body.Succeeded() && r.body.data == data
    ensures message.Some? ==> r.body.message == message.value
    ensures message.None? ==> r.body.message == DefaultSuccessMessage
    ensures status.Some? ==> r.status == status.value
    ensures status.None? ==> r.status == DefaultSuccessStatus
  {
    Response(status.GetOr(DefaultSuccessStatus), SuccessBody(message.GetOr(DefaultSuccessMessage), data))
  }

  /**
   * `sendError(res, message, statusCode, errors)`: a failed envelope; the
   * message defaults to 'Error' and the status to 500, and the `errors` key
   * appears exactly when an errors array was passed (an empty array is
   * truthy too).
   */
  function SendError<D>(message: Option<string>, status: Option<int>, errors: Option<seq<string>>): (r: Response<D>)
    ensures !r.body.Succeeded()
    ensures message.Some? ==> r.body.message == message.value
    ensures message.None? ==> r.body.message == DefaultErrorMessage
    ensures status.Some? ==> r.status == status.value
    ensures status.None? ==> r.status == DefaultErrorStatus
    ensures r.body.errors.Some? <==> errors.Some?
    ensures errors.Some? ==> r.body.errors.value == errors.value
  {
    Response(status.GetOr(DefaultErrorStatus), ErrorBody(message.GetOr(DefaultErrorMessage), errors))
  }

  /** A client tells the two envelopes apart by `success`: no success response equals an error response. */
  lemma EnvelopesDistinct<D>(data: D, m1: Option<string>, s1: Option<int>,
                             m2: Option<string>, s2: Option<int>, errors: Option<seq<string>>)
    ensures SendSuccess(data, m1, s1).body.Succeeded() && !SendError<D>(m2, s2, errors).body.Succeeded()
    ensures SendSuccess(data, m1, s1) != SendError<D>(m2, s2, errors)
  {
  }

  /** Omitting an argument is the same as passing its default explicitly. */
  lemma DefaultsAreExplicit<D>(data: D, errors: Option<seq<string>>)
    ensures SendSuccess(data, None, None) == SendSuccess(data, Some(DefaultSuccessMessage), Some(DefaultSuccessStatus))
    ensures SendError<D>(None, None, errors) == SendError<D>(Some(DefaultErrorMessage), Some(DefaultErrorStatus), errors)
  {
  }

  /** Given explicitly, every argument of `sendError` can be read back from what is sent. */
  lemma SendErrorReadBack<D>(m1: string, s1: int, e1: Option<seq<string>>, m2: string, s2: int, e2: Option<seq<string>>)
    ensures SendError<D>(Some(m1), Some(s1), e1) == SendError<D>(Some(m2), Some(s2), e2) <==> m1 == m2 && s1 == s2 && e1 == e2
  {
  }

  /** Given explicitly, the message, status and data of `sendSuccess` can be read back from what is sent. */
  lemma SendSuccessReadBack<D>(d1: D, m1: string, s1: int, d2: D, m2: string, s2: int)
    ensures SendSuccess(d1, Some(m1), Some(s1)) == SendSuccess(d2, Some(m2), Some(s2)) <==> d1 == d2 && m1 == m2 && s1 == s2
  {
  }
}
