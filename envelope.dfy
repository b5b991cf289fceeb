/**
  The response envelope: `successHandler`, `ApiError` with `errorHandler`, and
  `responseHandler`, which picks one of the two from the status code. The handlers
  return the response they would write (HTTP status plus JSON body) instead of
  writing it to Express's `res`.
 */
module Envelope {
  import opened Wrappers
  import opened Json

  /** `ApiError`: an Error carrying the status code, message and detail it was built with. */
  datatype ApiError = ApiError(statusCode: int, message: string, errorData: Payload)

  /** The four-field body both handlers send. */
  datatype Body = Body(success: bool, statusCode: int, message: string, data: Payload)

  /** What a handler writes: `res.status(status).json(body)`. */
  datatype Response = Response(status: int, body: Body)

  /** The JSON object the body becomes on the wire; `JSON.stringify` drops `data` when it is `undefined`. */
  function Wire(b: Body): (j: Payload)
    ensures j.Obj?
    ensures j.fields.Keys == {"success", "statusCode", "message"} + (if b.data == Undefined then {} else {"data"})
    ensures "data" in j.fields ==> j.fields["data"] == b.data
    ensures j.fields["success"] == Bool(b.success)
  {
    var head := map["success" := Bool(b.success), "statusCode" := Num(b.statusCode as real), "message" := Str(b.message)];
    if b.data == Undefined then Obj(head) else Obj(head["data" := b.data])
  }

  /** `successHandler(res, data, message, statusCode)`. */
  function SuccessHandler(data: Payload, message: string, statusCode: int): (r: Response)
    ensures r.body.success
    ensures r.status == statusCode && r.body.statusCode == statusCode
    ensures r.body.message == message && r.body.data == data
  {
    Response(statusCode, Body(true, statusCode, message, data))
  }

  /** Reads an `ApiError` back off a failure response: the inverse of `ErrorHandler`. */
  function ErrorOf(r: Response): ApiError {
    ApiError(r.body.statusCode, r.body.message, r.body.data)
  }

  /** `errorHandler(res, error)`: the detail goes out under the key `data`. */
  function ErrorHandler(e: ApiError): (r: Response)
    ensures !r.body.success
    ensures r.status == e.statusCode && r.body.statusCode == e.statusCode
    ensures ErrorOf(r) == e
  {
    Response(e.statusCode, Body(false, e.statusCode, e.message, e.errorData))
  }

  /** The optional `error` part of a service response. */
  datatype ErrorInfo = ErrorInfo(message: Option<string>, data: Payload)

  /** The argument of `responseHandler`: a status, an optional message and payload, an optional error. */
  datatype ServiceResponse = ServiceResponse(status: int, message: Option<string>, data: Payload, error: Option<ErrorInfo>)

  predicate IsSuccessStatus(status: int) {
    200 <= status < 300
  }

  /** The `hasData` test: defined, not null, and at least one own key. */
  predicate HasData(d: Payload) {
    d != Undefined && d != Null && KeyCount(d) > 0
  }

  /** A string option used as a JavaScript condition: missing and empty are both falsy. */
  predicate TruthyText(s: Option<string>) {
    s.Some? && s.value != ""
  }

  const DataFound := "Data found"
  const NoDataFound := "No data found"
  const UnknownError := "Unknown error"
  const ErrorDataNotFound := "Error data not found"

  /** `responseHandler(res, serviceResponse)`. */
  function ResponseHandler(sr: ServiceResponse): (r: Response)
    ensures r.status == sr.status && r.body.statusCode == sr.status
    ensures r.body.success <==> IsSuccessStatus(sr.status)
    // success path: the payload survives only when it has data; otherwise null goes out
    ensures r.body.success && HasData(sr.data) ==> r.body.data == sr.data
    ensures r.body.success && !HasData(sr.data) ==> r.body.data == Null
    // success path: an explicit non-empty message wins over both defaults
    ensures r.body.success && TruthyText(sr.message) ==> r.body.message == sr.message.value
    ensures r.body.success && !TruthyText(sr.message) ==>
              r.body.message == if HasData(sr.data) then DataFound else NoDataFound
    // error path: falsy message and falsy detail are replaced by fixed text
    ensures !r.body.success && sr.error.Some? && TruthyText(sr.error.value.message) ==>
              r.body.message == sr.error.value.message.value
    ensures !r.body.success && !(sr.error.Some? && TruthyText(sr.error.value.message)) ==>
              r.body.message == UnknownError
    ensures !r.body.success && sr.error.Some? && Truthy(sr.error.value.data) ==>
              r.body.data == sr.error.value.data
    ensures !r.body.success && !(sr.error.Some? && Truthy(sr.error.value.data)) ==>
              r.body.data == Str(ErrorDataNotFound)
  {
    if IsSuccessStatus(sr.status) then
      var hasData := HasData(sr.data);
      var message := if TruthyText(sr.message) then sr.message.value
                     else if hasData then DataFound else NoDataFound;
      var data := if hasData then sr.data else Null;
      SuccessHandler(data, message, sr.status)
    else
      var message := if sr.error.Some? && TruthyText(sr.error.value.message) then sr.error.value.message.value
                     else UnknownError;
      var data := if sr.error.Some? && Truthy(sr.error.value.data) then sr.error.value.data
                  else Str(ErrorDataNotFound);
      ErrorHandler(ApiError(sr.status, message, data))
  }

  /** What `responseHandler` guarantees of every body it sends, whatever the service returned:
      success follows the status class, a success never carries an empty payload, a failure
      always carries a non-empty message and truthy detail, and all four keys reach the wire. */
  predicate WellFormed(r: Response) {
    && r.status == r.body.statusCode
    && (r.body.success <==> IsSuccessStatus(r.status))
    && r.body.message != ""
    && (r.body.success ==> r.body.data == Null || HasData(r.body.data))
    && (!r.body.success ==> Truthy(r.body.data))
    && Wire(r.body).fields.Keys == {"success", "statusCode", "message", "data"}
  }

  lemma ResponseHandlerWellFormed(sr: ServiceResponse)
    ensures WellFormed(ResponseHandler(sr))
  {
    var r := ResponseHandler(sr);
    assert r.body.data != Undefined;
  }

  /** The payload classification stated without `KeyCount`: exactly the non-empty objects,
      arrays and strings count as data; numbers, booleans and empty containers do not. */
  lemma HasDataExactly(d: Payload)
    ensures HasData(d) <==> (d.Obj? && d.fields != map[]) || (d.Arr? && d.items != []) || (d.Str? && d.s != "")
  {
  }
}
