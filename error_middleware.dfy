/**
  `errorMiddleware`: the last Express handler. A thrown `ApiError` is rendered as it is;
  anything else becomes a 500 whose detail depends on `NODE_ENV`.
 */
module ErrorPipeline {
  import opened Wrappers
  import opened Json
  import opened Envelope
  import opened CustomErrors

  /** What can reach the middleware: an `ApiError`, a `CustomError` (which is an `Error`
      but not an `ApiError`), or any other error given by its string form and stack. */
  datatype Thrown =
    | Api(e: ApiError)
    | Custom(c: CustomError, stack: Option<string>)
    | Other(text: string, stack: Option<string>)

  /** `${error}` for a non-`ApiError`: `Error.prototype.toString`, whose name part is "Error"
      for `CustomError` since no subclass sets `name`. */
  function ErrorText(t: Thrown): string
    requires !t.Api?
  {
    match t
    case Custom(c, _) => if c.message == "" then "Error" else "Error: " + c.message
    case Other(text, _) => text
  }

  /** `error.stack` as a value: undefined when the error has none. */
  function StackOf(t: Thrown): Payload
    requires !t.Api?
  {
    if t.stack.Some? then Str(t.stack.value) else Undefined
  }

  const InternalPrefix := "INTERNAL_ERROR - ERROR: "
  const InternalServerErrorMessage := "Internal server error"

  /** `errorMiddleware(error, req, res, next)` with `process.env.NODE_ENV` as `nodeEnv`. */
  function ErrorMiddleware(err: Thrown, nodeEnv: Option<string>): (r: Response)
    ensures !r.body.success
    ensures r.status == r.body.statusCode
    ensures err.Api? ==> ErrorOf(r) == err.e
    ensures !err.Api? ==> r.status == 500 && r.body.message == InternalServerErrorMessage
    ensures !err.Api? && nodeEnv == Some("development") ==> r.body.data == StackOf(err)
    ensures !err.Api? && nodeEnv != Some("development") ==> r.body.data == Str(InternalPrefix + ErrorText(err))
  {
    if err.Api? then
      ErrorHandler(err.e)
    else
      var detail := if nodeEnv == Some("development") then StackOf(err) else Str(InternalPrefix + ErrorText(err));
      ErrorHandler(ApiError(500, InternalServerErrorMessage, detail))
  }

  /** Outside development the stack never reaches the wire: two errors that differ only in
      their stacks produce the same response. */
  lemma ProductionHidesStack(t: Thrown, otherStack: Option<string>, nodeEnv: Option<string>)
    requires !t.Api? && nodeEnv != Some("development")
    ensures ErrorMiddleware(t, nodeEnv) == ErrorMiddleware(t.(stack := otherStack), nodeEnv)
  {
  }

  /** The taxonomy is not recognised by the middleware: a `CustomError` of any kind, a 404
      `NotFoundError` included, is answered with 500 "Internal server error". */
  lemma CustomErrorBecomesInternal(kind: Kind, message: Option<string>, stack: Option<string>, nodeEnv: Option<string>)
    ensures var r := ErrorMiddleware(Custom(Raise(kind, message), stack), nodeEnv);
            r.status == 500 && r.body.message == InternalServerErrorMessage
    ensures kind != InternalServer ==>
              ErrorMiddleware(Custom(Raise(kind, message), stack), nodeEnv).status != KindCode(kind)
  {
  }
}
