/** The server's reply envelope: `ApiResponse` for success, `ApiError` for
    anticipated failures, and the final error handler that turns any thrown
    error into a status and a JSON body. */
module Api {
  import opened Basics

  /** What a handler throws. `ApiError` carries a status and a message and
      always has `success == false`; any other error (a library error, a
      `TypeError`) is an `OtherError` with its own text and stack trace. */
  datatype Error =
    | ApiError(statusCode: nat, message: string)
    | OtherError(message: string, stack: string)
  {
    /** The `success` property an error object carries: `false` on an
        `ApiError`, absent on anything else. */
    function Success(): Option<bool> {
      if ApiError? then Some(false) else None
    }
  }

  /** A JSON reply body. A key whose value is `undefined` does not appear in
      the serialised JSON, so each optional key is `None` when absent; `stack`
      is `Some(None)` when present with the value `null`. */
  datatype Envelope<D> = Envelope(success: Option<bool>, message: string, data: Option<D>, stack: Option<Option<string>>)

  datatype Reply<D> = Reply(status: nat, body: Envelope<D>)

  /** What a request handler does: reply with a status, a message and optional
      data wrapped in an `ApiResponse`, or throw. */
  datatype Outcome<D> =
    | Respond(status: nat, message: string, data: Option<D>)
    | Throw(error: Error)

  const InternalServerError := "Internal server error."

  /** `new ApiResponse(message, data)`. */
  function ApiResponse<D>(message: string, data: Option<D>): (e: Envelope<D>)
    ensures e.success == Some(true)
    ensures e.message == message && e.data == data
    ensures e.stack.None?
  {
    Envelope(Some(true), message, data, None)
  }

  /** The error middleware: an `ApiError` becomes its own status with exactly
      `{success, message}`; anything else becomes 500 with a fixed message,
      and a stack trace only when `NODE_ENV` is exactly "development". */
  function ErrorHandler<D>(err: Error, nodeEnv: Option<string>): (r: Reply<D>)
    ensures err.ApiError? ==> r.status == err.statusCode
    ensures err.ApiError? ==> r.body == Envelope(Some(false), err.message, None, None)
    ensures err.OtherError? ==> r.status == 500 && r.body.success.None?
    ensures err.OtherError? ==> r.body.message == InternalServerError
    ensures r.body.data.None?
  {
    match err
    case ApiError(code, msg) => Reply(code, Envelope(err.Success(), msg, None, None))
    case OtherError(_, trace) =>
      Reply(500, Envelope(err.Success(), InternalServerError, None,
        Some(if nodeEnv == Some("development") then Some(trace) else None)))
  }

  /** The reply a client sees for a handler's outcome: a response keeps its
      status, message and data under `success: true`; a thrown `ApiError`
      keeps its status and message under `success: false`; anything else
      thrown is a 500 with the fixed message and no `success` key. */
  function Complete<D>(o: Outcome<D>, nodeEnv: Option<string>): (r: Reply<D>)
    ensures r.body.success == Some(true) <==> o.Respond?
    ensures o.Respond? ==>
      r.status == o.status && r.body.message == o.message && r.body.data == o.data && r.body.stack.None?
    ensures o.Throw? && o.error.ApiError? ==>
      r.status == o.error.statusCode && r.body == Envelope(Some(false), o.error.message, None, None)
    ensures o.Throw? && o.error.OtherError? ==>
      r.status == 500 && r.body.success.None? && r.body.message == InternalServerError && r.body.data.None?
  {
    match o
    case Respond(status, msg, data) => Reply(status, ApiResponse(msg, data))
    case Throw(err) => ErrorHandler(err, nodeEnv)
  }

  /** The body's `success` key tells a success envelope from every error
      reply: it is `true` exactly for an `ApiResponse`. */
  lemma SuccessKeySeparates<D>(o: Outcome<D>, nodeEnv: Option<string>)
    ensures Complete(o, nodeEnv).body.success == Some(true) <==> o.Respond?
    ensures o.Throw? && o.error.ApiError? ==> Complete(o, nodeEnv).body.success == Some(false)
  {
  }

  /** Only an `ApiError`'s own message reaches the client; every other error
      gets the same body, whatever its text, so nothing of it leaks except,
      in development, its stack trace. */
  lemma OtherErrorTextHidden<D>(m1: string, m2: string, stack: string, nodeEnv: Option<string>)
    ensures ErrorHandler<D>(OtherError(m1, stack), nodeEnv) == ErrorHandler<D>(OtherError(m2, stack), nodeEnv)
    ensures nodeEnv != Some("development") ==>
      forall s1, s2 :: ErrorHandler<D>(OtherError(m1, s1), nodeEnv) == ErrorHandler<D>(OtherError(m2, s2), nodeEnv)
  {
  }

  /** A stack trace is in the body exactly for a non-`ApiError` in
      development; otherwise `stack` is `null` for other errors and absent for
      an `ApiError`. */
  lemma StackOnlyInDevelopment<D>(err: Error, nodeEnv: Option<string>)
    ensures (ErrorHandler<D>(err, nodeEnv).body.stack.Some? && ErrorHandler<D>(err, nodeEnv).body.stack.value.Some?)
      <==> err.OtherError? && nodeEnv == Some("development")
    ensures err.OtherError? && nodeEnv == Some("development") ==>
      ErrorHandler<D>(err, nodeEnv).body.stack == Some(Some(err.stack))
    ensures err.OtherError? && nodeEnv != Some("development") ==>
      ErrorHandler<D>(err, nodeEnv).body.stack == Some(None)
    ensures err.ApiError? ==> ErrorHandler<D>(err, nodeEnv).body.stack.None?
  {
  }
}
