/** The `validate(schema)` middleware: parse the request body, replace it
    with the parsed output and pass control on, or stop the request with a
    409 `ApiError` carrying the first issue's message. */
module ValidationMiddleware {
  import opened Basics
  import opened Zod
  import opened Api

  const ValidationStatus: nat := 409

  /** Where a request goes after the middleware: on to the next handler with
      the replaced body, or to the error handler with the body untouched. */
  datatype Gate =
    | Next(body: Body)
    | Reject(error: Error, body: Body)

  function Validate(schema: Schema, body: Body, emailOk: string -> bool): (g: Gate)
    ensures g.Next? <==> Parse(schema, body, emailOk).Success?
    ensures g.Next? ==> g.body == Parse(schema, body, emailOk).value
    ensures g.Reject? ==> g.body == body && g.error.ApiError? && g.error.statusCode == 409
    ensures g.Reject? ==> g.error.message == Parse(schema, body, emailOk).error[0]
  {
    match Parse(schema, body, emailOk)
    case Success(parsed) => Next(parsed)
    case Failure(issues) => Reject(ApiError(ValidationStatus, issues[0]), body)
  }

  /** A route guarded by `validate`: the handler runs on the parsed body only
      when validation succeeds. */
  function Guarded<D>(schema: Schema, body: Body, emailOk: string -> bool, handler: Body -> Outcome<D>): (o: Outcome<D>)
    ensures Parse(schema, body, emailOk).Success? ==> o == handler(Parse(schema, body, emailOk).value)
    ensures Parse(schema, body, emailOk).Failure? ==> o.Throw?
  {
    match Validate(schema, body, emailOk)
    case Next(parsed) => handler(parsed)
    case Reject(err, _) => Throw(err)
  }

  /** A rejected request never reaches its handler: the client's reply is
      the same whatever the handler would have done, a 409 whose message is
      the first issue of the earliest failing field, and the failure message
      is that field's own first issue. */
  lemma RejectionSkipsHandler<D>(schema: Schema, body: Body, emailOk: string -> bool,
                                 h1: Body -> Outcome<D>, h2: Body -> Outcome<D>, nodeEnv: Option<string>)
    requires Parse(schema, body, emailOk).Failure?
    ensures Complete(Guarded(schema, body, emailOk, h1), nodeEnv) == Complete(Guarded(schema, body, emailOk, h2), nodeEnv)
    ensures Complete(Guarded(schema, body, emailOk, h1), nodeEnv).status == 409
    ensures exists k ::
              && 0 <= k < |schema|
              && (forall j :: 0 <= j < k ==> FieldIssues(schema[j], body, emailOk) == [])
              && FieldIssues(schema[k], body, emailOk) != []
              && Complete(Guarded(schema, body, emailOk, h1), nodeEnv).body
                 == Envelope(Some(false), FieldIssues(schema[k], body, emailOk)[0], None, None)
  {
    FirstIssueIsEarliest(schema, body, emailOk);
  }
}
