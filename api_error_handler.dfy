/**
  The shared error reply builder (`errorResponse`) and the wrapper that turns a
  route handler's exception into a 500 reply (`handleApiRoute`).
*/
module ApiErrorHandler {
  import opened Wrappers
  import Text

  /** What a handler can throw: an `Error` with its message, or any other value. */
  datatype Thrown = ErrorObject(message: string) | NonError

  /**
    `ErrorResponseOptions`. `None` is an undefined property, which takes the
    default; `details` may also be given as an explicit null, `Some(None)`.
  */
  datatype Options = Options(status: Option<int>, details: Option<Option<string>>, errorType: Option<string>)

  const NoOptions: Options := Options(None, None, None)

  datatype ErrorBody = ErrorBody(error: string, errorType: string, details: Option<string>)

  datatype ErrorReply = ErrorReply(status: int, body: ErrorBody)

  /** The JSON error reply; the timestamp and the console line are not modelled. */
  function ErrorResponse(message: string, options: Options): (r: ErrorReply)
    ensures r.body.error == message
    ensures options.status.None? ==> r.status == 500
    ensures options.status.Some? ==> r.status == options.status.value
    ensures options.details.None? ==> r.body.details.None?
    ensures options.details.Some? ==> r.body.details == options.details.value
    ensures options.errorType.None? ==> r.body.errorType == "UNKNOWN_ERROR"
    ensures options.errorType.Some? ==> r.body.errorType == options.errorType.value
  {
    ErrorReply(
      options.status.GetOr(500),
      ErrorBody(message, options.errorType.GetOr("UNKNOWN_ERROR"), options.details.GetOr(None)))
  }

  /** `error instanceof Error ? error.message : 'Unknown error occurred'`. */
  function ThrownMessage(t: Thrown): string {
    match t
    case ErrorObject(m) => m
    case NonError => "Unknown error occurred"
  }

  /** The message test that labels an error as a database error (case-sensitive). */
  predicate MentionsDatabase(message: string) {
    Text.Contains(message, "Prisma") || Text.Contains(message, "database") || Text.Contains(message, "connection")
  }

  /** How the wrapped handler ended: with a response, or by throwing. */
  datatype Outcome<R> = Returned(response: R) | Threw(thrown: Thrown)

  /** What `handleApiRoute` answers: the handler's own response, or an error reply. */
  datatype Reply<R> = Passed(response: R) | Caught(reply: ErrorReply)

  const CaughtMessage := "An error occurred while processing your request"

  function HandleApiRoute<R>(outcome: Outcome<R>): (r: Reply<R>)
    ensures outcome.Returned? ==> r == Passed(outcome.response)
    ensures outcome.Threw? ==> r.Caught? && r.reply.status == 500 && r.reply.body.error == CaughtMessage
    ensures outcome.Threw? ==> r.reply.body.details == Some(ThrownMessage(outcome.thrown))
    ensures outcome == Threw(NonError) ==> r.reply.body.details == Some("Unknown error occurred")
    ensures outcome.Threw? ==> r.reply.body.errorType in {"DATABASE_ERROR", "SERVER_ERROR"}
  {
    match outcome
    case Returned(response) => Passed(response)
    case Threw(t) =>
      var message := ThrownMessage(t);
      Caught(ErrorResponse(CaughtMessage,
        Options(Some(500), Some(Some(message)), Some(if MentionsDatabase(message) then "DATABASE_ERROR" else "SERVER_ERROR"))))
  }

  /**
    A caught error is typed DATABASE_ERROR exactly when its message has one of
    "Prisma", "database" or "connection" somewhere in it, and SERVER_ERROR otherwise.
  */
  lemma DatabaseClassification<R>(t: Thrown)
    ensures var m := ThrownMessage(t);
      var r := HandleApiRoute<R>(Threw(t));
      (r.reply.body.errorType == "DATABASE_ERROR" <==>
        (exists i :: Text.OccursAt(m, "Prisma", i))
        || (exists i :: Text.OccursAt(m, "database", i))
        || (exists i :: Text.OccursAt(m, "connection", i)))
      && (r.reply.body.errorType == "SERVER_ERROR" <==> !MentionsDatabase(m))
  {
    var m := ThrownMessage(t);
    Text.ContainsIff(m, "Prisma");
    Text.ContainsIff(m, "database");
    Text.ContainsIff(m, "connection");
  }
}
