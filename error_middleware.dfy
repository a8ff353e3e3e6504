/**
 * The backend's error handling (backend/src/middlewares/error.ts): the
 * handler that defaults an error's message and status in place and answers
 * with `success: false`, and the wrapper that forwards a controller's thrown
 * error to the next handler.
 */
module ErrorMiddleware {
  import opened Wrappers
  import opened Strings

  const DefaultMessage: string := "Internal Server Error"
  const DefaultStatus: int := 500
  const PrismaMessage: string := "Prisma Query Error!"
  const PrismaPrefix: string := "Prisma"
  const DevelopmentMode: string := "DEVELOPMENT"

  /** The error's fields after the handler's defaults, as attached in development. */
  datatype ErrorFields = ErrorFields(name: string, message: string, statusCode: int)

  datatype ErrorBody = ErrorBody(success: bool, message: string, error: Option<ErrorFields>)

  /** The handler's answer: the HTTP status and the JSON body. */
  datatype Reply = Reply(status: int, body: ErrorBody)

  /** `err.message ||= ...`: an empty message is replaced. */
  function DefaultedMessage(message: string): (m: string)
    ensures message != "" ==> m == message
    ensures message == "" ==> m == DefaultMessage
    ensures m != ""
  {
    if message == "" then DefaultMessage else message
  }

  /** `err.statusCode || 500`: a missing or zero status becomes 500. */
  function DefaultedStatus(statusCode: Option<int>): (s: int)
    ensures statusCode.Some? && statusCode.value != 0 ==> s == statusCode.value
    ensures statusCode.None? || statusCode.value == 0 ==> s == DefaultStatus
    ensures s != 0
  {
    if statusCode.None? || statusCode.value == 0 then DefaultStatus else statusCode.value
  }

  /** `err.name && err.name.startsWith("Prisma")`; an absent name reads as empty. */
  predicate IsPrismaError(name: string) {
    StartsWith(name, PrismaPrefix)
  }

  /**
   * The reply for an error with these fields: never a success, the defaulted
   * status, the Prisma message for Prisma errors and the (defaulted) message
   * otherwise, and the error itself only in development.
   */
  function ErrorReply(name: string, message: string, statusCode: Option<int>, envMode: string): (r: Reply)
    ensures !r.body.success
    ensures r.status == DefaultedStatus(statusCode)
    ensures IsPrismaError(name) ==> r.body.message == PrismaMessage
    ensures !IsPrismaError(name) ==> r.body.message == DefaultedMessage(message)
    ensures r.body.error.Some? <==> envMode == DevelopmentMode
    ensures r.body.error.Some? ==>
      r.body.error.value == ErrorFields(name, DefaultedMessage(message), DefaultedStatus(statusCode))
  {
    var m := DefaultedMessage(message);
    var s := DefaultedStatus(statusCode);
    Reply(s, ErrorBody(false, if IsPrismaError(name) then PrismaMessage else m,
      if envMode == DevelopmentMode then Some(ErrorFields(name, m, s)) else None))
  }

  /** The reply never carries an empty message, and a Prisma error's own text never leaves the server outside development. */
  lemma ReplyMessageNeverEmpty(name: string, message: string, statusCode: Option<int>, envMode: string)
    ensures ErrorReply(name, message, statusCode, envMode).body.message != ""
    ensures IsPrismaError(name) && envMode != DevelopmentMode ==>
      ErrorReply(name, message, statusCode, envMode).body == ErrorBody(false, PrismaMessage, None)
  {
  }

  /** A bare `Error` without status or message answers 500 with the generic message. */
  lemma BareErrorIs500(envMode: string)
    ensures ErrorReply("Error", "", None, envMode).status == 500
    ensures ErrorReply("Error", "", None, envMode).body.message == DefaultMessage
  {
    assert !IsPrismaError("Error");
  }

  /** The thrown error object the handler receives and updates in place. */
  class HttpError {
    var name: string
    var message: string
    var statusCode: Option<int>

    constructor (name: string, message: string, statusCode: Option<int>)
      ensures this.name == name && this.message == message && this.statusCode == statusCode
    {
      this.name, this.message, this.statusCode := name, message, statusCode;
    }
  }

  /** `errorMiddleware`: defaults the error's message and status in place, then answers. */
  method HandleError(err: HttpError, envMode: string) returns (r: Reply)
    modifies err
    ensures err.name == old(err.name)
    ensures err.message == DefaultedMessage(old(err.message))
    ensures err.statusCode == Some(DefaultedStatus(old(err.statusCode)))
    ensures r == ErrorReply(old(err.name), old(err.message), old(err.statusCode), envMode)
  {
    if err.message == "" {
      err.message := DefaultMessage;
    }
    err.statusCode := Some(if err.statusCode.None? || err.statusCode.value == 0 then DefaultStatus else err.statusCode.value);
    var prismaError := false;
    if err.name != "" && StartsWith(err.name, PrismaPrefix) {
      prismaError := true;
    }
    var body := ErrorBody(false, if prismaError then PrismaMessage else err.message, None);
    if envMode == DevelopmentMode {
      body := body.(error := Some(ErrorFields(err.name, err.message, err.statusCode.value)));
    }
    r := Reply(err.statusCode.value, body);
  }

  /** How a controller run ended: it returned, or it threw. */
  datatype Completion<E> = Returned | Threw(error: E)

  /**
   * `AsyncHandler`: the errors passed to `next`, given those the controller
   * passed itself and how it ended; the thrown error is forwarded as is.
   */
  function AsyncHandler<E>(controllerNextCalls: seq<E>, completion: Completion<E>): (calls: seq<E>)
    ensures completion.Returned? ==> calls == controllerNextCalls
    ensures completion.Threw? ==> calls == controllerNextCalls + [completion.error]
    ensures |calls| <= |controllerNextCalls| + 1
  {
    match completion
    case Returned => controllerNextCalls
    case Threw(e) => controllerNextCalls + [e]
  }

  /** A controller that throws without calling `next` reaches the error handler exactly once, with its own error. */
  lemma ThrownErrorReachesHandlerOnce<E>(e: E)
    ensures AsyncHandler([], Threw(e)) == [e]
    ensures AsyncHandler<E>([], Returned) == []
  {
  }
}
