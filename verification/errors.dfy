/** The worker's error taxonomy and its mapping to HTTP responses
    (worker/src/errorHandler.js): the `AppError` classes with their
    statuses, `withErrorHandling`, `createErrorResponse` and
    `createJSONResponse`. A handler's result is an `Outcome`: the value it
    returned or the value it threw. */
module Errors {
  import opened Base
  import opened Http

  datatype ErrorType =
    | ValidationType
    | AuthenticationType
    | AuthorizationType
    | NotFoundType
    | InternalType

  /** A thrown value: an `AppError` (or one of its subclasses), or any other
      error object, which has a `message` ("" when it has none) and maybe a
      `status` property. */
  datatype Thrown =
    | AppError(name: string, message: string, kind: ErrorType, status: int)
    | OtherError(message: string, statusProperty: Option<int>)

  /** What a handler hands back: a `Response`, `null`/`undefined`, or a
      function object (a closure returned where a response was expected). */
  datatype Reply = Resp(response: Response) | NullReply | FunctionReply

  datatype Outcome = Returned(reply: Reply) | Threw(error: Thrown)

  /** The outcome of a controller: it either throws or returns a `Response`. */
  predicate Responds(o: Outcome) {
    o.Threw? || o.reply.Resp?
  }

  const InternalServerErrorMessage := "服务器内部错误"

  /** `new AppError(message, type, status)` with the source's defaults. */
  function NewAppError(message: string, kind: ErrorType := InternalType, status: int := 500): Thrown {
    AppError("AppError", message, kind, status)
  }

  function ValidationError(message: string): Thrown {
    AppError("ValidationError", message, ValidationType, 400)
  }

  function AuthenticationError(message: string := "认证失败"): Thrown {
    AppError("AuthenticationError", message, AuthenticationType, 401)
  }

  function AuthorizationError(message: string := "权限不足"): Thrown {
    AppError("AuthorizationError", message, AuthorizationType, 403)
  }

  function NotFoundError(message: string := "资源未找到"): Thrown {
    AppError("NotFoundError", message, NotFoundType, 404)
  }

  /** Reads the message back out of an error response body `{"error": m}`. */
  function ErrorMessage(r: Response): Option<string> {
    match r.body
    case JsonBody(JObj(fields)) =>
      if |fields| == 1 && fields[0].0 == "error" && fields[0].1.JStr? then Some(fields[0].1.s) else None
    case _ => None
  }

  /** `createErrorResponse(message, status = 400, headers = {})`. */
  function CreateErrorResponse(message: string, status: int := 400, headers: map<string, string> := map[]): (r: Response)
    ensures ErrorMessage(r) == Some(message)
    ensures r.status == status
    ensures "Content-Type" in r.headers
    ensures r.headers["Content-Type"] == if "Content-Type" in headers then headers["Content-Type"] else "application/json"
    ensures forall h :: h in headers ==> h in r.headers && r.headers[h] == headers[h]
    ensures forall h :: h in r.headers ==> h in headers || h == "Content-Type"
  {
    Response(status, JsonBody(JObj([("error", JStr(message))])), map["Content-Type" := "application/json"] + headers)
  }

  /** `createJSONResponse(data, status = 200, headers = {})`. */
  function CreateJsonResponse(data: Json, status: int := 200, headers: map<string, string> := map[]): (r: Response)
    ensures r.body == JsonBody(data) && r.status == status
    ensures "Content-Type" in r.headers
    ensures r.headers["Content-Type"] == if "Content-Type" in headers then headers["Content-Type"] else "application/json"
  {
    Response(status, JsonBody(data), map["Content-Type" := "application/json"] + headers)
  }

  /** The thrown value `withErrorHandling` meets when the handler resolved to
      `null`: its logging line reads `result.constructor`, which throws a
      TypeError inside the `try`. The exact wording is the engine's. */
  const NullResultTypeError := OtherError("Cannot read properties of null (reading 'constructor')", None)

  /** The `catch` branch of `withErrorHandling`. */
  function ResponseForThrown(e: Thrown): Response {
    match e
    case AppError(_, message, _, status) => CreateErrorResponse(message, status)
    case OtherError(message, status) =>
      CreateErrorResponse(
        if message == "" then InternalServerErrorMessage else message,
        if status.Some? && status.value != 0 then status.value else 500)
  }

  /** `withErrorHandling(handler)` applied to what the handler produced. */
  function WithErrorHandling(o: Outcome): (r: Outcome)
    ensures r.Returned? && r.reply != NullReply
    ensures o.Returned? && o.reply != NullReply ==> r == o
    ensures o.Threw? ==> r == Returned(Resp(ResponseForThrown(o.error)))
    ensures Responds(o) ==> r.reply.Resp?
  {
    match o
    case Threw(e) => Returned(Resp(ResponseForThrown(e)))
    case Returned(NullReply) => Returned(Resp(ResponseForThrown(NullResultTypeError)))
    case Returned(_) => o
  }

  /** Each error class reaches the client with its own status and message. */
  lemma ErrorClassesMapToStatuses(m: string)
    ensures WithErrorHandling(Threw(ValidationError(m))).reply.response == CreateErrorResponse(m, 400)
    ensures WithErrorHandling(Threw(AuthenticationError(m))).reply.response == CreateErrorResponse(m, 401)
    ensures WithErrorHandling(Threw(AuthorizationError(m))).reply.response == CreateErrorResponse(m, 403)
    ensures WithErrorHandling(Threw(NotFoundError(m))).reply.response == CreateErrorResponse(m, 404)
    ensures WithErrorHandling(Threw(NewAppError(m))).reply.response == CreateErrorResponse(m, 500)
    ensures AuthenticationError().message == "认证失败"
    ensures AuthorizationError().message == "权限不足"
    ensures NotFoundError().message == "资源未找到"
  {
  }

  /** Any other thrown value becomes status `error.status || 500` carrying
      `error.message || '服务器内部错误'`: the raw message reaches the client. */
  lemma OtherErrorsLeakTheirMessage(message: string, status: Option<int>)
    ensures var r := WithErrorHandling(Threw(OtherError(message, status))).reply.response;
      && r.status == (if status.Some? && status.value != 0 then status.value else 500)
      && ErrorMessage(r) == Some(if message == "" then InternalServerErrorMessage else message)
  {
  }

  /** Wrapping twice is the same as wrapping once: after one layer nothing is
      thrown and no `null` is left. */
  lemma WithErrorHandlingIdempotent(o: Outcome)
    ensures WithErrorHandling(WithErrorHandling(o)) == WithErrorHandling(o)
  {
  }
}
