/**
 * The error handling of the API routes (src/lib/errorHandler.ts): how a
 * thrown value becomes a status, a code, a message safe to show, and the
 * error envelope; and the two wrappers around schema parsing. Whether the
 * server runs in development mode is the parameter `dev`.
 */
module ErrorHandler {
  import opened Text

  /** One complaint of a schema: the path of the offending field. The
      validation library's own wording and issue codes are not modelled. */
  datatype Issue = Issue(path: seq<String>)

  /** What an error may carry as details. */
  datatype Details = IssueList(issues: seq<Issue>) | StackTrace(stack: String) | Attached(text: String)

  /** A thrown value: the three kinds of `Error` the handler tells apart,
      and anything else, seen through `String(value)`. */
  datatype Thrown =
    | ApiError(message: String, statusCode: int, code: Option<String>, details: Option<Details>,
               stack: Option<String>)
    | ZodError(message: String, issues: seq<Issue>, stack: Option<String>)
    | OtherError(name: String, message: String, stack: Option<String>)
    | NotAnError(text: String)

  predicate IsError(e: Thrown) {
    !e.NotAnError?
  }

  /** The `name` of an `Error`. */
  function Name(e: Thrown): String
    requires IsError(e)
  {
    match e
    case ApiError(_, _, _, _, _) => "ApiError"
    case ZodError(_, _, _) => "ZodError"
    case OtherError(name, _, _) => name
  }

  const InvalidRequestData: String := "Invalid request data"
  const GenericMessage: String := "An error occurred while processing your request"
  const ValidationCode: String := "VALIDATION_ERROR"
  const UnknownCode: String := "UNKNOWN_ERROR"

  /** `new ApiError(message, statusCode, code, details)`: the status is 500
      unless one is given; the stack trace comes from the runtime. */
  function NewApiError(message: String, statusCode: Option<int>, code: Option<String>, details: Option<Details>,
                       stack: Option<String>): (e: Thrown)
    ensures e.ApiError? && Name(e) == "ApiError" && e.message == message
    ensures statusCode.None? ==> e.statusCode == 500
    ensures statusCode.Some? ==> e.statusCode == statusCode.value
  {
    ApiError(message, if statusCode.Some? then statusCode.value else 500, code, details, stack)
  }

  /** `sanitizeErrorMessage`. */
  function SanitizeErrorMessage(e: Thrown, dev: bool): (r: String)
    ensures dev ==> r == (if IsError(e) then e.message else e.text)
    ensures !dev && e.ApiError? ==> r == e.message
    ensures !dev && e.ZodError? ==> r == InvalidRequestData
    ensures !dev && !e.ApiError? && !e.ZodError? ==> r == GenericMessage
  {
    if dev then
      if IsError(e) then e.message else e.text
    else if e.ApiError? then e.message
    else if e.ZodError? then InvalidRequestData
    else GenericMessage
  }

  /** In production nothing of a value other than an `ApiError` reaches
      the client: two such values of the same kind get the same message. */
  lemma ProductionHidesMessages(e1: Thrown, e2: Thrown)
    requires !e1.ApiError? && !e2.ApiError? && e1.ZodError? == e2.ZodError?
    ensures SanitizeErrorMessage(e1, false) == SanitizeErrorMessage(e2, false)
  {
  }

  /** `getErrorStatusCode`. */
  function ErrorStatusCode(e: Thrown): (r: int)
    ensures e.ApiError? ==> r == e.statusCode
    ensures !e.ApiError? ==> (r == 400 <==> e.ZodError?) && (r == 400 || r == 500)
  {
    if e.ApiError? then e.statusCode else if e.ZodError? then 400 else 500
  }

  /** `name.toUpperCase().replace(/ERROR$/, '_ERROR')`. */
  function NameCode(name: String): (r: String)
  {
    var u := ToUpper(name);
    if EndsWith(u, "ERROR") then u[..|u| - 5] + "_ERROR" else u
  }

  /** The code is the upper-cased name, with `_` put in before a final
      `ERROR`: taking that `_` out again gives the upper-cased name. */
  lemma NameCodeShape(name: String)
    ensures var u, r := ToUpper(name), NameCode(name);
            (EndsWith(u, "ERROR") ==> |r| == |u| + 1 && EndsWith(r, "_ERROR") && r[..|r| - 6] + r[|r| - 5..] == u)
            && (!EndsWith(u, "ERROR") ==> r == u)
  {
    var u, r := ToUpper(name), NameCode(name);
    if EndsWith(u, "ERROR") {
      assert r[..|r| - 6] == u[..|u| - 5];
      assert r[|r| - 5..] == u[|u| - 5..];
    }
  }

  /** An `ApiError` without a code gets `API_ERROR`. */
  lemma ApiErrorNameCode()
    ensures NameCode("ApiError") == "API_ERROR"
  {
    var u := ToUpper("ApiError");
    assert u == "APIERROR" by {
      assert u[0] == 'A' && u[1] == 'P' && u[2] == 'I' && u[3] == 'E';
    }
    assert u[..3] == "API";
  }

  /** A plain `Error` gets `_ERROR`. */
  lemma PlainErrorNameCode()
    ensures NameCode("Error") == "_ERROR"
  {
    var u := ToUpper("Error");
    assert u == "ERROR" by {
      assert u[0] == 'E' && u[1] == 'R';
    }
  }

  /** `getErrorCode`: a non-empty code of an `ApiError`, the validation
      code for a schema failure, the name's code for any other `Error`,
      and `UNKNOWN_ERROR` for anything else. */
  function ErrorCode(e: Thrown): (r: String)
    ensures e.ApiError? && Present(e.code) ==> r == e.code.value
    ensures e.ZodError? ==> r == ValidationCode
    ensures e.ApiError? && !Present(e.code) ==> r == "API_ERROR"
    ensures e.OtherError? ==> r == NameCode(e.name)
    ensures e.NotAnError? ==> r == UnknownCode
  {
    ApiErrorNameCode();
    if e.ApiError? && Present(e.code) then e.code.value
    else if e.ZodError? then ValidationCode
    else if IsError(e) then NameCode(Name(e))
    else UnknownCode
  }

  /** `getErrorDetails`: nothing in production; in development, the
      issues of a schema failure, or the stack of another `Error`. */
  function ErrorDetails(e: Thrown, dev: bool): (r: Option<Details>)
    ensures !dev ==> r.None?
    ensures r.Some? ==> (e.ZodError? && r.value == IssueList(e.issues))
                        || (IsError(e) && !e.ZodError? && Present(e.stack) && r.value == StackTrace(e.stack.value))
    ensures dev && e.ZodError? ==> r == Some(IssueList(e.issues))
    ensures dev && IsError(e) && !e.ZodError? && Present(e.stack) ==> r == Some(StackTrace(e.stack.value))
  {
    if !dev then None
    else if e.ZodError? then Some(IssueList(e.issues))
    else if IsError(e) && Present(e.stack) then Some(StackTrace(e.stack.value))
    else None
  }

  /** `ErrorResponse`: the body of every error answer. */
  datatype ErrorResponse = ErrorResponse(error: String, code: Option<String>, timestamp: Option<String>,
                                         details: Option<Details>)

  datatype ErrorReply = ErrorReply(status: int, body: ErrorResponse)

  /** `handleApiError`; the time stamp, read from the clock in the source,
      is given. */
  function HandleApiError(e: Thrown, dev: bool, timestamp: String): (r: ErrorReply)
    ensures r.status == ErrorStatusCode(e) && r.body.code == Some(ErrorCode(e))
    ensures r.body.error == SanitizeErrorMessage(e, dev) && r.body.timestamp == Some(timestamp)
    ensures r.body.details == ErrorDetails(e, dev)
    ensures !dev ==> r.body.details.None?
  {
    var details := ErrorDetails(e, dev);
    ErrorReply(ErrorStatusCode(e),
               ErrorResponse(SanitizeErrorMessage(e, dev), Some(ErrorCode(e)), Some(timestamp),
                             if dev && details.Some? then details else None))
  }

  /** What `schema.parse` does: return a value or throw. */
  datatype Parse<T> = Parsed(value: T) | Threw(error: Thrown)

  /** `validateSchema`: a schema failure becomes a 400 `ApiError` carrying
      the issues; anything else thrown goes on unchanged. */
  function ValidateSchema<T>(outcome: Parse<T>, errorMessage: String, stack: Option<String>): (r: Result<T, Thrown>)
    ensures outcome.Parsed? ==> r == Ok(outcome.value)
    ensures outcome.Threw? && !outcome.error.ZodError? ==> r == Err(outcome.error)
    ensures outcome.Threw? && outcome.error.ZodError? ==>
              r.Err? && r.error.ApiError? && r.error.message == errorMessage && r.error.statusCode == 400
              && r.error.code == Some(ValidationCode) && r.error.details == Some(IssueList(outcome.error.issues))
  {
    match outcome
    case Parsed(v) => Ok(v)
    case Threw(e) =>
      if e.ZodError? then Err(NewApiError(errorMessage, Some(400), Some(ValidationCode), Some(IssueList(e.issues)), stack))
      else Err(e)
  }

  /** A schema failure answered through `validateSchema` is a 400 with the
      validation code and the caller's message in both modes; the issues
      it carries never reach the envelope, which in development shows the
      stack instead. */
  lemma ValidationFailureReply<T>(message: String, issues: seq<Issue>, zodStack: Option<String>,
                                  errorMessage: String, stack: Option<String>, dev: bool, timestamp: String)
    ensures var v := ValidateSchema<T>(Threw(ZodError(message, issues, zodStack)), errorMessage, stack);
            var reply := HandleApiError(v.error, dev, timestamp);
            v.Err? && reply.status == 400 && reply.body.code == Some(ValidationCode)
            && reply.body.error == errorMessage
            && reply.body.details == (if dev && Present(stack) then Some(StackTrace(stack.value)) else None)
  {
  }

  /** `safeValidate`: the data only when the parse succeeded with a
      defined value. */
  function SafeValidate<T>(success: bool, data: Option<T>): (r: Option<T>)
    ensures r.Some? <==> success && data.Some?
    ensures r.Some? ==> r == data
  {
    if success && data.Some? then data else None
  }
}
