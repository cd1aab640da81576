/** The calendar error family: a closed set of error categories, one
    concrete error record carrying code, category, message, details and an
    optional cause, and the response record built from it
    (calendar/errors.go). */
module Errors {
  import opened Wrappers

  /** The error categories of the calendar layer. */
  datatype ErrorType =
    | NotFound
    | Permission
    | InvalidInput
    | QuotaExceeded
    | Internal
    | Authentication
    | Network
    | Timeout
    | Conflict
  {
    /** The category's name as it appears in responses. */
    function Name(): string {
      match this
      case NotFound => "NOT_FOUND"
      case Permission => "PERMISSION_DENIED"
      case InvalidInput => "INVALID_INPUT"
      case QuotaExceeded => "QUOTA_EXCEEDED"
      case Internal => "INTERNAL_ERROR"
      case Authentication => "AUTHENTICATION_ERROR"
      case Network => "NETWORK_ERROR"
      case Timeout => "TIMEOUT_ERROR"
      case Conflict => "CONFLICT_ERROR"
    }
  }

  /** Any Go `error` value the calendar layer produces, wraps or inspects:
      either one of its own calendar errors or a foreign error of which only
      the text matters. */
  datatype Error =
    | Foreign(text: string)
    | Calendar(err: CalendarError)

  /** The one concrete implementation of the calendar error interface. */
  datatype CalendarError = CalendarError(
    code: string,
    errType: ErrorType,
    message: string,
    details: string,
    cause: Option<Error>)
  {
    /** The error's text (`Error()`). */
    function Error(): string {
      ErrorText(Calendar(this))
    }

    function Code(): string { code }

    function Type(): ErrorType { errType }

    function Details(): string { details }

    /** The wrapped cause; `None` is Go's nil. */
    function Unwrap(): Option<Error> { cause }
  }

  /** The text Go prints for an error: "code: message", followed by
      " (caused by: <cause text>)" when there is a cause. */
  function ErrorText(e: Error): string {
    match e
    case Foreign(text) => text
    case Calendar(c) =>
      match c.cause
      case None => c.code + ": " + c.message
      case Some(cause) => c.code + ": " + c.message + " (caused by: " + ErrorText(cause) + ")"
  }

  /** The text of a calendar error always starts with its code and message,
      and it is exactly that prefix (and so the message can be read back
      after the code) precisely when there is no cause. */
  lemma ErrorTextShape(c: CalendarError)
    ensures c.code + ": " + c.message <= c.Error()
    ensures c.Error() == c.code + ": " + c.message <==> c.cause.None?
    ensures c.cause.None? ==> c.Error()[|c.code| + 2..] == c.message
  {
    if c.cause.Some? {
      assert |c.Error()| > |c.code + ": " + c.message|;
    }
  }

  // Error codes used across the calendar layer.
  const ErrCodeEventNotFound := "EVENT_NOT_FOUND"
  const ErrCodeCalendarNotFound := "CALENDAR_NOT_FOUND"
  const ErrCodeInvalidTimeFormat := "INVALID_TIME_FORMAT"
  const ErrCodeInvalidTimeRange := "INVALID_TIME_RANGE"
  const ErrCodeMissingCredentials := "MISSING_CREDENTIALS"
  const ErrCodeInvalidCredentials := "INVALID_CREDENTIALS"
  const ErrCodeAPIQuotaExceeded := "API_QUOTA_EXCEEDED"
  const ErrCodePermissionDenied := "PERMISSION_DENIED"
  const ErrCodeNetworkTimeout := "NETWORK_TIMEOUT"
  const ErrCodeServiceUnavailable := "SERVICE_UNAVAILABLE"
  const ErrCodeInvalidEventData := "INVALID_EVENT_DATA"
  const ErrCodeEventConflict := "EVENT_CONFLICT"
  const ErrCodeConfigurationError := "CONFIGURATION_ERROR"

  function NewNotFoundError(code: string, message: string): (e: CalendarError)
    ensures e.Code() == code && e.Type() == NotFound
    ensures e.Details() == "" && e.Unwrap() == None
    ensures e.Error() == code + ": " + message
  {
    CalendarError(code, NotFound, message, "", None)
  }

  function NewPermissionError(code: string, message: string): (e: CalendarError)
    ensures e.Code() == code && e.Type() == Permission
    ensures e.Details() == "" && e.Unwrap() == None
    ensures e.Error() == code + ": " + message
  {
    CalendarError(code, Permission, message, "", None)
  }

  /** The only constructor that records details. */
  function NewInvalidInputError(code: string, message: string, details: string): (e: CalendarError)
    ensures e.Code() == code && e.Type() == InvalidInput
    ensures e.Details() == details && e.Unwrap() == None
    ensures e.Error() == code + ": " + message
  {
    CalendarError(code, InvalidInput, message, details, None)
  }

  function NewQuotaExceededError(code: string, message: string): (e: CalendarError)
    ensures e.Code() == code && e.Type() == QuotaExceeded
    ensures e.Details() == "" && e.Unwrap() == None
    ensures e.Error() == code + ": " + message
  {
    CalendarError(code, QuotaExceeded, message, "", None)
  }

  /** `cause` is `None` when the caller passes a nil error. */
  function NewInternalError(code: string, message: string, cause: Option<Error>): (e: CalendarError)
    ensures e.Code() == code && e.Type() == Internal
    ensures e.Details() == "" && e.Unwrap() == cause
    ensures cause.None? ==> e.Error() == code + ": " + message
    ensures cause.Some? ==> e.Error() == code + ": " + message + " (caused by: " + ErrorText(cause.value) + ")"
  {
    CalendarError(code, Internal, message, "", cause)
  }

  function NewAuthenticationError(code: string, message: string, cause: Option<Error>): (e: CalendarError)
    ensures e.Code() == code && e.Type() == Authentication
    ensures e.Details() == "" && e.Unwrap() == cause
    ensures cause.None? ==> e.Error() == code + ": " + message
    ensures cause.Some? ==> e.Error() == code + ": " + message + " (caused by: " + ErrorText(cause.value) + ")"
  {
    CalendarError(code, Authentication, message, "", cause)
  }

  function NewNetworkError(code: string, message: string, cause: Option<Error>): (e: CalendarError)
    ensures e.Code() == code && e.Type() == Network
    ensures e.Details() == "" && e.Unwrap() == cause
    ensures cause.None? ==> e.Error() == code + ": " + message
    ensures cause.Some? ==> e.Error() == code + ": " + message + " (caused by: " + ErrorText(cause.value) + ")"
  {
    CalendarError(code, Network, message, "", cause)
  }

  function NewTimeoutError(code: string, message: string): (e: CalendarError)
    ensures e.Code() == code && e.Type() == Timeout
    ensures e.Details() == "" && e.Unwrap() == None
    ensures e.Error() == code + ": " + message
  {
    CalendarError(code, Timeout, message, "", None)
  }

  function NewConflictError(code: string, message: string): (e: CalendarError)
    ensures e.Code() == code && e.Type() == Conflict
    ensures e.Details() == "" && e.Unwrap() == None
    ensures e.Error() == code + ": " + message
  {
    CalendarError(code, Conflict, message, "", None)
  }

  /** The response record sent back to tool clients. */
  datatype ErrorResponse = ErrorResponse(code: string, message: string, errType: string, details: string)

  function ToErrorResponse(e: CalendarError): (r: ErrorResponse)
    ensures r.code == e.Code() && r.details == e.Details()
    ensures r.message == e.Error()
    ensures r.errType == e.Type().Name()
  {
    ErrorResponse(e.Code(), e.Error(), e.Type().Name(), e.Details())
  }

  /** Distinct categories have distinct names, so a response's type field
      identifies the category it came from. */
  lemma NameInjective(a: ErrorType, b: ErrorType)
    ensures a.Name() == b.Name() <==> a == b
  {
  }

  /** The response of a calendar error records its category faithfully. */
  lemma ResponseRecoversType(e: CalendarError, t: ErrorType)
    ensures ToErrorResponse(e).errType == t.Name() <==> e.Type() == t
  {
    NameInjective(e.Type(), t);
  }

  predicate IsCalendarError(e: Error) {
    e.Calendar?
  }

  /** The category of any error: foreign errors count as internal. */
  function GetErrorType(e: Error): (t: ErrorType)
    ensures IsCalendarError(e) ==> t == e.err.Type()
    ensures !IsCalendarError(e) ==> t == Internal
  {
    match e
    case Calendar(c) => c.Type()
    case Foreign(_) => Internal
  }

  /** The record the tool layer serialises for an error: a calendar error's
      own response, or an internal-error response carrying a foreign error's
      text. */
  function ErrorResponseFor(e: Error): (r: ErrorResponse)
    ensures r.message == ErrorText(e)
    ensures r.errType == GetErrorType(e).Name()
    ensures IsCalendarError(e) ==> r == ToErrorResponse(e.err)
    ensures !IsCalendarError(e) ==> r.code == "INTERNAL_ERROR" && r.details == ""
  {
    match e
    case Calendar(c) => ToErrorResponse(c)
    case Foreign(text) => ErrorResponse("INTERNAL_ERROR", text, Internal.Name(), "")
  }
}
