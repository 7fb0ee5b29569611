/**
  The global error handler: the classification of a thrown error into an
  HTTP status and JSON body, and the error values handlers answer with.
 */
module ErrorHandler {
  import opened Wrappers

  /** An error as thrown by a handler or the database client. */
  datatype ThrownError = ThrownError(name: string, message: string, stack: string)

  /** The JSON error response `{error, message, stack?}` and its status. */
  datatype ErrorResponse = ErrorResponse(status: nat, error: string, message: string, stack: Option<string>)

  /**
    The error a handler answers with: status and `error` text, with the
    `message` text when the body carries one, and for a rejected status value
    the list of accepted values instead.
   */
  datatype HttpError =
    | Reject(status: nat, error: string)
    | RejectWithMessage(status: nat, error: string, message: string)
    | RejectWithChoices(status: nat, error: string, validStatuses: seq<string>)

  const KnownRequestErrorName := "PrismaClientKnownRequestError"
  const ClientValidationErrorName := "PrismaClientValidationError"
  const ValidationErrorName := "ValidationError"

  /** The three error names answered with 400; all others are server errors. */
  predicate IsClientFault(name: string) {
    name == KnownRequestErrorName || name == ClientValidationErrorName || name == ValidationErrorName
  }

  /** `NODE_ENV === 'development'`; an unset variable is not development. */
  predicate IsDevelopment(nodeEnv: Option<string>) {
    nodeEnv == Some("development")
  }

  /** First matching rule wins; the final rule catches everything else. */
  function Handle(e: ThrownError, nodeEnv: Option<string>): (r: ErrorResponse)
    ensures r.status == 400 <==> IsClientFault(e.name)
    ensures r.status == 500 <==> !IsClientFault(e.name)
    ensures e.name == KnownRequestErrorName ==> r.error == "Database error" && r.message == e.message
    ensures e.name == ClientValidationErrorName ==> r.error == "Validation error" && r.message == "Invalid data provided"
    ensures e.name == ValidationErrorName ==> r.error == "Validation failed" && r.message == e.message
    ensures !IsClientFault(e.name) ==> r.error == "Internal server error"
    ensures r.stack.Some? <==> !IsClientFault(e.name) && IsDevelopment(nodeEnv)
    ensures r.stack.Some? ==> r.stack.value == e.stack
    ensures !IsClientFault(e.name) && !IsDevelopment(nodeEnv) ==> r.message == "Something went wrong"
    ensures !IsClientFault(e.name) && IsDevelopment(nodeEnv) ==> r.message == e.message
  {
    if e.name == KnownRequestErrorName then
      ErrorResponse(400, "Database error", e.message, None)
    else if e.name == ClientValidationErrorName then
      ErrorResponse(400, "Validation error", "Invalid data provided", None)
    else if e.name == ValidationErrorName then
      ErrorResponse(400, "Validation failed", e.message, None)
    else
      var dev := IsDevelopment(nodeEnv);
      ErrorResponse(500, "Internal server error",
                    if dev then e.message else "Something went wrong",
                    if dev then Some(e.stack) else None)
  }

  /** The status depends only on the error's name, never on the environment or message. */
  lemma StatusDependsOnlyOnName(e1: ThrownError, e2: ThrownError, env1: Option<string>, env2: Option<string>)
    requires e1.name == e2.name
    ensures Handle(e1, env1).status == Handle(e2, env2).status
    ensures Handle(e1, env1).error == Handle(e2, env2).error
  {
  }

  /**
    What a database failure thrown inside a handler becomes once it reaches
    the handler, outside development: the answer keeps the status, the error
    text and the message, and never the stack.
   */
  function DatabaseRejection(e: ThrownError): (r: HttpError)
    ensures r.RejectWithMessage?
    ensures r.status == (if IsClientFault(e.name) then 400 else 500)
    ensures e.name == KnownRequestErrorName ==> r.error == "Database error" && r.message == e.message
    ensures e.name == ClientValidationErrorName ==> r.error == "Validation error" && r.message == "Invalid data provided"
    ensures !IsClientFault(e.name) ==> r.message == "Something went wrong"
  {
    var resp := Handle(e, None);
    RejectWithMessage(resp.status, resp.error, resp.message)
  }

  /**
    A value outside a column's enumeration reaches the database client. The
    answer's message is fixed, so the thrown error's own text does not matter.
   */
  const EnumRejected: HttpError := DatabaseRejection(ThrownError(ClientValidationErrorName, "", ""))

  /**
    A foreign key or missing-row failure reported by the database. Its
    message is the database client's text, which the model leaves empty.
   */
  const RowRejected: HttpError := DatabaseRejection(ThrownError(KnownRequestErrorName, "", ""))

  lemma DatabaseRejectionsAreBadRequests()
    ensures EnumRejected == RejectWithMessage(400, "Validation error", "Invalid data provided")
    ensures RowRejected.RejectWithMessage? && RowRejected.status == 400 && RowRejected.error == "Database error"
  {
  }

  // ---------------------------------------------------------------------------
  // The answers several handlers share
  // ---------------------------------------------------------------------------

  /** A service id that names no service. */
  const ServiceNotFound: HttpError := Reject(404, "Service not found")

  /** An incident id that names no incident. */
  const IncidentNotFound: HttpError := Reject(404, "Incident not found")

  /** The row exists, but the caller is not a member of its organization. */
  const AccessDenied: HttpError := Reject(403, "Access denied")
}
