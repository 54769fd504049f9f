/** `GlobalExceptionHandler`: every exception that leaves a controller
    becomes an `ApiError` body with an HTTP status, a code and a message. */
module GlobalExceptionHandler {
  import opened Wrappers
  import opened Errors

  datatype HttpStatus = HttpStatus(value: nat, reason: string)

  const BAD_REQUEST := HttpStatus(400, "Bad Request")
  const NOT_FOUND := HttpStatus(404, "Not Found")
  const CONFLICT := HttpStatus(409, "Conflict")
  const INTERNAL_SERVER_ERROR := HttpStatus(500, "Internal Server Error")

  /** One field error of a failed `@Valid` binding. */
  datatype FieldError = FieldError(field: string, defaultMessage: string)

  /** One violation of a failed method-level constraint. */
  datatype Violation = Violation(propertyPath: string, message: string)

  /** The exceptions the handlers distinguish. A body that cannot be read may
      lack a most specific cause (None), and a cause's message may be null
      (Some(None)), which string concatenation renders as "null". */
  datatype Thrown =
    | Service(error: Error)
    | DataIntegrityViolation(message: string)
    | MethodArgumentNotValid(fieldErrors: seq<FieldError>)
    | ConstraintViolation(violations: seq<Violation>)
    | MessageNotReadable(mostSpecificCause: Option<Option<string>>)
    | ArgumentTypeMismatch
    | Unexpected

  /** `ApiError` without its timestamp and request id (clock and MDC reads). */
  datatype ApiError = ApiError(status: nat, error: string, path: string, code: string, message: string)

  /** `respond`: the body repeats the chosen status and the request path. */
  function Respond(status: HttpStatus, code: string, msg: string, path: string): (body: ApiError)
    ensures body.status == status.value && body.error == status.reason && body.path == path
    ensures body.code == code && body.message == msg
  {
    ApiError(status.value, status.reason, path, code, msg)
  }

  /** The exceptions listed on `handleConflict`. */
  predicate IsConflict(t: Thrown)
    ensures t.Service? ==>
      (IsConflict(t) <==> !t.error.NotFound? && !t.error.ClientInUse? && !t.error.NoSuchElement?)
  {
    || (t.Service? && (t.error.DuplicateEmail? || t.error.DuplicateProductName? ||
                       t.error.DuplicateProductInOrder? || t.error.ProductInUse?))
    || t.DataIntegrityViolation?
  }

  function ValidationMessage(errors: seq<FieldError>): string
  {
    if errors == [] then "Validation error" else errors[0].field + " " + errors[0].defaultMessage
  }

  function ConstraintMessage(violations: seq<Violation>): string
  {
    if violations == [] then "Constraint violation" else violations[0].propertyPath + " " + violations[0].message
  }

  function BadRequestMessage(t: Thrown): string
  {
    if t.MessageNotReadable? && t.mostSpecificCause.Some? then
      "Malformed JSON: " + (if t.mostSpecificCause.value.Some? then t.mostSpecificCause.value.value else "null")
    else "Bad request"
  }

  /** The handler Spring selects for the exception, and what it responds. */
  function Handle(t: Thrown, path: string): (body: ApiError)
    ensures body.path == path
    ensures body.status in {400, 404, 409, 500}
  {
    match t
    case Service(e) =>
      if e.NotFound? then Respond(NOT_FOUND, "NOT_FOUND", Message(e), path)
      else if IsConflict(t) then Respond(CONFLICT, "CONFLICT", Message(e), path)
      else Respond(INTERNAL_SERVER_ERROR, "INTERNAL_ERROR", "Unexpected server error", path)
    case DataIntegrityViolation(msg) => Respond(CONFLICT, "CONFLICT", msg, path)
    case MethodArgumentNotValid(errors) =>
      Respond(BAD_REQUEST, "VALIDATION_ERROR", ValidationMessage(errors), path)
    case ConstraintViolation(violations) =>
      Respond(BAD_REQUEST, "CONSTRAINT_VIOLATION", ConstraintMessage(violations), path)
    case MessageNotReadable(_) => Respond(BAD_REQUEST, "BAD_REQUEST", BadRequestMessage(t), path)
    case ArgumentTypeMismatch => Respond(BAD_REQUEST, "BAD_REQUEST", BadRequestMessage(t), path)
    case Unexpected => Respond(INTERNAL_SERVER_ERROR, "INTERNAL_ERROR", "Unexpected server error", path)
  }

  /** Status, reason and code always agree, and each code has one status. */
  lemma StatusAndCodeAgree(t: Thrown, path: string)
    ensures var body := Handle(t, path);
      && (body.status == 400 <==> body.code in {"VALIDATION_ERROR", "CONSTRAINT_VIOLATION", "BAD_REQUEST"})
      && (body.status == 404 <==> body.code == "NOT_FOUND")
      && (body.status == 409 <==> body.code == "CONFLICT")
      && (body.status == 500 <==> body.code == "INTERNAL_ERROR")
      && body.error == (if body.status == 400 then "Bad Request" else if body.status == 404 then "Not Found"
                        else if body.status == 409 then "Conflict" else "Internal Server Error")
  {
  }

  /** How each error of the services reaches the client: a missing entity is
      a 404 and a duplicate a 409, both with the exception's message; a
      client still in use and a missing employee fall to the catch-all 500,
      whose message hides the exception's. */
  lemma ServiceErrorResponse(e: Error, path: string)
    ensures var body := Handle(Service(e), path);
      && (e.NotFound? ==> body.status == 404 && body.code == "NOT_FOUND" && body.message == Message(e))
      && (e.DuplicateEmail? || e.DuplicateProductName? || e.DuplicateProductInOrder? || e.ProductInUse? ==>
            body.status == 409 && body.code == "CONFLICT" && body.message == Message(e))
      && (e.ClientInUse? || e.NoSuchElement? ==>
            body.status == 500 && body.code == "INTERNAL_ERROR" && body.message == "Unexpected server error")
  {
  }

  /** A 409 answers exactly the exceptions on the conflict list, carrying
      the exception's own message. */
  lemma ConflictIff(t: Thrown, path: string)
    ensures var body := Handle(t, path);
      && (body.status == 409 <==> IsConflict(t))
      && (IsConflict(t) && t.Service? ==> body.message == Message(t.error))
      && (t.DataIntegrityViolation? ==> body.message == t.message)
  {
  }

  /** Only an unreadable body with a cause yields "Malformed JSON: ". */
  lemma BadRequestMessageIff(t: Thrown, path: string)
    requires t.MessageNotReadable? || t.ArgumentTypeMismatch?
    ensures var body := Handle(t, path);
      body.status == 400 && body.code == "BAD_REQUEST" &&
      (body.message != "Bad request" <==> t.MessageNotReadable? && t.mostSpecificCause.Some?)
  {
    if t.MessageNotReadable? && t.mostSpecificCause.Some? {
      var m := Handle(t, path).message;
      assert m[..5] == "Malfo";
    }
  }

  /** The validation message names the first field error, if any. */
  lemma ValidationMessageFirst(errors: seq<FieldError>, path: string)
    ensures var body := Handle(MethodArgumentNotValid(errors), path);
      body.status == 400 && body.code == "VALIDATION_ERROR" &&
      (errors == [] ==> body.message == "Validation error") &&
      (errors != [] ==> body.message == errors[0].field + " " + errors[0].defaultMessage)
  {
  }

  /** The constraint message names the first violation, if any. */
  lemma ConstraintMessageFirst(violations: seq<Violation>, path: string)
    ensures var body := Handle(ConstraintViolation(violations), path);
      body.status == 400 && body.code == "CONSTRAINT_VIOLATION" &&
      (violations == [] ==> body.message == "Constraint violation") &&
      (violations != [] ==> body.message == violations[0].propertyPath + " " + violations[0].message)
  {
  }
}
