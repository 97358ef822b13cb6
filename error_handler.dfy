/**
 * The global error middleware: classifies an error that a controller passed on
 * into an HTTP status, an error code and a message.
 */
module ErrorHandling {
  import opened JsText

  /** An error object as the middleware reads it. */
  datatype JsError = JsError(
    name: string,               // err.name
    code: Option<int>,          // err.code (the store's numeric error code, if any)
    fieldMessages: seq<string>, // Object.values(err.errors).map(e => e.message), for a validation error
    status: Option<int>,        // err.status
    message: string)            // err.message

  /** An error reply: the HTTP status and the body `{ success, error: { code, message } }`. */
  datatype ErrorResponse = ErrorResponse(status: int, success: bool, code: string, message: string)

  const GenericMessage: string := "An internal server error occurred"

  /** The store's error code for a unique-index violation. */
  const DuplicateKeyCode: int := 11000

  predicate IsValidationError(err: JsError) {
    err.name == "ValidationError"
  }

  predicate IsDuplicateKey(err: JsError) {
    err.code == Some(DuplicateKeyCode)
  }

  predicate IsCastError(err: JsError) {
    err.name == "CastError"
  }

  /**
   * `errorHandler(err)`: the first matching rule wins, in the order validation error,
   * duplicate key, cast error, default. The default status is `err.status || 500` and its
   * message is `err.message` only in development. Every reply has `success: false`.
   */
  function HandleError(err: JsError, nodeEnv: Option<string>): (r: ErrorResponse)
    ensures !r.success
    ensures IsValidationError(err) ==>
      r.status == 400 && r.code == "VALIDATION_ERROR" && r.message == Join(err.fieldMessages, ", ")
    ensures !IsValidationError(err) && IsDuplicateKey(err) ==>
      r.status == 400 && r.code == "DUPLICATE_KEY" && r.message == "A record with this value already exists"
    ensures !IsValidationError(err) && !IsDuplicateKey(err) && IsCastError(err) ==>
      r.status == 400 && r.code == "INVALID_ID" && r.message == "Invalid ID format"
    ensures !IsValidationError(err) && !IsDuplicateKey(err) && !IsCastError(err) ==>
      && r.code == "INTERNAL_ERROR"
      && r.status == (if err.status.Some? && err.status.value != 0 then err.status.value else 500)
      && r.message == (if nodeEnv == Some("development") then err.message else GenericMessage)
  {
    if IsValidationError(err) then
      ErrorResponse(400, false, "VALIDATION_ERROR", Join(err.fieldMessages, ", "))
    else if IsDuplicateKey(err) then
      ErrorResponse(400, false, "DUPLICATE_KEY", "A record with this value already exists")
    else if IsCastError(err) then
      ErrorResponse(400, false, "INVALID_ID", "Invalid ID format")
    else
      ErrorResponse(
        if err.status.Some? && err.status.value != 0 then err.status.value else 500,
        false,
        "INTERNAL_ERROR",
        if nodeEnv == Some("development") then err.message else GenericMessage)
  }

  /** Outside development the reply does not depend on the error's own message. */
  lemma MessageHiddenOutsideDevelopment(err: JsError, nodeEnv: Option<string>, other: string)
    requires nodeEnv != Some("development")
    ensures HandleError(err, nodeEnv) == HandleError(err.(message := other), nodeEnv)
  {
  }

  /** A 400 reply comes from one of the three client-error rules or from an error that carries status 400. */
  lemma BadRequestSources(err: JsError, nodeEnv: Option<string>)
    ensures HandleError(err, nodeEnv).status == 400 <==>
      IsValidationError(err) || IsDuplicateKey(err) || IsCastError(err) || err.status == Some(400)
  {
  }
}
