/** The Express error handler (backend/middleware/errorHandler.js): an error that
    reaches `next(error)` becomes one `{ success: false, message }` reply whose
    status depends on the error's name and code. */
module ErrorHandler {
  import opened Wrappers
  import opened Text

  /** The parts of a thrown error the handler reads. */
  datatype JsError = JsError(
    name: string,
    message: string,
    /** An own `statusCode` property, if the thrower set one. */
    statusCode: Option<int>,
    /** The MongoDB error code. */
    code: Option<int>,
    /** The keys of `keyValue` of a duplicate-key error, in order. */
    keyValueFields: seq<string>,
    /** The messages of a `ValidationError`'s `errors`, in order. */
    fieldMessages: seq<string>)

  datatype ErrorResponse = ErrorResponse(status: int, message: string)

  const DuplicateKeyCode: int := 11000

  /** `${field} już istnieje w bazie danych` for the first key of `keyValue`
      (`undefined` when there is none). */
  function DuplicateKeyMessage(fields: seq<string>): string {
    (if |fields| > 0 then fields[0] else "undefined") + " już istnieje w bazie danych"
  }

  /** The handler as a rule table read from the last rule up: the last `if` whose
      condition holds decides, so a later rule overrides an earlier one. */
  function Classify(err: JsError): (r: ErrorResponse)
    ensures err.name in {"CastError", "ValidationError", "JsonWebTokenError", "TokenExpiredError"} || err.code == Some(DuplicateKeyCode)
            ==> r.status in {400, 401}
    ensures !(err.name in {"CastError", "ValidationError", "JsonWebTokenError", "TokenExpiredError"} || err.code == Some(DuplicateKeyCode))
            ==> r.status == (if err.statusCode.Some? && err.statusCode.value != 0 then err.statusCode.value else 500)
    ensures r.message != ""
  {
    var (status, message) :=
      if err.name == "TokenExpiredError" then (Some(401), "Token wygasł")
      else if err.name == "JsonWebTokenError" then (Some(401), "Nieprawidłowy token")
      else if err.name == "ValidationError" then (Some(400), Join(err.fieldMessages, ", "))
      else if err.code == Some(DuplicateKeyCode) then (Some(400), DuplicateKeyMessage(err.keyValueFields))
      else if err.name == "CastError" then (Some(400), "Nieprawidłowy format ID")
      else (err.statusCode, err.message);
    ErrorResponse(if status.Some? && status.value != 0 then status.value else 500,
                  if message != "" then message else "Błąd serwera")
  }

  /** `errorHandler(err, req, res, next)`: a copy of the error is reassigned by
      each matching rule in turn, then `statusCode || 500` and
      `message || 'Błąd serwera'` are sent. */
  method HandleError(err: JsError) returns (response: ErrorResponse)
    ensures response == Classify(err)
  {
    var message := err.message;
    var statusCode := err.statusCode;
    if err.name == "CastError" {
      message, statusCode := "Nieprawidłowy format ID", Some(400);
    }
    if err.code == Some(DuplicateKeyCode) {
      message, statusCode := DuplicateKeyMessage(err.keyValueFields), Some(400);
    }
    if err.name == "ValidationError" {
      message, statusCode := Join(err.fieldMessages, ", "), Some(400);
    }
    if err.name == "JsonWebTokenError" {
      message, statusCode := "Nieprawidłowy token", Some(401);
    }
    if err.name == "TokenExpiredError" {
      message, statusCode := "Token wygasł", Some(401);
    }
    response := ErrorResponse(if statusCode.Some? && statusCode.value != 0 then statusCode.value else 500,
                              if message != "" then message else "Błąd serwera");
  }

  /** `next(error)` from a handler: the handler's reply for the error. */
  function Forward<T>(err: JsError): (r: Reply<T>)
    ensures r.Failure? && r.message != ""
  {
    var response := Classify(err);
    Failure(response.status, response.message)
  }

  /** A malformed id gives 400 unless the error is also a duplicate-key error. */
  lemma CastErrorIs400(err: JsError)
    requires err.name == "CastError"
    ensures Classify(err).status == 400
    ensures err.code != Some(DuplicateKeyCode) ==> Classify(err) == ErrorResponse(400, "Nieprawidłowy format ID")
  {
  }

  /** A duplicate key gives 400 naming the first key field, unless the name
      selects a later rule. */
  lemma DuplicateKeyIs400(err: JsError, field: string)
    requires err.code == Some(DuplicateKeyCode) && |err.keyValueFields| > 0 && err.keyValueFields[0] == field
    requires err.name !in {"ValidationError", "JsonWebTokenError", "TokenExpiredError"}
    ensures Classify(err) == ErrorResponse(400, field + " już istnieje w bazie danych")
  {
  }

  /** A validation error gives 400 and every field message, joined by `, `, in
      order. */
  lemma {:induction false} ValidationErrorIs400(err: JsError)
    requires err.name == "ValidationError" && |err.fieldMessages| > 0 && err.fieldMessages[0] != ""
    ensures Classify(err).status == 400
    ensures Classify(err).message == Join(err.fieldMessages, ", ")
  {
    JoinNonEmpty(err.fieldMessages, ", ");
  }

  lemma {:induction false} JoinNonEmpty(parts: seq<string>, sep: string)
    requires |parts| > 0 && parts[0] != ""
    ensures Join(parts, sep) != ""
  {
    JoinStartsWithFirst(parts, sep);
  }

  lemma {:induction false} JoinStartsWithFirst(parts: seq<string>, sep: string)
    requires |parts| > 0
    ensures StartsWith(Join(parts, sep), parts[0])
  {
    if |parts| > 1 {
      JoinStartsWithFirst(parts[1..], sep);
    }
  }

  /** Both token errors give 401, whatever else the error carries. */
  lemma TokenErrorsAre401(err: JsError)
    requires err.name == "JsonWebTokenError" || err.name == "TokenExpiredError"
    ensures Classify(err).status == 401
    ensures err.name == "TokenExpiredError" ==> Classify(err).message == "Token wygasł"
    ensures err.name == "JsonWebTokenError" ==> Classify(err).message == "Nieprawidłowy token"
  {
  }

  /** Any other error keeps its own truthy `statusCode` and message, with 500 and
      `Błąd serwera` standing in for missing ones. */
  lemma OtherErrorsKeepTheirStatus(err: JsError)
    requires err.name !in {"CastError", "ValidationError", "JsonWebTokenError", "TokenExpiredError"}
    requires err.code != Some(DuplicateKeyCode)
    ensures Classify(err).status == (if err.statusCode.Some? && err.statusCode.value != 0 then err.statusCode.value else 500)
    ensures Classify(err).message == (if err.message != "" then err.message else "Błąd serwera")
  {
  }
}
