/** The error taxonomy of the service and the HTTP response each error becomes. */
module Errors {

  datatype ApiError =
    | InvalidCredentials
    | UserAlreadyExists
    | Unauthorized
    | NotFound
    | ValidationError(message: string)
    | InternalError(message: string)

  const StatusOk: nat := 200
  const StatusCreated: nat := 201
  const StatusNoContent: nat := 204
  const StatusBadRequest: nat := 400
  const StatusUnauthorized: nat := 401
  const StatusNotFound: nat := 404
  const StatusConflict: nat := 409
  const StatusInternalServerError: nat := 500

  /** The generic text an internal failure is reported with. */
  const InternalErrorText := "Internal server error"

  /** An error response: the status code and the `error` field of the JSON body. */
  datatype ErrorResponse = ErrorResponse(status: nat, error: string)

  /** The texts of every error that does not carry its own message. */
  const FixedTexts: set<string> :=
    {"Invalid credentials", "User already exists", "Unauthorized", "Not Found", InternalErrorText}

  /** `into_response`: a total mapping in which the status alone tells the kind of
      error apart, except that bad credentials and a failed authentication share
      401; only a validation message reaches the body, every other error is
      reported with a fixed text. */
  function IntoResponse(e: ApiError): (r: ErrorResponse)
    ensures r.status in {StatusBadRequest, StatusUnauthorized, StatusNotFound, StatusConflict, StatusInternalServerError}
    ensures r.status == StatusUnauthorized <==> e == InvalidCredentials || e == Unauthorized
    ensures r.status == StatusConflict <==> e == UserAlreadyExists
    ensures r.status == StatusNotFound <==> e == NotFound
    ensures r.status == StatusBadRequest <==> e.ValidationError?
    ensures r.status == StatusInternalServerError <==> e.InternalError?
    ensures e.ValidationError? ==> r.error == e.message
    ensures !e.ValidationError? ==> r.error in FixedTexts
  {
    match e
    case InvalidCredentials => ErrorResponse(StatusUnauthorized, "Invalid credentials")
    case UserAlreadyExists => ErrorResponse(StatusConflict, "User already exists")
    case Unauthorized => ErrorResponse(StatusUnauthorized, "Unauthorized")
    case NotFound => ErrorResponse(StatusNotFound, "Not Found")
    case ValidationError(msg) => ErrorResponse(StatusBadRequest, msg)
    case InternalError(_) => ErrorResponse(StatusInternalServerError, InternalErrorText)
  }

  /** The fixed texts, error by error. */
  lemma FixedResponses()
    ensures IntoResponse(InvalidCredentials) == ErrorResponse(401, "Invalid credentials")
    ensures IntoResponse(UserAlreadyExists) == ErrorResponse(409, "User already exists")
    ensures IntoResponse(Unauthorized) == ErrorResponse(401, "Unauthorized")
    ensures IntoResponse(NotFound) == ErrorResponse(404, "Not Found")
  {
  }

  /** The detail of an internal failure never reaches the caller: any two
      internal errors produce the same response. */
  lemma InternalDetailHidden(detail1: string, detail2: string)
    ensures IntoResponse(InternalError(detail1)) == IntoResponse(InternalError(detail2))
    ensures IntoResponse(InternalError(detail1)) == ErrorResponse(500, InternalErrorText)
  {
  }
}
