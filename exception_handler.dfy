/** The application-wide exception handlers (GlobalExceptionHandler). */
module ExceptionHandler {
  import opened Wrappers
  import opened Http

  const VALIDATION_FAILED: string := "Validation failed"
  const VALIDATION_ERROR: string := "VALIDATION_ERROR"
  const INTERNAL_ERROR: string := "INTERNAL_ERROR"
  const INTERNAL_SERVER_ERROR_MESSAGE: string := "Internal server error"

  /** One field error of a failed bean validation: the field and its default message, which may be null. */
  datatype FieldError = FieldError(field: string, defaultMessage: Option<string>)

  /** The details map built by putting each error in turn: its keys are exactly the fields that failed. */
  function Details(errors: seq<FieldError>): (d: map<string, Option<string>>)
    ensures forall f :: f in d <==> exists i :: 0 <= i < |errors| && errors[i].field == f
  {
    if errors == [] then map[]
    else
      var last := errors[|errors| - 1];
      Details(errors[..|errors| - 1])[last.field := last.defaultMessage]
  }

  /** When a field failed more than once, the message of its last error is the one kept. */
  lemma {:induction false} DetailsLastWins(errors: seq<FieldError>, i: nat)
    requires i < |errors|
    requires forall j :: i < j < |errors| ==> errors[j].field != errors[i].field
    ensures errors[i].field in Details(errors)
    ensures Details(errors)[errors[i].field] == errors[i].defaultMessage
  {
    if i < |errors| - 1 {
      DetailsLastWins(errors[..|errors| - 1], i);
    }
  }

  /** `handleValidationExceptions`: 400 "Validation failed" with every failed field in the details. */
  method HandleValidationExceptions(errors: seq<FieldError>) returns (resp: Response<()>)
    ensures resp.status == BAD_REQUEST
    ensures resp.body == Error(ErrorResponse(VALIDATION_FAILED, VALIDATION_ERROR, Some(Details(errors))))
  {
    var details: map<string, Option<string>> := map[];
    var i := 0;
    while i < |errors|
      invariant 0 <= i <= |errors|
      invariant details == Details(errors[..i])
    {
      assert errors[..i + 1][..i] == errors[..i];
      details := details[errors[i].field := errors[i].defaultMessage];
      i := i + 1;
    }
    assert errors[..|errors|] == errors;
    resp := Response(BAD_REQUEST, Error(ErrorResponse(VALIDATION_FAILED, VALIDATION_ERROR, Some(details))));
  }

  /** `handleGenericException`: 500 with the exception's message, or a fixed text when it has none. */
  function HandleGenericException<T>(message: Option<string>): (resp: Response<T>)
    ensures resp.status == INTERNAL_SERVER_ERROR && resp.body.Error?
    ensures resp.body.response.error == INTERNAL_ERROR && resp.body.response.details.None?
    ensures message.Some? ==> resp.body.response.message == message.value
    ensures message.None? ==> resp.body.response.message == INTERNAL_SERVER_ERROR_MESSAGE
  {
    Response(INTERNAL_SERVER_ERROR,
             Error(ErrorResponse(message.GetOr(INTERNAL_SERVER_ERROR_MESSAGE), INTERNAL_ERROR, None)))
  }
}
