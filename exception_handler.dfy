/**
 * The translation of an exception escaping a controller into an HTTP
 * status and a JSON body: validation failures and IllegalArgumentException
 * give 400, ResourceNotFoundException gives 404, and anything else gives a
 * 500 whose body does not reveal the exception. The clock is a parameter.
 */
module GlobalExceptionHandler {
  import opened Wrappers
  import opened Time

  const BAD_REQUEST: int := 400
  const NOT_FOUND: int := 404
  const INTERNAL_SERVER_ERROR: int := 500

  const GENERIC_MESSAGE: string := "An unexpected error occurred"

  /** One FieldError of a binding result: the field and its default message, which may be null. */
  datatype FieldError = FieldError(field: string, defaultMessage: Option<string>)

  /** The exception classes the handler tells apart. */
  datatype HandledException =
    | MethodArgumentNotValid(fieldErrors: seq<FieldError>)
    | IllegalArgumentException(message: Option<string>)
    | ResourceNotFoundException(message: Option<string>)
    | OtherException(message: Option<string>)

  /** A value of the response map. */
  datatype BodyValue =
    | Timestamp(at: Instant)
    | Number(n: int)
    | Text(s: string)
    | NullValue
    | Fields(errors: map<string, Option<string>>)

  datatype Response = Response(status: int, body: map<string, BodyValue>)

  /** A message put into the map: its text, or JSON null. */
  function MessageValue(m: Option<string>): (v: BodyValue)
    ensures m.Some? <==> v.Text?
    ensures m.Some? ==> v == Text(m.value)
  {
    if m.Some? then Text(m.value) else NullValue
  }

  /** The fields named by a list of errors. */
  function ReportedFields(errors: seq<FieldError>): set<string>
  {
    set i | 0 <= i < |errors| :: errors[i].field
  }

  /**
   * The field map of handleValidationExceptions: the errors are put into
   * a HashMap in order, so a later error for the same field replaces an
   * earlier one.
   */
  function FieldErrorMap(errors: seq<FieldError>): (m: map<string, Option<string>>)
    ensures m.Keys == ReportedFields(errors)
  {
    if errors == [] then map[]
    else
      var init := errors[..|errors| - 1];
      var last := errors[|errors| - 1];
      assert ReportedFields(errors) == ReportedFields(init) + {last.field} by {
        forall f | f in ReportedFields(errors) ensures f in ReportedFields(init) + {last.field} {
          var i :| 0 <= i < |errors| && errors[i].field == f;
          if i < |init| {
            assert init[i] == errors[i];
          }
        }
        forall f | f in ReportedFields(init) ensures f in ReportedFields(errors) {
          var i :| 0 <= i < |init| && init[i].field == f;
          assert errors[i] == init[i];
        }
      }
      FieldErrorMap(init)[last.field := last.defaultMessage]
  }

  /** For each field, the map holds the message of the last error reported for it. */
  lemma {:induction false} LastErrorWins(errors: seq<FieldError>, i: int)
    requires 0 <= i < |errors|
    requires forall j :: i < j < |errors| ==> errors[j].field != errors[i].field
    ensures errors[i].field in FieldErrorMap(errors)
    ensures FieldErrorMap(errors)[errors[i].field] == errors[i].defaultMessage
  {
    var init := errors[..|errors| - 1];
    if i < |errors| - 1 {
      forall j | i < j < |init| ensures init[j].field != init[i].field {
        assert init[j] == errors[j];
      }
      LastErrorWins(init, i);
      assert init[i] == errors[i];
    }
  }

  /**
   * The handler Spring selects for the exception and the response it
   * builds, stamped with the clock.
   */
  function Handle(e: HandledException, now: Instant): (r: Response)
    ensures r.body.Keys == {"timestamp", "status", "error", if e.MethodArgumentNotValid? then "errors" else "message"}
    ensures r.body["timestamp"] == Timestamp(now) && r.body["status"] == Number(r.status)
    ensures e.MethodArgumentNotValid? ==>
      r.status == BAD_REQUEST && r.body["error"] == Text("Validation Failed")
      && r.body["errors"] == Fields(FieldErrorMap(e.fieldErrors))
    ensures e.IllegalArgumentException? ==>
      r.status == BAD_REQUEST && r.body["error"] == Text("Business Rule Violation")
      && r.body["message"] == MessageValue(e.message)
    ensures e.ResourceNotFoundException? ==>
      r.status == NOT_FOUND && r.body["error"] == Text("Resource Not Found")
      && r.body["message"] == MessageValue(e.message)
    ensures e.OtherException? ==>
      r.status == INTERNAL_SERVER_ERROR && r.body["error"] == Text("Internal Server Error")
      && r.body["message"] == Text(GENERIC_MESSAGE)
  {
    match e
    case MethodArgumentNotValid(fieldErrors) =>
      Response(BAD_REQUEST, map["timestamp" := Timestamp(now), "status" := Number(BAD_REQUEST),
                                "error" := Text("Validation Failed"), "errors" := Fields(FieldErrorMap(fieldErrors))])
    case IllegalArgumentException(message) =>
      Response(BAD_REQUEST, map["timestamp" := Timestamp(now), "status" := Number(BAD_REQUEST),
                                "error" := Text("Business Rule Violation"), "message" := MessageValue(message)])
    case ResourceNotFoundException(message) =>
      Response(NOT_FOUND, map["timestamp" := Timestamp(now), "status" := Number(NOT_FOUND),
                              "error" := Text("Resource Not Found"), "message" := MessageValue(message)])
    case OtherException(_) =>
      Response(INTERNAL_SERVER_ERROR, map["timestamp" := Timestamp(now), "status" := Number(INTERNAL_SERVER_ERROR),
                                          "error" := Text("Internal Server Error"), "message" := Text(GENERIC_MESSAGE)])
  }

  /**
   * An unexpected exception never leaks into the response: two of them
   * handled at the same instant give the same response whatever their
   * messages, while the 400 and 404 responses carry the message unchanged.
   */
  lemma InternalDetailIsHidden(m1: Option<string>, m2: Option<string>, now: Instant)
    ensures Handle(OtherException(m1), now) == Handle(OtherException(m2), now)
    ensures Handle(IllegalArgumentException(m1), now) == Handle(IllegalArgumentException(m2), now) <==> m1 == m2
    ensures Handle(ResourceNotFoundException(m1), now) == Handle(ResourceNotFoundException(m2), now) <==> m1 == m2
  {
    if Handle(IllegalArgumentException(m1), now) == Handle(IllegalArgumentException(m2), now) {
      assert MessageValue(m1) == Handle(IllegalArgumentException(m1), now).body["message"];
    }
    if Handle(ResourceNotFoundException(m1), now) == Handle(ResourceNotFoundException(m2), now) {
      assert MessageValue(m1) == Handle(ResourceNotFoundException(m1), now).body["message"];
    }
  }

  /** The status alone tells the three families apart: client error, missing resource, server error. */
  lemma StatusClassifiesException(e: HandledException, now: Instant)
    ensures Handle(e, now).status == BAD_REQUEST <==> e.MethodArgumentNotValid? || e.IllegalArgumentException?
    ensures Handle(e, now).status == NOT_FOUND <==> e.ResourceNotFoundException?
    ensures Handle(e, now).status == INTERNAL_SERVER_ERROR <==> e.OtherException?
  {
  }

  /**
   * The exception class behind each failure of the service model.
   * BusinessException is not among the classes modelled, so which handler
   * it reaches is not decided here.
   */
  function ExceptionOf(f: Failure): (e: Option<HandledException>)
    ensures e.None? <==> f.BusinessError?
    ensures f.IllegalArgument? ==> e == Some(IllegalArgumentException(Some(f.message)))
    ensures f.NotFound? ==> e == Some(ResourceNotFoundException(Some(f.message)))
    ensures f.UsernameNotFound? || f.Internal? ==> e.Some? && e.value.OtherException?
  {
    match f
    case BusinessError(_) => None
    case NotFound(m) => Some(ResourceNotFoundException(Some(m)))
    case IllegalArgument(m) => Some(IllegalArgumentException(Some(m)))
    case UsernameNotFound(m) => Some(OtherException(Some(m)))
    case Internal(m) => Some(OtherException(Some(m)))
  }
}
