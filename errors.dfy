/** `src/http/errors.rs`: the error kinds a routing stage can return, and the
    response each one turns into. */
module HttpErrors {
  import opened Wrappers
  import opened HttpResponse

  datatype ClientError = BadRequest | Unauthorized | NotFound | MethodNotAllowed
  {
    /** The status `to_response` gives this error. */
    function Status(): StatusCode {
      match this
      case BadRequest => Status400
      case Unauthorized => Status401
      case MethodNotAllowed => Status405
      case NotFound => Status404
    }

    /** `ClientError::to_response`: a new response with this error's status. */
    method ToResponse() returns (r: Response)
      ensures fresh(r) && fresh(r.statusLine) && fresh(r.headers) && r.Valid()
      ensures r.State() == WithStatus(Initial(), Status())
    {
      r := new Response();
      match this
      case BadRequest => r.SetStatusCode(Status400);
      case Unauthorized => r.SetStatusCode(Status401);
      case MethodNotAllowed => r.SetStatusCode(Status405);
      case NotFound => r.SetStatusCode(Status404);
    }
  }

  datatype ServerError = InternalServerError | MethodNotImplemented | BadGateway | ServiceUnavailable
  {
    /** The status `to_response` gives this error. */
    function Status(): StatusCode {
      match this
      case InternalServerError => Status500
      case MethodNotImplemented => Status501
      case BadGateway => Status502
      case ServiceUnavailable => Status503
    }

    /** `ServerError::to_response`: a new response with this error's status. */
    method ToResponse() returns (r: Response)
      ensures fresh(r) && fresh(r.statusLine) && fresh(r.headers) && r.Valid()
      ensures r.State() == WithStatus(Initial(), Status())
    {
      r := new Response();
      match this
      case InternalServerError => r.SetStatusCode(Status500);
      case MethodNotImplemented => r.SetStatusCode(Status501);
      case BadGateway => r.SetStatusCode(Status502);
      case ServiceUnavailable => r.SetStatusCode(Status503);
    }
  }

  datatype HttpError = ClientError(client: ClientError) | ServerError(server: ServerError)

  /** The status of the response an error turns into. */
  function ErrorStatus(e: HttpError): StatusCode {
    match e
    case ClientError(c) => c.Status()
    case ServerError(s) => s.Status()
  }

  /** Client errors are 4xx responses and server errors are 5xx responses. */
  lemma ErrorClasses(e: HttpError)
    ensures ErrorStatus(e) != Unknown
    ensures CodeText(ErrorStatus(e))[0] == if e.ClientError? then '4' else '5'
  {
  }

  /** The eight error kinds give eight different status codes. */
  lemma ErrorStatusInjective(e: HttpError, f: HttpError)
    requires ErrorStatus(e) == ErrorStatus(f)
    ensures e == f
  {
  }

  /** An error response has the error's status and its reason phrase, only the
      `Server` header (no `Content-Length`) and an empty body. */
  lemma ErrorResponseShape(e: HttpError)
    ensures var st := WithStatus(Initial(), ErrorStatus(e));
      st.headers == map["Server" := "rust server"] && "Content-Length" !in st.headers && st.body == ""
      && ReadStatusCode(StatusLineText(st.status)) == Some(ErrorStatus(e))
  {
    InitialResponse();
    ErrorClasses(e);
    StatusLineRoundTrip(ErrorStatus(e));
  }
}
