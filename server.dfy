/** `src/server.rs`: what `handle_connection` sends for one connection. A
    loaded request goes through the processor; an error, from loading or from
    the processor, becomes the response of its `to_response`. The socket, the
    thread pool and the reading of the stream are not part of this model: the
    outcome of `Request::load` is a parameter. */
module Server {
  import opened Wrappers
  import opened RustStr
  import opened Http
  import opened HttpResponse
  import opened HttpErrors
  import opened FileStore
  import opened HttpRequest
  import opened HttpAuth
  import opened Processor

  /** The response to an error, as `to_response` builds it. */
  function ErrorResponse(e: HttpError): ResponseState {
    WithStatus(Initial(), ErrorStatus(e))
  }

  /** The response state `handle_connection` writes out. */
  function Delivered(config: Config, loaded: Result<Request, HttpError>, store: Store): ResponseState {
    match loaded
    case Err(e) => ErrorResponse(e)
    case Ok(req) =>
      match Served(config, req, store)
      case Ok(st) => st
      case Err(e) => ErrorResponse(e)
  }

  /** `handle_connection` without the socket: the response and the text
      written to the stream. */
  method HandleConnection(processor: RequestProcessor, loaded: Result<Request, HttpError>, store: Store)
    returns (response: Response, text: string, ghost order: seq<string>)
    ensures fresh(response) && response.Valid()
    ensures response.State() == Delivered(processor.config, loaded, store)
    ensures EnumeratesKeys(order, response.State().headers.Keys)
    ensures text == Serialize(response.State(), order)
  {
    match loaded {
      case Ok(req) =>
        var outcome := processor.Process(req, store);
        match outcome {
          case Ok(r) =>
            response := r;
          case Err(ClientError(e)) =>
            response := e.ToResponse();
          case Err(ServerError(e)) =>
            response := e.ToResponse();
        }
      case Err(ClientError(e)) =>
        response := e.ToResponse();
      case Err(ServerError(e)) =>
        response := e.ToResponse();
    }
    text, order := response.Display();
  }

  /** The response sent always has a real status: the served one (200 or 401)
      or the status of the error. */
  lemma DeliveredStatus(config: Config, loaded: Result<Request, HttpError>, store: Store)
    ensures Delivered(config, loaded, store).status != Unknown
    ensures loaded.Err? ==> Delivered(config, loaded, store).status == ErrorStatus(loaded.error)
    ensures loaded.Ok? && Served(config, loaded.value, store).Err? ==>
      Delivered(config, loaded, store).status == ErrorStatus(Served(config, loaded.value, store).error)
  {
    if loaded.Ok? && Served(config, loaded.value, store).Ok? {
      ServedOk(config, loaded.value, store);
    } else if loaded.Err? {
      ErrorClasses(loaded.error);
    } else {
      ErrorClasses(Served(config, loaded.value, store).error);
    }
  }

  /** The settings the server starts with (`hello.html` as index, `user` and
      `password` as credentials). */
  const DEFAULT_CONFIG: Config := Config("root/", "hello.html", "user", "password")

  /** `GET /` is 200 when the index page is readable. */
  lemma IndexIsOk(req: Request, store: Store)
    requires req.GetMethod() == GET && req.GetPath() == "/"
    requires CanRead(store, "root/hello.html")
    ensures Delivered(DEFAULT_CONFIG, Ok(req), store).status == Status200
  {
    ServedGet(DEFAULT_CONFIG, req, store);
    assert "root/" + "hello.html" == "root/hello.html";
  }

  /** `GET /admin` without credentials is 401 when `401.html` is readable. */
  lemma AdminWithoutCredentials(req: Request, store: Store)
    requires req.GetMethod() == GET && req.GetPath() == "/admin"
    requires req.GetHeader("Authorization") == None
    requires CanRead(store, "root/401.html")
    ensures Delivered(DEFAULT_CONFIG, Ok(req), store).status == Status401
  {
    assert "root/" + "401.html" == "root/401.html";
    ServedAdminStatus(DEFAULT_CONFIG, req, store);
  }

  /** `GET /admin` with the credentials `user`/`password` is 200 when
      `admin.html` is readable. */
  lemma AdminWithCredentials(req: Request, store: Store)
    requires req.GetMethod() == GET && req.GetPath() == "/admin"
    requires req.GetHeader("Authorization") == Some(ExpectedKey("user", "password"))
    requires CanRead(store, "root/admin.html")
    ensures Delivered(DEFAULT_CONFIG, Ok(req), store).status == Status200
  {
    assert "root/" + "admin.html" == "root/admin.html";
    ServedAdminStatus(DEFAULT_CONFIG, req, store);
  }

  /** A `POST` is 501, whatever the store holds. */
  lemma PostNotImplemented(req: Request, store: Store)
    requires req.GetMethod() == POST
    ensures Delivered(DEFAULT_CONFIG, Ok(req), store).status == Status501
  {
    ServedNonGet(DEFAULT_CONFIG, req, store);
  }

  /** A `GET` of a path with no file behind it is 404. */
  lemma MissingFileNotFound(req: Request, store: Store)
    requires req.GetMethod() == GET
    requires req.GetPath() != "/" && req.GetPath() != "/admin" && req.GetPath() != "/sleep"
    requires "root/" + req.GetPath() !in store
    ensures Delivered(DEFAULT_CONFIG, Ok(req), store).status == Status404
  {
    ServedGet(DEFAULT_CONFIG, req, store);
  }
}
