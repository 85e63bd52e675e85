/** `src/request_processor.rs`: the routing pipeline of the current revision.
    Three stages share one response; each acts only while the status is still
    `UNKNOWN`, and a stage that fails returns an error at once. Files come from
    an abstract store, and the credentials and index page from a config. */
module Processor {
  import opened Wrappers
  import opened RustStr
  import opened Http
  import opened HttpResponse
  import opened HttpErrors
  import opened FileStore
  import opened HttpRequest
  import opened HttpAuth

  /** The settings the processor reads. */
  datatype Config = Config(rootPath: string, index: string, username: string, password: string)

  /** The response after a stage, and the error the stage returned, if any. */
  datatype Step = Step(state: ResponseState, error: Option<HttpError>)

  /** `load_content_from_file` on a response in state `st`: a missing file is
      `NotFound`, an unreadable one `InternalServerError`; otherwise the
      file's text becomes the body. A failure leaves the response as it was. */
  function LoadContent(config: Config, store: Store, fileName: string, st: ResponseState): (s: Step)
    ensures s.error.None? <==> CanRead(store, config.rootPath + fileName)
    ensures s.error.None? ==> s.state == WithBody(st, store[config.rootPath + fileName].contents)
    ensures s.error.Some? ==> s.state == st
    ensures s.error == Some(ClientError(NotFound)) <==> config.rootPath + fileName !in store
    ensures s.error.Some? && s.error != Some(ClientError(NotFound)) ==> s.error == Some(ServerError(InternalServerError))
  {
    var path := config.rootPath + fileName;
    if path !in store then Step(st, Some(ClientError(NotFound)))
    else match store[path]
      case Unreadable => Step(st, Some(ServerError(InternalServerError)))
      case Readable(contents) => Step(WithBody(st, contents), None)
  }

  /** `handle_authentication`: `GET /admin` with valid credentials is 200 and
      `admin.html`; without them it gets the challenge, 401 and `401.html`. */
  function Authentication(config: Config, req: Request, store: Store, st: ResponseState): Step {
    if st.status != Unknown || req.GetMethod() != GET || req.GetPath() != "/admin" then Step(st, None)
    else if BasicAuthValidate(req, config.username, config.password) then
      LoadContent(config, store, "admin.html", WithStatus(st, Status200))
    else
      LoadContent(config, store, "401.html", WithStatus(WithHeader(st, "WWW-Authenticate", CHALLENGE), Status401))
  }

  /** `handle_custom_routes`: `GET /sleep` is 200 and `hello.html`, after a
      delay of `SleepSeconds(req)`. */
  function CustomRoutes(config: Config, req: Request, store: Store, st: ResponseState): Step {
    if st.status != Unknown || req.GetMethod() != GET || req.GetPath() != "/sleep" then Step(st, None)
    else LoadContent(config, store, "hello.html", WithStatus(st, Status200))
  }

  /** `handle_everything_else`: `GET /` is the index page, another `GET` the
      file at its path, both 200; any other method is `MethodNotImplemented`. */
  function EverythingElse(config: Config, req: Request, store: Store, st: ResponseState): Step {
    if st.status != Unknown then Step(st, None)
    else if req.GetMethod() == GET && req.GetPath() == "/" then
      LoadContent(config, store, config.index, WithStatus(st, Status200))
    else if req.GetMethod() == GET then
      LoadContent(config, store, req.GetPath(), WithStatus(st, Status200))
    else Step(st, Some(ServerError(MethodNotImplemented)))
  }

  /** `process`: the three stages from a new response; the first error ends it. */
  function Served(config: Config, req: Request, store: Store): Result<ResponseState, HttpError> {
    var s1 := Authentication(config, req, store, Initial());
    if s1.error.Some? then Err(s1.error.value)
    else
      var s2 := CustomRoutes(config, req, store, s1.state);
      if s2.error.Some? then Err(s2.error.value)
      else
        var s3 := EverythingElse(config, req, store, s2.state);
        if s3.error.Some? then Err(s3.error.value)
        else Ok(s3.state)
  }

  /** The file the pipeline serves for a request, when a stage takes it: the
      one its status and route choose. */
  function ChosenFile(config: Config, req: Request): string {
    if req.GetPath() == "/admin" then "admin.html"
    else if req.GetPath() == "/sleep" then "hello.html"
    else if req.GetPath() == "/" then config.index
    else req.GetPath()
  }

  /** A stage does nothing, and reports nothing, once the status is decided. */
  lemma StagesIdleOnceDecided(config: Config, req: Request, store: Store, st: ResponseState)
    requires st.status != Unknown
    ensures Authentication(config, req, store, st) == Step(st, None)
    ensures CustomRoutes(config, req, store, st) == Step(st, None)
    ensures EverythingElse(config, req, store, st) == Step(st, None)
  {
  }

  /** The outcome of a successful result, in the terms the source promises. */
  ghost predicate ServedFile(config: Config, store: Store, st: ResponseState) {
    (st.status == Status200 || st.status == Status401)
    && "Content-Length" in st.headers && LengthInStep(st)
    && exists file :: CanRead(store, config.rootPath + file) && st.body == store[config.rootPath + file].contents
  }

  /** A load that succeeds keeps the status, serves the file and keeps the
      length in step. */
  lemma LoadedFile(config: Config, store: Store, file: string, before: ResponseState)
    requires before.status == Status200 || before.status == Status401
    requires LoadContent(config, store, file, before).error.None?
    ensures ServedFile(config, store, LoadContent(config, store, file, before).state)
  {
    var contents := store[config.rootPath + file].contents;
    WithBodyInStep(before, contents);
    assert CanRead(store, config.rootPath + file);
  }

  /** Every successful result is 200 or 401, it has a `Content-Length`
      header giving the byte length of its body, and the body is the text of
      a readable file. */
  lemma ServedOk(config: Config, req: Request, store: Store)
    requires Served(config, req, store).Ok?
    ensures ServedFile(config, store, Served(config, req, store).value)
  {
    var s1 := Authentication(config, req, store, Initial());
    var s2 := CustomRoutes(config, req, store, s1.state);
    if s1.state.status != Unknown {
      if BasicAuthValidate(req, config.username, config.password) {
        LoadedFile(config, store, "admin.html", WithStatus(Initial(), Status200));
      } else {
        LoadedFile(config, store, "401.html",
          WithStatus(WithHeader(Initial(), "WWW-Authenticate", CHALLENGE), Status401));
      }
    } else if s2.state.status != Unknown {
      LoadedFile(config, store, "hello.html", WithStatus(s1.state, Status200));
    } else if req.GetPath() == "/" {
      LoadedFile(config, store, config.index, WithStatus(s2.state, Status200));
    } else {
      LoadedFile(config, store, req.GetPath(), WithStatus(s2.state, Status200));
    }
  }

  /** The message written for every successful result, whatever order its
      headers come in, carries `Content-Length: <byte length of the body>`. */
  lemma ServedHasContentLength(config: Config, req: Request, store: Store, order: seq<string>)
    requires Served(config, req, store).Ok?
    requires EnumeratesKeys(order, Served(config, req, store).value.headers.Keys)
    ensures var st := Served(config, req, store).value;
      exists before, after ::
        Serialize(st, order) == before + "Content-Length: " + Decimal(Utf8Length(st.body)) + CRLF + after
  {
    ServedOk(config, req, store);
    SerializeHasContentLength(Served(config, req, store).value, order);
  }

  /** A method other than `GET` is never served: it ends in `MethodNotImplemented`. */
  lemma ServedNonGet(config: Config, req: Request, store: Store)
    requires req.GetMethod() != GET
    ensures Served(config, req, store) == Err(ServerError(MethodNotImplemented))
  {
    InitialResponse();
  }

  /** `GET /admin`: valid credentials give 200 and `admin.html`, others the
      challenge, 401 and `401.html`; a missing or unreadable page is the
      matching error. */
  lemma ServedAdmin(config: Config, req: Request, store: Store)
    requires req.GetMethod() == GET && req.GetPath() == "/admin"
    ensures var ok := BasicAuthValidate(req, config.username, config.password);
      var file := if ok then "admin.html" else "401.html";
      var path := config.rootPath + file;
      Served(config, req, store)
        == if path !in store then Err(ClientError(NotFound))
           else if store[path].Unreadable? then Err(ServerError(InternalServerError))
           else Ok(WithBody(
             WithStatus(if ok then Initial() else WithHeader(Initial(), "WWW-Authenticate", CHALLENGE),
                        if ok then Status200 else Status401),
             store[path].contents))
  {
    var ok := BasicAuthValidate(req, config.username, config.password);
    var file := if ok then "admin.html" else "401.html";
    var before := WithStatus(if ok then Initial() else WithHeader(Initial(), "WWW-Authenticate", CHALLENGE),
                             if ok then Status200 else Status401);
    var s1 := LoadContent(config, store, file, before);
    assert Authentication(config, req, store, Initial()) == s1;
    if s1.error.None? {
      StagesIdleOnceDecided(config, req, store, s1.state);
    }
  }

  /** `GET /admin` with its page readable is served, 200 for valid
      credentials and 401 otherwise. */
  lemma ServedAdminStatus(config: Config, req: Request, store: Store)
    requires req.GetMethod() == GET && req.GetPath() == "/admin"
    requires CanRead(store, config.rootPath
      + if BasicAuthValidate(req, config.username, config.password) then "admin.html" else "401.html")
    ensures Served(config, req, store).Ok?
    ensures Served(config, req, store).value.status
         == if BasicAuthValidate(req, config.username, config.password) then Status200 else Status401
  {
    ServedAdmin(config, req, store);
  }

  /** A refused `/admin` request that is served carries the challenge header. */
  lemma RefusedAdminChallenged(config: Config, req: Request, store: Store)
    requires req.GetMethod() == GET && req.GetPath() == "/admin"
    requires !BasicAuthValidate(req, config.username, config.password)
    requires CanRead(store, config.rootPath + "401.html")
    ensures Served(config, req, store).Ok?
    ensures Served(config, req, store).value.status == Status401
    ensures Lookup(Served(config, req, store).value.headers, "WWW-Authenticate") == Some(CHALLENGE)
  {
    ServedAdmin(config, req, store);
    ChallengeHeader(Decision(Status401, true, "401.html"), store[config.rootPath + "401.html"].contents);
  }

  /** Any other `GET`: the index page for `/`, `hello.html` for `/sleep`, else
      the file at the path; 200 with its text, or the error of the load. */
  lemma ServedGet(config: Config, req: Request, store: Store)
    requires req.GetMethod() == GET && req.GetPath() != "/admin"
    ensures var path := config.rootPath + ChosenFile(config, req);
      Served(config, req, store)
        == if path !in store then Err(ClientError(NotFound))
           else if store[path].Unreadable? then Err(ServerError(InternalServerError))
           else Ok(WithBody(WithStatus(Initial(), Status200), store[path].contents))
  {
    InitialResponse();
  }

  /** The current pipeline, class and all. */
  class RequestProcessor {
    const config: Config

    /** `RequestProcessor::new`. */
    constructor (config: Config)
      ensures this.config == config
    {
      this.config := config;
    }

    /** `process`: a new response through the three stages, stopping at the
        first error. */
    method Process(req: Request, store: Store) returns (r: Result<Response, HttpError>)
      ensures r.Ok? <==> Served(config, req, store).Ok?
      ensures r.Ok? ==>
        fresh(r.value) && fresh(r.value.statusLine) && fresh(r.value.headers)
        && r.value.Valid() && r.value.State() == Served(config, req, store).value
      ensures r.Err? ==> r.error == Served(config, req, store).error
    {
      var response := new Response();
      var outcome := HandleAuthentication(req, response, store);
      if outcome.Err? {
        return Err(outcome.error);
      }
      outcome := HandleCustomRoutes(req, response, store);
      if outcome.Err? {
        return Err(outcome.error);
      }
      outcome := HandleEverythingElse(req, response, store);
      if outcome.Err? {
        return Err(outcome.error);
      }
      return Ok(response);
    }

    /** `handle_authentication`. */
    method HandleAuthentication(req: Request, response: Response, store: Store) returns (r: Result<(), HttpError>)
      requires response.Valid()
      modifies response, response.statusLine, response.headers
      ensures response.Valid()
      ensures var s := Authentication(config, req, store, old(response.State()));
        response.State() == s.state && (r.Err? <==> s.error.Some?) && (r.Err? ==> r.error == s.error.value)
    {
      r := Ok(());
      if response.GetStatusCode() == Unknown {
        if req.GetMethod() == GET && req.GetPath() == "/admin" {
          var fileName;
          if BasicAuthValidate(req, config.username, config.password) {
            fileName := "admin.html";
            response.SetStatusCode(Status200);
          } else {
            fileName := "401.html";
            response.AddHeader("WWW-Authenticate", CHALLENGE);
            response.SetStatusCode(Status401);
          }
          r := LoadContentFromFile(response, fileName, store);
        }
      }
    }

    /** `handle_custom_routes`; the delay itself is `SleepSeconds(req)`. */
    method HandleCustomRoutes(req: Request, response: Response, store: Store) returns (r: Result<(), HttpError>)
      requires response.Valid()
      modifies response, response.statusLine, response.headers
      ensures response.Valid()
      ensures var s := CustomRoutes(config, req, store, old(response.State()));
        response.State() == s.state && (r.Err? <==> s.error.Some?) && (r.Err? ==> r.error == s.error.value)
    {
      r := Ok(());
      if response.GetStatusCode() == Unknown {
        if req.GetMethod() == GET && req.GetPath() == "/sleep" {
          response.SetStatusCode(Status200);
          r := LoadContentFromFile(response, "hello.html", store);
        }
      }
    }

    /** `handle_everything_else`. */
    method HandleEverythingElse(req: Request, response: Response, store: Store) returns (r: Result<(), HttpError>)
      requires response.Valid()
      modifies response, response.statusLine, response.headers
      ensures response.Valid()
      ensures var s := EverythingElse(config, req, store, old(response.State()));
        response.State() == s.state && (r.Err? <==> s.error.Some?) && (r.Err? ==> r.error == s.error.value)
    {
      r := Ok(());
      if response.GetStatusCode() == Unknown {
        var fileName;
        if req.GetMethod() == GET && req.GetPath() == "/" {
          fileName := config.index;
        } else if req.GetMethod() == GET {
          fileName := req.GetPath();
        } else {
          return Err(ServerError(MethodNotImplemented));
        }
        response.SetStatusCode(Status200);
        r := LoadContentFromFile(response, fileName, store);
      }
    }

    /** `load_content_from_file`. */
    method LoadContentFromFile(response: Response, fileName: string, store: Store) returns (r: Result<(), HttpError>)
      requires response.Valid()
      modifies response, response.headers
      ensures response.Valid()
      ensures var s := LoadContent(config, store, fileName, old(response.State()));
        response.State() == s.state && (r.Err? <==> s.error.Some?) && (r.Err? ==> r.error == s.error.value)
    {
      var path := config.rootPath + fileName;
      if path !in store {
        return Err(ClientError(NotFound));
      }
      match store[path]
      case Unreadable =>
        return Err(ServerError(InternalServerError));
      case Readable(contents) =>
        response.SetBody(contents);
        return Ok(());
    }
  }
}
