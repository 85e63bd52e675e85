/** `src/http/request.rs`: the request line and its target and query, the
    request as `Request::load` reads it, and the older routing pipeline
    `process` with its three stages. */
module HttpRequest {
  import opened Wrappers
  import opened RustStr
  import opened Http
  import opened HttpResponse
  import opened FileStore

  // ------------------------------------------------------------- methods

  datatype Method = GET | POST | PUT | DELETE | HEAD

  /** The method a request-line token names; only the five exact,
      upper-case names are methods. */
  function MethodOf(token: string): Option<Method> {
    if token == "GET" then Some(GET)
    else if token == "POST" then Some(POST)
    else if token == "PUT" then Some(PUT)
    else if token == "DELETE" then Some(DELETE)
    else if token == "HEAD" then Some(HEAD)
    else None
  }

  /** The token that names a method. */
  function MethodName(m: Method): string {
    match m
    case GET => "GET"
    case POST => "POST"
    case PUT => "PUT"
    case DELETE => "DELETE"
    case HEAD => "HEAD"
  }

  /** A token is a method exactly when it is that method's name, spelled the same. */
  lemma MethodOfName(token: string, m: Method)
    ensures MethodOf(token) == Some(m) <==> token == MethodName(m)
  {
  }

  // ---------------------------------------------------------------- query

  /** One `&`-separated segment of a query, split at its first `=`; a segment
      without `=` is a name with the empty value. */
  function Param(segment: string): (r: (string, string))
    ensures '=' !in segment ==> r == (segment, "")
    ensures '=' in segment ==> segment == r.0 + "=" + r.1 && '=' !in r.0
  {
    match SplitOnce(segment, '=')
    case None => (segment, "")
    case Some(pair) => pair
  }

  /** The segments inserted one after the other into an empty map. */
  function ParamsOf(segments: seq<string>): map<string, string> {
    if segments == [] then map[]
    else
      var (name, value) := Param(segments[|segments| - 1]);
      ParamsOf(segments[..|segments| - 1])[name := value]
  }

  /** What `Query::parse` builds from a query string. */
  function QueryParams(query: string): map<string, string> {
    ParamsOf(Split(query, '&'))
  }

  /** A name is a parameter exactly when some segment carries it, and its
      value is the one of the last segment that carries it. */
  lemma {:induction false} ParamsOfLastWins(segments: seq<string>, j: nat)
    requires j < |segments|
    requires forall k :: j < k < |segments| ==> Param(segments[k]).0 != Param(segments[j]).0
    ensures Param(segments[j]).0 in ParamsOf(segments)
    ensures ParamsOf(segments)[Param(segments[j]).0] == Param(segments[j]).1
    decreases |segments|
  {
    if j < |segments| - 1 {
      var init := segments[..|segments| - 1];
      assert init[j] == segments[j];
      forall k | j < k < |init| ensures Param(init[k]).0 != Param(init[j]).0 {
        assert init[k] == segments[k];
      }
      ParamsOfLastWins(init, j);
    }
  }

  /** Only names some segment carries are parameters. */
  lemma {:induction false} ParamsOfNames(segments: seq<string>, name: string)
    requires name in ParamsOf(segments)
    ensures exists k :: 0 <= k < |segments| && Param(segments[k]).0 == name
    decreases |segments|
  {
    var last := segments[|segments| - 1];
    if Param(last).0 != name {
      var init := segments[..|segments| - 1];
      ParamsOfNames(init, name);
      var k :| 0 <= k < |init| && Param(init[k]).0 == name;
      assert segments[k] == init[k];
    }
  }

  /** Appending `&segment` to a query adds that one parameter, overriding an
      earlier one of the same name. */
  lemma QueryParamsAppend(query: string, segment: string)
    requires '&' !in segment
    ensures QueryParams(query + "&" + segment) == QueryParams(query)[Param(segment).0 := Param(segment).1]
  {
    SplitAppend(query, '&', segment);
    assert query + "&" + segment == query + ['&'] + segment;
    var all := Split(query, '&') + [segment];
    assert Split(segment, '&') == [segment];
    assert all[..|all| - 1] == Split(query, '&');
  }

  /** A query of one `name=value` segment, `=` and all in the value. */
  lemma QueryParamsSingle(name: string, value: string)
    requires '&' !in name && '&' !in value && '=' !in name
    ensures QueryParams(name + "=" + value) == map[name := value]
  {
    var segment := name + "=" + value;
    assert segment == name + ['='] + value;
    SplitOnceAtFirst(name, '=', value);
    assert Param(segment) == (name, value);
    assert '&' !in segment;
    assert Split(segment, '&') == [segment];
    assert [segment][..0] == [];
    assert ParamsOf([segment]) == ParamsOf([])[name := value];
  }

  /** A name some segment carries is a parameter. */
  lemma {:induction false} ParamsOfCarried(segments: seq<string>, k: nat)
    requires k < |segments|
    ensures Param(segments[k]).0 in ParamsOf(segments)
    decreases |segments|
  {
    if k < |segments| - 1 {
      var init := segments[..|segments| - 1];
      assert init[k] == segments[k];
      ParamsOfCarried(init, k);
    }
  }

  /** `get_param` on a parsed query: a value exactly for the names some
      segment carries, and for such a name the value of the last segment
      that carries it. */
  lemma QueryGetParam(query: string, segments: seq<string>, name: string, j: nat)
    requires segments == Split(query, '&')
    ensures Query(QueryParams(query)).GetParam(name).Some? <==>
      exists k :: 0 <= k < |segments| && Param(segments[k]).0 == name
    ensures
      (j < |segments| && Param(segments[j]).0 == name
       && forall k :: j < k < |segments| ==> Param(segments[k]).0 != name) ==>
        Query(QueryParams(query)).GetParam(name) == Some(Param(segments[j]).1)
  {
    QueryParamNames(segments, name);
    if j < |segments| && Param(segments[j]).0 == name
      && (forall k :: j < k < |segments| ==> Param(segments[k]).0 != name)
    {
      ParamsOfLastWins(segments, j);
    }
  }

  /** The names of the parameters are the names the segments carry. */
  lemma QueryParamNames(segments: seq<string>, name: string)
    ensures name in ParamsOf(segments) <==> exists k :: 0 <= k < |segments| && Param(segments[k]).0 == name
  {
    if name in ParamsOf(segments) {
      ParamsOfNames(segments, name);
    } else {
      forall k | 0 <= k < |segments| ensures Param(segments[k]).0 != name {
        ParamsOfCarried(segments, k);
      }
    }
  }

  datatype Query = Query(params: map<string, string>)
  {
    /** `Query::parse`: split on `&`, split each segment at its first `=`,
        insert; a later segment overrides an earlier one with the same name. */
    static method Parse(query: string) returns (q: Query)
      ensures q.params == QueryParams(query)
    {
      var segments := Split(query, '&');
      var params: map<string, string> := map[];
      var i := 0;
      while i < |segments|
        invariant i <= |segments|
        invariant params == ParamsOf(segments[..i])
      {
        var (name, value) := Param(segments[i]);
        assert segments[..i + 1][..i] == segments[..i];
        params := params[name := value];
        i := i + 1;
      }
      assert segments[..i] == segments;
      q := Query(params);
    }

    /** `get_param`. */
    function GetParam(name: string): Option<string> {
      Lookup(params, name)
    }
  }

  // --------------------------------------------------------------- target

  datatype RequestTarget = RequestTarget(absolutePath: string, query: Option<Query>)
  {
    /** `get_param`: `None` without a query, else the query's answer. */
    function GetParam(name: string): Option<string> {
      match query
      case None => None
      case Some(q) => q.GetParam(name)
    }
  }

  /** `RequestTarget::parse`: the path is everything before the first `?`,
      and what follows it, if there is a `?`, is the query. */
  function ParseTarget(target: string): (r: RequestTarget)
    ensures r.query.None? <==> '?' !in target
    ensures r.query.None? ==> r.absolutePath == target
    ensures r.query.Some? ==>
      '?' !in r.absolutePath
      && exists q ::
        target == r.absolutePath + "?" + q && r.query.value.params == QueryParams(q)
  {
    match SplitOnce(target, '?')
    case None => RequestTarget(target, None)
    case Some((path, query)) => RequestTarget(path, Some(Query(QueryParams(query))))
  }

  /** A target without `?` is all path and has no parameters. */
  lemma TargetWithoutQuery(target: string, name: string)
    requires '?' !in target
    ensures ParseTarget(target).absolutePath == target
    ensures ParseTarget(target).GetParam(name) == None
  {
  }

  /** `path?query` gives back the path and the parameters of the query, even
      when the query holds further `?`. */
  lemma TargetWithQuery(path: string, query: string)
    requires '?' !in path
    ensures ParseTarget(path + "?" + query) == RequestTarget(path, Some(Query(QueryParams(query))))
  {
    assert path + "?" + query == path + ['?'] + query;
    SplitOnceAtFirst(path, '?', query);
  }

  /** `get_param` on `path?query` is the parsed query's `get_param`. */
  lemma TargetGetParam(path: string, query: string, name: string)
    requires '?' !in path
    ensures ParseTarget(path + "?" + query).GetParam(name) == Query(QueryParams(query)).GetParam(name)
  {
    TargetWithQuery(path, query);
  }

  // ---------------------------------------------------------- request line

  datatype RequestLine = RequestLine(requestMethod: Method, target: RequestTarget, httpVersion: string)
  {
    /** `RequestLine::parse`: the first three ASCII-whitespace-separated
        tokens are method, target and version; later tokens are ignored. Too
        few tokens or an unknown method make the original panic (`None`). */
    static function Parse(line: string): (r: Option<RequestLine>)
      ensures r.Some? <==> |Tokens(line)| >= 3 && MethodOf(Tokens(line)[0]).Some?
      ensures r.Some? ==>
        MethodName(r.value.requestMethod) == Tokens(line)[0]
        && r.value.target == ParseTarget(Tokens(line)[1]) && r.value.httpVersion == Tokens(line)[2]
    {
      var tokens := Tokens(line);
      if |tokens| < 1 then None
      else match MethodOf(tokens[0])
        case None => None
        case Some(m) =>
          if |tokens| < 3 then None
          else Some(RequestLine(m, ParseTarget(tokens[1]), tokens[2]))
    }
  }

  /** A word followed by a space is the first token. */
  lemma TokensWordSpace(w: string, rest: string)
    requires IsWord(w)
    ensures Tokens(w + " " + rest) == [w] + Tokens(rest)
  {
    TokensOfWord(w, " " + rest);
    TokensSkipWhitespace(' ', rest);
    assert w + " " + rest == w + (" " + rest);
  }

  /** The line terminator holds no token. */
  lemma TokensOfCrlf()
    ensures Tokens(CRLF) == []
  {
    TokensSkipWhitespace('\n', []);
    TokensSkipWhitespace('\r', "\n");
    assert CRLF == ['\r'] + "\n";
  }

  /** Concatenation regrouped to the right. */
  lemma RightNested<T>(a: seq<T>, s: seq<T>, b: seq<T>, c: seq<T>, e: seq<T>)
    ensures a + s + b + s + c + e == a + s + (b + s + (c + e))
  {
  }

  /** The tokens of `a SP b SP c CRLF`, for three words. */
  lemma TokensOfLine(a: string, b: string, c: string)
    requires IsWord(a) && IsWord(b) && IsWord(c)
    ensures Tokens(a + " " + b + " " + c + CRLF) == [a, b, c]
  {
    TokensOfCrlf();
    TokensOfWord(c, CRLF);
    var tail := c + CRLF;
    TokensWordSpace(b, tail);
    TokensWordSpace(a, b + " " + tail);
    RightNested(a, " ", b, c, CRLF);
  }

  /** Every method name is one token. */
  lemma MethodNameIsWord(m: Method)
    ensures IsWord(MethodName(m))
  {
  }

  /** A request line framed as section 5.1 of RFC 2616 has it,
      `Method SP Request-URI SP HTTP-Version CRLF`, parses to its three parts. */
  lemma ParseFramedRequestLine(m: Method, target: string, version: string)
    requires IsWord(target) && IsWord(version)
    ensures RequestLine.Parse(MethodName(m) + " " + target + " " + version + CRLF)
         == Some(RequestLine(m, ParseTarget(target), version))
  {
    var name := MethodName(m);
    MethodNameIsWord(m);
    TokensOfLine(name, target, version);
    MethodOfName(name, m);
  }

  // -------------------------------------------------------------- request

  datatype Request = Request(requestLine: RequestLine, headers: map<string, string>, body: string)
  {
    function GetPath(): string {
      requestLine.target.absolutePath
    }

    function GetMethod(): Method {
      requestLine.requestMethod
    }

    function GetHeader(name: string): Option<string> {
      Lookup(headers, name)
    }

    function GetParam(name: string): Option<string> {
      requestLine.target.GetParam(name)
    }
  }

  /** The `i`-th line the stream yields; past the end `read_line` yields "". */
  function LineAt(lines: seq<string>, i: nat): string {
    if i < |lines| then lines[i] else ""
  }

  /** Where the header block that starts at line `i` ends: the first line equal
      to CRLF, provided every line before it has a `:`. `None` when a line
      without `:` comes first, or the stream ends first (its "" has no `:`):
      `parse_header_field` panics on both. */
  function HeaderBlockEnd(lines: seq<string>, i: nat): (r: Option<nat>)
    ensures r.Some? ==>
      i <= r.value < |lines| && lines[r.value] == CRLF
      && forall k :: i <= k < r.value ==> lines[k] != CRLF && ':' in lines[k]
    ensures r.None? ==>
      exists k :: i <= k && FieldLineBefore(lines, i, k) && ':' !in LineAt(lines, k)
    decreases |lines| - i
  {
    if i >= |lines| then
      assert LineAt(lines, i) == "";
      None
    else if lines[i] == CRLF then Some(i)
    else if ':' !in lines[i] then
      assert FieldLineBefore(lines, i, i);
      None
    else
      var r := HeaderBlockEnd(lines, i + 1);
      if r.None? then
        var k :| i + 1 <= k && FieldLineBefore(lines, i + 1, k) && ':' !in LineAt(lines, k);
        assert FieldLineBefore(lines, i, k);
        r
      else r
  }

  /** Lines `i` to `k` are read as headers: `k` is not the blank line and all
      before it have a `:`. */
  predicate FieldLineBefore(lines: seq<string>, i: nat, k: nat) {
    LineAt(lines, k) != CRLF
    && forall l :: i <= l < k ==> LineAt(lines, l) != CRLF && ':' in LineAt(lines, l)
  }

  /** `Request::load` over the lines of a stream: the request line, then header
      lines up to the first CRLF line, then an empty body; `None` where the
      original panics. */
  function Loaded(lines: seq<string>): (r: Option<Request>)
    ensures r.Some? <==> RequestLine.Parse(LineAt(lines, 0)).Some? && HeaderBlockEnd(lines, 1).Some?
    ensures r.Some? ==>
      r.value.requestLine == RequestLine.Parse(LineAt(lines, 0)).value && r.value.body == ""
      && exists end ::
        1 <= end < |lines| && lines[end] == CRLF
        && (forall k :: 1 <= k < end ==> lines[k] != CRLF && ':' in lines[k])
        && r.value.headers == InsertFields(map[], lines[1..end])
  {
    match RequestLine.Parse(LineAt(lines, 0))
    case None => None
    case Some(requestLine) =>
      match HeaderBlockEnd(lines, 1)
      case None => None
      case Some(end) => Some(Request(requestLine, InsertFields(map[], lines[1..end]), ""))
  }

  /** The getters of a loaded request read its request line: the method is
      the first token, and the path and parameters are those of the target,
      the second token. */
  lemma LoadedRequestLine(lines: seq<string>, name: string)
    requires Loaded(lines).Some?
    ensures var r, tokens := Loaded(lines).value, Tokens(LineAt(lines, 0));
      |tokens| >= 3
      && MethodName(r.GetMethod()) == tokens[0]
      && r.GetPath() == ParseTarget(tokens[1]).absolutePath
      && r.GetParam(name) == ParseTarget(tokens[1]).GetParam(name)
  {
  }

  /** `get_header` on a loaded request answers with the value of the last
      header line that carries the name. */
  lemma LoadedHeader(lines: seq<string>, end: nat, j: nat)
    requires Loaded(lines).Some? && HeaderBlockEnd(lines, 1) == Some(end)
    requires 1 <= j < end
    requires forall k :: j < k < end ==> FieldName(lines[k]) != FieldName(lines[j])
    ensures Loaded(lines).value.GetHeader(FieldName(lines[j])) == Some(FieldValue(lines[j]))
  {
    var block := lines[1..end];
    LoadedHeaders(lines, end);
    assert block[j - 1] == lines[j];
    forall k | j - 1 < k < |block| ensures FieldName(block[k]) != FieldName(block[j - 1]) {
      assert block[k] == lines[k + 1];
    }
    InsertFieldsLastWins(map[], block, j - 1);
  }

  /** The headers of a loaded request are the lines of its header block. */
  lemma LoadedHeaders(lines: seq<string>, end: nat)
    requires Loaded(lines).Some? && HeaderBlockEnd(lines, 1) == Some(end)
    ensures forall k :: 0 <= k < |lines[1..end]| ==> ':' in lines[1..end][k]
    ensures Loaded(lines).value.headers == InsertFields(map[], lines[1..end])
  {
  }

  /** `Request::load`, reading the stream line by line into the `mod.rs` headers. */
  method Load(lines: seq<string>) returns (r: Option<Request>)
    ensures r == Loaded(lines)
  {
    var requestLine := RequestLine.Parse(LineAt(lines, 0));
    if requestLine.None? {
      return None;
    }
    var headers := new Http.Headers();
    var i := 1;
    while true
      invariant 1 <= i <= |lines|
      invariant forall k :: 1 <= k < i ==> ':' in lines[k]
      invariant HeaderBlockEnd(lines, i) == HeaderBlockEnd(lines, 1)
      invariant headers.Valid() && headers.entries == InsertFields(map[], lines[1..i])
      decreases |lines| - i
    {
      var line := LineAt(lines, i);
      if line == CRLF {
        break;
      }
      if ':' !in line {
        return None;
      }
      InsertFieldsSnoc(lines, i);
      headers.ParseHeaderField(line);
      i := i + 1;
    }
    return Some(Request(requestLine.value, headers.entries, ""));
  }

  /** One more header line, folded in. */
  lemma InsertFieldsSnoc(lines: seq<string>, i: nat)
    requires 1 <= i < |lines|
    requires forall k :: 1 <= k <= i ==> ':' in lines[k]
    ensures InsertFields(map[], lines[1..i + 1]) == InsertField(InsertFields(map[], lines[1..i]), lines[i])
  {
    assert lines[1..i + 1][..i - 1] == lines[1..i];
  }

  /** With a parsable request line and a CRLF line at `end` after lines that
      all have a `:`, the request carries those header lines and nothing that
      follows the blank line; its body is empty. */
  lemma LoadedStopsAtBlankLine(lines: seq<string>, end: nat, more: seq<string>)
    requires 1 <= end < |lines| && lines[end] == CRLF
    requires forall k :: 1 <= k < end ==> lines[k] != CRLF && ':' in lines[k]
    requires RequestLine.Parse(lines[0]).Some?
    ensures Loaded(lines) == Some(Request(RequestLine.Parse(lines[0]).value, InsertFields(map[], lines[1..end]), ""))
    ensures Loaded(lines[..end + 1] + more) == Loaded(lines)
  {
    HeaderBlockAt(lines, 1, end);
    var other := lines[..end + 1] + more;
    assert other[0] == lines[0] && other[end] == CRLF && other[1..end] == lines[1..end];
    HeaderBlockAt(other, 1, end);
  }

  lemma {:induction false} HeaderBlockAt(lines: seq<string>, i: nat, end: nat)
    requires i <= end < |lines| && lines[end] == CRLF
    requires forall k :: i <= k < end ==> lines[k] != CRLF && ':' in lines[k]
    ensures HeaderBlockEnd(lines, i) == Some(end)
    decreases end - i
  {
    if i < end {
      HeaderBlockAt(lines, i + 1, end);
    }
  }

  // ------------------------------------------- the older routing pipeline

  const ROOT_PATH: string := "root/"

  /** The credentials the older `/admin` route accepts, `user:pass` in base64. */
  const ADMIN_KEY: string := "Basic dXNlcjpwYXNz"

  /** The challenge a refused `/admin` request gets (section 2 of RFC 7617). */
  const CHALLENGE: string := "Basic realm=\"WallyWorld\""

  /** What a stage decides: a status, whether to add the challenge header, and
      the file under `root/` whose text becomes the body. */
  datatype Decision = Decision(status: StatusCode, challenge: bool, file: string)

  /** `handle_authentication`'s choice: `GET /admin` with exactly the
      admin key gets 200 and `admin.html`, any other `GET /admin` 401, the
      challenge and `401.html`; other requests are not its business. */
  function AuthenticationDecision(req: Request): Option<Decision> {
    if req.GetMethod() == GET && req.GetPath() == "/admin" then
      if req.GetHeader("Authorization") == Some(ADMIN_KEY)
      then Some(Decision(Status200, false, "admin.html"))
      else Some(Decision(Status401, true, "401.html"))
    else None
  }

  /** `handle_custom_routes`'s choice: `GET /sleep` gets 200 and `hello.html`. */
  function CustomRouteDecision(req: Request): Option<Decision> {
    if req.GetMethod() == GET && req.GetPath() == "/sleep"
    then Some(Decision(Status200, false, "hello.html"))
    else None
  }

  /** `handle_everything_else`'s choice: `GET /` gets `hello.html`, another
      `GET` the file at its path if that exists and `404.html` if not, and
      any other method `501.html`. */
  function FallbackDecision(req: Request, store: Store): Decision {
    if req.GetMethod() == GET && req.GetPath() == "/" then Decision(Status200, false, "hello.html")
    else if req.GetMethod() == GET then
      if ROOT_PATH + req.GetPath() in store then Decision(Status200, false, req.GetPath())
      else Decision(Status404, false, "404.html")
    else Decision(Status501, false, "501.html")
  }

  /** The decision of the first stage that takes the request. */
  function Route(req: Request, store: Store): Decision {
    match AuthenticationDecision(req)
    case Some(d) => d
    case None =>
      match CustomRouteDecision(req)
      case Some(d) => d
      case None => FallbackDecision(req, store)
  }

  /** A decision carried out on a response, with `contents` the text of its file. */
  function Apply(st: ResponseState, d: Decision, contents: string): ResponseState {
    var challenged := if d.challenge then WithHeader(st, "WWW-Authenticate", CHALLENGE) else st;
    WithBody(WithStatus(challenged, d.status), contents)
  }

  /** The file a decision reads, when the stage acts, is readable. */
  predicate CanServe(st: ResponseState, decision: Option<Decision>, store: Store) {
    st.status == Unknown && decision.Some? ==> CanRead(store, ROOT_PATH + decision.value.file)
  }

  /** A stage: nothing once the status is decided or when the stage does not
      take the request, else its decision. */
  function Stage(st: ResponseState, decision: Option<Decision>, store: Store): ResponseState
    requires CanServe(st, decision, store)
  {
    if st.status != Unknown || decision.None? then st
    else Apply(st, decision.value, store[ROOT_PATH + decision.value.file].contents)
  }

  /** Every decision sets a real status. */
  lemma RouteDecides(req: Request, store: Store)
    ensures Route(req, store).status != Unknown
    ensures Route(req, store).challenge <==> Route(req, store).status == Status401
  {
  }

  /** The three stages run from a new response carry out exactly the decision
      of the first stage that takes the request. */
  lemma StagesCompose(req: Request, store: Store)
    requires CanRead(store, ROOT_PATH + Route(req, store).file)
    ensures CanServe(Initial(), AuthenticationDecision(req), store)
    ensures var s1 := Stage(Initial(), AuthenticationDecision(req), store);
      CanServe(s1, CustomRouteDecision(req), store)
      && var s2 := Stage(s1, CustomRouteDecision(req), store);
      CanServe(s2, Some(FallbackDecision(req, store)), store)
      && Stage(s2, Some(FallbackDecision(req, store)), store)
         == Apply(Initial(), Route(req, store), store[ROOT_PATH + Route(req, store).file].contents)
  {
    InitialResponse();
    RouteDecides(req, store);
  }

  /** A refused `/admin` request is answered with the challenge header; no
      other decision adds it. */
  lemma ChallengeHeader(d: Decision, contents: string)
    ensures Lookup(Apply(Initial(), d, contents).headers, "WWW-Authenticate")
         == if d.challenge then Some(CHALLENGE) else None
  {
    InitialResponse();
    var w := "WWW-Authenticate";
    var st1 := if d.challenge then WithHeader(Initial(), w, CHALLENGE) else Initial();
    var st2 := WithStatus(st1, d.status);
    HeaderNamesTrimmed();
    LookupInsert(st2.headers, "Content-Length", Decimal(Utf8Length(contents)), w);
    if d.challenge {
      LookupInsert(Initial().headers, w, CHALLENGE, w);
    }
  }

  /** The header names and the challenge are stored as written. */
  lemma HeaderNamesTrimmed()
    ensures Trim("WWW-Authenticate") == "WWW-Authenticate"
    ensures Trim(CHALLENGE) == CHALLENGE
    ensures Trim("Content-Length") == "Content-Length"
  {
    TrimNoop("WWW-Authenticate");
    TrimNoop(CHALLENGE);
    TrimNoop("Content-Length");
  }

  /** The delay `/sleep` waits, in seconds: the `time` parameter read as a
      `u64`, 5 without one, and 0 when it does not parse. */
  function SleepSeconds(req: Request): (n: nat)
    ensures n < U64_LIMIT
  {
    var time := match req.GetParam("time") case Some(t) => t case None => "5";
    match ParseU64(time)
    case Some(v) => v
    case None => 0
  }

  /** How the delay follows the `time` parameter: 5 without it, the value of
      any text `parse::<u64>` accepts (`Decimal(n)` among them), else 0. */
  lemma SleepSecondsCases(req: Request, n: nat, v: nat)
    ensures req.GetParam("time") == None ==> SleepSeconds(req) == 5
    ensures req.GetParam("time").Some? && ParseU64(req.GetParam("time").value) == Some(v) ==> SleepSeconds(req) == v
    ensures n < U64_LIMIT && req.GetParam("time") == Some(Decimal(n)) ==> SleepSeconds(req) == n
    ensures req.GetParam("time").Some? && ParseU64(req.GetParam("time").value) == None ==> SleepSeconds(req) == 0
  {
    assert Decimal(5) == "5";
    ParseDecimal(5);
    if n < U64_LIMIT {
      ParseDecimal(n);
    }
  }

  /** The text of the file a route has chosen to serve. */
  function FileText(store: Store, file: string): string
    requires CanRead(store, ROOT_PATH + file)
  {
    store[ROOT_PATH + file].contents
  }

  /** Set the status, add the challenge if asked, and serve the file. */
  method Serve(response: Response, d: Decision, store: Store)
    requires response.Valid() && CanRead(store, ROOT_PATH + d.file)
    modifies response, response.statusLine, response.headers
    ensures response.Valid()
    ensures response.State() == Apply(old(response.State()), d, FileText(store, d.file))
  {
    if d.challenge {
      response.AddHeader("WWW-Authenticate", CHALLENGE);
    }
    response.SetStatusCode(d.status);
    var contents := FileText(store, d.file);
    response.SetBody(contents);
  }

  /** `process`: a new response, then the three stages in order. The
      original unwraps every file read, so the chosen file must be readable. */
  method Process(req: Request, store: Store) returns (response: Response)
    requires CanRead(store, ROOT_PATH + Route(req, store).file)
    ensures fresh(response) && fresh(response.statusLine) && fresh(response.headers) && response.Valid()
    ensures response.State() == Apply(Initial(), Route(req, store), FileText(store, Route(req, store).file))
  {
    StagesCompose(req, store);
    response := new Response();
    HandleAuthentication(req, response, store);
    HandleCustomRoutes(req, response, store);
    HandleEverythingElse(req, response, store);
  }

  /** `handle_authentication`. */
  method HandleAuthentication(req: Request, response: Response, store: Store)
    requires response.Valid() && CanServe(response.State(), AuthenticationDecision(req), store)
    modifies response, response.statusLine, response.headers
    ensures response.Valid()
    ensures response.State() == Stage(old(response.State()), AuthenticationDecision(req), store)
  {
    if response.GetStatusCode() == Unknown {
      if req.GetMethod() == GET && req.GetPath() == "/admin" {
        if req.GetHeader("Authorization") == Some(ADMIN_KEY) {
          Serve(response, Decision(Status200, false, "admin.html"), store);
        } else {
          Serve(response, Decision(Status401, true, "401.html"), store);
        }
      }
    }
  }

  /** `handle_custom_routes`; the delay itself is `SleepSeconds`. */
  method HandleCustomRoutes(req: Request, response: Response, store: Store)
    requires response.Valid() && CanServe(response.State(), CustomRouteDecision(req), store)
    modifies response, response.statusLine, response.headers
    ensures response.Valid()
    ensures response.State() == Stage(old(response.State()), CustomRouteDecision(req), store)
  {
    if response.GetStatusCode() == Unknown {
      if req.GetMethod() == GET && req.GetPath() == "/sleep" {
        Serve(response, Decision(Status200, false, "hello.html"), store);
      }
    }
  }

  /** `handle_everything_else`. */
  method HandleEverythingElse(req: Request, response: Response, store: Store)
    requires response.Valid() && CanServe(response.State(), Some(FallbackDecision(req, store)), store)
    modifies response, response.statusLine, response.headers
    ensures response.Valid()
    ensures response.State() == Stage(old(response.State()), Some(FallbackDecision(req, store)), store)
  {
    if response.GetStatusCode() == Unknown {
      var d;
      if req.GetMethod() == GET && req.GetPath() == "/" {
        d := Decision(Status200, false, "hello.html");
      } else if req.GetMethod() == GET {
        if ROOT_PATH + req.GetPath() in store {
          d := Decision(Status200, false, req.GetPath());
        } else {
          d := Decision(Status404, false, "404.html");
        }
      } else {
        d := Decision(Status501, false, "501.html");
      }
      Serve(response, d, store);
    }
  }
}
