/** The response side of `src/http/response.rs`: status codes with their
    reason phrases and numbers, the status line, and the `Response` that the
    routing stages build up in place and the server writes out. */
module HttpResponse {
  import opened Wrappers
  import opened RustStr
  import opened Http
  import HeaderMap

  /** The status codes the server knows; `Unknown` marks a response that no
      stage has decided yet. */
  datatype StatusCode =
    | Status200 | Status404 | Status400 | Status401 | Status405
    | Status500 | Status501 | Status502 | Status503
    | Unknown

  /** The reason phrase `set_status_code` stores for a code: never empty, and
      never breaking the status line. */
  function ReasonPhrase(c: StatusCode): (r: string)
    ensures r != [] && '\r' !in r && '\n' !in r
  {
    match c
    case Status200 => "Ok"
    case Status404 => "Not Found"
    case Status501 => "Not Implemented"
    case Status400 => "Invalid Request"
    case Status401 => "Unauthorized"
    case Status405 => "Method Not Allowed"
    case Status500 => "Internal Server Error"
    case Status502 => "Bad Gateway"
    case Status503 => "Service Unavailable"
    case Unknown => "Internal Server Error"
  }

  /** The numeric code the status line shows, three digits with no space;
      `Unknown` shows as 500. */
  function CodeText(c: StatusCode): (r: string)
    ensures |r| == 3 && AllDigits(r) && ' ' !in r
  {
    match c
    case Status200 => "200"
    case Status404 => "404"
    case Status501 => "501"
    case Status400 => "400"
    case Status401 => "401"
    case Status405 => "405"
    case Status500 => "500"
    case Status502 => "502"
    case Status503 => "503"
    case Unknown => "500"
  }

  /** The known status whose number is `code`, if any. */
  function StatusOfCode(code: string): Option<StatusCode> {
    if code == "200" then Some(Status200)
    else if code == "404" then Some(Status404)
    else if code == "501" then Some(Status501)
    else if code == "400" then Some(Status400)
    else if code == "401" then Some(Status401)
    else if code == "405" then Some(Status405)
    else if code == "500" then Some(Status500)
    else if code == "502" then Some(Status502)
    else if code == "503" then Some(Status503)
    else None
  }

  /** The number shown identifies the status: every real code reads back as
      itself, and `Unknown` reads back as 500. */
  lemma CodeTextRoundTrip(c: StatusCode)
    ensures StatusOfCode(CodeText(c)) == Some(if c == Unknown then Status500 else c)
  {
  }

  /** The nine real codes show nine different numbers. */
  lemma CodeTextInjective(c: StatusCode, d: StatusCode)
    requires c != Unknown && d != Unknown
    requires CodeText(c) == CodeText(d)
    ensures c == d
  {
    CodeTextRoundTrip(c);
    CodeTextRoundTrip(d);
  }

  /** The nine real codes have nine different reason phrases; `Unknown`
      shares the phrase of 500. */
  lemma ReasonPhraseDistinct(c: StatusCode, d: StatusCode)
    requires c != Unknown && d != Unknown && c != d
    ensures ReasonPhrase(c) != ReasonPhrase(d)
    ensures ReasonPhrase(Unknown) == ReasonPhrase(Status500)
  {
  }

  // --------------------------------------------------------- the status line

  const HTTP_VERSION: string := "HTTP/1.1"

  /** The text `StatusLine`'s `Display` writes for a line in the state
      `set_status_code` leaves. */
  function StatusLineText(c: StatusCode): string {
    HTTP_VERSION + " " + CodeText(c) + " " + ReasonPhrase(c)
  }

  /** Reading the status code back from a status line: the second of its
      space-separated fields, as a client does (section 6.1 of RFC 2616). */
  function ReadStatusCode(line: string): Option<StatusCode> {
    match SplitOnce(line, ' ')
    case None => None
    case Some((_, rest)) =>
      match SplitOnce(rest, ' ')
      case None => None
      case Some((code, _)) => StatusOfCode(code)
  }

  /** A status line names its status: a client reads back the code that was
      set, or 500 for `Unknown`. */
  lemma StatusLineRoundTrip(c: StatusCode)
    ensures ReadStatusCode(StatusLineText(c)) == Some(if c == Unknown then Status500 else c)
  {
    CodeTextRoundTrip(c);
    var rest := CodeText(c) + " " + ReasonPhrase(c);
    assert StatusLineText(c) == HTTP_VERSION + [' '] + rest;
    SplitOnceAtFirst(HTTP_VERSION, ' ', rest);
    assert rest == CodeText(c) + [' '] + ReasonPhrase(c);
    SplitOnceAtFirst(CodeText(c), ' ', ReasonPhrase(c));
  }

  /** `StatusLine`: version, code and reason phrase. */
  class StatusLine {
    var httpVersion: string
    var statusCode: StatusCode
    var reasonPhrase: string

    /** The version is HTTP/1.1 and the phrase is the one the code calls for. */
    ghost predicate Valid()
      reads this
    {
      httpVersion == HTTP_VERSION && reasonPhrase == ReasonPhrase(statusCode)
    }

    /** `StatusLine::new`: HTTP/1.1, `Unknown`, "Internal Server Error". */
    constructor ()
      ensures Valid()
      ensures httpVersion == "HTTP/1.1" && statusCode == Unknown && reasonPhrase == "Internal Server Error"
    {
      httpVersion := HTTP_VERSION;
      statusCode := Unknown;
      reasonPhrase := "Internal Server Error";
    }

    /** `set_status_code`: the code and the phrase from the table; the version stays. */
    method SetStatusCode(c: StatusCode)
      requires Valid()
      modifies this
      ensures Valid()
      ensures statusCode == c && reasonPhrase == ReasonPhrase(c) && httpVersion == old(httpVersion)
    {
      statusCode := c;
      reasonPhrase := ReasonPhrase(c);
    }

    /** `Display`: `<version> <code> <reason>`, from which a client reads back
        the code (500 for `Unknown`). */
    function Text(): (r: string)
      requires Valid()
      reads this
      ensures r == StatusLineText(statusCode)
      ensures ReadStatusCode(r) == Some(if statusCode == Unknown then Status500 else statusCode)
    {
      StatusLineRoundTrip(statusCode);
      httpVersion + " " + CodeText(statusCode) + " " + reasonPhrase
    }
  }

  // ------------------------------------------------------- the response

  /** What a response holds: status, headers and body. */
  datatype ResponseState = ResponseState(status: StatusCode, headers: map<string, string>, body: string)

  /** `Response::new`: no status yet, the `Server` header, an empty body. */
  function Initial(): ResponseState {
    ResponseState(Unknown, Insert(map[], "Server", "rust server"), "")
  }

  /** `set_status_code`: only the status changes. */
  function WithStatus(st: ResponseState, c: StatusCode): ResponseState {
    st.(status := c)
  }

  /** `add_header`: only the header map changes. */
  function WithHeader(st: ResponseState, key: string, value: string): ResponseState {
    st.(headers := Insert(st.headers, key, value))
  }

  /** `set_body`: the body, and a `Content-Length` header with its length in bytes. */
  function WithBody(st: ResponseState, content: string): ResponseState {
    st.(headers := Insert(st.headers, "Content-Length", Decimal(Utf8Length(content))), body := content)
  }

  /** The `Content-Length` header, when present, gives the body's length in bytes. */
  ghost predicate LengthInStep(st: ResponseState) {
    "Content-Length" in st.headers ==> st.headers["Content-Length"] == Decimal(Utf8Length(st.body))
  }

  /** A new response has no status, exactly the header `Server: rust server`, no body. */
  lemma InitialResponse()
    ensures Initial().status == Unknown
    ensures Initial().headers == map["Server" := "rust server"]
    ensures Initial().body == ""
    ensures LengthInStep(Initial())
  {
    TrimNoop("Server");
    TrimNoop("rust server");
  }

  /** Decimal text has no whitespace at its ends, so trimming keeps it. */
  lemma DecimalTrimmed(n: nat)
    ensures Trim(Decimal(n)) == Decimal(n)
  {
    var d := Decimal(n);
    assert '0' <= d[0] <= '9' && '0' <= d[|d| - 1] <= '9';
    TrimNoop(d);
  }

  /** After `set_body` the header names the byte length of the new body. */
  lemma WithBodyInStep(st: ResponseState, content: string)
    ensures LengthInStep(WithBody(st, content))
    ensures "Content-Length" in WithBody(st, content).headers
  {
    TrimNoop("Content-Length");
    DecimalTrimmed(Utf8Length(content));
  }

  /** A second `set_body` replaces both the body and the length of the first. */
  lemma WithBodyTwice(st: ResponseState, first: string, second: string)
    ensures WithBody(WithBody(st, first), second) == WithBody(st, second)
  {
    TrimNoop("Content-Length");
    DecimalTrimmed(Utf8Length(first));
    DecimalTrimmed(Utf8Length(second));
  }

  /** Setting the status or adding another header keeps the length in step. */
  lemma OtherChangesKeepLength(st: ResponseState, c: StatusCode, key: string, value: string)
    requires LengthInStep(st)
    requires Trim(key) != "Content-Length"
    ensures LengthInStep(WithStatus(st, c))
    ensures LengthInStep(WithHeader(st, key, value))
  {
  }

  /** The message the server writes: status line, CRLF, header lines, CRLF, body. */
  function Serialize(st: ResponseState, order: seq<string>): string
    requires forall i :: 0 <= i < |order| ==> order[i] in st.headers
  {
    StatusLineText(st.status) + CRLF + RenderHeaders(st.headers, order) + CRLF + st.body
  }

  /** Where the parts of `line + sep + headers + sep + body` sit. */
  lemma FrameParts(line: string, sep: string, headers: string, body: string)
    requires |sep| == 2
    ensures var text := line + sep + headers + sep + body;
      |text| == |line| + |headers| + |body| + 4
      && text[..|line| + 2] == line + sep
      && text[|text| - |body|..] == body
      && (|headers| >= 2 ==> text[|text| - |body| - 4..|text| - |body|] == headers[|headers| - 2..] + sep)
  {
    var text := line + sep + headers + sep + body;
    assert text == (line + sep) + (headers + sep + body);
    assert text == (line + sep + headers + sep) + body;
    if |headers| >= 2 {
      var n := |text| - |body|;
      assert text[..n] == (line + sep + headers[..|headers| - 2]) + (headers[|headers| - 2..] + sep);
    }
  }

  /** The message starts with the status line and its CRLF, and ends with the
      body; with at least one header, an empty line (CRLF CRLF) sits just
      before the body (section 4.1 of RFC 2616). */
  lemma SerializeLayout(st: ResponseState, order: seq<string>)
    requires forall i :: 0 <= i < |order| ==> order[i] in st.headers
    ensures var text, line := Serialize(st, order), StatusLineText(st.status) + CRLF;
      |line| + |st.body| <= |text| && text[..|line|] == line && text[|text| - |st.body|..] == st.body
    ensures order != [] ==>
      var text := Serialize(st, order);
      |text| >= |st.body| + 4 && text[|text| - |st.body| - 4..|text| - |st.body|] == CRLF + CRLF
  {
    var headers := RenderHeaders(st.headers, order);
    RenderHeadersEndsInCrlf(st.headers, order);
    FrameParts(StatusLineText(st.status), CRLF, headers, st.body);
  }

  lemma Regroup(p: string, before: string, x: string, after: string, sep: string, body: string)
    ensures p + (before + x + after) + sep + body == (p + before) + x + (after + sep + body)
  {
  }

  /** The `Content-Length` header line, spelled out. */
  lemma ContentLengthLine(x: string, value: string, y: string)
    ensures x + HeaderLine("Content-Length", value) + y == x + "Content-Length: " + value + CRLF + y
  {
    assert HeaderLine("Content-Length", value) == "Content-Length: " + value + CRLF;
  }

  /** A response whose length is in step carries, among its header lines,
      `Content-Length: <byte length of the body>`. */
  lemma SerializeHasContentLength(st: ResponseState, order: seq<string>)
    requires EnumeratesKeys(order, st.headers.Keys)
    requires LengthInStep(st) && "Content-Length" in st.headers
    ensures exists before, after ::
      Serialize(st, order) == before + "Content-Length: " + Decimal(Utf8Length(st.body)) + CRLF + after
  {
    var value := st.headers["Content-Length"];
    var line := HeaderLine("Content-Length", value);
    RenderHeadersHasLine(st.headers, order, "Content-Length");
    var before, after :| RenderHeaders(st.headers, order) == before + line + after;
    var head := StatusLineText(st.status) + CRLF;
    Regroup(head, before, line, after, CRLF, st.body);
    ContentLengthLine(head + before, value, after + CRLF + st.body);
    assert value == Decimal(Utf8Length(st.body));
  }

  /** `Response`: a status line and a header map it owns, and a body. */
  class Response {
    const statusLine: StatusLine
    const headers: HeaderMap.Headers
    var body: string

    ghost predicate Valid()
      reads this, statusLine, headers
    {
      statusLine.Valid() && headers.Valid()
    }

    /** The response as a value. */
    ghost function State(): ResponseState
      reads this, statusLine, headers
    {
      ResponseState(statusLine.statusCode, headers.entries, body)
    }

    /** `Response::new`. */
    constructor ()
      ensures Valid() && fresh(statusLine) && fresh(headers)
      ensures State() == Initial()
    {
      statusLine := new StatusLine();
      var h := new HeaderMap.Headers();
      h.AddHeader("Server", "rust server");
      headers := h;
      body := "";
    }

    /** `set_status_code`: only the status line changes. */
    method SetStatusCode(c: StatusCode)
      requires Valid()
      modifies statusLine
      ensures Valid()
      ensures State() == WithStatus(old(State()), c)
    {
      statusLine.SetStatusCode(c);
    }

    /** `add_header`: only the header map changes. */
    method AddHeader(key: string, value: string)
      requires Valid()
      modifies headers
      ensures Valid()
      ensures State() == WithHeader(old(State()), key, value)
    {
      headers.AddHeader(key, value);
    }

    /** `set_body`: `Content-Length` is set to the UTF-8 length of the content,
        then the body is replaced. */
    method SetBody(content: string)
      requires Valid()
      modifies this, headers
      ensures Valid()
      ensures State() == WithBody(old(State()), content)
    {
      var length := Utf8Length(content);
      headers.AddHeader("Content-Length", Decimal(length));
      body := content;
    }

    /** `get_status_code`: the status of the response, which is the code a
        client reads from its status line (500 for `Unknown`). */
    function GetStatusCode(): (c: StatusCode)
      requires Valid()
      reads this, statusLine, headers
      ensures c == State().status
      ensures ReadStatusCode(statusLine.Text()) == Some(if c == Unknown then Status500 else c)
    {
      statusLine.statusCode
    }

    /** `Display`: the status line, CRLF, the header lines in the map's order,
        CRLF, the body. */
    method Display() returns (text: string, ghost order: seq<string>)
      requires Valid()
      ensures EnumeratesKeys(order, headers.entries.Keys)
      ensures text == Serialize(State(), order)
    {
      var rendered;
      rendered, order := headers.Display();
      text := statusLine.Text() + CRLF + rendered + CRLF + body;
    }
  }
}
