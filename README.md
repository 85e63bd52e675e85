# yaw: an HTTP/1.1 server's request handling, modelled in Dafny

This is a model of the core of a small multi-threaded HTTP/1.1 server written in Rust. It covers:

- **Reading a request.** The request line is split into method, target and version. The target is split into path and query, and the query into parameters. Header lines are read up to the blank line.
- **The header map.** A line is split at its first `:`, and the key and value are trimmed. The last value for a key wins, and the map renders as `Key: Value` lines. There are two copies of it: the current one in `headers.rs`, which reports a line without `:` as an error, and the older one in `mod.rs`, which panics on such a line.
- **The response.**
  - The status-code table gives each code its reason phrase and number.
  - The status line is `HTTP/1.1 <code> <reason>`.
  - `set_body` keeps `Content-Length` equal to the body's byte length.
  - The message is written as status line, CRLF, header lines, CRLF, body.
- **The routing pipeline, in both revisions the repository holds.**
  - Both have three stages: authentication for `/admin`, custom routes for `/sleep`, and a static-file fallback. Each stage acts only while the response's status is still `UNKNOWN`.
  - The older `Request::process` in `request.rs` hard-codes the admin key and unwraps every file read.
  - The current `RequestProcessor` in `request_processor.rs` takes its credentials and index page from a configuration. A failed file load there becomes a `NotFound` or `InternalServerError` error, and that error ends the pipeline at once.
- **Errors.** Each error kind becomes a response with its status code. `handle_connection` sends either the processor's response or the error's response.
- **Basic authentication** (section 2 of RFC 7617). The check compares the `Authorization` header with `Basic ` followed by the base64 of `user:password`. The base64 is section 4 of RFC 4648, written out here together with its decoder, so that the round trip can be proved.

## Module layout

| Dafny module | file | models |
|---|---|---|
| `Wrappers` | `wrappers.dfy` | `Option` and `Result` |
| `RustStr` | `rust_str.dfy` | The Rust string operations the code calls: `trim`, `split_once`, `split`, `split_ascii_whitespace`, `parse::<u64>`, `to_string` of an integer, and `len` / `as_bytes` (UTF-8) |
| `Base64` | `base64.dfy` | Base64, section 4 of RFC 4648 |
| `FileStore` | `files.dfy` | The file system, as a map from path to readable text or unreadable entry |
| `Http` | `http_mod.dfy` | `src/http/mod.rs`: `CRLF`, header maps as values, the older `Headers` class |
| `HeaderMap` | `headers.dfy` | `src/http/headers.rs` |
| `HttpResponse` | `response.dfy` | `src/http/response.rs` |
| `HttpErrors` | `errors.dfy` | `src/http/errors.rs` |
| `HttpRequest` | `request.dfy` | `src/http/request.rs`, including the older pipeline |
| `HttpAuth` | `auth.dfy` | `src/http/auth.rs` |
| `Processor` | `request_processor.dfy` | `src/request_processor.rs` |
| `Server` | `server.dfy` | The error-to-response dispatch of `src/server.rs`, and the expectations of `src/tests.rs` |

### How the model is built

- **Mutable objects.**
  - `StatusLine`, `Response` and both `Headers` types are classes whose methods update their fields in place.
  - A method's contract ties its new state to a function over values. For example, `Response.State()` after `SetBody(c)` is `WithBody(old(State()), c)`.
  - The properties are proved as lemmas about those functions.
  - The routing stages of both revisions are methods over a shared `Response`. They are proved equal to stage functions (`Stage`, and `Authentication`, `CustomRoutes` and `EverythingElse`).
- **Request state.**
  - `Query::parse` and `Request::load` are loops, with their invariants.
  - A request's header map is a value once loaded.
- **Panics.** Where the source panics, the model returns `None` (`RequestLine.Parse`, `Loaded`) or carries a precondition (`Http.Headers.ParseHeaderField`, and the file reads of the older pipeline).
- **Header order.** A `HashMap`'s iteration order is unspecified. `Display` therefore returns a ghost `order` that lists each key exactly once, and the text is stated for that order.

### Where the code panics instead of returning an error

- `HttpError` has a `BadRequest` kind, but `RequestLine::parse` (src/http/request.rs:80-100) panics on a line with fewer than three tokens or an unknown method. `Loaded` is `None` for such a line.
- `headers.rs` reports a header line without `:` as a `ParseError`, but the older `parse_header_field` (src/http/mod.rs:81-84), which `Request::load` calls, unwraps the split and panics. `Loaded` is `None` for such a line too.

### Other points worth knowing

- **The admin key.** The older `/admin` route accepts only `user:pass`: its key is `Basic dXNlcjpwYXNz` (`UserPassKey`). The configuration and the tests use `user`/`password`. The current pipeline accepts those. The older one refuses them (`ConfigCredentialsNotLegacyKey`).
- **The index page.** `Config::new` in `src/http/server.rs` names `index.html`, and `main.rs` sets `hello.html`. `Server.DEFAULT_CONFIG` uses `hello.html`, as the running server would.

## Model

| member | source | states |
|---|---|---|
| RustStr.Trim | src/http/headers.rs:33-35 | `str::trim`: the result is empty, or neither starts nor ends with whitespace |
| RustStr.TrimStartSpec | src/http/headers.rs:34 | Trimming the front keeps a suffix, drops only whitespace, and leaves no leading whitespace |
| RustStr.TrimEndSpec | src/http/headers.rs:34 | Trimming the back keeps a prefix, drops only whitespace, and leaves no trailing whitespace |
| RustStr.TrimSpec | src/http/headers.rs:34 | `trim` removes whitespace from the two ends of a string and nothing else |
| RustStr.TrimNoop | src/http/headers.rs:34 | A string without whitespace at its ends is its own trim |
| RustStr.TrimIdempotent | src/http/headers.rs:34 | Trimming twice gives the same as trimming once |
| RustStr.SplitOnce | src/http/headers.rs:20 | `split_once`: `None` exactly when the separator is absent; otherwise the input is before + separator + after, with no separator in before |
| RustStr.SplitOnceAtFirst | src/http/request.rs:24-25 | `x + c + z`, where `x` has no `c`, splits into `x` and `z`: the split is at the first separator, and later ones stay in the second part |
| RustStr.Split | src/http/request.rs:21 | `split` gives at least one piece |
| RustStr.SplitPieces | src/http/request.rs:21 | No piece of a split contains the separator |
| RustStr.JoinSplit | src/http/request.rs:21 | Joining the pieces of a split with the separator rebuilds the input |
| RustStr.SplitJoin | src/http/request.rs:21 | Splitting a join of separator-free pieces gives back those pieces |
| RustStr.SplitAppend | src/http/request.rs:21 | Splitting `a + c + b` is splitting `a`, then splitting `b` |
| RustStr.Tokens | src/http/request.rs:81-82 | `split_ascii_whitespace`: every token is non-empty and holds no ASCII whitespace |
| RustStr.TokensAppend | src/http/request.rs:81-82 | For all inputs, any whitespace character splits the tokens: those of the text before it, then those of the text after it. Together with `TokensOfWord`, this makes the tokens the maximal runs of non-whitespace, in order |
| RustStr.TokensOfWord | src/http/request.rs:81-82 | A word followed by whitespace or the end is the first token, and the rest is tokenised on its own |
| RustStr.Decimal | src/http/response.rs:106-107 | An integer's `to_string` is a non-empty run of digits with no leading zero |
| RustStr.DecimalValue | src/http/response.rs:107 | Reading back the digits of `to_string` gives the number |
| RustStr.DecimalInjective | src/http/response.rs:107 | Different numbers print differently |
| RustStr.ParseDecimal | src/request_processor.rs:74-75 | Every `u64` survives printing and then `parse::<u64>` |
| RustStr.ParseRejectsNonDigit | src/request_processor.rs:74-75 | Any character that is neither a digit nor a leading `+` makes `parse::<u64>` fail |
| RustStr.Utf8Encode | src/http/auth.rs:8 | The UTF-8 bytes of a string number exactly its `len` |
| RustStr.Utf8Concat | src/http/auth.rs:8 | UTF-8 encoding and byte length distribute over concatenation |
| RustStr.Utf8AsciiLength | src/http/response.rs:106 | For ASCII text, `len` is the character count |
| RustStr.Utf8AsciiBytes | src/http/auth.rs:8 | For ASCII text, each byte is the code of the character at the same position |
| Base64.SextetRoundTrip | src/http/auth.rs:8 | Each alphabet character (Table 1 of RFC 4648) reads back as its 6-bit value and is never the pad `=` |
| Base64.Encode | src/http/auth.rs:8 | Padded encoding of n bytes has 4 * ceil(n / 3) characters |
| Base64.EncodeGroupThen | src/http/auth.rs:8 | A leading 3-byte group is encoded on its own, in front of the encoding of the rest |
| Base64.GroupRoundTrip | src/http/auth.rs:8 | A 24-bit group decodes back to its three bytes |
| Base64.DecodeEncode | src/http/auth.rs:8 | Decoding inverts encoding, for every byte string |
| Base64.EncodeInjective | src/http/auth.rs:8 | Different byte strings have different encodings |
| Base64.EncodeCharacters | src/http/auth.rs:8 | Every output character is in the alphabet, except `=` padding, which only fills the last two places |
| Base64.Rfc4648Vectors | src/http/auth.rs:8 | The encoder reproduces the test vectors of section 10 of RFC 4648 |
| Http.InsertTrimmed | src/http/mod.rs:90-92 | Adding a header keeps every key and value of the map trimmed |
| Http.Lookup | src/http/mod.rs:86-92 | `get_header` on a map that `add_header` keeps trimmed: any value it finds is trimmed, and a name with whitespace at either end finds nothing |
| Http.LookupInsert | src/http/mod.rs:90-92 | After adding, the trimmed key finds the trimmed value and every other name finds what it found before: last write wins, and nothing else changes |
| Http.LookupUntrimmed | src/http/mod.rs:86-92 | A name with whitespace at either end is never found |
| Http.FieldParts | src/http/mod.rs:81-82 | A header line splits at a `:` into key and value, with no `:` in the key; there is no split when the line has no `:` |
| Http.FieldPartsFirstColon | src/http/mod.rs:82 | The split is at the first `:`, and later colons stay in the value |
| Http.InsertFieldSame | src/http/mod.rs:81-84 | After a line is parsed, its trimmed name looks up its trimmed value |
| Http.InsertFieldOther | src/http/mod.rs:81-84 | Parsing a line leaves every other name's lookup unchanged |
| Http.InsertFieldValueWithColon | src/http/mod.rs:81-84 | `Host: localhost:8080` stores `localhost:8080` under `Host` |
| Http.InsertFieldsLastWins | src/http/request.rs:133-141 | Over a run of header lines, the last line with a given name decides its value |
| Http.RenderHeadersHasLine | src/http/mod.rs:95-103 | Every entry's `key: value` CRLF line occurs in the rendered text |
| Http.RenderHeadersEndsInCrlf | src/http/mod.rs:95-103 | The rendered text is empty exactly when there are no entries, and otherwise ends in CRLF |
| Http.EnumerationSize | src/http/mod.rs:97 | An iteration order lists as many keys as the map has, so there is one line per entry |
| Http.RenderEmpty | src/http/mod.rs:95-103 | An empty map renders as `""` |
| Http.WriteHeaders | src/http/mod.rs:95-103 | The rendering loop writes one line per key, in an order that lists every key exactly once |
| Http.Headers.constructor | src/http/mod.rs:75-80 | A new map is empty |
| Http.Headers.ParseHeaderField | src/http/mod.rs:81-84 | For a line with `:`, the new map is the old one plus the line's trimmed key and value |
| Http.Headers.GetHeader | src/http/mod.rs:86-88 | An exact lookup, whose value is always trimmed |
| Http.Headers.AddHeader | src/http/mod.rs:90-92 | Stores the trimmed key with the trimmed value and keeps the map trimmed |
| Http.Headers.Display | src/http/mod.rs:95-103 | One `key: value` CRLF line per entry, in the map's iteration order |
| HeaderMap.Headers.constructor | src/http/headers.rs:14-18 | A new map is empty |
| HeaderMap.Headers.ParseAndAddHeaderFrom | src/http/headers.rs:19-27 | An error exactly when the line has no `:`, and then the map is unchanged; otherwise the split at the first `:` is added |
| HeaderMap.Headers.GetHeader | src/http/headers.rs:29-31 | An exact, case-sensitive lookup, whose value is always trimmed |
| HeaderMap.Headers.AddHeader | src/http/headers.rs:33-35 | Stores the trimmed key with the trimmed value, replacing only that key's entry |
| HeaderMap.Headers.Display | src/http/headers.rs:38-46 | One `key: value` CRLF line per entry, in the map's iteration order |
| HttpResponse.ReasonPhrase | src/http/response.rs:38-49 | Every reason phrase is non-empty and holds no CR or LF, so the status line stays one line |
| HttpResponse.ReasonPhraseDistinct | src/http/response.rs:38-49 | The nine real codes have nine different reason phrases, and `UNKNOWN` shares the phrase of 500 |
| HttpResponse.CodeText | src/http/response.rs:63-74 | Every number shown is three digits with no space |
| HttpResponse.CodeTextRoundTrip | src/http/response.rs:63-74 | The number shown reads back as its status; `UNKNOWN` reads back as 500 |
| HttpResponse.CodeTextInjective | src/http/response.rs:63-74 | The nine real codes show nine different numbers |
| HttpResponse.StatusLineRoundTrip | src/http/response.rs:57-78 | A client reading a status line's second field gets back the status that was set, or 500 for `UNKNOWN` |
| HttpResponse.StatusLine.constructor | src/http/response.rs:28-34 | A new status line is `HTTP/1.1`, `UNKNOWN`, "Internal Server Error" |
| HttpResponse.StatusLine.SetStatusCode | src/http/response.rs:36-50 | Sets the code and the reason phrase the table gives it; the version stays |
| HttpResponse.StatusLine.Text | src/http/response.rs:57-78 | Renders `HTTP/1.1 <code> <reason>`, from which the code reads back |
| HttpResponse.InitialResponse | src/http/response.rs:88-96 | A new response has status `UNKNOWN`, exactly the header `Server: rust server`, and an empty body |
| HttpResponse.WithBodyInStep | src/http/response.rs:105-109 | After `set_body`, `Content-Length` is present and gives the body's byte length |
| HttpResponse.WithBodyTwice | src/http/response.rs:105-109 | A second `set_body` replaces both the body and the length of the first |
| HttpResponse.OtherChangesKeepLength | src/http/response.rs:97-103 | Setting the status or adding another header keeps `Content-Length` in step with the body |
| HttpResponse.SerializeLayout | src/http/response.rs:116-128 | The message starts with the status line and CRLF and ends with the body; with any header, CRLF CRLF sits just before the body |
| HttpResponse.SerializeHasContentLength | src/http/response.rs:116-128 | A response whose length is in step carries the line `Content-Length: <byte length of the body>` |
| HttpResponse.Response.constructor | src/http/response.rs:88-96 | A new response is in its initial state |
| HttpResponse.Response.SetStatusCode | src/http/response.rs:97-99 | Only the status changes |
| HttpResponse.Response.AddHeader | src/http/response.rs:101-103 | Only the header map changes, by one trimmed entry |
| HttpResponse.Response.SetBody | src/http/response.rs:105-109 | The body is the content, and `Content-Length` is its UTF-8 byte length |
| HttpResponse.Response.GetStatusCode | src/http/response.rs:111-113 | The response's status, which is the code a client reads back from its status line (500 for `UNKNOWN`) |
| HttpResponse.Response.Display | src/http/response.rs:116-128 | The text is status line, CRLF, the header lines, CRLF, body |
| HttpErrors.ClientError.ToResponse | src/http/errors.rs:22-47 | A new response with status 400, 401, 405 or 404 for the four client errors |
| HttpErrors.ServerError.ToResponse | src/http/errors.rs:49-74 | A new response with status 500, 501, 502 or 503 for the four server errors |
| HttpErrors.ErrorClasses | src/http/errors.rs:22-74 | No error gives `UNKNOWN`; client errors are 4xx and server errors are 5xx |
| HttpErrors.ErrorStatusInjective | src/http/errors.rs:22-74 | The eight error kinds give eight different status codes |
| HttpErrors.ErrorResponseShape | src/http/errors.rs:26-28 | An error response has an empty body, only the `Server` header (no `Content-Length`), and a status line that reads back as its code |
| HttpRequest.MethodOfName | src/http/request.rs:83-90 | A token is a method exactly when it is that method's upper-case name |
| HttpRequest.Param | src/http/request.rs:24-25 | A segment without `=` is a name with value `""`; otherwise name, `=`, value rebuild the segment, and the name has no `=` |
| HttpRequest.ParamsOfLastWins | src/http/request.rs:23-26 | A name some segment carries is a parameter, and its value is the one from the last segment that carries it |
| HttpRequest.ParamsOfNames | src/http/request.rs:23-26 | Only names that some segment carries are parameters |
| HttpRequest.QueryParamsAppend | src/http/request.rs:21-26 | Appending `&segment` adds that one parameter and overrides an earlier one of the same name |
| HttpRequest.QueryParamsSingle | src/http/request.rs:21-26 | `name=value` gives exactly that one parameter, even with `=` in the value |
| HttpRequest.QueryGetParam | src/http/request.rs:20-35 | `get_param` on a parsed query finds a value exactly for the names some segment carries, and that value comes from the last segment carrying the name |
| HttpRequest.Query.Parse | src/http/request.rs:20-31 | The loop's map is the parameters of the `&`-split query, inserted in order |
| HttpRequest.ParseTarget | src/http/request.rs:43-59 | No query exactly when there is no `?`, and then the path is the whole target; otherwise the path is the text before the first `?` and the rest is the query |
| HttpRequest.TargetWithoutQuery | src/http/request.rs:43-70 | Without `?`, the path is the whole target and `get_param` is `None` for every name |
| HttpRequest.TargetWithQuery | src/http/request.rs:43-59 | `path?query` gives back `path` and the parameters of `query`, even when `query` has further `?` |
| HttpRequest.TargetGetParam | src/http/request.rs:65-70 | `get_param` on `path?query` is the parsed query's `get_param` |
| HttpRequest.RequestLine.Parse | src/http/request.rs:80-100 | Succeeds exactly when there are at least three tokens and the first is a known method; then the method, target and version are the first three tokens, and later ones are ignored |
| HttpRequest.TokensOfLine | src/http/request.rs:81-82 | `a SP b SP c CRLF` has the tokens `a`, `b` and `c` |
| HttpRequest.ParseFramedRequestLine | src/http/request.rs:80-100 | A request line framed as in section 5.1 of RFC 2616 parses to its method, target and version |
| HttpRequest.HeaderBlockEnd | src/http/request.rs:133-141 | The header block ends at the first CRLF line, every earlier line having a `:`; it fails when a line without `:`, or the end of the stream, comes first |
| HttpRequest.Loaded | src/http/request.rs:125-150 | A request exactly when the request line parses and a blank line ends a block of lines that all have `:`. The request then holds that line, the headers of exactly those lines, and an empty body |
| HttpRequest.LoadedRequestLine | src/http/request.rs:152-166 | On a loaded request, the method getter gives the first token, and the path and parameter getters give those of the target, the second token |
| HttpRequest.LoadedHeader | src/http/request.rs:160-162 | On a loaded request, `get_header` of a name gives the value of the last header line carrying that name |
| HttpRequest.Load | src/http/request.rs:125-150 | The loop reads the request line, then headers up to the blank line, with an empty body: the result is `Loaded(lines)` |
| HttpRequest.LoadedStopsAtBlankLine | src/http/request.rs:133-148 | The request holds exactly the header lines before the first CRLF, nothing after it, and the body `""` |
| HttpRequest.RouteDecides | src/http/request.rs:180-254 | Every route sets a real status, and only a 401 carries the challenge |
| HttpRequest.StagesCompose | src/http/request.rs:168-178 | The three stages run from a new response carry out exactly the decision of the first stage that takes the request |
| HttpRequest.ChallengeHeader | src/http/request.rs:192-198 | A refused `/admin` gets `WWW-Authenticate: Basic realm="WallyWorld"`, and no other route adds it |
| HttpRequest.SleepSeconds | src/http/request.rs:214-217 | The `/sleep` delay always fits in a `u64` |
| HttpRequest.SleepSecondsCases | src/http/request.rs:214-217 | The delay is 5 without a `time` parameter. It is the parsed value of any text `parse::<u64>` accepts (`+5` and `007` included), and 0 when the text does not parse |
| HttpRequest.Serve | src/http/request.rs:187-198 | Adds the challenge if asked, sets the status, and makes the file's text the body |
| HttpRequest.Process | src/http/request.rs:168-178 | A new response carries out the route's decision: its status, its challenge, and its file's text with the matching `Content-Length` |
| HttpRequest.HandleAuthentication | src/http/request.rs:180-204 | When `UNKNOWN`, `GET /admin` with exactly `Basic dXNlcjpwYXNz` is 200 with `admin.html`, and any other is 401 with the challenge and `401.html`; otherwise nothing changes |
| HttpRequest.HandleCustomRoutes | src/http/request.rs:206-226 | When `UNKNOWN`, `GET /sleep` is 200 with `hello.html`; otherwise nothing changes |
| HttpRequest.HandleEverythingElse | src/http/request.rs:228-254 | When `UNKNOWN`: `GET /` is 200 with `hello.html`; another `GET` is 200 with its file if that exists and 404 with `404.html` if not; other methods are 501 with `501.html` |
| HttpAuth.CredentialBytes | src/http/auth.rs:8 | The encoder's input is `username:password` in UTF-8, of its byte length |
| HttpAuth.ExpectedKey | src/http/auth.rs:8-9 | The key is `Basic ` followed by the 4 * ceil(n / 3) characters of the padded encoding |
| HttpAuth.BasicAuthValidate | src/http/auth.rs:7-11 | Never true without the header. When true, the header is `Basic ` followed by base64 that decodes to exactly `username:password` |
| HttpAuth.CredentialsDistinguished | src/http/auth.rs:8-10 | Two ASCII credential pairs that validate the same request have the same `username:password` |
| HttpAuth.UserPassKey | src/http/auth.rs:8-9 | For `user`/`pass`, the expected key is `Basic dXNlcjpwYXNz`, the key `request.rs` hard-codes |
| HttpAuth.ConfigCredentialsNotLegacyKey | src/http/auth.rs:8-9 | For `user`/`password`, the expected key is not that hard-coded key |
| Processor.LoadContent | src/request_processor.rs:104-127 | A missing file is `NotFound`, an unreadable one `InternalServerError`, and both leave the response unchanged; a readable file becomes the body, with its `Content-Length` |
| Processor.StagesIdleOnceDecided | src/request_processor.rs:39-91 | Once the status is not `UNKNOWN`, every stage changes nothing and reports no error |
| Processor.ServedOk | src/request_processor.rs:22-30 | Every `Ok` is 200 or 401, never `UNKNOWN`. It has a `Content-Length` header giving its body's byte length, and the body is the text of a readable file |
| Processor.ServedHasContentLength | src/request_processor.rs:22-30 | The message written for every `Ok`, in any header order, carries the line `Content-Length: <byte length of the body>` |
| Processor.ServedNonGet | src/request_processor.rs:95 | A method other than `GET` always ends in `MethodNotImplemented` |
| Processor.ServedAdmin | src/request_processor.rs:41-53 | `GET /admin` with valid credentials is 200 with `admin.html`, and otherwise 401 with the challenge and `401.html`; a missing page is `NotFound` and an unreadable one `InternalServerError` |
| Processor.ServedAdminStatus | src/request_processor.rs:41-53 | `GET /admin` with its page readable is served, 200 or 401 as the credentials decide |
| Processor.RefusedAdminChallenged | src/request_processor.rs:46-53 | A refused `/admin` that is served carries `WWW-Authenticate: Basic realm="WallyWorld"` |
| Processor.ServedGet | src/request_processor.rs:66-98 | Any other `GET` serves the index for `/`, `hello.html` for `/sleep` and the path's file otherwise, with 200 or the load's error |
| Processor.RequestProcessor.constructor | src/request_processor.rs:18-20 | The processor keeps its configuration |
| Processor.RequestProcessor.Process | src/request_processor.rs:22-30 | A new response goes through the three stages; the first error is returned at once, and otherwise the response is the pipeline's result |
| Processor.RequestProcessor.HandleAuthentication | src/request_processor.rs:32-59 | The response and the outcome are those of the authentication stage |
| Processor.RequestProcessor.HandleCustomRoutes | src/request_processor.rs:61-84 | The response and the outcome are those of the custom-routes stage |
| Processor.RequestProcessor.HandleEverythingElse | src/request_processor.rs:86-102 | The response and the outcome are those of the fallback stage |
| Processor.RequestProcessor.LoadContentFromFile | src/request_processor.rs:104-127 | The response and the outcome are those of `LoadContent` |
| Server.HandleConnection | src/server.rs:50-64 | A loaded request's `Ok` response is passed through; any error, from loading or processing, becomes its `to_response`; the text written is that response serialised |
| Server.DeliveredStatus | src/server.rs:53-61 | The response sent never has status `UNKNOWN`, and an error's response has that error's status |
| Server.IndexIsOk | src/tests.rs:3-9 | `GET /` is 200 when the index page is readable |
| Server.AdminWithoutCredentials | src/tests.rs:11-17 | `GET /admin` without `Authorization` is 401 when `401.html` is readable |
| Server.AdminWithCredentials | src/tests.rs:19-27 | `GET /admin` with `user`/`password` is 200 when `admin.html` is readable |
| Server.PostNotImplemented | src/tests.rs:29-36 | A `POST` is 501 |
| Server.MissingFileNotFound | src/tests.rs:38-44 | A `GET` of a path with no file is 404 |

## Left out

- Sockets, `TcpListener`, the `ThreadPool` and `Server::run` are left out: they are I/O and concurrency. `handle_connection` is modelled without its stream.
- `BufReader::read_line` is left out. The stream is a sequence of lines, and past its end every line is `""`.
- The `Result` that `src/server.rs` expects from `Request::load` is a parameter of `Server.HandleConnection`. The `load` in `request.rs` returns a plain `Request`, so the two revisions do not fit together.
- `thread::sleep` on `/sleep` is left out: only the delay it would wait is modelled (`SleepSeconds`).
- `fs::metadata` and `fs::read_to_string` are replaced by `FileStore`, a map from path to readable text or unreadable entry; a path not in the map does not exist. Paths are concatenated as the code does and are not normalised.
- `print!` logging is left out.
- `HashMap` iteration order is left out: `Display` is stated for a ghost `order` that lists every key once.
- The panics of `request.rs` are modelled as follows:
  - an unknown method, too few tokens, or a header line without `:` makes `Loaded` `None`;
  - the older pipeline's `unwrap`ped file reads become a precondition that the chosen file is readable;
  - the older `parse_header_field` requires a `:` in its line.
- The `base64` crate is left out. `Base64.Encode` is written from section 4 of RFC 4648.
- `Base64.Decode` is only stated to invert `Encode`. It is not claimed to reject every non-canonical input.
- `HttpAuth.CredentialsDistinguished` is stated for ASCII credentials only. UTF-8 is injective in general, but only the ASCII case is proved.
- `HttpRequest.Process` requires that the chosen file is readable, because the older pipeline panics otherwise.
- The following are not part of this model, because they are wiring or defaults:
  - `src/main.rs`, `src/lib.rs` and `src/config.rs`;
  - `Config::new` / `set_index` in `src/http/server.rs`;
  - the `handle_connection` copies in `src/http/server.rs` and `src/http/mod.rs`.
- `src/tests.rs` is not modelled as code. Its five expectations are lemmas in `Server`.
- `src/tets.py` is not part of this model: it is a separate script, unrelated to the server.
