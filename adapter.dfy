/**
 * The connection handler: it reads the header block and the body from a client connection,
 * lets the request parser fill in the request, and answers with exactly one response chosen
 * in a fixed order: the login form, the cookie-protected index page, the route's handler,
 * and otherwise a static file.
 */
module DaemonAdapter {
  import opened Common
  import opened Text
  import opened Bytes
  import opened Dict
  import opened Socket
  import opened DaemonRequest
  import opened DaemonResponse
  import opened Cookies
  import opened Reassembly

  /** What the request parser reads from the header text: request line, headers, cookies, route. */
  datatype Prepared = Prepared(
    verb: string,
    path: string,
    headers: map<string, string>,
    cookies: map<string, string>,
    hook: Option<Hook>)

  /**
   * Calling a route's handler and rendering its answer with `json.dumps`: the JSON text, or
   * the text of the exception raised on the way.
   */
  datatype HookResult = Returned(json: string) | Raised(message: string)

  /**
   * The code the handler calls but that is not part of this model: UTF-8 decoding with
   * replacement, the request parser (`None` when it raises), the form parser (the first value
   * of each field), the route handlers, `json.dumps` of a string, and the static file
   * environment.
   */
  datatype Services = Services(
    decode: seq<byte> -> string,
    prepare: string -> Option<Prepared>,
    form: string -> map<string, string>,
    invoke: (Hook, map<string, string>, string) -> HookResult,
    quote: string -> string,
    env: Environment)

  /** The path dispatch sees: `/` stands for the index page, whatever the method. */
  function Rewrite(path: string): string {
    if path == "/" then "/index.html" else path
  }

  /** A form field's first value, `""` when the field is missing. */
  function FormField(form: map<string, string>, name: string): string {
    if name in form then form[name] else ""
  }

  /** The only credentials the login form accepts. */
  predicate ValidLogin(form: map<string, string>) {
    FormField(form, "username") == "admin" && FormField(form, "password") == "password"
  }

  /** The branches of dispatch, in the order they are tried. */
  datatype Branch = LoginAccepted | LoginRejected | IndexServed | IndexRefused | HookCalled(hook: Hook) | StaticFile

  /**
   * The branch a request takes: the login form first, then the protected index page, then a
   * bound route handler, and static files last.
   */
  function Choose(verb: string, path: string, cookies: map<string, string>, hook: Option<Hook>,
                  form: map<string, string>): (b: Branch)
    ensures (b.LoginAccepted? || b.LoginRejected?) <==> verb == "POST" && Rewrite(path) == "/login"
    ensures b.LoginAccepted? ==> ValidLogin(form)
    ensures b.LoginRejected? ==> !ValidLogin(form)
    ensures (b.IndexServed? || b.IndexRefused?) <==> verb == "GET" && Rewrite(path) == "/index.html"
    ensures b.IndexServed? ==> Authorized(cookies)
    ensures b.IndexRefused? ==> !Authorized(cookies)
    ensures b.HookCalled? <==>
      (!(verb == "POST" && Rewrite(path) == "/login") && !(verb == "GET" && Rewrite(path) == "/index.html")
       && hook.Some?)
    ensures b.HookCalled? ==> hook == Some(b.hook)
  {
    var p := Rewrite(path);
    if verb == "POST" && p == "/login" then
      if ValidLogin(form) then LoginAccepted else LoginRejected
    else if verb == "GET" && p == "/index.html" then
      if Authorized(cookies) then IndexServed else IndexRefused
    else if hook.Some? then HookCalled(hook.value)
    else StaticFile
  }

  /** The headers of a JSON reply whose body is `n` bytes long. */
  function JsonHeaders(n: nat): Entries {
    [("Content-Type", "application/json"), ("Content-Length", NatToString(n)), ("Connection", "close")]
  }

  /** A JSON reply as the handler writes it: one text, encoded as UTF-8. */
  function JsonReply(code: nat, reason: string, json: string): seq<byte> {
    Utf8("HTTP/1.1 " + NatToString(code) + " " + reason + "\r\n"
      + "Content-Type: application/json" + "\r\n"
      + "Content-Length: " + NatToString(|Utf8(json)|) + "\r\n"
      + "Connection: close" + "\r\n"
      + "\r\n"
      + json)
  }

  /** The error object sent when a route handler fails, around the JSON text of the message. */
  function ErrorJson(quotedMessage: string): string {
    "{\"error\": \"Internal Server Error\", \"message\": " + quotedMessage + "}"
  }

  /** The reply for a route handler's outcome: its JSON as a 200, or a 500 describing the error. */
  function HookReply(outcome: HookResult, quote: string -> string): seq<byte> {
    match outcome
    case Returned(json) => JsonReply(200, "OK", json)
    case Raised(message) => JsonReply(500, "Internal Server Error", ErrorJson(quote(message)))
  }

  /**
   * The bytes sent for a parsed request with body text `body`, when the response holds the
   * headers `hs` and cookies `cs`.
   */
  function Reply(p: Prepared, body: string, hs: Entries, cs: Entries, sv: Services): seq<byte> {
    match Choose(p.verb, p.path, p.cookies, p.hook, sv.form(body))
    case LoginAccepted => StaticReply("/index.html", hs, [("auth", LoginCookie)], sv.env)
    case LoginRejected => Unauthorized()
    case IndexServed => StaticReply("/index.html", hs, cs, sv.env)
    case IndexRefused => Unauthorized()
    case HookCalled(h) => HookReply(sv.invoke(h, p.headers, body), sv.quote)
    case StaticFile => StaticReply(Rewrite(p.path), hs, cs, sv.env)
  }

  /**
   * A JSON reply is framed like any other response: its header block declares the JSON type,
   * `Connection: close` and a `Content-Length` equal to the UTF-8 length of the JSON text.
   */
  lemma JsonFramed(code: nat, reason: string, json: string)
    ensures var n := |Utf8(json)|;
      && Framed(JsonReply(code, reason, json), code, reason, JsonHeaders(n), [], Utf8(json))
      && Get(JsonHeaders(n), "Content-Type") == Some("application/json")
      && Get(JsonHeaders(n), "Connection") == Some("close")
  {
    var n := |Utf8(json)|;
    var hs := JsonHeaders(n);
    JsonHeaderText(code, reason, n);
    Utf8Append(HeaderText(Some(code), Some(reason), hs, []), json);
    JsonHeadersGet(n);
  }

  lemma JsonHeaderText(code: nat, reason: string, n: nat)
    ensures HeaderText(Some(code), Some(reason), JsonHeaders(n), [])
      == "HTTP/1.1 " + NatToString(code) + " " + reason + "\r\n"
         + "Content-Type: application/json" + "\r\n"
         + "Content-Length: " + NatToString(n) + "\r\n"
         + "Connection: close" + "\r\n"
         + "\r\n"
  {
    var hs := JsonHeaders(n);
    var crlf := "\r\n";
    var a := "Content-Type: application/json";
    var p := "Content-Length: ";
    var b := p + NatToString(n);
    var c := "Connection: close";
    var x := StatusLine(Some(code), Some(reason)) + crlf;
    var j := Join(HeaderLines(hs) + CookieLines([]), crlf);
    JsonHeaderLines(n);
    assert HeaderLines(hs) + CookieLines([]) == [a, b, c];
    JoinThree(a, b, c, crlf);
    assert j == a + crlf + b + crlf + c;
    assert crlf + crlf == "\r\n\r\n";
    Assoc(x + j, crlf, crlf);
    Assoc(x, a + crlf + b + crlf, c);
    Assoc(x, a + crlf + b, crlf);
    Assoc(x, a + crlf, b);
    Assoc(x, a, crlf);
    Assoc(x + a + crlf, p, NatToString(n));
  }

  /** Helper: regrouping a concatenation of three strings. */
  lemma Assoc(x: string, y: string, z: string)
    ensures x + (y + z) == x + y + z
  {
  }

  lemma JsonHeaderLines(n: nat)
    ensures HeaderLines(JsonHeaders(n))
      == ["Content-Type: application/json", "Content-Length: " + NatToString(n), "Connection: close"]
  {
    HeaderLinesThree(("Content-Type", "application/json"), ("Content-Length", NatToString(n)),
      ("Connection", "close"));
    assert "Content-Type" + ": " + "application/json" == "Content-Type: application/json";
    assert "Content-Length" + ": " == "Content-Length: ";
    assert "Connection" + ": " + "close" == "Connection: close";
  }

  lemma HeaderLinesThree(e0: (string, string), e1: (string, string), e2: (string, string))
    ensures HeaderLines([e0, e1, e2]) == [e0.0 + ": " + e0.1, e1.0 + ": " + e1.1, e2.0 + ": " + e2.1]
  {
    assert [e0, e1, e2][..2] == [e0, e1];
    assert [e0, e1][..1] == [e0];
    assert [e0][..0] == [];
    assert HeaderLines([e0]) == [e0.0 + ": " + e0.1];
    assert HeaderLines([e0, e1]) == [e0.0 + ": " + e0.1, e1.0 + ": " + e1.1];
  }

  lemma JoinThree(a: string, b: string, c: string, sep: string)
    ensures Join([a, b, c], sep) == a + sep + b + sep + c
  {
    assert [a, b, c][1..] == [b, c];
    assert [b, c][1..] == [c];
    assert Join([b, c], sep) == b + sep + c;
    assert Join([a, b, c], sep) == a + sep + (b + sep + c);
  }

  lemma JsonHeadersGet(n: nat)
    ensures Get(JsonHeaders(n), "Content-Type") == Some("application/json")
    ensures Get(JsonHeaders(n), "Content-Length") == Some(NatToString(n))
    ensures Get(JsonHeaders(n), "Connection") == Some("close")
  {
    var hs := JsonHeaders(n);
    assert hs[0].0[8] != "Content-Length"[8];
    assert hs[1..][0].0 == "Content-Length";
    assert |hs[0].0| != |"Connection"| && |hs[1..][0].0| != |"Connection"|;
    assert hs[1..][1..][0] == ("Connection", "close");
    assert Get(hs, "Connection") == Get(hs[1..], "Connection") == Get(hs[1..][1..], "Connection");
  }

  /**
   * A handler's answer becomes a framed 200 with its JSON; an exception becomes a framed 500
   * whose body is the error object holding the JSON text of the exception's message.
   */
  lemma HookFramed(outcome: HookResult, quote: string -> string)
    ensures outcome.Returned? ==>
      Framed(HookReply(outcome, quote), 200, "OK", JsonHeaders(|Utf8(outcome.json)|), [], Utf8(outcome.json))
    ensures outcome.Raised? ==>
      var e := ErrorJson(quote(outcome.message));
      Framed(HookReply(outcome, quote), 500, "Internal Server Error", JsonHeaders(|Utf8(e)|), [], Utf8(e))
  {
    match outcome
    case Returned(json) => JsonFramed(200, "OK", json);
    case Raised(message) => JsonFramed(500, "Internal Server Error", ErrorJson(quote(message)));
  }

  /**
   * The login form is answered before anything else: valid credentials give the index page
   * with exactly the `auth` cookie queued, anything else the 401.
   */
  lemma LoginReply(p: Prepared, body: string, hs: Entries, cs: Entries, sv: Services)
    requires p.verb == "POST" && Rewrite(p.path) == "/login"
    ensures ValidLogin(sv.form(body)) ==>
      Reply(p, body, hs, cs, sv) == StaticReply("/index.html", hs, Put([], "auth", LoginCookie), sv.env)
    ensures !ValidLogin(sv.form(body)) ==> Reply(p, body, hs, cs, sv) == Unauthorized()
  {
    assert Put([], "auth", LoginCookie) == [("auth", LoginCookie)];
  }

  /**
   * The index page, asked for as `/` or `/index.html`, is served only with an `auth` cookie
   * that passes the gate, whatever route handler is bound; otherwise the reply is the 401.
   */
  lemma IndexGate(p: Prepared, body: string, hs: Entries, cs: Entries, sv: Services)
    requires p.verb == "GET" && Rewrite(p.path) == "/index.html"
    ensures Authorized(p.cookies) ==> Reply(p, body, hs, cs, sv) == StaticReply("/index.html", hs, cs, sv.env)
    ensures !Authorized(p.cookies) ==> Reply(p, body, hs, cs, sv) == Unauthorized()
  {
  }

  /**
   * The gate only guards `GET`: any other method on `/` or `/index.html` with no route handler
   * bound falls through to static serving and gets the index page whatever its cookies say.
   */
  lemma IndexUngatedForOtherVerbs(p: Prepared, body: string, hs: Entries, cs: Entries, sv: Services)
    requires p.verb != "GET" && Rewrite(p.path) == "/index.html" && p.hook.None?
    ensures Reply(p, body, hs, cs, sv) == StaticReply("/index.html", hs, cs, sv.env)
    ensures Reply(p, body, hs, cs, sv) == Reply(p.(cookies := map[]), body, hs, cs, sv)
  {
  }

  /**
   * A successful login answers with the page an authorized request for the index gets when
   * the only cookie queued is `auth`.
   */
  lemma LoginServesIndex(login: Prepared, index: Prepared, body: string, body': string, hs: Entries, sv: Services)
    requires login.verb == "POST" && Rewrite(login.path) == "/login" && ValidLogin(sv.form(body))
    requires index.verb == "GET" && Rewrite(index.path) == "/index.html" && Authorized(index.cookies)
    ensures Reply(login, body, hs, [], sv) == Reply(index, body', hs, [("auth", LoginCookie)], sv)
  {
  }

  /** What the body phase ends with is `BodyOf`: it stops at the declared length or when the peer does. */
  lemma BodyOfIs(already: seq<byte>, stream: seq<byte>, rest: seq<byte>, contentLength: int, body: seq<byte>)
    requires already <= body && body[|already|..] + rest == stream
    requires contentLength <= |already| ==> body == already
    requires contentLength > |already| ==> |body| <= contentLength && (|body| == contentLength || rest == [])
    ensures body == BodyOf(already, stream, contentLength)
  {
    assert body == already + body[|already|..];
    assert stream[..|body| - |already|] == body[|already|..];
  }

  /**
   * The header phase of `handle_client` with the block cut out of the bytes read: the block
   * is the stream's own header block, and nothing was read when the stream is empty.
   * `prev` is what the loop held before its last read.
   */
  method ReceiveHeaderBlock(c: Connection) returns (raw: seq<byte>, ghost prev: seq<byte>, headerBytes: seq<byte>)
    modifies c
    ensures raw + Available(c.pending) == old(Available(c.pending))
    ensures HeaderRead(old(Available(c.pending)), raw, prev)
    ensures raw == [] <==> old(Available(c.pending)) == []
    ensures headerBytes == HeaderBlock(old(Available(c.pending)))
    ensures c.sent == old(c.sent) && c.closed == old(c.closed)
  {
    ghost var stream := Available(c.pending);
    raw, prev := ReceiveHeader(c);
    HeaderOverread(stream, raw, prev);
    var e := IndexOf(raw, Terminator);
    headerBytes := if e != -1 then raw[..e + 4] else raw;
  }

  /**
   * The body phase of `handle_client` after the header block `raw`: the declared length is
   * read from the parsed headers, and the bytes gathered are a prefix of what follows the
   * stream's first terminator, at least that many of them when the peer sent that many.
   */
  method ReceiveRequestBody(c: Connection, raw: seq<byte>, headers: map<string, string>, ghost stream: seq<byte>)
    returns (body: seq<byte>)
    requires raw + Available(c.pending) == stream
    requires IndexOf(raw, Terminator) != -1 || Available(c.pending) == []
    modifies c
    ensures body == BodyOf(AfterHeader(raw), stream[|raw|..], ContentLength(headers))
    ensures body <= AfterHeader(stream)
    ensures |body| >= ContentLength(headers) || body == AfterHeader(stream)
    ensures c.sent == old(c.sent) && c.closed == old(c.closed)
  {
    var contentLength := 0;
    var cl := if "content-length" in headers then headers["content-length"] else "";
    if cl != "" {
      var parsed := ParseInt(cl);
      contentLength := if parsed.Some? then parsed.value else 0;
    }
    assert contentLength == ContentLength(headers);
    var e := IndexOf(raw, Terminator);
    var already := if e != -1 then raw[e + 4..] else [];
    assert already == AfterHeader(raw);
    assert stream[|raw|..] == Available(c.pending);
    body := ReceiveBody(c, already, contentLength);
    BodyWithinStream(stream, raw, contentLength);
  }

  /** Dispatch treats `/` exactly as `/index.html`: rewriting the path first changes no reply. */
  lemma ReplyRewrite(p: Prepared, body: string, hs: Entries, cs: Entries, sv: Services)
    ensures Reply(p.(path := Rewrite(p.path)), body, hs, cs, sv) == Reply(p, body, hs, cs, sv)
  {
  }

  /** `send_and_close`: writes the whole reply, then closes the connection. */
  method SendAndClose(c: Connection, data: seq<byte>)
    modifies c
    ensures c.sent == old(c.sent) + data && c.closed
    ensures c.pending == old(c.pending)
  {
    c.SendAll(data);
    c.Close();
  }

  /**
   * The header phase: reads chunks of at most 4096 bytes until the bytes read hold
   * `\r\n\r\n` or the peer stops. The bytes read are the start of the stream, and `prev`,
   * what was held before the last read, has no terminator: no read happens once it has arrived.
   */
  method ReceiveHeader(c: Connection) returns (raw: seq<byte>, ghost prev: seq<byte>)
    modifies c
    ensures raw + Available(c.pending) == old(Available(c.pending))
    ensures HeaderRead(old(Available(c.pending)), raw, prev)
    ensures c.sent == old(c.sent) && c.closed == old(c.closed)
  {
    raw := [];
    prev := [];
    while IndexOf(raw, Terminator) == -1
      invariant raw + Available(c.pending) == old(Available(c.pending))
      invariant prev <= raw && IndexOf(prev, Terminator) == -1
      invariant |raw| - |prev| <= RecvSize && (raw != [] ==> |prev| < |raw|)
      invariant c.sent == old(c.sent) && c.closed == old(c.closed)
      decreases |Available(c.pending)|
    {
      var chunk := c.Recv(RecvSize);
      if chunk == [] {
        break;
      }
      prev := raw;
      raw := raw + chunk;
    }
  }

  /**
   * The body phase: starting from the bytes that came with the header block, reads at most
   * the missing count at a time until the declared length is reached or the peer stops.
   */
  method ReceiveBody(c: Connection, already: seq<byte>, contentLength: int) returns (body: seq<byte>)
    modifies c
    ensures body == BodyOf(already, old(Available(c.pending)), contentLength)
    ensures body[|already|..] + Available(c.pending) == old(Available(c.pending))
    ensures c.sent == old(c.sent) && c.closed == old(c.closed)
  {
    ghost var stream := Available(c.pending);
    body := already;
    var toRead := contentLength - |body|;
    while toRead > 0
      invariant already <= body
      invariant toRead == contentLength - |body|
      invariant contentLength > |already| ==> |body| <= contentLength
      invariant contentLength <= |already| ==> body == already
      invariant body[|already|..] + Available(c.pending) == stream
      invariant c.sent == old(c.sent) && c.closed == old(c.closed)
      decreases toRead
    {
      var chunk := c.Recv(if toRead < RecvSize then toRead else RecvSize);
      if chunk == [] {
        break;
      }
      assert (body + chunk)[|already|..] == body[|already|..] + chunk;
      body := body + chunk;
      toRead := toRead - |chunk|;
    }
    BodyOfIs(already, stream, Available(c.pending), contentLength, body);
  }

  /**
   * The connection adapter: it keeps the connection it serves, and the request and response
   * objects it fills in.
   */
  class HttpAdapter {
    var conn: Connection
    const request: Request
    const response: Response

    constructor (c: Connection)
      ensures conn == c && fresh(request) && fresh(response)
      ensures response.headers == [] && response.cookies == []
    {
      conn := c;
      request := new Request();
      response := new Response();
    }

    /**
     * `handle_client`. With no bytes at all the connection is only closed. Otherwise the
     * header block (up to the stream's first terminator) is decoded and parsed; a parser
     * failure escapes with nothing sent and the connection left open. Then the body is read,
     * and exactly one reply, the one `Reply` describes, is sent before the connection is closed.
     */
    method HandleClient(c: Connection, sv: Services)
      returns (ghost headerRaw: seq<byte>, ghost headerPrev: seq<byte>, ghost received: seq<byte>)
      modifies this`conn, c, request, response
      ensures conn == c
      ensures old(Available(c.pending)) == [] ==> c.closed && c.sent == old(c.sent)
      ensures var stream := old(Available(c.pending));
        stream != [] && sv.prepare(sv.decode(HeaderBlock(stream))).None? ==>
          c.sent == old(c.sent) && c.closed == old(c.closed)
      ensures var stream := old(Available(c.pending));
        stream != [] && sv.prepare(sv.decode(HeaderBlock(stream))).Some? ==>
          var p := sv.prepare(sv.decode(HeaderBlock(stream))).value;
          && HeaderRead(stream, headerRaw, headerPrev)
          && received == BodyOf(AfterHeader(headerRaw), stream[|headerRaw|..], ContentLength(p.headers))
          && received <= AfterHeader(stream)
          && (|received| >= ContentLength(p.headers) || received == AfterHeader(stream))
          && c.sent == old(c.sent) + Reply(p, sv.decode(received), old(response.headers), old(response.cookies), sv)
          && c.closed
    {
      ghost var stream := Available(c.pending);
      conn := c;
      received := [];
      var raw, headerBytes;
      raw, headerPrev, headerBytes := ReceiveHeaderBlock(c);
      headerRaw := raw;
      if raw == [] {
        c.Close();
        return;
      }
      var prepared := sv.prepare(sv.decode(headerBytes));
      if prepared.None? {
        return;
      }
      received := ReceiveAndRespond(c, sv, prepared.value, raw, stream);
    }

    /**
     * The rest of `handle_client` once the header block `raw` is parsed into `p`: stores the
     * request, reads the body and sends the reply before closing the connection.
     */
    method ReceiveAndRespond(c: Connection, sv: Services, p: Prepared, raw: seq<byte>, ghost stream: seq<byte>)
      returns (ghost received: seq<byte>)
      requires raw + Available(c.pending) == stream
      requires IndexOf(raw, Terminator) != -1 || Available(c.pending) == []
      modifies c, request, response
      ensures received == BodyOf(AfterHeader(raw), stream[|raw|..], ContentLength(p.headers))
      ensures received <= AfterHeader(stream)
      ensures |received| >= ContentLength(p.headers) || received == AfterHeader(stream)
      ensures c.sent == old(c.sent) + Reply(p, sv.decode(received), old(response.headers), old(response.cookies), sv)
      ensures c.closed
    {
      request.verb := p.verb;
      request.path := p.path;
      request.headers := p.headers;
      request.cookies := p.cookies;
      request.hook := p.hook;
      var body := ReceiveRequestBody(c, raw, request.headers, stream);
      received := body;
      request.body := sv.decode(body);
      assert Prepared(request.verb, request.path, request.headers, request.cookies, request.hook) == p;
      assert response.headers == old(response.headers) && response.cookies == old(response.cookies);
      Respond(c, sv);
    }

    /**
     * The dispatch part of `handle_client`, once the request is complete: rewrites `/`, picks
     * the branch, builds the reply and sends it before closing the connection. Only a
     * successful login rewrites the request to `GET /index.html` and replaces the response's
     * cookies.
     */
    method Respond(c: Connection, sv: Services)
      modifies request`path, request`verb, response`headers, response`content, response`header
      modifies response`statusCode, response`reason, response`cookies, c
      ensures var p := Prepared(old(request.verb), old(request.path), request.headers, request.cookies, request.hook);
        && c.sent == old(c.sent) + Reply(p, request.body, old(response.headers), old(response.cookies), sv)
        && c.closed
      ensures var accepted := old(request.verb) == "POST" && Rewrite(old(request.path)) == "/login"
                              && ValidLogin(sv.form(request.body));
        && (accepted ==>
              request.path == "/index.html" && request.verb == "GET"
              && response.cookies == [("auth", LoginCookie)])
        && (!accepted ==>
              request.path == Rewrite(old(request.path)) && request.verb == old(request.verb)
              && response.cookies == old(response.cookies))
    {
      ghost var p := Prepared(request.verb, request.path, request.headers, request.cookies, request.hook);
      if request.path == "/" {
        request.path := "/index.html";
      }
      var r: seq<byte>;
      if request.verb == "POST" && request.path == "/login" {
        LoginReply(p, request.body, response.headers, response.cookies, sv);
        r := Login(sv);
      } else {
        r := Dispatch(sv, p);
      }
      SendAndClose(c, r);
    }

    /**
     * Every branch but the login form, once `/` has been rewritten: the index page behind the
     * `auth` cookie, then a bound route handler, then a static file.
     */
    method Dispatch(sv: Services, ghost p: Prepared) returns (r: seq<byte>)
      requires p.verb == request.verb && Rewrite(p.path) == request.path
      requires p.headers == request.headers && p.cookies == request.cookies && p.hook == request.hook
      requires !(request.verb == "POST" && request.path == "/login")
      modifies response`headers, response`content, response`header, response`statusCode, response`reason
      ensures r == Reply(p, request.body, old(response.headers), response.cookies, sv)
    {
      if request.verb == "GET" && request.path == "/index.html" {
        IndexGate(p, request.body, response.headers, response.cookies, sv);
        r := ServeIndex(sv);
      } else {
        r := ServeRoute(sv, p);
      }
    }

    /** Past the login form and the index page: the bound route handler, else a static file. */
    method ServeRoute(sv: Services, ghost p: Prepared) returns (r: seq<byte>)
      requires p.verb == request.verb && Rewrite(p.path) == request.path
      requires p.headers == request.headers && p.cookies == request.cookies && p.hook == request.hook
      requires !(request.verb == "POST" && request.path == "/login")
      requires !(request.verb == "GET" && request.path == "/index.html")
      modifies response`headers, response`content, response`header, response`statusCode, response`reason
      ensures r == Reply(p, request.body, old(response.headers), response.cookies, sv)
    {
      ghost var b := Choose(p.verb, p.path, p.cookies, p.hook, sv.form(request.body));
      if request.hook.Some? {
        assert b.HookCalled?;
        r := HookReply(sv.invoke(request.hook.value, request.headers, request.body), sv.quote);
      } else {
        assert b.StaticFile?;
        r := ServeStatic(sv);
      }
    }

    /**
     * The login branch: the credentials `admin`/`password` clear the response's cookies, queue
     * `auth`, and serve the index page as a `GET`; any others are refused.
     */
    method Login(sv: Services) returns (r: seq<byte>)
      requires request.verb == "POST" && request.path == "/login"
      modifies request`path, request`verb, response`headers, response`content, response`header
      modifies response`statusCode, response`reason, response`cookies
      ensures ValidLogin(sv.form(request.body)) ==>
        && r == StaticReply("/index.html", old(response.headers), [("auth", LoginCookie)], sv.env)
        && request.path == "/index.html" && request.verb == "GET"
        && response.cookies == [("auth", LoginCookie)]
      ensures !ValidLogin(sv.form(request.body)) ==>
        && r == Unauthorized()
        && request.path == old(request.path) && request.verb == old(request.verb)
        && response.cookies == old(response.cookies)
    {
      var form := sv.form(request.body);
      var username := FormField(form, "username");
      var password := FormField(form, "password");
      if username == "admin" && password == "password" {
        r := AcceptLogin(sv, "/index.html", LoginCookie);
      } else {
        r := response.BuildUnauthorized();
      }
    }

    /**
     * A valid login: the cookie jar becomes `auth` set to `token` alone, and the page `index`
     * is served as a `GET`.
     */
    method AcceptLogin(sv: Services, index: string, token: string) returns (r: seq<byte>)
      modifies request`path, request`verb, response`headers, response`content, response`header
      modifies response`statusCode, response`reason, response`cookies
      ensures r == StaticReply(index, old(response.headers), response.cookies, sv.env)
      ensures request.path == index && request.verb == "GET"
      ensures response.cookies == [("auth", token)]
    {
      ClearAndSet(token);
      request.path := index;
      request.verb := "GET";
      assert response.headers == old(response.headers);
      r := response.BuildResponse(request, sv.env);
    }

    /** `cookies.clear()` followed by `cookies["auth"] = token`. */
    method ClearAndSet(token: string)
      modifies response`cookies
      ensures response.cookies == [("auth", token)]
    {
      response.cookies := [];
      response.cookies := Put(response.cookies, "auth", token);
    }

    /** The protected index page: served only to a request whose cookies carry the login. */
    method ServeIndex(sv: Services) returns (r: seq<byte>)
      modifies response`headers, response`content, response`header, response`statusCode, response`reason
      ensures Authorized(request.cookies) ==>
        r == StaticReply(request.path, old(response.headers), response.cookies, sv.env)
      ensures !Authorized(request.cookies) ==> r == Unauthorized()
    {
      if !Authorized(request.cookies) {
        r := response.BuildUnauthorized();
      } else {
        r := response.BuildResponse(request, sv.env);
      }
    }

    /** Any other request without a route handler is served from the static directories. */
    method ServeStatic(sv: Services) returns (r: seq<byte>)
      modifies response`headers, response`content, response`header, response`statusCode, response`reason
      ensures r == StaticReply(request.path, old(response.headers), response.cookies, sv.env)
    {
      r := response.BuildResponse(request, sv.env);
    }
  }
}
