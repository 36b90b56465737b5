/**
 * The response builder and static file server: MIME type and base directory resolution,
 * the traversal check, loading a file, byte-exact framing of the status line, headers and
 * `Set-Cookie` lines, and the canned 404 and 401 responses.
 */
module DaemonResponse {
  import opened Common
  import opened Text
  import opened Bytes
  import opened Dict
  import opened Paths
  import opened DaemonRequest
  import Cookies

  /** What `mimetypes.guess_type(path)` gives: no type, a type, or an exception. */
  datatype Guess = NoType | Type(mime: string) | GuessFailed

  /**
   * What static serving reads from outside the process: the MIME table, the working
   * directory `realpath` resolves from, the readable files by canonical path, and the
   * current time already formatted for the `Date` header.
   */
  datatype Environment = Environment(
    guess: string -> Guess,
    cwd: Components,
    files: map<Components, seq<byte>>,
    date: string)

  /** Why a file cannot be served; each one ends as the canned 404. */
  datatype ServeError = UnsupportedType(mime: string) | PathNotAllowed | OpenFailed

  /** `BASE_DIR`, the directory the three asset roots hang from (the working directory). */
  const BaseDir: string := ""
  const ServerToken: string := "BKSysNet-Server (Python)"
  const OctetStream: string := "application/octet-stream"

  /**
   * `get_mime_type`: a failing lookup gives the octet-stream default; otherwise `.ico` paths
   * are `image/x-icon`, then the table's answer, and the default when it has none.
   */
  function GetMimeType(path: string, guess: string -> Guess): (m: string)
    ensures m != ""
    ensures guess(path) == GuessFailed ==> m == OctetStream
    ensures guess(path) != GuessFailed && EndsWith(path, ".ico") ==> m == "image/x-icon"
    ensures guess(path) != GuessFailed && !EndsWith(path, ".ico") ==>
              m == (if guess(path).Type? && guess(path).mime != "" then guess(path).mime else OctetStream)
  {
    match guess(path)
    case GuessFailed => OctetStream
    case NoType => if EndsWith(path, ".ico") then "image/x-icon" else OctetStream
    case Type(t) => if EndsWith(path, ".ico") then "image/x-icon" else if t == "" then OctetStream else t
  }

  /**
   * The base directory `prepare_content_type` picks for a MIME type: HTML pages from `www/`,
   * stylesheets, scripts and images from `static/`, every other `application/` type from
   * `apps/`, and any other type refused.
   */
  function BaseDirFor(mime: string): (r: Result<string, ServeError>)
    ensures r.Ok? <==> mime == "text/html" || mime == "text/css"
                       || StartsWith(mime, "image/") || StartsWith(mime, "application/")
    ensures r.Ok? ==> (r.value == BaseDir + "www/" <==> mime == "text/html")
    ensures r.Ok? ==> (r.value == BaseDir + "static/" <==>
                       mime == "text/css" || mime == "application/javascript" || StartsWith(mime, "image/"))
    ensures r.Ok? ==> (r.value == BaseDir + "apps/" <==>
                       StartsWith(mime, "application/") && mime != "application/javascript")
    ensures r.Err? ==> r.error == UnsupportedType(mime)
  {
    PrefixesDisjoint(mime);
    if mime == "text/html" then Ok(BaseDir + "www/")
    else if mime == "text/css" || mime == "application/javascript" then Ok(BaseDir + "static/")
    else if StartsWith(mime, "image/") then Ok(BaseDir + "static/")
    else if StartsWith(mime, "application/") then Ok(BaseDir + "apps/")
    else Err(UnsupportedType(mime))
  }

  lemma PrefixesDisjoint(mime: string)
    ensures !(StartsWith(mime, "image/") && StartsWith(mime, "application/"))
    ensures mime == "text/html" || mime == "text/css" ==>
              !StartsWith(mime, "image/") && !StartsWith(mime, "application/")
  {
    if StartsWith(mime, "image/") {
      assert mime[0] == 'i';
    }
    if mime == "text/html" || mime == "text/css" {
      assert mime[0] == 't';
    }
  }

  /** `os.path.join(a, b)`. */
  function JoinPath(a: string, b: string): string {
    if StartsWith(b, "/") then b
    else if a == "" || EndsWith(a, "/") then a + b
    else a + "/" + b
  }

  /** The path `build_content` opens: the request path without its leading `/`s, under `base`. */
  function TargetPath(path: string, base: string): string {
    JoinPath(base, LStripChar(path, '/'))
  }

  /** Stripping every leading `/` keeps `os.path.join` from discarding the base directory. */
  lemma TargetKeepsBase(path: string, base: string)
    requires EndsWith(base, "/")
    ensures TargetPath(path, base) == base + LStripChar(path, '/')
  {
    var rel := LStripChar(path, '/');
    assert !StartsWith(rel, "/") by {
      if |rel| > 0 {
        assert rel[0] != '/';
      }
    }
  }

  /**
   * `build_content`: the file under `base` named by `path`, with its length, refused when the
   * canonical target is not inside the canonical base and failing when there is no such file.
   */
  function BuildContent(path: string, base: string, env: Environment): (r: Result<(nat, seq<byte>), ServeError>)
    ensures r.Ok? ==> r.value.0 == |r.value.1|
  {
    var baseReal := RealPath(env.cwd, base);
    var targetReal := RealPath(env.cwd, TargetPath(path, base));
    if !Within(baseReal, targetReal) then Err(PathNotAllowed)
    else if targetReal !in env.files then Err(OpenFailed)
    else Ok((|env.files[targetReal]|, env.files[targetReal]))
  }

  /**
   * The three outcomes of `build_content`: a target outside the base is refused, a missing
   * file fails to open, and otherwise the content is exactly the stored file.
   */
  lemma BuildContentOutcomes(path: string, base: string, env: Environment)
    ensures var target := RealPath(env.cwd, TargetPath(path, base));
      && (!Within(RealPath(env.cwd, base), target) ==> BuildContent(path, base, env) == Err(PathNotAllowed))
      && (Within(RealPath(env.cwd, base), target) && target !in env.files ==> BuildContent(path, base, env) == Err(OpenFailed))
      && (Within(RealPath(env.cwd, base), target) && target in env.files ==>
            BuildContent(path, base, env).Ok? && BuildContent(path, base, env).value.1 == env.files[target])
  {
  }

  /** Python's `str()` of the status code: `None` before one is set. */
  function StatusText(code: Option<nat>): string {
    match code
    case None => "None"
    case Some(c) => NatToString(c)
  }

  function ReasonText(reason: Option<string>): string {
    match reason
    case None => "None"
    case Some(r) => r
  }

  /** One `Key: Value` line per header, in insertion order. */
  function HeaderLines(hs: Entries): (lines: seq<string>)
    ensures |lines| == |hs|
  {
    if hs == [] then []
    else HeaderLines(hs[..|hs| - 1]) + [hs[|hs| - 1].0 + ": " + hs[|hs| - 1].1]
  }

  /** One `Set-Cookie: key=value` line per cookie, in insertion order. */
  function CookieLines(cs: Entries): (lines: seq<string>)
    ensures |lines| == |cs|
  {
    if cs == [] then []
    else CookieLines(cs[..|cs| - 1]) + ["Set-Cookie: " + cs[|cs| - 1].0 + "=" + cs[|cs| - 1].1]
  }

  function StatusLine(code: Option<nat>, reason: Option<string>): string {
    "HTTP/1.1 " + StatusText(code) + " " + ReasonText(reason)
  }

  /** The header block text: status line, header and cookie lines joined by CRLF, a blank line. */
  function HeaderText(code: Option<nat>, reason: Option<string>, hs: Entries, cs: Entries): string {
    StatusLine(code, reason) + "\r\n" + Join(HeaderLines(hs) + CookieLines(cs), "\r\n") + "\r\n\r\n"
  }

  /** Every name and value is ASCII text. */
  predicate FieldsAscii(es: Entries) {
    forall i :: 0 <= i < |es| ==> IsAscii(es[i].0) && IsAscii(es[i].1)
  }

  /** A header block built from ASCII fields is ASCII, so it encodes to one byte per character. */
  lemma HeaderTextAscii(code: Option<nat>, reason: Option<string>, hs: Entries, cs: Entries)
    requires IsAscii(ReasonText(reason)) && FieldsAscii(hs) && FieldsAscii(cs)
    ensures IsAscii(HeaderText(code, reason, hs, cs))
  {
    var L := HeaderLines(hs) + CookieLines(cs);
    HeaderLinesAt(hs);
    CookieLinesAt(cs);
    forall i | 0 <= i < |L|
      ensures IsAscii(L[i])
    {
      if i < |hs| {
        AsciiConcat(hs[i].0, ": ");
        AsciiConcat(hs[i].0 + ": ", hs[i].1);
      } else {
        var c := cs[i - |hs|];
        AsciiConcat("Set-Cookie: ", c.0);
        AsciiConcat("Set-Cookie: " + c.0, "=");
        AsciiConcat("Set-Cookie: " + c.0 + "=", c.1);
      }
    }
    JoinAscii(L, "\r\n");
    assert IsAscii(StatusText(code));
    AsciiConcat("HTTP/1.1 ", StatusText(code));
    AsciiConcat("HTTP/1.1 " + StatusText(code), " ");
    AsciiConcat("HTTP/1.1 " + StatusText(code) + " ", ReasonText(reason));
    AsciiConcat(StatusLine(code, reason), "\r\n");
    AsciiConcat(StatusLine(code, reason) + "\r\n", Join(L, "\r\n"));
    AsciiConcat(StatusLine(code, reason) + "\r\n" + Join(L, "\r\n"), "\r\n\r\n");
  }

  predicate NoBreak(s: string) {
    '\r' !in s && '\n' !in s
  }

  /** No name or value holds a line break. */
  predicate FieldsClean(es: Entries) {
    forall i :: 0 <= i < |es| ==> NoBreak(es[i].0) && NoBreak(es[i].1)
  }

  /** The header block as its lines: the status line, then one per header and one per cookie. */
  function BlockLines(code: Option<nat>, reason: Option<string>, hs: Entries, cs: Entries): seq<string> {
    [StatusLine(code, reason)] + HeaderLines(hs) + CookieLines(cs)
  }

  /**
   * A reader that splits the response at its first blank line gets exactly the header block,
   * so no body bytes can be mistaken for headers, provided there is at least one header or
   * cookie line and no field holds a line break.
   */
  lemma HeaderBlockEnds(code: Option<nat>, reason: Option<string>, hs: Entries, cs: Entries, body: seq<byte>)
    requires |hs| + |cs| >= 1
    requires NoBreak(ReasonText(reason)) && FieldsClean(hs) && FieldsClean(cs)
    ensures IndexOf(Utf8(HeaderText(code, reason, hs, cs)) + body, Terminator) + 4
         == |Utf8(HeaderText(code, reason, hs, cs))|
  {
    var xs := BlockLines(code, reason, hs, cs);
    var J := Join(xs, "\r\n");
    HeaderTextIsJoin(code, reason, hs, cs);
    Utf8Append(J, "\r\n\r\n");
    TerminatorText();
    Utf8Join(xs);
    BlockLinesAreLines(code, reason, hs, cs);
    HeaderEndIsFirstBlankLine(Utf8All(xs), body);
  }

  /** The header block is its lines joined by CRLF, then a blank line. */
  lemma HeaderTextIsJoin(code: Option<nat>, reason: Option<string>, hs: Entries, cs: Entries)
    requires |hs| + |cs| >= 1
    ensures HeaderText(code, reason, hs, cs) == Join(BlockLines(code, reason, hs, cs), "\r\n") + "\r\n\r\n"
  {
    var xs := BlockLines(code, reason, hs, cs);
    var L := HeaderLines(hs) + CookieLines(cs);
    assert xs[1..] == L && xs[0] == StatusLine(code, reason);
    assert Join(xs, "\r\n") == StatusLine(code, reason) + "\r\n" + Join(L, "\r\n");
  }

  lemma {:induction false} HeaderLinesAt(hs: Entries)
    ensures forall i :: 0 <= i < |hs| ==> HeaderLines(hs)[i] == hs[i].0 + ": " + hs[i].1
  {
    if hs != [] {
      HeaderLinesAt(hs[..|hs| - 1]);
    }
  }

  lemma {:induction false} CookieLinesAt(cs: Entries)
    ensures forall i :: 0 <= i < |cs| ==> CookieLines(cs)[i] == "Set-Cookie: " + cs[i].0 + "=" + cs[i].1
  {
    if cs != [] {
      CookieLinesAt(cs[..|cs| - 1]);
    }
  }

  lemma BlockLinesAreLines(code: Option<nat>, reason: Option<string>, hs: Entries, cs: Entries)
    requires NoBreak(ReasonText(reason)) && FieldsClean(hs) && FieldsClean(cs)
    ensures var xs := BlockLines(code, reason, hs, cs);
      forall i :: 0 <= i < |xs| ==> IsLine(Utf8All(xs)[i])
  {
    var xs := BlockLines(code, reason, hs, cs);
    StatusLineClean(code, reason);
    HeaderLinesClean(hs);
    CookieLinesClean(cs);
    assert forall i :: 0 <= i < |xs| ==> |xs[i]| > 0 && NoBreak(xs[i]);
    forall i | 0 <= i < |xs|
      ensures IsLine(Utf8All(xs)[i])
    {
      Utf8NoLineBreak(xs[i]);
    }
  }

  lemma StatusLineClean(code: Option<nat>, reason: Option<string>)
    requires NoBreak(ReasonText(reason))
    ensures |StatusLine(code, reason)| > 0 && NoBreak(StatusLine(code, reason))
  {
    var st := StatusText(code);
    assert NoBreak(st) by {
      if code.Some? {
        assert forall k :: 0 <= k < |st| ==> IsDigit(st[k]);
      }
    }
  }

  lemma {:induction false} HeaderLinesClean(hs: Entries)
    requires FieldsClean(hs)
    ensures forall i :: 0 <= i < |hs| ==> |HeaderLines(hs)[i]| > 0 && NoBreak(HeaderLines(hs)[i])
  {
    if hs != [] {
      var init := hs[..|hs| - 1];
      assert FieldsClean(init) by {
        assert forall i :: 0 <= i < |init| ==> init[i] == hs[i];
      }
      HeaderLinesClean(init);
    }
  }

  lemma {:induction false} CookieLinesClean(cs: Entries)
    requires FieldsClean(cs)
    ensures forall i :: 0 <= i < |cs| ==> |CookieLines(cs)[i]| > 0 && NoBreak(CookieLines(cs)[i])
  {
    if cs != [] {
      var init := cs[..|cs| - 1];
      assert FieldsClean(init) by {
        assert forall i :: 0 <= i < |init| ==> init[i] == cs[i];
      }
      CookieLinesClean(init);
    }
  }

  /**
   * `r` is the header block for the given status, headers and cookies followed by `body`, and
   * its `Content-Length` header declares the body's length.
   */
  predicate Framed(r: seq<byte>, code: nat, reason: string, hs: Entries, cs: Entries, body: seq<byte>) {
    && r == Utf8(HeaderText(Some(code), Some(reason), hs, cs)) + body
    && Get(hs, "Content-Length") == Some(NatToString(|body|))
  }

  /**
   * A fixed reply written as one ASCII literal: the header block for `code` and `reason` with
   * the headers `hs` and no cookies, then `body`. When the declared `Content-Length` is the
   * body's length, the reply is framed like any built response.
   */
  lemma CannedFramed(code: nat, reason: string, hs: Entries, body: string)
    requires IsAscii(reason) && FieldsAscii(hs) && IsAscii(body)
    requires Get(hs, "Content-Length") == Some(NatToString(|body|))
    ensures Framed(AsciiBytes(HeaderText(Some(code), Some(reason), hs, [])) + AsciiBytes(body),
      code, reason, hs, [], AsciiBytes(body))
  {
    HeaderTextAscii(Some(code), Some(reason), hs, []);
    Utf8OfAscii(HeaderText(Some(code), Some(reason), hs, []));
  }

  const NotFoundBody: string := "404 Not Found"
  const NotFoundHeaders: Entries := [
    ("Accept-Ranges", "bytes"), ("Content-Type", "text/html"), ("Content-Length", "13"),
    ("Cache-Control", "max-age=86000"), ("Connection", "close")]

  /** `build_notfound`: one ASCII literal, written here as its header block and its body. */
  function NotFound(): seq<byte> {
    AsciiBytes(HeaderText(Some(404), Some("Not Found"), NotFoundHeaders, [])) + AsciiBytes(NotFoundBody)
  }

  /**
   * The 404 reply is the header block for status 404 `Not Found` with the five headers above,
   * followed by `404 Not Found`, whose length is the one `Content-Length` declares.
   */
  lemma NotFoundFramed()
    ensures Framed(NotFound(), 404, "Not Found", NotFoundHeaders, [], AsciiBytes(NotFoundBody))
  {
    NotFoundFields();
    CannedFramed(404, "Not Found", NotFoundHeaders, NotFoundBody);
  }

  lemma NotFoundFields()
    ensures IsAscii("Not Found") && FieldsAscii(NotFoundHeaders) && IsAscii(NotFoundBody)
    ensures Get(NotFoundHeaders, "Content-Length") == Some(NatToString(|NotFoundBody|))
  {
    NotFoundFieldsAscii();
    Thirteen();
    NotFoundHeaderLength();
  }

  lemma NotFoundFieldsAscii()
    ensures FieldsAscii(NotFoundHeaders)
  {
    var hs := NotFoundHeaders;
    assert IsAscii(hs[0].0) && IsAscii(hs[0].1);
    assert IsAscii(hs[1].0) && IsAscii(hs[1].1);
    assert IsAscii(hs[2].0) && IsAscii(hs[2].1);
    assert IsAscii(hs[3].0) && IsAscii(hs[3].1);
    assert IsAscii(hs[4].0) && IsAscii(hs[4].1);
  }

  /** Helper: the length the canned 404 declares, as text. */
  lemma Thirteen()
    ensures NatToString(13) == "13"
  {
  }

  /** Helper: the `Content-Length` the canned 404 carries. */
  lemma NotFoundHeaderLength()
    ensures Get(NotFoundHeaders, "Content-Length") == Some("13")
  {
    var hs := NotFoundHeaders;
    assert hs[0].0[0] != "Content-Length"[0];
    assert hs[1..][0].0[8] != "Content-Length"[8];
    assert hs[1..][1..][0] == ("Content-Length", "13");
    assert Get(hs, "Content-Length") == Get(hs[1..], "Content-Length") == Get(hs[1..][1..], "Content-Length");
  }

  const UnauthorizedBody: string := "401 Unauthorized"
  const UnauthorizedHeaders: Entries :=
    [("Content-Type", "text/plain"), ("Content-Length", "16"), ("Connection", "close")]

  /** The 401 reply: its header block, then the bytes `401 Unauthorized`. */
  function Unauthorized(): seq<byte> {
    AsciiBytes(HeaderText(Some(401), Some("Unauthorized"), UnauthorizedHeaders, [])) + AsciiBytes(UnauthorizedBody)
  }

  /**
   * The 401 reply is the header block for status 401 `Unauthorized` with a plain-text type,
   * the body's length and `Connection: close`, followed by `401 Unauthorized`.
   */
  lemma UnauthorizedFramed()
    ensures Framed(Unauthorized(), 401, "Unauthorized", UnauthorizedHeaders, [], AsciiBytes(UnauthorizedBody))
  {
    UnauthorizedFields();
    CannedFramed(401, "Unauthorized", UnauthorizedHeaders, UnauthorizedBody);
  }

  lemma UnauthorizedFields()
    ensures IsAscii("Unauthorized") && FieldsAscii(UnauthorizedHeaders) && IsAscii(UnauthorizedBody)
    ensures Get(UnauthorizedHeaders, "Content-Length") == Some(NatToString(|UnauthorizedBody|))
  {
    var hs := UnauthorizedHeaders;
    assert IsAscii(hs[0].0) && IsAscii(hs[0].1);
    assert IsAscii(hs[1].0) && IsAscii(hs[1].1);
    assert IsAscii(hs[2].0) && IsAscii(hs[2].1);
    Sixteen();
    assert hs[0].0[8] != "Content-Length"[8];
    assert hs[1..][0] == ("Content-Length", "16");
  }

  /** Helper: the length the canned 401 declares, as text. */
  lemma Sixteen()
    ensures NatToString(16) == "16"
  {
  }

  /** The headers of a served file: the builder's own settings over whatever was set before. */
  function ServedHeaders(hs: Entries, mime: string, n: nat, date: string): Entries {
    Put(Put(Put(Put(Put(hs, "Content-Type", mime), "Content-Length", NatToString(n)),
      "Connection", "close"), "Date", date), "Server", ServerToken)
  }

  /**
   * The file `build_response` serves for a request path, with its MIME type: the type picks
   * the base directory, and the file must lie inside it.
   */
  function Serve(path: string, env: Environment): (r: Result<(string, seq<byte>), ServeError>)
    ensures r.Ok? <==> BaseDirFor(GetMimeType(path, env.guess)).Ok?
                       && BuildContent(path, BaseDirFor(GetMimeType(path, env.guess)).value, env).Ok?
    ensures r.Ok? ==> r.value.0 == GetMimeType(path, env.guess)
    ensures BaseDirFor(GetMimeType(path, env.guess)).Err? ==> r == Err(UnsupportedType(GetMimeType(path, env.guess)))
  {
    var mime := GetMimeType(path, env.guess);
    match BaseDirFor(mime)
    case Err(e) => Err(e)
    case Ok(base) =>
      match BuildContent(path, base, env)
      case Err(e) => Err(e)
      case Ok(loaded) => Ok((mime, loaded.1))
  }

  /** A served file is the stored file at the target, which lies inside its type's base directory. */
  lemma ServeFromBase(path: string, env: Environment)
    requires Serve(path, env).Ok?
    ensures var base := BaseDirFor(Serve(path, env).value.0).value;
      var target := RealPath(env.cwd, TargetPath(path, base));
      && Within(RealPath(env.cwd, base), target)
      && target in env.files
      && Serve(path, env).value.1 == env.files[target]
  {
    var base := BaseDirFor(GetMimeType(path, env.guess)).value;
    BuildContentOutcomes(path, base, env);
  }

  /**
   * What `build_response` returns when entered with headers `hs` and cookies `cs`: the framed
   * file, or the canned 404 when the type is unsupported, the path leaves the base directory or
   * the file cannot be read.
   */
  function StaticReply(path: string, hs: Entries, cs: Entries, env: Environment): seq<byte> {
    match Serve(path, env)
    case Err(_) => NotFound()
    case Ok(served) =>
      Utf8(HeaderText(Some(200), Some("OK"), ServedHeaders(hs, served.0, |served.1|, env.date), cs))
        + served.1
  }

  /**
   * A served file is framed as a 200 whose `Content-Length` is the file's size, carrying the
   * type, `Connection: close`, the date, the server token and every queued cookie.
   */
  lemma StaticServed(path: string, hs: Entries, cs: Entries, env: Environment)
    requires Serve(path, env).Ok?
    ensures var (mime, content) := Serve(path, env).value;
      var served := ServedHeaders(hs, mime, |content|, env.date);
      && Framed(StaticReply(path, hs, cs, env), 200, "OK", served, cs, content)
      && Get(served, "Content-Type") == Some(mime)
      && Get(served, "Connection") == Some("close")
      && Get(served, "Date") == Some(env.date)
      && Get(served, "Server") == Some(ServerToken)
  {
    var (mime, content) := Serve(path, env).value;
    ServedHeadersGet(hs, mime, |content|, env.date);
  }

  lemma ServedHeadersGet(hs: Entries, mime: string, n: nat, date: string)
    ensures var served := ServedHeaders(hs, mime, n, date);
      && Get(served, "Content-Type") == Some(mime)
      && Get(served, "Content-Length") == Some(NatToString(n))
      && Get(served, "Connection") == Some("close")
      && Get(served, "Date") == Some(date)
      && Get(served, "Server") == Some(ServerToken)
  {
    HeaderNamesDistinct();
    PutFive(hs, "Content-Type", mime, "Content-Length", NatToString(n), "Connection", "close",
      "Date", date, "Server", ServerToken);
  }

  /** Five successive stores under distinct keys can each be read back. */
  lemma PutFive(hs: Entries, k1: string, v1: string, k2: string, v2: string, k3: string, v3: string,
                k4: string, v4: string, k5: string, v5: string)
    requires k1 != k2 && k1 != k3 && k1 != k4 && k1 != k5
    requires k2 != k3 && k2 != k4 && k2 != k5 && k3 != k4 && k3 != k5 && k4 != k5
    ensures var r := Put(Put(Put(Put(Put(hs, k1, v1), k2, v2), k3, v3), k4, v4), k5, v5);
      Get(r, k1) == Some(v1) && Get(r, k2) == Some(v2) && Get(r, k3) == Some(v3)
      && Get(r, k4) == Some(v4) && Get(r, k5) == Some(v5)
  {
    var r1 := Put(hs, k1, v1);
    var r2 := Put(r1, k2, v2);
    var r3 := Put(r2, k3, v3);
    var r4 := Put(r3, k4, v4);
    PutGet(hs, k1, v1);
    PutGet(r1, k2, v2);
    PutGet(r2, k3, v3);
    PutGet(r3, k4, v4);
    PutGet(r4, k5, v5);
  }

  /** Helper: the five header names a served file sets are pairwise different. */
  lemma HeaderNamesDistinct()
    ensures "Content-Type" != "Content-Length"
    ensures "Connection" != "Content-Type" && "Connection" != "Content-Length"
    ensures "Date" != "Content-Type" && "Date" != "Content-Length" && "Date" != "Connection"
    ensures "Server" != "Content-Type" && "Server" != "Content-Length"
    ensures "Server" != "Connection" && "Server" != "Date"
  {
    assert "Content-Type"[8] != "Content-Length"[8];
    assert |"Connection"| != |"Content-Type"| && |"Connection"| != |"Content-Length"|;
    assert |"Date"| != |"Content-Type"| && |"Date"| != |"Content-Length"| && |"Date"| != |"Connection"|;
    assert |"Server"| != |"Content-Type"| && |"Server"| != |"Content-Length"|;
    assert |"Server"| != |"Connection"| && |"Server"| != |"Date"|;
  }

  /** Helper for `BuildResponse`: `StaticReply` unfolded for a file that was loaded. */
  lemma ServedReply(path: string, hs: Entries, cs: Entries, env: Environment, mime: string, file: seq<byte>)
    requires BaseDirFor(mime).Ok? && mime == GetMimeType(path, env.guess)
    requires BuildContent(path, BaseDirFor(mime).value, env) == Ok((|file|, file))
    ensures Serve(path, env) == Ok((mime, file))
    ensures StaticReply(path, hs, cs, env)
         == Utf8(HeaderText(Some(200), Some("OK"), ServedHeaders(hs, mime, |file|, env.date), cs)) + file
  {
  }

  /** Helper for `BuildResponse`: `StaticReply` unfolded for a refusal. */
  lemma NotServed(path: string, hs: Entries, cs: Entries, env: Environment)
    requires BaseDirFor(GetMimeType(path, env.guess)).Err?
             || BuildContent(path, BaseDirFor(GetMimeType(path, env.guess)).value, env).Err?
    ensures Serve(path, env).Err? && StaticReply(path, hs, cs, env) == NotFound()
  {
  }

  /** Every refusal, whatever its cause, is the canned 404. */
  lemma StaticRefused(path: string, hs: Entries, cs: Entries, env: Environment)
    ensures BaseDirFor(GetMimeType(path, env.guess)).Err? ==> StaticReply(path, hs, cs, env) == NotFound()
    ensures BaseDirFor(GetMimeType(path, env.guess)).Ok?
            && !Within(RealPath(env.cwd, BaseDirFor(GetMimeType(path, env.guess)).value),
                       RealPath(env.cwd, TargetPath(path, BaseDirFor(GetMimeType(path, env.guess)).value)))
            ==> StaticReply(path, hs, cs, env) == NotFound()
  {
  }

  /** The three base directories: a non-empty relative name followed by `/`. */
  predicate IsAssetRoot(base: string) {
    base == BaseDir + "www/" || base == BaseDir + "static/" || base == BaseDir + "apps/"
  }

  /** A request path with no `..` component always resolves inside its base directory. */
  lemma {:induction false} NoDotDotStaysInside(path: string, base: string, cwd: Components)
    requires IsAssetRoot(base)
    requires forall i :: 0 <= i < |Split(LStripChar(path, '/'), '/')| ==> Split(LStripChar(path, '/'), '/')[i] != ".."
    ensures Within(RealPath(cwd, base), RealPath(cwd, TargetPath(path, base)))
  {
    var rel := LStripChar(path, '/');
    var dir := base[..|base| - 1];
    assert base == dir + "/";
    assert dir[0] != '/';
    TargetKeepsBase(path, base);
    RealPathJoin(cwd, dir, rel);
    ResolveStaysBelow(RealPath(cwd, base), Split(rel, '/'));
    WithinIsPrefix(RealPath(cwd, base), RealPath(cwd, TargetPath(path, base)));
  }

  /**
   * Climbing out of `www` into any other directory is refused, including a sibling whose name
   * merely starts with `www` (such as `www2`): the check compares whole components, not text.
   */
  lemma {:induction false} ClimbOutRefused(other: string, rest: seq<string>, env: Environment)
    requires IsCanonical(env.cwd) && IsCanonical([other] + rest) && other != "www"
    ensures BuildContent("/" + Join(["..", other] + rest, "/"), "www/", env) == Err(PathNotAllowed)
  {
    var parts := ["..", other] + rest;
    var rel := Join(parts, "/");
    var path := "/" + rel;
    ClimbRelative(other, rest);
    TargetKeepsBase(path, "www/");
    WwwJoin(rel);
    RealPathJoin(env.cwd, "www", rel);
    ClimbComponents(other, rest);
    WwwRoot(env.cwd);
    ClimbResolve(env.cwd, other, rest);
    assert RealPath(env.cwd, TargetPath(path, "www/")) == env.cwd + [other] + rest;
    SiblingNotWithin(env.cwd, "www", other, rest);
  }

  lemma WwwJoin(rel: string)
    ensures "www/" + rel == "www" + "/" + rel
    ensures "www" + "/" == "www/"
  {
  }

  lemma ClimbRelative(other: string, rest: seq<string>)
    ensures LStripChar("/" + Join(["..", other] + rest, "/"), '/') == Join(["..", other] + rest, "/")
  {
    var parts := ["..", other] + rest;
    var rel := Join(parts, "/");
    assert rel == parts[0] + "/" + Join(parts[1..], "/");
    assert rel[0] == '.';
    assert ("/" + rel)[1..] == rel;
  }

  lemma ClimbComponents(other: string, rest: seq<string>)
    requires IsCanonical([other] + rest)
    ensures Split(Join(["..", other] + rest, "/"), '/') == ["..", other] + rest
  {
    var parts := ["..", other] + rest;
    assert forall i :: 0 <= i < |parts| ==> '/' !in parts[i] by {
      assert forall i :: 1 <= i < |parts| ==> parts[i] == ([other] + rest)[i - 1];
    }
    SplitJoin(parts, '/');
  }

  lemma ClimbResolve(cwd: Components, other: string, rest: seq<string>)
    requires IsCanonical([other] + rest)
    ensures Resolve(cwd + ["www"], ["..", other] + rest) == cwd + [other] + rest
  {
    var parts := ["..", other] + rest;
    assert parts[0] == ".." && parts[1..] == [other] + rest;
    assert (cwd + ["www"])[..|cwd|] == cwd;
    assert Step(cwd + ["www"], "..") == cwd;
    ResolveNames(cwd, [other] + rest);
    assert cwd + ([other] + rest) == cwd + [other] + rest;
  }

  /** Resolving plain names appends them. */
  lemma {:induction false} ResolveNames(dir: Components, names: seq<string>)
    requires IsCanonical(names)
    ensures Resolve(dir, names) == dir + names
    decreases names
  {
    if names != [] {
      assert IsCanonical(names[1..]) by {
        assert forall i :: 0 <= i < |names| - 1 ==> names[1..][i] == names[i + 1];
      }
      ResolveNames(dir + [names[0]], names[1..]);
      assert dir + [names[0]] + names[1..] == dir + names;
    }
  }

  lemma WwwRoot(cwd: Components)
    ensures RealPath(cwd, "www/") == cwd + ["www"]
  {
    assert "www/" == "www" + "/" + "";
    SplitAround("www", "");
    SplitFree("www", '/');
    assert Split("", '/') == [""];
    assert Split("www/", '/') == ["www", ""];
    assert !StartsWith("www/", "/") by {
      assert "www/"[0] != "/"[0];
    }
    assert Step(cwd, "www") == cwd + ["www"];
    assert ["www", ""][1..] == [""];
    assert Resolve(cwd + ["www"], [""]) == cwd + ["www"];
  }

  /**
   * The response under construction. Headers and cookies keep insertion order, which is the
   * order their lines are written in.
   */
  class Response {
    var content: seq<byte>
    var header: seq<byte>
    var statusCode: Option<nat>
    var reason: Option<string>
    var headers: Entries
    var cookies: Entries

    constructor ()
      ensures content == [] && header == [] && statusCode == None && reason == None
      ensures headers == [] && cookies == []
    {
      content := [];
      header := [];
      statusCode := None;
      reason := None;
      headers := [];
      cookies := [];
    }

    /**
     * `prepare_content_type`: records the type as `Content-Type` (even when it is then
     * refused) and answers the base directory for it.
     */
    method PrepareContentType(mime: string) returns (base: Result<string, ServeError>)
      modifies `headers
      ensures headers == Put(old(headers), "Content-Type", mime)
      ensures base == BaseDirFor(mime)
    {
      headers := Put(headers, "Content-Type", mime);
      if mime == "text/html" {
        base := Ok(BaseDir + "www/");
      } else if mime == "text/css" || mime == "application/javascript" {
        base := Ok(BaseDir + "static/");
      } else if StartsWith(mime, "image/") {
        base := Ok(BaseDir + "static/");
      } else if StartsWith(mime, "application/") {
        base := Ok(BaseDir + "apps/");
      } else {
        base := Err(UnsupportedType(mime));
      }
    }

    /**
     * `build_response_header`: stamps `Date` and `Server`, then writes the status line, one
     * line per header and one `Set-Cookie` line per cookie, and the blank line.
     */
    method BuildResponseHeader(date: string) returns (h: seq<byte>)
      modifies `headers
      ensures headers == Put(Put(old(headers), "Date", date), "Server", ServerToken)
      ensures h == Utf8(HeaderText(statusCode, reason, headers, cookies))
    {
      var statusLine := StatusLine(statusCode, reason) + "\r\n";
      headers := Put(headers, "Date", date);
      headers := Put(headers, "Server", ServerToken);
      var hs, cs := headers, cookies;
      var headerLines: seq<string> := [];
      var i := 0;
      while i < |hs|
        invariant 0 <= i <= |hs|
        invariant headerLines == HeaderLines(hs[..i])
      {
        headerLines := headerLines + [hs[i].0 + ": " + hs[i].1];
        assert hs[..i + 1][..i] == hs[..i];
        i := i + 1;
      }
      assert hs[..|hs|] == hs;
      var cookieLines: seq<string> := [];
      var j := 0;
      while j < |cs|
        invariant 0 <= j <= |cs|
        invariant cookieLines == CookieLines(cs[..j])
      {
        cookieLines := cookieLines + ["Set-Cookie: " + cs[j].0 + "=" + cs[j].1];
        assert cs[..j + 1][..j] == cs[..j];
        j := j + 1;
      }
      assert cs[..|cs|] == cs;
      var lines := headerLines + cookieLines;
      h := Utf8(statusLine + Join(lines, "\r\n") + "\r\n\r\n");
    }

    /**
     * `build_response`: serves the file the request path names; on success the response
     * becomes a 200 with the file as content, otherwise the canned 404 is returned and only
     * `Content-Type` has been recorded (when the type was computed).
     */
    method BuildResponse(request: Request, env: Environment) returns (r: seq<byte>)
      modifies `headers, `content, `header, `statusCode, `reason
      ensures r == StaticReply(request.path, old(headers), cookies, env)
      ensures Serve(request.path, env).Ok? ==>
        var (mime, file) := Serve(request.path, env).value;
        && headers == ServedHeaders(old(headers), mime, |file|, env.date)
        && statusCode == Some(200) && reason == Some("OK")
        && content == file && header == Utf8(HeaderText(statusCode, reason, headers, cookies))
      ensures Serve(request.path, env).Err? ==>
        && headers == Put(old(headers), "Content-Type", GetMimeType(request.path, env.guess))
        && statusCode == old(statusCode) && reason == old(reason)
        && content == old(content) && header == old(header)
    {
      var path := request.path;
      var mime := GetMimeType(path, env.guess);
      var base := PrepareContentType(mime);
      if base.Err? {
        NotServed(path, old(headers), cookies, env);
        assert request.path == path;
        return NotFound();
      }
      var loaded := BuildContent(path, base.value, env);
      if loaded.Err? {
        NotServed(path, old(headers), cookies, env);
        assert request.path == path;
        return NotFound();
      }
      var file := loaded.value.1;
      r := FrameFile(file, env.date);
      ServedReply(path, old(headers), cookies, env, mime, file);
      assert request.path == path;
    }

    /**
     * The successful end of `build_response`, entered with `Content-Type` already recorded:
     * the file becomes the content and the header block is built for a 200.
     */
    method FrameFile(file: seq<byte>, date: string) returns (r: seq<byte>)
      modifies `headers, `content, `header, `statusCode, `reason
      ensures headers == Put(Put(Put(Put(old(headers), "Content-Length", NatToString(|file|)),
        "Connection", "close"), "Date", date), "Server", ServerToken)
      ensures statusCode == Some(200) && reason == Some("OK") && content == file
      ensures header == Utf8(HeaderText(Some(200), Some("OK"), headers, cookies))
      ensures r == header + file
    {
      statusCode := Some(200);
      reason := Some("OK");
      headers := Put(headers, "Content-Length", NatToString(|file|));
      headers := Put(headers, "Connection", "close");
      header := BuildResponseHeader(date);
      content := file;
      r := header + file;
    }

    /** `build_unauthorized`: the canned 401, recording its status on the response. */
    method BuildUnauthorized() returns (r: seq<byte>)
      modifies `statusCode, `reason
      ensures r == Unauthorized()
      ensures statusCode == Some(401) && reason == Some("Unauthorized")
    {
      statusCode := Some(401);
      reason := Some("Unauthorized");
      r := Unauthorized();
    }

    /**
     * `build_login_success`: queues the `auth` cookie, points the request at the index page
     * and serves it.
     */
    method BuildLoginSuccess(request: Request, env: Environment) returns (r: seq<byte>)
      modifies `headers, `content, `header, `statusCode, `reason, `cookies, request`path, request`verb
      ensures request.path == "/index.html" && request.verb == "GET"
      ensures cookies == Put(old(cookies), "auth", Cookies.LoginCookie)
      ensures r == StaticReply("/index.html", old(headers), cookies, env)
    {
      cookies := Put(cookies, "auth", Cookies.LoginCookie);
      request.path := "/index.html";
      request.verb := "GET";
      r := BuildResponse(request, env);
    }
  }
}
