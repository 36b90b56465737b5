# BKSysNet daemon: connection handler, response builder and chat tracker

This project models the core of a small embedded HTTP daemon and the chat tracker application
that runs on it. It covers three parts.

- **The connection handler** (`HttpAdapter.handle_client`). It reads the header block from a
  client socket until the first `\r\n\r\n`, or until the peer stops. It then reads the body up
  to the declared `Content-Length`. Once the request is parsed, it sends exactly one response and
  closes the connection. Dispatch tries four branches in a fixed order:
  1. `POST /login`: checks the form credentials. Valid credentials set the `auth` cookie and
     serve the index page; invalid ones get a 401.
  2. `GET /` or `GET /index.html`: the cookie-protected index page.
  3. The route handler bound to the path: its result is sent as JSON, or a 500 JSON error if it
     raises.
  4. Otherwise, a static file.
- **The response builder** (`Response`). It maps a path to a MIME type, and the MIME type to one
  of three asset roots (`www/`, `static/`, `apps/`). It refuses any target that resolves outside
  its root, and loads the file. It frames the reply byte for byte: status line, headers,
  `Set-Cookie` lines, a blank line, then the content. It also builds the canned 404 and 401
  replies.
- **The tracker routes** (`start_chat_server.py`). `submit-info` registers a peer's name,
  address and port in a module-level dictionary. `get-list` returns that dictionary. Three
  peer-to-peer routes are stubs that always answer with an error.

The connection handler is modelled imperatively. `DaemonAdapter.HttpAdapter` is a class over a
`Socket.Connection`, a `DaemonRequest.Request` and a `DaemonResponse.Response`. Its methods are
proved against one specification function, `DaemonAdapter.Reply`: the bytes sent are exactly
`Reply` of the parsed request. Lemmas about `Reply` state what each branch answers. The response
builder is a class whose methods update its `headers`, `cookies`, status and content. Each method
is proved against the pure functions `StaticReply`, `NotFound` and `Unauthorized`. The tracker is
a class holding the registry, and each route is proved against the function `Tracker.Submit`.

Some code the handler calls is not part of this model. It enters as parameters, in
`DaemonAdapter.Services`:
- UTF-8 decoding with replacement;
- the request parser (request.py is not part of this model);
- `urllib.parse.parse_qs`;
- the route handlers together with `json.dumps` of their result;
- `json.dumps` of a string;
- the file system, `mimetypes.guess_type` and the clock (in `DaemonResponse.Environment`).

`json.loads` is a parameter of `Tracker.Registry.SubmitInfo`.

Behaviour of the code worth noting:
- A route handler that returns raw bytes gets no special treatment. `json.dumps` raises on bytes,
  so the handler's `except` branch answers with a 500 JSON error.
- If the request parser raises, the exception escapes `handle_client`. Nothing is sent and the
  connection is not closed.
- `/` is rewritten to `/index.html` for every method, not only for the protected route.
- The cookie gate guards only `GET`. Another method on `/index.html` with no handler bound is
  served the page by the static fallback (`DaemonAdapter.IndexUngatedForOtherVerbs`).
- A path with no known MIME type defaults to `application/octet-stream`, so it is looked up
  under `apps/`.
- The login branch clears the cookies and sets `auth` inline rather than calling
  `build_login_success`. The two leave the same state when no other cookie was queued.

## Model

| member | source | states |
|---|---|---|
| Socket.Connection.Recv | daemon/httpadapter.py:174-178 | A read returns at most the requested number of bytes, taken from the front of what the peer still has to send. It is empty exactly when the peer has nothing more. |
| Socket.Connection.SendAll | daemon/httpadapter.py:240-244 | The data is appended to what was sent; what is pending and the open/closed state do not change. |
| Socket.Connection.Close | daemon/httpadapter.py:245-248 | The connection is closed; nothing sent or pending changes. |
| Text.JoinSplit | daemon/httpadapter.py:358 | Joining the parts of `str.split(sep)` with `sep` gives back the original string. |
| Text.SplitJoin | daemon/httpadapter.py:358 | Splitting a join of separator-free parts gives back the parts. |
| Text.LStripSuffix | daemon/httpadapter.py:360-361 | `lstrip` removes only leading whitespace and keeps the rest as a suffix. |
| Text.LStripChar | daemon/response.py:165 | `lstrip('/')` leaves a suffix of the path that does not start with `/`, and everything it drops is `/`. |
| Text.RStripPrefix | daemon/httpadapter.py:360-361 | `rstrip` removes only trailing whitespace and keeps the rest as a prefix. |
| Text.StripClean | daemon/httpadapter.py:360-361 | `strip` leaves a string that has no whitespace at its ends unchanged. |
| Text.BeforeSeparator | daemon/httpadapter.py:281 | `split(";", 1)[0]` is everything before the first `;`. |
| Text.IntLTrim | daemon/httpadapter.py:206 | `int()` skips leading whitespace: it keeps a suffix and drops only `str.isspace()` characters other than U+001C to U+001F. |
| Text.IntRTrim | daemon/httpadapter.py:206 | `int()` skips trailing whitespace in the same way: it keeps a prefix and drops only those characters. |
| Text.IntTrim | daemon/httpadapter.py:206 | The text `int()` reads neither starts nor ends with whitespace it skips. |
| Text.DecimalBelowTen | daemon/httpadapter.py:206 | Every Unicode decimal digit has a value from 0 to 9. |
| Text.DecimalNotSpaceOrSign | daemon/httpadapter.py:206 | A decimal digit is neither whitespace nor a sign. |
| Text.DigitsValueBound | daemon/httpadapter.py:206 | A digit group of `k` digits (underscores not counted) has a value below `10^k`. |
| Text.NatToStringLength | daemon/httpadapter.py:206 | A number below `10^k` is written by `str()` with at most `k` digits. |
| Text.DigitsBelowLimit | daemon/httpadapter.py:206 | A digit group within the 4300-digit limit has a value `str()` writes within the limit. |
| Text.ParseDigits | daemon/httpadapter.py:206 | The unsigned part of `int()`: a digit group of at most 4300 digits, whose value `str()` writes back within the limit. |
| Text.ParseTrimmed | daemon/httpadapter.py:206 | `int()` after the whitespace is skipped: whatever it accepts is written back within the digit limit, and only a leading `-` makes it negative. |
| Text.ParseInt | daemon/httpadapter.py:206 | `int(s)` in base 10: whitespace it skips, an optional sign, then at most 4300 Unicode decimal digits with single underscores between them; otherwise `ValueError` (`None`). What it accepts is written back within the limit, and is negative only with a `-`. |
| Text.ParseIntTooLong | daemon/httpadapter.py:206 | A digit group of more than 4300 digits is refused, whatever its value. |
| Text.IntTrimAround | daemon/httpadapter.py:206 | Skippable whitespace on either side of a text whose ends are not whitespace is dropped, and the text is kept. |
| Text.ParseIntSpacesAround | daemon/httpadapter.py:206 | Whitespace `int()` skips on either side of a number does not change its value. |
| Text.ParseIntRejectsSeparator | daemon/httpadapter.py:206 | A text starting with one of U+001C to U+001F, which `str.isspace()` accepts but `int()` does not skip, is refused. |
| Text.ParseIntOneDigit | daemon/httpadapter.py:206 | Any single Unicode decimal digit reads as its value. |
| Text.ParseIntNatToString | daemon/httpadapter.py:206 | `int()` of a non-negative number written by `str()` in at most 4300 digits gives that number back. |
| Text.DigitsValueOfNat | daemon/httpadapter.py:206 | The digits `str()` writes for a number are decimal digits whose value is that number. |
| Bytes.Utf8Append | daemon/response.py:227-229 | UTF-8 encoding distributes over concatenation. |
| Bytes.Utf8Ascii | daemon/response.py:238-247 | ASCII text encodes to one byte per character, with the same code. |
| Bytes.IndexOfExtend | daemon/httpadapter.py:174-191 | Once a terminator occurs in the bytes read, reading more does not move the first one. |
| Bytes.IndexOfCrossing | daemon/httpadapter.py:174-178 | Appending a chunk to bytes with no terminator puts any first terminator partly in the new chunk. |
| Bytes.HeaderEndIsFirstBlankLine | daemon/response.py:227 | In a header block of CR/LF-free lines, the first `\r\n\r\n` is the one that ends the block. |
| Dict.PutGet | daemon/response.py:135 | After storing a key, looking it up gives the new value and every other key is unchanged. |
| Dict.PutOrder | daemon/response.py:217-218 | A dictionary keeps its insertion order; storing an existing key keeps its position. |
| Paths.RealPath | daemon/response.py:171-172 | `realpath` of a path resolved from a canonical working directory is canonical. |
| Paths.CommonPrefix | daemon/response.py:178 | `commonpath` on component lists: the longest common prefix; it is a prefix of both, and stops where they differ or one ends. |
| Paths.WithinIsPrefix | daemon/response.py:178 | The `commonpath` test holds exactly when the base's components are a prefix of the target's. |
| Paths.SiblingNotWithin | daemon/response.py:178-180 | A path below a sibling directory is not inside the base. |
| Paths.ResolveAppend | daemon/response.py:168-172 | Resolving components one list after another is resolving their concatenation. |
| Paths.ResolveStaysBelow | daemon/response.py:168-172 | Components with no `..` never leave the directory they start from. |
| Reassembly.ContentLength | daemon/httpadapter.py:202-208 | The length waited for is `int()` of a present, non-empty header and 0 otherwise or when `int()` raises; it may be negative and is always written back within the 4300-digit limit. |
| Reassembly.ContentLengthOf | daemon/httpadapter.py:202-208 | A `content-length` header written as a decimal number of at most 4300 digits gives that length. |
| Reassembly.ContentLengthOneDigit | daemon/httpadapter.py:206 | A single Unicode decimal digit, such as `٥`, gives its value as the length. |
| Reassembly.ContentLengthTooLong | daemon/httpadapter.py:202-208 | A length of more than 4300 digits, which `int()` refuses, counts as no body. |
| Reassembly.ContentLengthSeparator | daemon/httpadapter.py:202-208 | A length preceded by one of U+001C to U+001F counts as no body. |
| Reassembly.HeaderOverread | daemon/httpadapter.py:170-192 | The header loop reads fewer than 4096 bytes past the header block, and its block is the stream's own header block. |
| Reassembly.SplitAtHeader | daemon/httpadapter.py:191-192 | The header block and the bytes after it are together exactly the bytes read. A terminated block ends with its only terminator. |
| Reassembly.HeaderOfPrefix | daemon/httpadapter.py:174-178 | Reading past the terminator changes neither the header block nor the bytes already after it. |
| Reassembly.BodyOf | daemon/httpadapter.py:211-223 | The body extends the bytes that came with the header by at most the missing length. It reaches `Content-Length` unless the peer stopped first. |
| Reassembly.ChunkingInvariance | daemon/httpadapter.py:170-223 | When the header phase stops short of the declared length, the body is the declared number of bytes after the stream's first terminator, whatever the chunking. |
| Reassembly.ExactBody | daemon/httpadapter.py:170-223 | When exactly the declared number of bytes follows the header, that is the body, whatever the chunking. |
| Reassembly.BodyWithinStream | daemon/httpadapter.py:211-223 | The body is always a prefix of the bytes after the first terminator. It has at least the declared length, or else it is all of them. |
| Cookies.ParsePair | daemon/httpadapter.py:360-363 | Definition: `pair.strip().split("=")` must give two parts, which are stripped; any other count raises `ValueError` (`None`). Its properties are the `ParsePairShape` row. |
| Cookies.ParsePairShape | daemon/httpadapter.py:360-363 | A segment gives a pair exactly when, stripped, it holds one `=`. The name and value are stripped and hold no `=`. |
| Cookies.ParsedAt | daemon/httpadapter.py:358-363 | Each segment of the header is parsed on its own. |
| Cookies.ExtractCookies | daemon/httpadapter.py:355-364 | The loop returns the dictionary of the `cookie` header's well-formed pairs, `{}` when the header is missing or empty. |
| Cookies.StoreStep | daemon/httpadapter.py:358-363 | One loop step adds the segment's pair, overwriting an earlier value, or drops a malformed segment. |
| Cookies.StoreKeys | daemon/httpadapter.py:358-363 | A name is in the dictionary exactly when some segment parsed to a pair with that name. |
| Cookies.StoreLastWins | daemon/httpadapter.py:361 | A name repeated in the header keeps the value of its last occurrence. |
| Cookies.ParseCookieHeader | daemon/httpadapter.py:355-364 | Definition: an empty header gives no cookies; otherwise each `;` segment that parses is stored in order, a later name overwriting an earlier one. Its properties are the rows that follow. |
| Cookies.HeaderCookies | daemon/httpadapter.py:355-364 | The value stored for a cookie is the value in the last well-formed segment that names it. |
| Cookies.HeaderCookieNames | daemon/httpadapter.py:355-364 | Every stored name comes from a segment of the header. |
| Cookies.ParseRender | daemon/httpadapter.py:355-364 | Parsing `k1=v1;k2=v2;...` made of plain names and values gives back exactly those pairs, the last value winning. |
| Cookies.SplitCount | daemon/httpadapter.py:358-360 | `split` on a character gives one more part than the character's occurrences. |
| Cookies.Authorized | daemon/httpadapter.py:275-282 | Definition: `auth` is present and non-empty, and its text before the first `;`, stripped, is `true`. |
| Cookies.AuthorizedIff | daemon/httpadapter.py:277-282 | The gate passes exactly when `auth` is present and its text before the first `;`, stripped, is `true`. |
| Cookies.LoginCookieAuthorizes | daemon/httpadapter.py:261 | The value the login stores, `true; Path=/`, passes the gate. |
| Cookies.AuthorizedSpaces | daemon/httpadapter.py:281 | Whitespace around `true` and anything after the first `;` do not affect the gate. |
| Cookies.EchoedLoginAuthorizes | daemon/httpadapter.py:277-282 | A browser that sends back `auth=true` passes the gate. |
| DaemonResponse.GetMimeType | daemon/response.py:102-120 | A failing lookup gives `application/octet-stream`. Otherwise `.ico` is `image/x-icon`, then the table's type, then the default. The result is never empty. |
| DaemonResponse.BaseDirFor | daemon/response.py:138-151 | A MIME type is served exactly when it is HTML, CSS, `image/*` or `application/*`. HTML maps to `www/`; CSS, JavaScript and images to `static/`; other `application/*` to `apps/`; anything else is refused. |
| DaemonResponse.PrefixesDisjoint | daemon/response.py:138-148 | The branches of the directory choice cannot overlap. |
| DaemonResponse.JoinPath | daemon/response.py:168 | Definition of `os.path.join` for two parts: an absolute second part replaces the first; otherwise they are joined with one `/`. |
| DaemonResponse.TargetKeepsBase | daemon/response.py:165-168 | The target is the base directory followed by the path without its leading slashes. |
| DaemonResponse.BuildContent | daemon/response.py:157-195 | A loaded file comes with its own length. |
| DaemonResponse.HeaderTextAscii | daemon/response.py:198-229 | A header block built from ASCII fields is ASCII. |
| DaemonResponse.HeaderBlockEnds | daemon/response.py:208-229 | In any built response the first `\r\n\r\n` is the end of the header block, so a reader finds the body where it starts. |
| DaemonResponse.HeaderTextIsJoin | daemon/response.py:208-227 | The header block is the status line and the header and cookie lines joined by CRLF, then a blank line. |
| DaemonResponse.CannedFramed | daemon/response.py:232-247 | A fixed ASCII reply whose `Content-Length` matches its body is framed like a built response. |
| DaemonResponse.NotFound | daemon/response.py:232-247 | Definition: the canned 404, its header text followed by `404 Not Found`, both as ASCII bytes. Its framing is the next row. |
| DaemonResponse.NotFoundFramed | daemon/response.py:232-247 | The 404 is a well-framed reply: status 404, its five headers, and a `Content-Length` equal to its body's 13 bytes. |
| DaemonResponse.Unauthorized | daemon/response.py:288-305 | Definition: the canned 401, its header text followed by `401 Unauthorized`. Its framing is the next row. |
| DaemonResponse.UnauthorizedFramed | daemon/response.py:288-305 | The 401 is a well-framed reply: status 401, plain text, and a `Content-Length` equal to its body's 16 bytes. |
| DaemonResponse.Serve | daemon/response.py:250-280 | A file is served exactly when its MIME type has a directory and the load succeeds; an unsupported type is the failure reported. |
| DaemonResponse.ServeFromBase | daemon/response.py:250-280 | A served file lies inside its base directory and is sent as its bytes on disk. |
| DaemonResponse.StaticReply | daemon/response.py:250-286 | Definition of what `build_response` returns: the framed file when it is served, the canned 404 otherwise. `StaticServed` and `StaticRefused` state both cases. |
| DaemonResponse.StaticServed | daemon/response.py:250-286 | A served file is framed as 200 OK. Its headers declare its type, its length, `Connection: close`, the date and the server token, and every queued cookie follows. |
| DaemonResponse.ServedHeadersGet | daemon/response.py:272-275 | The served headers hold the type, length, connection, date and server values written last. |
| DaemonResponse.StaticRefused | daemon/response.py:171-180 | A request whose target escapes its base directory gets the 404. |
| DaemonResponse.NoDotDotStaysInside | daemon/response.py:165-178 | A path with no `..` component always resolves inside its asset root. |
| DaemonResponse.ClimbOutRefused | daemon/response.py:171-180 | `/../<sibling>/...` under `www/` is refused as outside the base. |
| DaemonResponse.Response.constructor | daemon/response.py:57-99 | A new response has no status, content, headers or cookies. |
| DaemonResponse.Response.PrepareContentType | daemon/response.py:123-154 | It records the `Content-Type` header before choosing the directory, including for a type it refuses. |
| DaemonResponse.Response.BuildResponseHeader | daemon/response.py:198-229 | The loops add `Date` and `Server` and write the status line, one line per header in order, one `Set-Cookie` line per cookie, and the blank line. |
| DaemonResponse.Response.BuildResponse | daemon/response.py:250-286 | It returns `StaticReply` of the request path. On success the headers, status and content are those of the served file. On failure only `Content-Type` was set. |
| DaemonResponse.Response.FrameFile | daemon/response.py:272-286 | After a successful load: status 200, the length and connection headers, then the header block followed by the content. |
| DaemonResponse.Response.BuildUnauthorized | daemon/response.py:288-305 | Records status 401 and returns the canned 401. |
| DaemonResponse.Response.BuildLoginSuccess | daemon/response.py:307-326 | Queues the login cookie, points the request at `GET /index.html`, and returns that page's reply with the cookie. |
| DaemonAdapter.Reply | daemon/httpadapter.py:231-327 | Definition of the bytes `handle_client` sends for a parsed request: the reply of the branch `Choose` picks. The branch lemmas below state each case. |
| DaemonAdapter.Choose | daemon/httpadapter.py:250-327 | The login branch is taken exactly for `POST /login`, the gate exactly for `GET /` or `GET /index.html`, and a handler exactly when neither applies and one is bound. |
| DaemonAdapter.JsonReply | daemon/httpadapter.py:297-305 | Definition: the hand-written JSON reply, status line, `Content-Type`, `Content-Length` of the UTF-8 text, `Connection: close`, a blank line and the JSON, encoded as UTF-8. |
| DaemonAdapter.JsonFramed | daemon/httpadapter.py:296-309 | A JSON reply is framed: it declares `application/json`, `Connection: close` and the UTF-8 length of the JSON text. |
| DaemonAdapter.JsonHeaderText | daemon/httpadapter.py:300-307 | The handler's hand-written reply is the same text `Response` would build from the same three headers. |
| DaemonAdapter.JsonHeadersGet | daemon/httpadapter.py:302-304 | The JSON headers declare the type, the length and `Connection: close`. |
| DaemonAdapter.HookReply | daemon/httpadapter.py:293-322 | Definition: a handler's result as a 200 JSON reply, a raised exception as a 500 JSON reply carrying `str(e)`. |
| DaemonAdapter.HookFramed | daemon/httpadapter.py:293-322 | A handler's result is framed as 200 OK JSON; a raised exception as a framed 500 whose JSON carries the message. |
| DaemonAdapter.LoginReply | daemon/httpadapter.py:250-272 | `POST /login` with `admin`/`password` answers with the index page carrying only the `auth` cookie; any other credentials answer with the 401. |
| DaemonAdapter.IndexGate | daemon/httpadapter.py:274-291 | `GET /` or `GET /index.html` is answered with the page only when the `auth` cookie passes, and with the 401 otherwise, whatever handler is bound. |
| DaemonAdapter.IndexUngatedForOtherVerbs | daemon/httpadapter.py:275-327 | Another method on `/` or `/index.html` with no handler bound is served the page, and its cookies make no difference. |
| DaemonAdapter.LoginServesIndex | daemon/httpadapter.py:258-266 | A successful login answers with exactly the page an authorized index request gets. |
| DaemonAdapter.ReplyRewrite | daemon/httpadapter.py:231-237 | Rewriting `/` to `/index.html` before dispatch changes no reply. |
| DaemonAdapter.BodyOfIs | daemon/httpadapter.py:211-223 | A body that stopped at the declared length, or when the peer stopped, is `BodyOf` of what arrived. |
| DaemonAdapter.ReceiveHeader | daemon/httpadapter.py:170-180 | The loop consumes a prefix of the stream in reads of at most 4096 bytes. What it held before its last read has no terminator, so it stops at the first read that completes one, or when the peer stops. |
| DaemonAdapter.ReceiveHeaderBlock | daemon/httpadapter.py:170-192 | The header bytes are the stream up to and including its first terminator. Nothing is read when the peer sent nothing. |
| DaemonAdapter.ReceiveBody | daemon/httpadapter.py:211-223 | The loop's body is `BodyOf` of the bytes already read and the rest of the stream, and it consumes exactly what it appends. |
| DaemonAdapter.ReceiveRequestBody | daemon/httpadapter.py:202-223 | The body is `BodyOf` the bytes that came with the header, the rest of the stream and `Content-Length`: a prefix of the bytes after the stream's first terminator that reaches `Content-Length` unless the stream ends first. |
| DaemonAdapter.SendAndClose | daemon/httpadapter.py:239-248 | The whole reply is sent, then the connection is closed. |
| DaemonAdapter.HttpAdapter.constructor | daemon/httpadapter.py:45-64 | The adapter holds the connection with a fresh request and an empty response. |
| DaemonAdapter.HttpAdapter.HandleClient | daemon/httpadapter.py:155-327 | An empty connection is closed with nothing sent. A parse failure sends nothing and leaves the connection open. Otherwise the header phase is a `HeaderRead` of the stream, the body received is exactly `BodyOf` what followed the header and `Content-Length`, exactly `Reply` of the parsed request is sent, and the connection is closed. |
| DaemonAdapter.HttpAdapter.ReceiveAndRespond | daemon/httpadapter.py:198-327 | Once the header block is parsed, the body received is exactly `BodyOf` what followed the header and `Content-Length`, bounded by the stream, and exactly `Reply` of the parsed request is sent before the connection is closed. |
| DaemonAdapter.HttpAdapter.Respond | daemon/httpadapter.py:231-327 | The bytes sent are `Reply` of the request. An accepted login leaves the request at `GET /index.html` with only the `auth` cookie queued; otherwise only the `/` rewrite changes the request. |
| DaemonAdapter.HttpAdapter.Dispatch | daemon/httpadapter.py:274-327 | For any request other than the login form, the reply is `Reply` of the request. |
| DaemonAdapter.HttpAdapter.ServeRoute | daemon/httpadapter.py:293-327 | Past the login and the gate, the reply is the handler's JSON when one is bound and the static file otherwise, as `Reply` says. |
| DaemonAdapter.HttpAdapter.Login | daemon/httpadapter.py:250-272 | Valid credentials answer with the index page and the `auth` cookie, and rewrite the request. Invalid ones answer with the 401 and change no cookie. |
| DaemonAdapter.HttpAdapter.AcceptLogin | daemon/httpadapter.py:259-265 | Only the `auth` cookie is queued, the request is pointed at `GET` of the index, and the page is built with that cookie. |
| DaemonAdapter.HttpAdapter.ClearAndSet | daemon/httpadapter.py:260-261 | After clearing, the queued cookies are exactly `auth`. |
| DaemonAdapter.HttpAdapter.ServeIndex | daemon/httpadapter.py:276-291 | A passing `auth` cookie gets the page, anything else gets the 401. |
| DaemonAdapter.HttpAdapter.ServeStatic | daemon/httpadapter.py:324-327 | The fallback answers with `StaticReply` of the request path. |
| Tracker.KeyOf | start_chat_server.py:48 | A value can key the registry exactly when it is not a list or a dict. `True` and `False` are the keys 1 and 0. |
| Tracker.Find | start_chat_server.py:48 | The position found is the first item whose name is the key, and -1 exactly when no item has it. |
| Tracker.Put | start_chat_server.py:48 | `peer_list[name] = ...` finds the new address under the name and leaves other names' addresses; a known name keeps its place and stored name, a new one is appended. |
| Tracker.PutDistinct | start_chat_server.py:48 | Storing keeps the registry's names hashable and pairwise distinct keys. |
| Tracker.SubmitOrder | start_chat_server.py:48 | A registration keeps every earlier name in its place and appends a new name at the end. |
| Tracker.SubmitDistinct | start_chat_server.py:29-61 | Every submission keeps the registry's names hashable and distinct. |
| Tracker.PutIdempotent | start_chat_server.py:48 | Storing the same address under the same name twice is storing it once. |
| Tracker.PutCommutes | start_chat_server.py:48 | Stores under two different names give the same address for every name in either order. |
| Tracker.PutCommutesPresent | start_chat_server.py:48 | When both names are already stored, the order of the two stores leaves no trace. |
| Tracker.PutCommutesNew | start_chat_server.py:48 | When both names are new, the two orders list them differently. |
| Tracker.Status | start_chat_server.py:51-73 | The `status` field is `registered`, `error` or `success`, each for exactly one kind of answer. |
| Tracker.Submit | start_chat_server.py:29-61 | A failed submission leaves the registry unchanged; a registration leaves an address stored under the name it answers with. |
| Tracker.SubmitRegisters | start_chat_server.py:42-51 | With a name, address and port all truthy and a hashable name, the address is found under the name and every other name keeps its address. Otherwise the answer is an error and nothing changes. |
| Tracker.SubmitSize | start_chat_server.py:48 | A registration grows the registry by one for a new name and keeps its size for a known one. |
| Tracker.SubmitErrors | start_chat_server.py:40-61 | Malformed JSON answers `Invalid JSON body`; any other exception from `json.loads` answers its own message; a body that is not an object, a missing or falsy field and an unhashable name each get their error message. |
| Tracker.TrueIsOne | start_chat_server.py:48 | The names `1` and `true` are the same registry key: the second registration overwrites the address and the name first stored, `1`, stays. |
| Tracker.SubmitIdempotent | start_chat_server.py:29-61 | Submitting the same body twice is the same as submitting it once. |
| Tracker.SubmitCommutes | start_chat_server.py:48 | Registrations under different names can happen in either order with the same addresses found; the listings are equal when both names were known and differ in order when both are new. |
| Tracker.ConnectPeer | start_chat_server.py:82-85 | The stub always answers with an error. |
| Tracker.BroadcastPeer | start_chat_server.py:87-90 | The stub always answers with an error. |
| Tracker.SendPeer | start_chat_server.py:92-95 | The stub always answers with an error. |
| Tracker.StubsAgree | start_chat_server.py:82-95 | The three stubs give the same answer whatever their input. |
| Tracker.Registry.constructor | start_chat_server.py:23 | The registry starts empty. |
| Tracker.Registry.SubmitInfo | start_chat_server.py:29-61 | The new registry and the answer are `Submit` of the old registry and what `json.loads` did with the body; names stay hashable and distinct. |
| Tracker.Registry.GetList | start_chat_server.py:63-73 | The answer is the whole registry, in insertion order, with status `success`, and nothing changes. |
| Tracker.RegisterThenList | start_chat_server.py:29-73 | After a complete registration, the listing has distinct names and holds the peer's address under its name. |

## Left out

- Socket timeouts and exceptions during reads are not modelled separately. A timeout, a peer close and a read error all end the stream in the same way (httpadapter.py:171, 179-180, 222-223). Errors in `sendall` and `close` are ignored, as in the code.
- The connection's address (`connaddr`) is stored by the code but never used, and is not modelled.
- Decoding with `errors="replace"` cannot raise, so the latin-1 fallback (httpadapter.py:195-196, 228-229) is unreachable and is not modelled. The decoder is a parameter.
- request.py is not part of this model. Its `prepare` is a parameter returning the parsed verb, path, headers, cookies and bound route, or nothing when it raises.
- `parse_qs`, the route handlers and `json.dumps` are parameters. The handler call together with the encoding of its result gives either JSON text or the exception's message.
- The outer `except` that answers with a plain-text 500 (httpadapter.py:329-347) is not modelled. With the services above no statement in the `try` raises outside the handler's own `try`.
- `HttpAdapter.build_response`, `add_headers` and `build_proxy_headers` are never called by the handler and are not modelled.
- `extract_cookies` is declared as a `@property` that takes arguments, so the code cannot call it as written. The model gives its body as `Cookies.ExtractCookies` over the request's headers.
- The file system is a map from canonical paths to file contents, and `realpath` is lexical. Symbolic links and permissions are not modelled.
- `mimetypes.guess_type` is a parameter. The current time is a parameter already formatted for the `Date` header.
- Logging with `print` is not modelled.
- Concurrency is not modelled. Each connection is handled by one adapter; the tracker's `peer_list` is modelled as owned by one registry.
- JSON numbers other than integers (floats) are not modelled in the tracker.
- Tracker.SubmitErrors: the messages of the `AttributeError` for a body that is not an object and the `TypeError` for an unhashable name are CPython's wording; the message of any other exception `json.loads` raises is a parameter.
- Reassembly.ContentLength: the decimal digits and whitespace `int()` accepts are those of Unicode 15.0, and the digit limit is CPython's default of 4300. A Python built on another Unicode version, or run with another limit (`sys.set_int_max_str_digits`), may accept a slightly different set.
