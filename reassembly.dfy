/**
 * Reassembling a request from what the peer sends: the header block ends at the first
 * `\r\n\r\n`, `Content-Length` says how many body bytes to wait for, and the body is what
 * arrived after the header block, topped up to that length while the peer keeps sending.
 */
module Reassembly {
  import opened Common
  import opened Text
  import opened Bytes

  /** The most bytes a single read asks for. */
  const RecvSize: nat := 4096

  /**
   * The body length the handler waits for: `int()` of the `content-length` header when it is
   * present and not empty, 0 when it is absent, empty or not an integer `int()` accepts. It may
   * be negative, and `str()` writes it back within the digit limit.
   */
  function ContentLength(headers: map<string, string>): (n: int)
    ensures |NatToString(if n < 0 then -n else n)| <= MaxStrDigits
  {
    if "content-length" in headers && headers["content-length"] != "" then
      match ParseInt(headers["content-length"])
      case Some(n) => n
      case None => 0
    else 0
  }

  /** A length written the way `str()` writes it, within the digit limit, is read back exactly. */
  lemma ContentLengthOf(headers: map<string, string>, n: nat)
    requires "content-length" in headers && headers["content-length"] == NatToString(n)
    requires |NatToString(n)| <= MaxStrDigits
    ensures ContentLength(headers) == n
  {
    ParseIntNatToString(n);
  }

  /** A length of more than `MaxStrDigits` digits, which `int()` refuses, counts as no body. */
  lemma ContentLengthTooLong(headers: map<string, string>)
    requires "content-length" in headers
    requires IsDigitGroup(headers["content-length"]) && DecimalCount(headers["content-length"]) > MaxStrDigits
    ensures ContentLength(headers) == 0
  {
    ParseIntTooLong(headers["content-length"]);
  }

  /** A length preceded by one of the separator controls `int()` does not skip counts as none. */
  lemma ContentLengthSeparator(headers: map<string, string>, c: char, s: string)
    requires "content-length" in headers && headers["content-length"] == [c] + s
    requires '\U{1C}' <= c <= '\U{1F}'
    ensures ContentLength(headers) == 0
  {
    ParseIntRejectsSeparator(c, s);
  }

  /** Like `int()`, any single Unicode decimal digit is read as its value: `٥` is 5. */
  lemma ContentLengthOneDigit(headers: map<string, string>, c: char)
    requires "content-length" in headers && headers["content-length"] == [c] && IsDecimal(c)
    ensures ContentLength(headers) == DecimalValue(c).value
  {
    ParseIntOneDigit(c);
  }

  /** The header block: everything up to and including the first terminator, or all of `raw`. */
  function HeaderBlock(raw: seq<byte>): seq<byte> {
    var e := IndexOf(raw, Terminator);
    if e == -1 then raw else raw[..e + |Terminator|]
  }

  /** The body bytes that arrived with the header block: everything after the first terminator. */
  function AfterHeader(raw: seq<byte>): seq<byte> {
    var e := IndexOf(raw, Terminator);
    if e == -1 then [] else raw[e + |Terminator|..]
  }

  /**
   * The header block and the bytes after it are together exactly the bytes read; a block that
   * was terminated ends with its only terminator.
   */
  lemma SplitAtHeader(raw: seq<byte>)
    ensures HeaderBlock(raw) + AfterHeader(raw) == raw
    ensures IndexOf(raw, Terminator) != -1 ==>
      EndsWith(HeaderBlock(raw), Terminator)
      && IndexOf(HeaderBlock(raw), Terminator) == |HeaderBlock(raw)| - |Terminator|
  {
    var e := IndexOf(raw, Terminator);
    if e != -1 {
      var h := HeaderBlock(raw);
      assert h + AfterHeader(raw) == raw;
      assert h[e..] == Terminator;
      assert OccursAt(h, Terminator, e);
      forall j | 0 <= j < e
        ensures !OccursAt(h, Terminator, j)
      {
        assert !OccursAt(raw, Terminator, j);
        assert h[j..j + |Terminator|] == raw[j..j + |Terminator|];
      }
      IndexOfIs(h, Terminator, e);
    }
  }

  /**
   * Reading on past the header block changes neither the block nor the bytes seen so far
   * after it.
   */
  lemma HeaderOfPrefix(raw: seq<byte>, stream: seq<byte>)
    requires raw <= stream && IndexOf(raw, Terminator) != -1
    ensures HeaderBlock(raw) == HeaderBlock(stream)
    ensures AfterHeader(raw) <= AfterHeader(stream)
    ensures |AfterHeader(stream)| - |AfterHeader(raw)| == |stream| - |raw|
  {
    assert stream == raw + stream[|raw|..];
    IndexOfExtend(raw, stream[|raw|..], Terminator);
  }

  /**
   * `raw` is what the header loop reads from `stream`, and `prev` what it held before its last
   * read. The loop reads at most `RecvSize` bytes at a time, stops at the first read after
   * which the bytes hold a terminator, and otherwise reads until the peer stops.
   */
  predicate HeaderRead(stream: seq<byte>, raw: seq<byte>, prev: seq<byte>) {
    && raw <= stream
    && (IndexOf(raw, Terminator) != -1 || raw == stream)
    && prev <= raw && IndexOf(prev, Terminator) == -1
    && |raw| - |prev| <= RecvSize
    && (raw != [] ==> |prev| < |raw|)
  }

  /**
   * The header phase reads less than one chunk past the header block: fewer than `RecvSize`
   * body bytes arrive with it, and its block is the stream's own.
   */
  lemma HeaderOverread(stream: seq<byte>, raw: seq<byte>, prev: seq<byte>)
    requires HeaderRead(stream, raw, prev)
    ensures |AfterHeader(raw)| < RecvSize
    ensures HeaderBlock(raw) == HeaderBlock(stream)
    ensures AfterHeader(raw) <= AfterHeader(stream)
  {
    if IndexOf(raw, Terminator) != -1 {
      assert raw == prev + raw[|prev|..];
      IndexOfCrossing(prev, raw[|prev|..], Terminator);
      HeaderOfPrefix(raw, stream);
    }
  }

  function Min(a: int, b: int): int {
    if a < b then a else b
  }

  /**
   * The body once the reads are over, when `already` arrived with the header block and `rest`
   * is what the peer sends after it: nothing more when `already` reaches the declared length,
   * otherwise `already` topped up to that length or until the peer stops.
   */
  function BodyOf(already: seq<byte>, rest: seq<byte>, contentLength: int): (body: seq<byte>)
    ensures already <= body && |body| <= |already| + |rest|
    ensures body == already + rest[..|body| - |already|]
    ensures |body| - |already| <= if contentLength > |already| then contentLength - |already| else 0
    ensures |body| >= contentLength || body == already + rest
  {
    if contentLength <= |already| then
      assert rest[..0] == [];
      already
    else
      already + rest[..Min(contentLength - |already|, |rest|)]
  }

  /**
   * Whatever the chunking, when the header phase stopped before the declared length was
   * reached, the body is the declared number of bytes after the first terminator of the
   * stream, or all of them when the peer sent fewer.
   */
  lemma ChunkingInvariance(stream: seq<byte>, raw: seq<byte>, contentLength: int)
    requires raw <= stream && IndexOf(raw, Terminator) != -1
    requires |AfterHeader(raw)| <= contentLength
    ensures BodyOf(AfterHeader(raw), stream[|raw|..], contentLength)
         == AfterHeader(stream)[..Min(contentLength, |AfterHeader(stream)|)]
  {
    HeaderOfPrefix(raw, stream);
    var already := AfterHeader(raw);
    var after := AfterHeader(stream);
    assert after == already + stream[|raw|..];
  }

  /** When exactly the declared number of bytes follows the header block, that is the body. */
  lemma ExactBody(stream: seq<byte>, raw: seq<byte>)
    requires raw <= stream && IndexOf(raw, Terminator) != -1
    ensures BodyOf(AfterHeader(raw), stream[|raw|..], |AfterHeader(stream)|) == AfterHeader(stream)
  {
    HeaderOfPrefix(raw, stream);
    ChunkingInvariance(stream, raw, |AfterHeader(stream)|);
  }

  /**
   * What the body is in any case: a prefix of the bytes after the stream's first terminator,
   * at least the declared length of them when the peer sent that many.
   */
  lemma BodyWithinStream(stream: seq<byte>, raw: seq<byte>, contentLength: int)
    requires raw <= stream
    requires IndexOf(raw, Terminator) != -1 || raw == stream
    ensures var body := BodyOf(AfterHeader(raw), stream[|raw|..], contentLength);
      && body <= AfterHeader(stream)
      && (|body| >= contentLength || body == AfterHeader(stream))
  {
    if IndexOf(raw, Terminator) != -1 {
      HeaderOfPrefix(raw, stream);
      assert AfterHeader(stream) == AfterHeader(raw) + stream[|raw|..];
    } else {
      assert stream[|raw|..] == [];
    }
  }
}
