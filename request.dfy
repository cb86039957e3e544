/** The request side of src/request.rs: `decode` runs the header parser
    over the buffer's pending bytes and moves the cursor past a complete
    head; the `Request` it returns gives access to the parsed head and
    turns into a `BodyReader` whose ceiling is the Content-Length value
    (section 8.6 of RFC 9110). */
module HttpRequest {
  import opened Ascii
  import opened Wrappers
  import opened UsizeParse
  import opened Utf8
  import opened ByteStream
  import opened BodyReading

  /** The number of header slots `decode` hands to the parser. */
  const MAX_HEADERS: nat := 16

  /** The header name `content_length` looks for, in lower case. */
  const CONTENT_LENGTH: string := "content-length"

  /** An `httparse::Header`: a name and the raw bytes of the value. */
  datatype Header = Header(name: string, value: seq<byte>)

  /** The fields of an `httparse::Request` after a parse. */
  datatype Head = Head(methodName: Option<string>, path: Option<string>, version: Option<byte>, headers: seq<Header>)

  /** The kinds of `httparse::Error`. */
  datatype ParseError = HeaderName | HeaderValue | NewLine | Status | Token | TooManyHeaders | Version

  /** What `parse_with_uninit_headers` reports: a complete head of `amt`
      bytes, a head that needs more bytes, or a grammar error. */
  datatype ParseStatus = Complete(amt: nat, head: Head) | Partial | Malformed(error: ParseError)

  /** The header parser, given the bytes and the number of header slots. */
  type HeaderParser = (seq<byte>, nat) -> ParseStatus

  /** What a completed parse leaves in the request: a method, a path and
      an HTTP/1.x minor version, and no more headers than there were
      slots. */
  ghost predicate Parsed(head: Head, slots: nat)
  {
    && head.methodName.Some? && head.path.Some? && head.version.Some?
    && head.version.value <= 1
    && |head.headers| <= slots
  }

  /** The guarantees `decode` relies on from the parser: a complete head
      lies within the bytes it was given and is fully parsed. */
  ghost predicate HonestParser(parse: HeaderParser)
  {
    forall input, slots :: parse(input, slots).Complete? ==>
      && parse(input, slots).amt <= |input|
      && Parsed(parse(input, slots).head, slots)
  }

  /** A decoded request: the parsed head, and the buffer and stream the
      body is read from. */
  datatype Request = Request(head: Head, buf: ReqBuf, stream: Stream)

  /** `io::Error::other("failed to parse http request: ...")`. */
  datatype DecodeError = FailedToParse(error: ParseError)

  /** `decode`: parse the pending bytes with `MAX_HEADERS` slots. A
      grammar error and a partial head leave the buffer alone; a complete
      head of `k` bytes moves the cursor past exactly those `k` bytes. */
  method Decode(parse: HeaderParser, buf: ReqBuf, stream: Stream)
    returns (r: Result<Option<Request>, DecodeError>)
    requires buf.Valid() && HonestParser(parse)
    modifies buf
    ensures buf.Valid() && buf.data == old(buf.data)
    ensures match parse(old(buf.Pending()), MAX_HEADERS)
            case Malformed(e) => r == Err(FailedToParse(e)) && buf.cursor == old(buf.cursor)
            case Partial => r == Ok(None) && buf.cursor == old(buf.cursor)
            case Complete(k, head) =>
              && r == Ok(Some(Request(head, buf, stream)))
              && Parsed(head, MAX_HEADERS)
              && buf.cursor == old(buf.cursor) + k
              && buf.Pending() == old(buf.Pending())[k..]
  {
    var status := parse(buf.Pending(), MAX_HEADERS);
    match status
    case Malformed(e) =>
      return Err(FailedToParse(e));
    case Partial =>
      return Ok(None);
    case Complete(k, head) =>
      buf.Advance(k);
      return Ok(Some(Request(head, buf, stream)));
  }

  /** `method()`: the request method the parser found. */
  function Method(req: Request): (m: string)
    requires Parsed(req.head, MAX_HEADERS)
    ensures req.head.methodName == Some(m)
  {
    req.head.methodName.value
  }

  /** `path()`: the request target the parser found. */
  function Path(req: Request): (p: string)
    requires Parsed(req.head, MAX_HEADERS)
    ensures req.head.path == Some(p)
  {
    req.head.path.value
  }

  /** `version()`: the minor version of HTTP/1.x, 0 or 1. */
  function Version(req: Request): (v: byte)
    requires Parsed(req.head, MAX_HEADERS)
    ensures req.head.version == Some(v) && v <= 1
  {
    req.head.version.value
  }

  /** `headers()`: the parsed headers, at most `MAX_HEADERS` of them. */
  function Headers(req: Request): (hs: seq<Header>)
    requires Parsed(req.head, MAX_HEADERS)
    ensures hs == req.head.headers && |hs| <= MAX_HEADERS
  {
    req.head.headers
  }

  /** Why `content_length` panics: the value is not UTF-8, or not a
      decimal `usize`. */
  datatype LengthFault = NotUtf8 | NotUsize(kind: IntErrorKind)

  /** `str::from_utf8(value).unwrap().parse().unwrap()`. */
  function ParseLength(value: seq<byte>): (r: Result<nat, LengthFault>)
    ensures r.Ok? ==> r.value <= USIZE_MAX
  {
    if !ValidUtf8(value) then Err(NotUtf8)
    else match ParseUsize(value)
      case Ok(n) => Ok(n)
      case Err(kind) => Err(NotUsize(kind))
  }

  /** A Content-Length value is accepted exactly when it is an optional
      '+' and decimal digits whose value fits in a `usize`, and then that
      value is the length. */
  lemma ParseLengthAccepts(value: seq<byte>)
    ensures ParseLength(value).Ok? <==> IsDecimal(value) && DigitsValue(Unsigned(value)) <= USIZE_MAX
    ensures ParseLength(value).Ok? ==> ParseLength(value).value == DigitsValue(Unsigned(value))
  {
    ParseUsizeAccepts(value);
    if IsDecimal(value) {
      DecimalIsAscii(value);
      AsciiIsUtf8(value);
    }
  }

  /** '+' and digits are ASCII. */
  lemma DecimalIsAscii(s: seq<byte>)
    requires IsDecimal(s)
    ensures forall i :: 0 <= i < |s| ==> IsAsciiByte(s[i])
  {
    if s[0] == PLUS {
      assert forall i :: 1 <= i < |s| ==> s[i] == Unsigned(s)[i - 1];
    }
  }

  /** The Content-Length of a header list: the value of the first header
      whose name is "content-length" ignoring ASCII case, or 0 when there
      is none. */
  function ContentLengthOf(headers: seq<Header>): (r: Result<nat, LengthFault>)
    ensures r.Ok? ==> r.value <= USIZE_MAX
  {
    if headers == [] then Ok(0)
    else if EqIgnoreAsciiCase(headers[0].name, CONTENT_LENGTH) then ParseLength(headers[0].value)
    else ContentLengthOf(headers[1..])
  }

  /** The first matching header decides, whatever follows it. */
  lemma {:induction false} ContentLengthFirstMatch(headers: seq<Header>, i: nat)
    requires i < |headers| && EqIgnoreAsciiCase(headers[i].name, CONTENT_LENGTH)
    requires forall j :: 0 <= j < i ==> !EqIgnoreAsciiCase(headers[j].name, CONTENT_LENGTH)
    ensures ContentLengthOf(headers) == ParseLength(headers[i].value)
  {
    if i > 0 {
      ContentLengthFirstMatch(headers[1..], i - 1);
    }
  }

  /** Without a Content-Length header the body is empty. */
  lemma {:induction false} ContentLengthAbsent(headers: seq<Header>)
    requires forall j :: 0 <= j < |headers| ==> !EqIgnoreAsciiCase(headers[j].name, CONTENT_LENGTH)
    ensures ContentLengthOf(headers) == Ok(0)
  {
    if headers != [] {
      ContentLengthAbsent(headers[1..]);
    }
  }

  lemma ContentLengthIsLowercase()
    ensures ToAsciiLowercase(CONTENT_LENGTH) == CONTENT_LENGTH
  {
    var s := CONTENT_LENGTH;
    assert forall i :: 0 <= i < |s| ==> 'a' <= s[i] <= 'z' || s[i] == '-';
    LowercaseFixed(s);
  }

  /** A header name selects the Content-Length exactly when it lower-cases
      to "content-length". */
  lemma ContentLengthName(name: string)
    ensures EqIgnoreAsciiCase(name, CONTENT_LENGTH) <==> ToAsciiLowercase(name) == CONTENT_LENGTH
  {
    ContentLengthIsLowercase();
    MatchesLowercaseName(name, CONTENT_LENGTH);
  }

  /** `content_length`: scan the headers in order and parse the first
      Content-Length value. */
  method ContentLength(req: Request) returns (r: Result<nat, LengthFault>)
    ensures r == ContentLengthOf(req.head.headers)
  {
    var headers := req.head.headers;
    var i := 0;
    while i < |headers|
      invariant i <= |headers|
      invariant ContentLengthOf(headers[i..]) == ContentLengthOf(headers)
    {
      if EqIgnoreAsciiCase(headers[i].name, CONTENT_LENGTH) {
        var len := ParseLength(headers[i].value);
        return len;
      }
      i := i + 1;
    }
    return Ok(0);
  }

  /** `body()`: the request becomes a body reader over the same buffer and
      stream, with the Content-Length as its ceiling and nothing read yet.
      A Content-Length that does not parse is the panic of
      `content_length`. */
  method Body(req: Request) returns (r: Result<BodyReader, LengthFault>)
    requires req.buf.Valid()
    ensures ContentLengthOf(req.head.headers).Err? ==> r == Err(ContentLengthOf(req.head.headers).error)
    ensures ContentLengthOf(req.head.headers).Ok? ==>
              && r.Ok? && fresh(r.value) && r.value.Valid()
              && r.value.buf == req.buf && r.value.stream == req.stream
              && r.value.bodyLimit == ContentLengthOf(req.head.headers).value
              && r.value.totalRead == 0 && r.value.origin == req.buf.cursor
  {
    var len := ContentLength(req);
    if len.Err? {
      return Err(len.error);
    }
    var reader := new BodyReader(req.buf, req.stream, len.value);
    return Ok(reader);
  }

  /** "GET /hello HTTP/1.1\r\nHost: x\r\nContent-Length: 5\r\n\r\n" */
  const SAMPLE_HEAD: seq<byte> :=
    [0x47, 0x45, 0x54, 0x20, 0x2F, 0x68, 0x65, 0x6C, 0x6C, 0x6F, 0x20, 0x48, 0x54, 0x54, 0x50, 0x2F,
     0x31, 0x2E, 0x31, 0x0D, 0x0A, 0x48, 0x6F, 0x73, 0x74, 0x3A, 0x20, 0x78, 0x0D, 0x0A, 0x43, 0x6F,
     0x6E, 0x74, 0x65, 0x6E, 0x74, 0x2D, 0x4C, 0x65, 0x6E, 0x67, 0x74, 0x68, 0x3A, 0x20, 0x35, 0x0D,
     0x0A, 0x0D, 0x0A]

  /** "hello" */
  const SAMPLE_BODY: seq<byte> := [0x68, 0x65, 0x6C, 0x6C, 0x6F]

  /** The head `SAMPLE_HEAD` parses to. */
  const SAMPLE: Head := Head(Some("GET"), Some("/hello"), Some(1),
                             [Header("Host", [0x78]), Header("Content-Length", [0x35])])

  /** A parser that knows one request head: enough for `SampleExchange`
      to call `Decode` on the sample head. */
  function SampleParser(input: seq<byte>, slots: nat): ParseStatus
  {
    var head := SAMPLE_HEAD;
    if slots < 2 then Malformed(TooManyHeaders)
    else if |input| < |head| then Partial
    else if input[..|head|] == head then Complete(|head|, SAMPLE)
    else Malformed(Token)
  }

  lemma SampleParserHonest()
    ensures HonestParser(SampleParser)
  {
  }

  /** "Content-Length" is matched by `eq_ignore_ascii_case`. */
  lemma MixedCaseMatches()
    ensures EqIgnoreAsciiCase("Content-Length", CONTENT_LENGTH)
  {
    var a, b := "Content-Length", CONTENT_LENGTH;
    assert LowerChar(a[0]) == b[0];
    assert LowerChar(a[8]) == b[8];
    assert forall i :: 0 <= i < |a| ==> LowerChar(a[i]) == LowerChar(b[i]);
    EqIgnoreAsciiCaseIndexwise(a, b);
  }

  /** The sample head's headers give a Content-Length of 5. */
  lemma SampleContentLength()
    ensures ContentLengthOf(SAMPLE.headers) == Ok(5)
  {
    var hs := SAMPLE.headers;
    assert |hs[0].name| != |CONTENT_LENGTH|;
    assert ContentLengthOf(hs) == ContentLengthOf(hs[1..]);
    assert hs[1..][0] == Header("Content-Length", [0x35]);
    MixedCaseMatches();
    FiveParses();
  }

  lemma FiveParses()
    ensures ParseLength([0x35]) == Ok(5)
  {
    AsciiIsUtf8([0x35]);
    assert ParseUsize([0x35]) == Accumulate([0x35], 0);
    assert DigitValue(0x35) == 5;
    assert [0x35][1..] == [];
  }

  /** One request with a five-byte body, fed in one piece: decode finds
      GET /hello over HTTP/1.1; the body reader hands out "hello" to a
      ten-byte read, and the next read gives 0. */
  method SampleExchange() returns (m: string, p: string, v: byte, hs: seq<Header>,
                                   first: Result<nat, IoError>, body: seq<byte>, second: Result<nat, IoError>)
    ensures m == "GET" && p == "/hello" && v == 1 && Header("Content-Length", [0x35]) in hs
    ensures first == Ok(5) && body == SAMPLE_BODY && second == Ok(0)
  {
    var buf := new ReqBuf(SAMPLE_HEAD + SAMPLE_BODY);
    var stream := new Stream([]);
    assert (SAMPLE_HEAD + SAMPLE_BODY)[..|SAMPLE_HEAD|] == SAMPLE_HEAD;
    SampleParserHonest();
    var decoded := Decode(SampleParser, buf, stream);
    assert decoded == Ok(Some(Request(SAMPLE, buf, stream)));
    assert buf.Pending() == SAMPLE_BODY;
    var req := decoded.value.value;
    m, p, v, hs := Method(req), Path(req), Version(req), Headers(req);
    assert hs[1] == Header("Content-Length", [0x35]);
    SampleContentLength();
    var reader := Body(req);
    var br := reader.value;
    var dest := new byte[10];
    first := br.Read(dest);
    body := dest[..5];
    PeekEmptyOnlyAtEnd(buf.Pending(), stream.events, br.Remain());
    second := br.Read(dest);
  }
}
