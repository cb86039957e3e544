# may_minihttp request framing, in Dafny

This project models `src/request.rs` of may_minihttp. That file frames one
HTTP/1.x request on top of a connection's reusable byte buffer
(a `BytesMut`) and its input stream. It has two parts:

- `decode` runs the header parser (httparse) over the buffer's unread bytes
  with `MAX_HEADERS = 16` header slots.
  - A complete head of `k` bytes moves the read cursor past exactly those
    `k` bytes and yields a `Request`.
  - A partial head yields `None`.
  - A grammar error yields an `io::Error`.
  - The cursor moves only in the first case.
- A `Request` exposes `method`, `path`, `version` and `headers`. Its `body()`
  turns it into a `BodyReader`.
  - The reader's ceiling `body_limit` is the value of the first header
    named "content-length", matched ASCII case-insensitively as in section
    5.1 of RFC 9110, or 0 when there is none. The field itself is defined in
    section 8.6 of RFC 9110.
  - The reader hands out at most `body_limit` bytes through `read` and
    through `fill_buf`/`consume`. It refills the shared buffer from the
    stream when the buffer runs dry.
  - When dropped, the reader drains whatever the caller left unread. The
    buffer is then positioned at the next request: fixed-length framing as
    in section 6.3 of RFC 9112.

The files:

- `wrappers.dfy`: `Option`, `Result`, and `Outcome` (pass or fail).
- `ascii.dfy`: bytes, `to_ascii_lowercase` and `eq_ignore_ascii_case`.
- `usize_parse.dfy`: `<usize as FromStr>::from_str` for a 64-bit `usize`.
  It accepts an optional `+` and then digits; it fails with `Empty`,
  `InvalidDigit` or `PosOverflow`.
- `utf8.dfy`: the acceptance test of `str::from_utf8`, which is the
  well-formed sequences of section 4 of RFC 3629.
- `buffer.dfy`: the two collaborators.
  - `ReqBuf` is the `BytesMut`: every byte appended so far, plus a cursor
    that separates consumed bytes from pending ones.
  - `Stream` is the input stream, as the list of deliveries it has yet to
    make. A delivery is some bytes (none means end of data) or a failure.
    An exhausted list means end of data for good.
- `body_reader.dfy`: the `BodyReader` class, and two specification
  functions that its methods are proved against.
  - `Peek` is the effect of one `fill_buf`.
  - `Drain` is the effect of the drain loop in `drop`.
  - The lemmas say what the drain consumes and what it leaves behind.
- `request.dfy`: `decode`, the accessors, `content_length` and `body`, and
  the sample exchange of one request with a five-byte body.

The reader's ghost field `origin` records the buffer cursor at the moment
the reader was made. The reader's invariant `Valid()` says the cursor is
always `origin + total_read` and that `total_read <= body_limit`. That is
the lock-step of `total_read` and the cursor.

A panic is modelled as an error value, with nothing changed. This covers
the `unwrap`s of `content_length` and the `assert!`s of `consume`.

The header parser is a function parameter. Its guarantees are the
predicate `HonestParser`:

- a complete head lies within the bytes the parser was given;
- it carries a method, a path and version 0 or 1;
- it has no more headers than there were slots.

The loop in `drop` is written as two methods:

- `DrainTurn` is one turn of the loop: `fill_buf`, then `consume` of the
  whole view.
- `DrainLoop` repeats that turn until the view is empty or the stream
  fails.

`Drop` runs `DrainLoop`, and its contract adds what the drain means for
framing.

## Model

| member | source | states |
|---|---|---|
| Ascii.EqIgnoreAsciiCase | src/request.rs:133 | `eq_ignore_ascii_case` holds only between names of equal length, and every name matches itself |
| Ascii.EqIgnoreAsciiCaseIff | src/request.rs:133 | comparing header names ignoring ASCII case is the same as lower-casing both and comparing exactly |
| Ascii.EqIgnoreAsciiCaseIndexwise | src/request.rs:133 | the names have equal length and agree position by position after ASCII lower-casing, in both directions |
| Ascii.MatchesLowercaseName | src/request.rs:133 | against a lower-case name, a header name matches exactly when it lower-cases to that name |
| UsizeParse.ParseUsize | src/request.rs:134 | a successful parse of the Content-Length text never exceeds `usize::MAX` |
| UsizeParse.Accumulate | src/request.rs:134 | the digit loop succeeds only with a value between its starting value and `usize::MAX` |
| UsizeParse.Decimal | src/request.rs:134 | the decimal text of a number is non-empty, all digits, denotes that number, and has no leading zero unless the number is 0 |
| UsizeParse.AccumulateValue | src/request.rs:134 | the digit loop succeeds exactly when the rest are digits and the whole number fits, and then yields the whole number |
| UsizeParse.ParseUsizeAccepts | src/request.rs:134 | the parse succeeds exactly on an optional '+' followed by decimal digits whose value fits in 64 bits, and returns that value |
| UsizeParse.DecimalRoundTrip | src/request.rs:134 | printing a number that fits and parsing it back, with or without a leading '+', gives the number |
| UsizeParse.ParseUsizeOverflow | src/request.rs:134 | a number beyond `usize::MAX` is refused with `PosOverflow`, not wrapped |
| UsizeParse.AccumulateOverflow | src/request.rs:134 | on an all-digit text the only possible failure is overflow |
| Utf8.ValidUtf8 | src/request.rs:134 | text that passes `str::from_utf8` never contains the octets C0, C1 or F5 to FF, and never starts with a continuation byte |
| Utf8.AsciiIsUtf8 | src/request.rs:134 | ASCII bytes pass `str::from_utf8` |
| ByteStream.Stream.Read | src/request.rs:29 | one `read` delivers the next chunk, or the stream's error, and moves to the following delivery |
| ByteStream.ReqBuf.Pending | src/request.rs:67 | `chunk()` is the unread tail: the consumed prefix followed by it is all the buffered data |
| ByteStream.ReqBuf.IsEmpty | src/request.rs:43 | the buffer is empty exactly when nothing is pending |
| ByteStream.ReqBuf.Advance | src/request.rs:74 | `advance(n)` consumes exactly the first `n` pending bytes and keeps the data |
| ByteStream.ReqBuf.Append | src/request.rs:27-31 | a stream read into spare capacity appends the chunk to the pending bytes and leaves the cursor alone |
| ByteStream.ReqBuf.CopyTo | src/request.rs:45 | the buffer's reader copies `min(len, pending)` bytes into the destination, consumes exactly those, and leaves the rest of the destination alone |
| BodyReading.Peek | src/request.rs:58-68 | the view `fill_buf` returns is the first `min(remain, available)` pending bytes; with bytes pending or no allowance left it leaves the stream alone and appends nothing |
| BodyReading.PeekEmptyOnlyAtEnd | src/request.rs:58-68 | the view is empty exactly when the allowance is used up (and then nothing is touched), or when the buffer is empty and the stream is at end of data |
| BodyReading.PeekKeepsSupply | src/request.rs:63-67 | a refill loses none of the bytes the stream would still deliver |
| BodyReading.Drain | src/request.rs:80-87 | the `while let` loop of `drop` never consumes more than the remaining allowance |
| BodyReading.DrainConsumesBody | src/request.rs:78-88 | the drain consumes exactly the first `min(remain, available)` bytes of buffer then stream; stopping short of the allowance leaves the buffer empty; reaching it loses nothing from the stream |
| BodyReading.DrainTakesFromBuffer | src/request.rs:78-88 | every byte the drain consumes was in the buffer |
| BodyReading.DrainLeavesRest | src/request.rs:78-88 | a drain that reaches the allowance leaves the bytes after the body, in the buffer and in the stream, exactly as they were |
| BodyReading.DrainEffect | src/request.rs:78-88 | how far the drain moves the cursor and what it leaves pending, stated for the buffer's data and cursor |
| BodyReading.DrainAtCeiling | src/request.rs:60-62 | a drain with no allowance left consumes nothing and leaves the stream alone |
| BodyReading.DrainStopsAtEnd | src/request.rs:80-83 | a drain whose first `fill_buf` gives nothing or fails consumes nothing, and then the stream had nothing more before its end |
| BodyReading.DrainStep | src/request.rs:80-86 | one non-empty `fill_buf` followed by `consume` of the whole view, then the drain from the new state, is the drain |
| BodyReading.BodyReader.constructor | src/request.rs:122-127 | a new reader has read nothing, keeps the given ceiling, and satisfies the lock-step invariant |
| BodyReading.BodyReader.Remain | src/request.rs:59 | `body_limit - total_read` is the allowance left, and it is 0 exactly when the ceiling is reached |
| BodyReading.BodyReader.ReadMoreData | src/request.rs:26-32 | appends exactly the bytes the stream delivered and returns their count, or returns the stream's error with the buffer unchanged |
| BodyReading.BodyReader.Read | src/request.rs:37-55 | hands out `min(dest.len, view)` bytes of the `fill_buf` view into `dest`; `total_read` and the cursor move by that count; refills only when the buffer is empty; returns 0 when the ceiling is reached or the stream is at end; passes on the stream's error with nothing consumed |
| BodyReading.BodyReader.FillBuf | src/request.rs:58-68 | returns the `Peek` view and appends what it fetched; `total_read` and the cursor do not move |
| BodyReading.BodyReader.Consume | src/request.rs:70-75 | fails (first on the allowance, then on the pending bytes) with nothing changed when `amt` is too large; otherwise `total_read` and the cursor both move by exactly `amt` |
| BodyReading.BodyReader.DrainTurn | src/request.rs:80-86 | one turn of the drain loop is the first step of `Drain`, and strictly advances `total_read` when it goes on |
| BodyReading.BodyReader.DrainLoop | src/request.rs:80-86 | the loop terminates and has exactly the effect `Drain` describes |
| BodyReading.BodyReader.Drop | src/request.rs:78-88 | consumes `min(allowance, available)` bytes without passing the ceiling; ends with an empty buffer when short of the ceiling; at the ceiling, the buffer's pending bytes followed by the stream's remaining bytes are exactly what followed the body |
| HttpRequest.Decode | src/request.rs:148-178 | a parser error gives an error and a partial head gives `None`, both with the cursor unchanged; a complete head of `k` bytes moves the cursor by exactly `k` and yields a fully parsed request with at most `MAX_HEADERS` headers |
| HttpRequest.Method | src/request.rs:105-107 | on a decoded request the `unwrap` cannot fail; the result is the method the parser found |
| HttpRequest.Path | src/request.rs:109-111 | on a decoded request the `unwrap` cannot fail; the result is the path the parser found |
| HttpRequest.Version | src/request.rs:113-115 | on a decoded request the `unwrap` cannot fail; the result is the minor version, 0 or 1 |
| HttpRequest.Headers | src/request.rs:117-119 | the parsed headers, at most `MAX_HEADERS` of them |
| HttpRequest.ParseLength | src/request.rs:134 | a Content-Length value that parses fits in a `usize` |
| HttpRequest.ParseLengthAccepts | src/request.rs:134 | a value is accepted exactly when it is an optional '+' and decimal digits that fit in a `usize`, and then the length is their value |
| HttpRequest.ContentLengthOf | src/request.rs:130-139 | the Content-Length of a header list never exceeds `usize::MAX` |
| HttpRequest.ContentLengthFirstMatch | src/request.rs:132-136 | the first header whose name matches decides the length, whatever follows it |
| HttpRequest.ContentLengthAbsent | src/request.rs:130-139 | without a matching header the length is 0 |
| HttpRequest.ContentLengthName | src/request.rs:133 | a header name selects the field exactly when it lower-cases to "content-length" |
| HttpRequest.ContentLength | src/request.rs:130-139 | the scan in header order returns the specification `ContentLengthOf`: the first match's value, an error where the source panics, or 0 |
| HttpRequest.Body | src/request.rs:121-128 | a new reader over the same buffer and stream, with ceiling = Content-Length and nothing read; an unparsable Content-Length is an error |
| HttpRequest.SampleContentLength | src/request.rs:130-139 | the headers "Host: x" and "Content-Length: 5" give a length of 5 |
| HttpRequest.SampleExchange | src/request.rs:37-55 | "GET /hello HTTP/1.1" with Content-Length 5 and body "hello", in one piece: method GET, path /hello, version 1, the Content-Length header present; a ten-byte read gives 5 bytes "hello", and the next read gives 0 |

## Left out

- The httparse grammar (`parse_with_uninit_headers`) is not part of this model.
  - The parser is a function parameter, constrained only by `HonestParser`.
  - So the property that feeding a head in several pieces parses the same as feeding it whole is not stated: it is a property of the parser alone.
- `crate::http_server::reserve_buf` and `err` are not part of this model.
  - The buffer always has room for a whole stream delivery.
  - A parse failure is returned as `DecodeError` without the message text.
- The `transmute` and `MaybeUninit` workarounds have no behaviour and are not modelled. Views are returned as byte sequences, not borrowed slices.
- `fmt::Debug` and the `eprintln!` diagnostics are left out: they are output only.
- Concrete I/O, the coroutine runtime and `io::ErrorKind` are left out.
  - A stream failure is the single value `StreamError`.
  - One `read` delivers one scripted chunk in full, whatever the size of the spare capacity.
- BodyReading.BodyReader.Drop: Rust runs `drop` implicitly when the reader goes out of scope. Here a caller calls it explicitly.
- HttpRequest.Body: the move of the `Request` into the reader is not enforced. Dafny does not stop a caller from using the request value afterwards.
- HttpRequest.ContentLength: a panic of `unwrap` is modelled as an `Err` result (`NotUtf8` or `NotUsize`). The source panics instead, which unwinds the coroutine serving the connection.
- BodyReading.BodyReader.Consume: a failing `assert!` is modelled as a `Fail` outcome with nothing changed. The source panics instead.
- `usize` is taken as 64 bits wide. `total_read + amt` cannot overflow, because `amt` never exceeds `body_limit - total_read`.
- `drop` ends silently on a stream error (`while let Ok(..)`); the error is not reported.
- A malformed Content-Length panics inside `content_length`; `body` has no structured error for it.
- A Content-Length with a leading '+' is accepted. That is how Rust's `usize` parse behaves, although section 8.6 of RFC 9110 allows only digits.
- Chunked transfer coding is not implemented by the source and is not modelled.
