/** The two collaborators the request code borrows: the connection's
    reusable byte buffer (a `BytesMut`) and the raw input stream. */
module ByteStream {
  import opened Ascii
  import opened Wrappers

  /** A failed `read` on the stream. */
  datatype IoError = StreamError

  /** What one `read` call on the stream delivers: some bytes (none means
      end of data) or a failure. */
  datatype Event = Data(bytes: seq<byte>) | Failure

  /** One `read` on a stream whose future deliveries are `events`: the
      outcome and the events left. A stream with nothing left is at end of
      data and stays there. */
  function Pull(events: seq<Event>): (Result<seq<byte>, IoError>, seq<Event>)
  {
    if events == [] then (Ok([]), [])
    else match events[0]
      case Data(c) => (Ok(c), events[1..])
      case Failure => (Err(StreamError), events[1..])
  }

  /** The bytes the stream still delivers before it reports end of data or
      fails. */
  function Supply(events: seq<Event>): seq<byte>
  {
    if events == [] then []
    else match events[0]
      case Data(c) => if c == [] then [] else c + Supply(events[1..])
      case Failure => []
  }

  /** The raw input stream, as the deliveries it has yet to make. */
  class Stream {
    var events: seq<Event>

    constructor (events: seq<Event>)
      ensures this.events == events
    {
      this.events := events;
    }

    /** `Read::read` into buffer capacity that is always large enough. */
    method Read() returns (r: Result<seq<byte>, IoError>)
      modifies this
      ensures (r, events) == Pull(old(events))
    {
      r, events := Pull(events).0, Pull(events).1;
    }
  }

  /** The shared request buffer. `data` holds every byte appended so far
      and `cursor` separates the consumed bytes from the pending ones, so a
      (start, length) view issued before an advance keeps naming the same
      bytes afterwards. */
  class ReqBuf {
    var data: seq<byte>
    var cursor: nat

    ghost predicate Valid()
      reads this
    {
      cursor <= |data|
    }

    /** `chunk()`: the unread bytes. */
    function Pending(): (p: seq<byte>)
      reads this
      requires Valid()
      ensures |p| == |data| - cursor && data == data[..cursor] + p
    {
      data[cursor..]
    }

    function IsEmpty(): (b: bool)
      reads this
      requires Valid()
      ensures b <==> Pending() == []
    {
      cursor == |data|
    }

    constructor (initial: seq<byte>)
      ensures Valid() && data == initial && cursor == 0
    {
      data, cursor := initial, 0;
    }

    /** `advance(n)`: consume `n` pending bytes. */
    method Advance(n: nat)
      requires Valid() && n <= |Pending()|
      modifies this
      ensures Valid() && data == old(data) && cursor == old(cursor) + n
      ensures Pending() == old(Pending())[n..]
    {
      cursor := cursor + n;
    }

    /** `advance_mut(n)` after the stream wrote `chunk` into spare capacity. */
    method Append(chunk: seq<byte>)
      requires Valid()
      modifies this
      ensures Valid() && data == old(data) + chunk && cursor == old(cursor)
      ensures Pending() == old(Pending()) + chunk
    {
      data := data + chunk;
    }

    /** `reader().read(&mut dest[..len])`: copy as many pending bytes as fit
        in the first `len` slots of `dest` and consume them. */
    method CopyTo(dest: array<byte>, len: nat) returns (n: nat)
      requires Valid() && len <= dest.Length
      modifies this, dest
      ensures Valid() && data == old(data)
      ensures n == Min(len, |old(Pending())|) && cursor == old(cursor) + n
      ensures dest[..n] == old(Pending())[..n] && dest[n..] == old(dest[n..])
    {
      n := Min(len, |data| - cursor);
      forall i | 0 <= i < n {
        dest[i] := data[cursor + i];
      }
      cursor := cursor + n;
    }
  }
}
