/** The bounded body reader of src/request.rs: reads at most `body_limit`
    bytes out of the shared buffer, refilling it from the stream, and on
    release drains whatever the caller left so the buffer is positioned at
    the next request (fixed-length framing, section 6.3 of RFC 9112). */
module BodyReading {
  import opened Ascii
  import opened Wrappers
  import opened ByteStream
  import opened UsizeParse

  /** The `assert!`s of `consume`, in source order. */
  datatype Fault = AllowanceExceeded | PendingExceeded

  /** The effect of `fill_buf`: the view it returns (or the stream's
      error), the bytes it appended to the buffer and the stream's events
      afterwards. */
  datatype Fill = Fill(view: Result<seq<byte>, IoError>, appended: seq<byte>, events: seq<Event>)

  /** `fill_buf` on pending bytes `pending`, a stream with `events` to come
      and an allowance `remain` (= body_limit - total_read). */
  function Peek(pending: seq<byte>, events: seq<Event>, remain: nat): (f: Fill)
    ensures (pending != [] || remain == 0) ==> f.appended == [] && f.events == events
    ensures f.view.Ok? ==> f.view.value == (pending + f.appended)[..Min(remain, |pending + f.appended|)]
  {
    if remain == 0 then Fill(Ok([]), [], events)
    else if pending != [] then Fill(Ok(pending[..Min(|pending|, remain)]), [], events)
    else
      match Pull(events).0
      case Err(e) => Fill(Err(e), [], Pull(events).1)
      case Ok(c) => Fill(Ok(c[..Min(|c|, remain)]), c, Pull(events).1)
  }

  /** `fill_buf` returns an empty view exactly when the allowance is used up
      (and then touches nothing) or the buffer is empty and the stream is at
      end of data. */
  lemma PeekEmptyOnlyAtEnd(pending: seq<byte>, events: seq<Event>, remain: nat)
    ensures remain == 0 ==> Peek(pending, events, remain) == Fill(Ok([]), [], events)
    ensures Peek(pending, events, remain).view == Ok([]) <==>
              remain == 0 || (pending == [] && Pull(events).0 == Ok([]))
  {
  }

  /** What a `fill_buf` that returned a non-empty view leaves in place:
      no byte the stream was going to deliver before its end is lost. */
  lemma PeekKeepsSupply(pending: seq<byte>, events: seq<Event>, remain: nat)
    requires Peek(pending, events, remain).view.Ok? && Peek(pending, events, remain).view.value != []
    ensures var f := Peek(pending, events, remain);
            f.appended + Supply(f.events) == Supply(events)
  {
    if pending == [] {
      var c := Pull(events).0.value;
      assert c != [];
    }
  }

  /** The effect of the drain in `drop`: the bytes it consumed, the bytes
      it appended to the buffer and the stream's events afterwards. */
  datatype Drained = Drained(taken: seq<byte>, appended: seq<byte>, events: seq<Event>)

  /** The drain loop of `drop`: `fill_buf`, then `consume` the whole view,
      until the view is empty or the stream fails. */
  function Drain(pending: seq<byte>, events: seq<Event>, remain: nat): (d: Drained)
    decreases remain
    ensures |d.taken| <= remain
  {
    var f := Peek(pending, events, remain);
    if f.view.Err? || f.view.value == [] then Drained([], f.appended, f.events)
    else
      var v := f.view.value;
      var p := pending + f.appended;
      var d := Drain(p[|v|..], f.events, remain - |v|);
      Drained(v + d.taken, f.appended + d.appended, d.events)
  }

  /** Taking the first `m` bytes and then the first `r - m` of the rest is
      taking the first `r`. */
  lemma TakeInTwo(p: seq<byte>, s: seq<byte>, m: nat, r: nat)
    requires m <= |p| && m <= r
    ensures p[..m] + (p[m..] + s)[..Min(r - m, |p[m..] + s|)] == (p + s)[..Min(r, |p + s|)]
  {
    assert p[m..] + s == (p + s)[m..];
    var k := Min(r, |p + s|);
    assert (p + s)[..k] == (p + s)[..m] + (p + s)[m..][..k - m];
    assert (p + s)[..m] == p[..m];
  }

  /** The drain consumes exactly the first `min(remain, available)` bytes of
      what is buffered followed by what the stream still delivers; when it
      stops short of the allowance it has emptied the buffer, and when it
      reaches the allowance nothing the stream delivered is lost. */
  lemma {:induction false} DrainConsumesBody(pending: seq<byte>, events: seq<Event>, remain: nat)
    ensures var d := Drain(pending, events, remain);
            var avail := pending + Supply(events);
            && d.taken == avail[..Min(remain, |avail|)]
            && (|d.taken| < remain ==> pending + d.appended == d.taken)
            && (|d.taken| == remain ==> d.appended + Supply(d.events) == Supply(events))
    decreases remain
  {
    var f := Peek(pending, events, remain);
    if f.view.Err? || f.view.value == [] {
      DrainStopsAtEnd(pending, events, remain);
    } else {
      var v := f.view.value;
      var p := pending + f.appended;
      var d' := Drain(p[|v|..], f.events, remain - |v|);
      assert Drain(pending, events, remain) == Drained(v + d'.taken, f.appended + d'.appended, d'.events);
      PeekKeepsSupply(pending, events, remain);
      DrainConsumesBody(p[|v|..], f.events, remain - |v|);
      DrainStepCombines(pending, f.appended, Supply(events), Supply(f.events), v,
                        d'.taken, d'.appended, Supply(d'.events), remain);
    }
  }

  /** The sequence algebra of one drain iteration: the view `v` followed
      by what the rest of the drain takes. */
  lemma DrainStepCombines(pending: seq<byte>, fetched: seq<byte>, supply: seq<byte>, supply': seq<byte>,
                          v: seq<byte>, t: seq<byte>, a: seq<byte>, supply'': seq<byte>, remain: nat)
    requires 0 < |v| <= remain && |v| <= |pending + fetched| && v == (pending + fetched)[..|v|]
    requires fetched + supply' == supply
    requires var rest := (pending + fetched)[|v|..];
             && t == (rest + supply')[..Min(remain - |v|, |rest + supply'|)]
             && (|t| < remain - |v| ==> rest + a == t)
             && (|t| == remain - |v| ==> a + supply'' == supply')
    ensures var avail := pending + supply;
            && v + t == avail[..Min(remain, |avail|)]
            && (|v + t| < remain ==> pending + (fetched + a) == v + t)
            && (|v + t| == remain ==> (fetched + a) + supply'' == supply)
  {
    var p := pending + fetched;
    TakeInTwo(p, supply', |v|, remain);
    assert p + supply' == pending + supply;
    assert p == v + p[|v|..];
  }

  /** A drain whose first `fill_buf` gives nothing consumes nothing, and
      then the stream had nothing more to give. */
  lemma DrainStopsAtEnd(pending: seq<byte>, events: seq<Event>, remain: nat)
    requires var f := Peek(pending, events, remain); f.view.Err? || f.view.value == []
    ensures var d := Drain(pending, events, remain);
            var avail := pending + Supply(events);
            && d.taken == [] == avail[..Min(remain, |avail|)]
            && (0 < remain ==> pending + d.appended == [])
            && (0 == remain ==> d.appended + Supply(d.events) == Supply(events))
  {
    if remain > 0 {
      assert pending == [];
      assert Supply(events) == [];
    }
  }

  /** The drain only consumes bytes that were in the buffer. */
  lemma {:induction false} DrainTakesFromBuffer(pending: seq<byte>, events: seq<Event>, remain: nat)
    ensures var d := Drain(pending, events, remain);
            |d.taken| <= |pending + d.appended| && d.taken == (pending + d.appended)[..|d.taken|]
    decreases remain
  {
    var f := Peek(pending, events, remain);
    if f.view.Ok? && f.view.value != [] {
      var v := f.view.value;
      var p := pending + f.appended;
      var d := Drain(p[|v|..], f.events, remain - |v|);
      assert Drain(pending, events, remain) == Drained(v + d.taken, f.appended + d.appended, d.events);
      DrainTakesFromBuffer(p[|v|..], f.events, remain - |v|);
      PrefixStep(pending, f.appended, v, d.taken, d.appended);
    }
  }

  /** The sequence algebra of one step of `DrainTakesFromBuffer`. */
  lemma PrefixStep(pending: seq<byte>, fetched: seq<byte>, v: seq<byte>, t: seq<byte>, a: seq<byte>)
    requires |v| <= |pending + fetched| && v == (pending + fetched)[..|v|]
    requires var rest := (pending + fetched)[|v|..]; |t| <= |rest + a| && t == (rest + a)[..|t|]
    ensures |v + t| <= |pending + (fetched + a)| && v + t == (pending + (fetched + a))[..|v + t|]
  {
    var p := pending + fetched;
    assert pending + (fetched + a) == p + a;
    assert p + a == v + (p[|v|..] + a);
  }

  /** Fixed-length framing: a drain that reaches the allowance leaves the
      bytes that follow the body, partly in the buffer and partly still in
      the stream, exactly as they were. */
  lemma DrainLeavesRest(pending: seq<byte>, events: seq<Event>, remain: nat)
    ensures var d := Drain(pending, events, remain);
            |d.taken| == remain ==>
              && remain <= |pending + d.appended|
              && remain <= |pending + Supply(events)|
              && (pending + d.appended)[remain..] + Supply(d.events) == (pending + Supply(events))[remain..]
  {
    var d := Drain(pending, events, remain);
    DrainConsumesBody(pending, events, remain);
    DrainTakesFromBuffer(pending, events, remain);
    if |d.taken| == remain {
      RestAfter(pending, d.appended, Supply(d.events), Supply(events), remain);
    }
  }

  lemma RestAfter(pending: seq<byte>, a: seq<byte>, s': seq<byte>, s: seq<byte>, k: nat)
    requires a + s' == s && k <= |pending + a|
    ensures k <= |pending + s| && (pending + a)[k..] + s' == (pending + s)[k..]
  {
    assert (pending + a) + s' == pending + s;
  }

  /** A reader whose allowance is used up drains nothing and leaves the
      stream alone. */
  lemma DrainAtCeiling(pending: seq<byte>, events: seq<Event>)
    ensures Drain(pending, events, 0) == Drained([], [], events)
  {
    PeekEmptyOnlyAtEnd(pending, events, 0);
  }

  /** A drain step `taken`/`appended` followed by the drain `d`. */
  function Glue(taken: seq<byte>, appended: seq<byte>, d: Drained): Drained
  {
    Drained(taken + d.taken, appended + d.appended, d.events)
  }

  /** One `fill_buf` that gives a non-empty view `v`, then `consume(|v|)`,
      then the rest of the drain from the new state. */
  lemma DrainStep(pending: seq<byte>, events: seq<Event>, remain: nat,
                  v: seq<byte>, fetched: seq<byte>,
                  pending': seq<byte>, events': seq<Event>, remain': nat)
    requires Peek(pending, events, remain) == Fill(Ok(v), fetched, events') && v != []
    requires |v| <= |pending + fetched| && pending' == (pending + fetched)[|v|..]
    requires |v| <= remain && remain' == remain - |v|
    ensures Drain(pending, events, remain) == Glue(v, fetched, Drain(pending', events', remain'))
  {
  }

  /** The pending bytes of a buffer that was appended to and advanced. */
  lemma PendingAfter(data: seq<byte>, cursor: nat, appended: seq<byte>, k: nat)
    requires cursor <= |data| && cursor + k <= |data + appended|
    ensures (data + appended)[cursor + k..] == (data[cursor..] + appended)[k..]
  {
    assert (data + appended)[cursor..] == data[cursor..] + appended;
  }

  lemma ConcatAssociates(a: seq<byte>, b: seq<byte>, c: seq<byte>)
    ensures (a + b) + c == a + (b + c)
  {
  }

  /** What the drain does to a buffer holding `data` with its cursor at
      `cursor`: how far the cursor moves and what is left pending. */
  lemma DrainEffect(data: seq<byte>, cursor: nat, events: seq<Event>, remain: nat, d: Drained)
    requires cursor <= |data| && d == Drain(data[cursor..], events, remain)
    ensures var avail := data[cursor..] + Supply(events);
            && |d.taken| == Min(remain, |avail|)
            && cursor + |d.taken| <= |data + d.appended|
            && (|d.taken| < remain ==> (data + d.appended)[cursor + |d.taken|..] == [])
            && (|d.taken| == remain ==>
                  (data + d.appended)[cursor + |d.taken|..] + Supply(d.events) == avail[remain..])
  {
    DrainConsumesBody(data[cursor..], events, remain);
    DrainTakesFromBuffer(data[cursor..], events, remain);
    DrainLeavesRest(data[cursor..], events, remain);
    PendingAfter(data, cursor, d.appended, |d.taken|);
  }

  lemma GlueAssociates(t: seq<byte>, a: seq<byte>, t': seq<byte>, a': seq<byte>, d: Drained)
    ensures Glue(t, a, Glue(t', a', d)) == Glue(t + t', a + a', d)
  {
    assert t + (t' + d.taken) == (t + t') + d.taken;
    assert a + (a' + d.appended) == (a + a') + d.appended;
  }

  /** The body reader: the shared buffer and the stream it borrows, the
      ceiling taken from Content-Length and the count of body bytes handed
      out so far. */
  class BodyReader {
    const buf: ReqBuf
    const stream: Stream
    const bodyLimit: nat
    var totalRead: nat
    /** The buffer's cursor when the reader was made: every body byte
        consumed since then moved the cursor by one. */
    ghost const origin: nat

    ghost predicate Valid()
      reads this, buf
    {
      && buf.Valid()
      && totalRead <= bodyLimit <= USIZE_MAX
      && buf.cursor == origin + totalRead
    }

    /** `body_limit - total_read`. */
    function Remain(): (r: nat)
      reads this
      requires totalRead <= bodyLimit
      ensures totalRead + r == bodyLimit && (r == 0 <==> totalRead == bodyLimit)
    {
      bodyLimit - totalRead
    }

    constructor (buf: ReqBuf, stream: Stream, bodyLimit: nat)
      requires buf.Valid() && bodyLimit <= USIZE_MAX
      ensures Valid()
      ensures this.buf == buf && this.stream == stream && this.bodyLimit == bodyLimit
      ensures totalRead == 0 && origin == buf.cursor
    {
      this.buf, this.stream, this.bodyLimit := buf, stream, bodyLimit;
      totalRead := 0;
      origin := buf.cursor;
    }

    /** `read_more_data`: one stream read appended to the buffer. */
    method ReadMoreData() returns (r: Result<nat, IoError>)
      requires Valid()
      modifies buf, stream
      ensures Valid() && buf.cursor == old(buf.cursor)
      ensures stream.events == Pull(old(stream.events)).1
      ensures match Pull(old(stream.events)).0
              case Ok(c) => r == Ok(|c|) && buf.data == old(buf.data) + c
              case Err(e) => r == Err(e) && buf.data == old(buf.data)
    {
      var chunk := stream.Read();
      match chunk
      case Ok(c) =>
        buf.Append(c);
        r := Ok(|c|);
      case Err(e) =>
        r := Err(e);
    }

    /** `Read::read`: at most `dest.Length` body bytes, refilling the buffer
        from the stream when it is empty. It is `fill_buf` followed by
        `consume` of as much of the view as fits in `dest`. */
    method Read(dest: array<byte>) returns (r: Result<nat, IoError>)
      requires Valid()
      modifies this, buf, stream, dest
      ensures Valid()
      ensures var f := Peek(old(buf.Pending()), old(stream.events), old(Remain()));
              && buf.data == old(buf.data) + f.appended
              && stream.events == f.events
              && match f.view
                 case Err(e) =>
                   r == Err(e) && totalRead == old(totalRead) && dest[..] == old(dest[..])
                 case Ok(v) =>
                   var n := Min(dest.Length, |v|);
                   && r == Ok(n)
                   && totalRead == old(totalRead) + n
                   && dest[..n] == v[..n]
                   && dest[n..] == old(dest[n..])
    {
      if totalRead >= bodyLimit {
        return Ok(0);
      }
      while true
        invariant Valid() && totalRead == old(totalRead) && dest[..] == old(dest[..])
        invariant || (buf.data == old(buf.data) && stream.events == old(stream.events))
                  || (&& old(buf.Pending()) == []
                      && buf.data == old(buf.data) + buf.Pending()
                      && Pull(old(stream.events)) == (Ok(buf.Pending()), stream.events)
                      && buf.Pending() != [])
        decreases if buf.IsEmpty() then 1 else 0
      {
        if !buf.IsEmpty() {
          var minLen := Min(dest.Length, bodyLimit - totalRead);
          var n := buf.CopyTo(dest, minLen);
          totalRead := totalRead + n;
          return Ok(n);
        }
        var m := ReadMoreData();
        if m.Err? {
          return Err(m.error);
        }
        if m.value == 0 {
          return Ok(0);
        }
      }
    }

    /** `BufRead::fill_buf`: a view of the next pending body bytes, capped
        by the allowance, refilling once only if the buffer is empty. Nothing
        is consumed. */
    method FillBuf() returns (r: Result<seq<byte>, IoError>)
      requires Valid()
      modifies buf, stream
      ensures Valid() && buf.cursor == old(buf.cursor)
      ensures var f := Peek(old(buf.Pending()), old(stream.events), Remain());
              && r == f.view
              && buf.data == old(buf.data) + f.appended
              && buf.Pending() == old(buf.Pending()) + f.appended
              && stream.events == f.events
    {
      var remain := bodyLimit - totalRead;
      if remain == 0 {
        return Ok([]);
      }
      if buf.IsEmpty() {
        var m := ReadMoreData();
        if m.Err? {
          return Err(m.error);
        }
      }
      var n := Min(|buf.Pending()|, remain);
      return Ok(buf.Pending()[..n]);
    }

    /** `BufRead::consume`: both asserts hold, or it faults with nothing
        changed; otherwise `total_read` and the cursor move by `amt`. */
    method Consume(amt: nat) returns (o: Outcome<Fault>)
      requires Valid()
      modifies this, buf
      ensures Valid() && buf.data == old(buf.data)
      ensures o == if amt > old(Remain()) then Fail(AllowanceExceeded)
                   else if amt > |old(buf.Pending())| then Fail(PendingExceeded)
                   else Pass
      ensures o.Pass? ==> totalRead == old(totalRead) + amt && buf.Pending() == old(buf.Pending())[amt..]
      ensures o.Fail? ==> totalRead == old(totalRead)
    {
      if amt > bodyLimit - totalRead {
        return Fail(AllowanceExceeded);
      }
      if amt > |buf.Pending()| {
        return Fail(PendingExceeded);
      }
      totalRead := totalRead + amt;
      buf.Advance(amt);
      return Pass;
    }

    /** One turn of the loop in `drop`: `fill_buf`, and when the view is
        not empty, `consume` all of it. `more` says whether the view was
        non-empty; `took` is what was consumed and `fetched` what the
        stream delivered into the buffer. The drain from the old state is
        this turn followed by the drain from the new one. */
    method DrainTurn() returns (more: bool, ghost took: seq<byte>, ghost fetched: seq<byte>)
      requires Valid()
      modifies this, buf, stream
      ensures Valid()
      ensures buf.data == old(buf.data) + fetched && totalRead == old(totalRead) + |took|
      ensures var d := Drain(old(buf.Pending()), old(stream.events), old(Remain()));
              if more then took != [] && d == Glue(took, fetched, Drain(buf.Pending(), stream.events, Remain()))
              else took == [] && d == Drained([], fetched, stream.events)
    {
      ghost var pending, events, remain := buf.Pending(), stream.events, Remain();
      ghost var f := Peek(pending, events, remain);
      var r := FillBuf();
      fetched := f.appended;
      if r.Err? || |r.value| == 0 {
        return false, [], fetched;
      }
      var o := Consume(|r.value|);
      DrainStep(pending, events, remain, r.value, fetched, buf.Pending(), stream.events, Remain());
      return true, r.value, fetched;
    }

    /** The `while let` loop of `drop`: `DrainTurn` until the view is
        empty or the stream fails. */
    method DrainLoop()
      requires Valid()
      modifies this, buf, stream
      ensures Valid()
      ensures var d := Drain(old(buf.Pending()), old(stream.events), old(Remain()));
              && buf.data == old(buf.data) + d.appended
              && stream.events == d.events
              && totalRead == old(totalRead) + |d.taken|
    {
      ghost var taken: seq<byte> := [];
      ghost var appended: seq<byte> := [];
      ghost var whole := Drain(buf.Pending(), stream.events, Remain());
      assert whole == Glue(taken, appended, whole);
      while true
        invariant Valid()
        invariant buf.data == old(buf.data) + appended
        invariant totalRead == old(totalRead) + |taken|
        invariant whole == Glue(taken, appended, Drain(buf.Pending(), stream.events, Remain()))
        decreases Remain()
      {
        var more, took, fetched := DrainTurn();
        ConcatAssociates(old(buf.data), appended, fetched);
        if !more {
          appended := appended + fetched;
          break;
        }
        GlueAssociates(taken, appended, took, fetched, Drain(buf.Pending(), stream.events, Remain()));
        taken, appended := taken + took, appended + fetched;
      }
    }

    /** `Drop::drop`: consume whatever body bytes the caller left, up to the
        ceiling or the end of the stream. It consumes `min(allowance,
        available)` bytes; when it ends short of the ceiling the buffer is
        empty, and when it reaches the ceiling whatever follows the body is
        still there, in the buffer or in the stream. */
    method Drop()
      requires Valid()
      modifies this, buf, stream
      ensures Valid()
      ensures var d := Drain(old(buf.Pending()), old(stream.events), old(Remain()));
              && buf.data == old(buf.data) + d.appended
              && stream.events == d.events
              && totalRead == old(totalRead) + |d.taken|
      ensures var avail := old(buf.Pending()) + Supply(old(stream.events));
              && totalRead == old(totalRead) + Min(old(Remain()), |avail|)
              && (totalRead < bodyLimit ==> buf.Pending() == [])
              && (totalRead == bodyLimit ==> buf.Pending() + Supply(stream.events) == avail[old(Remain())..])
    {
      ghost var d := Drain(buf.Pending(), stream.events, Remain());
      DrainEffect(buf.data, buf.cursor, stream.events, Remain(), d);
      DrainLoop();
    }
  }
}
