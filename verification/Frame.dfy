/**
 Message framing, and the socket read loop that reassembles frames from
 arbitrary chunks.
 */
module Frame {
  import opened Bytes
  import opened Wire

  const MAX_SERVER_MESSAGE_LEN: nat := 469_762_048

  datatype Split =
    | Incomplete
    | Complete(payload: seq<byte>, rest: seq<byte>)
    | Oversized(declared: nat, max: nat)

  function SplitFrameCapped(buf: seq<byte>, maxLen: nat): (r: Split)
    ensures r.Complete? ==> |r.rest| < |buf|
  {
    if |buf| < 4 then Incomplete
    else
      var declared := BytesU32(buf[..4]);
      if declared > maxLen then Oversized(declared, maxLen)
      else if |buf| < 4 + declared then Incomplete
      else Complete(buf[4..4 + declared], buf[4 + declared..])
  }

  function SplitFrame(buf: seq<byte>): (r: Split)
    ensures r.Complete? ==> |r.rest| < |buf|
  {
    SplitFrameCapped(buf, MAX_SERVER_MESSAGE_LEN)
  }

  /** The declared length is a truncating cast of the payload's. */
  function Framed(payload: seq<byte>): seq<byte> {
    U32Bytes(Truncate32(|payload|)) + payload
  }

  function FrameU32(code: u32, body: seq<byte>): seq<byte> {
    Framed(U32Bytes(code) + body)
  }

  function FrameU8(code: byte, body: seq<byte>): seq<byte> {
    Framed([code] + body)
  }

  method BuildFrameU32(code: u32, body: seq<byte>) returns (out: seq<byte>)
    ensures out == FrameU32(code, body)
  {
    var buf := new Buffer();
    buf.PutU32(Truncate32(4 + |body|));
    buf.PutU32(code);
    buf.Extend(body);
    out := buf.data;
    assert U32Bytes(code) + body == [] + U32Bytes(code) + body;
  }

  method BuildFrameU8(code: byte, body: seq<byte>) returns (out: seq<byte>)
    ensures out == FrameU8(code, body)
  {
    var buf := new Buffer();
    buf.PutU32(Truncate32(1 + |body|));
    buf.PutU8(code);
    buf.Extend(body);
    out := buf.data;
  }

  /**
   A frame is split off again, with whatever follows it left over, exactly when
   its payload is within the cap of the connection.
   */
  lemma SplitInvertsFraming(payload: seq<byte>, t: seq<byte>, maxLen: nat)
    requires maxLen < U32_LIMIT
    ensures SplitFrameCapped(Framed(payload) + t, maxLen) == Complete(payload, t) <==> |payload| <= maxLen
  {
    var n := Truncate32(|payload|);
    var buf := Framed(payload) + t;
    assert buf == U32Bytes(n) + (payload + t);
    TakeFront(U32Bytes(n), payload + t);
    BytesOfU32(n);
    if |payload| <= maxLen {
      assert n == |payload|;
      assert buf[4..4 + n] == payload && buf[4 + n..] == t;
    }
  }

  lemma SplitInvertsServer(payload: seq<byte>, t: seq<byte>)
    ensures SplitFrame(Framed(payload) + t) == Complete(payload, t) <==> |payload| <= MAX_SERVER_MESSAGE_LEN
  {
    SplitInvertsFraming(payload, t, MAX_SERVER_MESSAGE_LEN);
  }

  /** A declared length is refused exactly when it is over the cap, whatever follows it, even nothing. */
  lemma OversizedExactly(n: u32, t: seq<byte>, maxLen: nat)
    ensures SplitFrameCapped(U32Bytes(n) + t, maxLen) == Oversized(n, maxLen) <==> n > maxLen
    ensures SplitFrameCapped(U32Bytes(n) + t, maxLen) == Incomplete <==> n <= maxLen && |t| < n
  {
    TakeFront(U32Bytes(n), t);
    BytesOfU32(n);
  }

  // ---- parsing a whole stream at once -------------------------------------

  /** Everything the read loop makes of the bytes received so far. */
  datatype Drained = Drained(payloads: seq<seq<byte>>, pending: seq<byte>, bad: Option<Split>)

  function Drain(s: seq<byte>): (d: Drained)
    ensures d.bad.Some? ==> d.bad.value.Oversized?
    decreases |s|
  {
    match SplitFrame(s)
    case Incomplete => Drained([], s, None)
    case Oversized(_, _) => Drained([], s, Some(SplitFrame(s)))
    case Complete(payload, rest) =>
      var d := Drain(rest);
      Drained([payload] + d.payloads, d.pending, d.bad)
  }

  /** Delivering `ps` first. */
  function After(ps: seq<seq<byte>>, d: Drained): Drained {
    Drained(ps + d.payloads, d.pending, d.bad)
  }

  lemma SplitExtends(s: seq<byte>, t: seq<byte>)
    ensures SplitFrame(s).Oversized? ==> SplitFrame(s + t) == SplitFrame(s)
    ensures SplitFrame(s).Complete? ==>
      SplitFrame(s + t) == Complete(SplitFrame(s).payload, SplitFrame(s).rest + t)
  {
    if |s| >= 4 {
      assert (s + t)[..4] == s[..4];
      var declared: nat := BytesU32(s[..4]);
      if |s| >= 4 + declared {
        assert (s + t)[4..4 + declared] == s[4..4 + declared];
        assert (s + t)[4 + declared..] == s[4 + declared..] + t;
      }
    }
  }

  lemma DrainNothing()
    ensures Drain([]) == Drained([], [], None)
  {
  }

  lemma DrainComplete(s: seq<byte>, payload: seq<byte>, rest: seq<byte>)
    requires SplitFrame(s) == Complete(payload, rest)
    ensures Drain(s) == After([payload], Drain(rest))
  {
    hide SplitFrameCapped, SplitFrame;
  }

  lemma AfterTwice(a: seq<seq<byte>>, b: seq<seq<byte>>, d: Drained)
    ensures After(a, After(b, d)) == After(a + b, d)
  {
    assert a + (b + d.payloads) == a + b + d.payloads;
  }

  /** More bytes leave the frames already found, and any bad frame, as they were. */
  lemma {:induction false} DrainExtends(s: seq<byte>, t: seq<byte>)
    ensures Drain(s).bad.None? ==> Drain(s + t) == After(Drain(s).payloads, Drain(Drain(s).pending + t))
    ensures Drain(s).bad.Some? ==>
      Drain(s + t).payloads == Drain(s).payloads && Drain(s + t).bad == Drain(s).bad
    decreases |s|
  {
    hide SplitFrameCapped, SplitFrame;
    SplitExtends(s, t);
    match SplitFrame(s)
    case Incomplete =>
      assert Drain(s) == Drained([], s, None);
    case Oversized(_, _) =>
    case Complete(payload, rest) =>
      DrainExtends(rest, t);
      DrainComplete(s, payload, rest);
      DrainComplete(s + t, payload, rest + t);
      AfterTwice([payload], Drain(rest).payloads, Drain(Drain(rest).pending + t));
  }

  function Concat(chunks: seq<seq<byte>>): seq<byte> {
    if chunks == [] then [] else chunks[0] + Concat(chunks[1..])
  }

  lemma {:induction false} ConcatAppend(a: seq<seq<byte>>, b: seq<seq<byte>>)
    ensures Concat(a + b) == Concat(a) + Concat(b)
  {
    if a == [] {
      assert a + b == b;
    } else {
      assert (a + b)[1..] == a[1..] + b;
      ConcatAppend(a[1..], b);
    }
  }

  /** The frames of `payloads`, back to back. */
  function Frames(payloads: seq<seq<byte>>): seq<byte> {
    Concat(MapSeq(Framed, payloads))
  }

  lemma FramesCons(p: seq<byte>, ps: seq<seq<byte>>)
    ensures Frames([p] + ps) == Framed(p) + Frames(ps)
  {
    assert ([p] + ps)[1..] == ps;
    assert MapSeq(Framed, [p] + ps) == [Framed(p)] + MapSeq(Framed, ps);
  }

  lemma SplitIsFramed(s: seq<byte>, payload: seq<byte>, rest: seq<byte>)
    requires SplitFrame(s) == Complete(payload, rest)
    ensures s == Framed(payload) + rest
  {
    assert s == s[..4] + payload + rest;
    assert Truncate32(|payload|) == BytesU32(s[..4]);
  }

  /** `pending` is always the undelivered suffix of the stream. */
  lemma {:induction false} PendingIsUndelivered(s: seq<byte>)
    requires Drain(s).bad.None?
    ensures s == Frames(Drain(s).payloads) + Drain(s).pending
    decreases |s|
  {
    hide SplitFrameCapped, SplitFrame, Framed;
    match SplitFrame(s)
    case Incomplete =>
      assert Frames([]) + s == s;
    case Complete(payload, rest) =>
      DrainComplete(s, payload, rest);
      SplitIsFramed(s, payload, rest);
      PendingIsUndelivered(rest);
      FramesCons(payload, Drain(rest).payloads);
  }

  /** Frames sent back to back, each within the cap, come out as the same payloads in order. */
  lemma {:induction false} FramesComeOutInOrder(payloads: seq<seq<byte>>, t: seq<byte>)
    requires forall p :: p in payloads ==> |p| <= MAX_SERVER_MESSAGE_LEN
    ensures Drain(Frames(payloads) + t) == After(payloads, Drain(t))
  {
    hide SplitFrame, SplitFrameCapped, Framed, Drain;
    if payloads == [] {
      assert Frames(payloads) + t == t;
    } else {
      var (p, ps) := (payloads[0], payloads[1..]);
      assert payloads == [p] + ps;
      FramesCons(p, ps);
      assert Frames(payloads) + t == Framed(p) + (Frames(ps) + t);
      SplitInvertsServer(p, Frames(ps) + t);
      DrainComplete(Frames(payloads) + t, p, Frames(ps) + t);
      FramesComeOutInOrder(ps, t);
      AfterTwice([p], ps, Drain(t));
    }
  }

  /**
   Frames within the cap are delivered and a declared length over it ends the
   stream there and then, however much or little has followed it.
   */
  lemma BadFrameIsReported(payloads: seq<seq<byte>>, n: u32, t: seq<byte>)
    requires forall p :: p in payloads ==> |p| <= MAX_SERVER_MESSAGE_LEN
    requires n > MAX_SERVER_MESSAGE_LEN
    ensures Drain(Frames(payloads) + (U32Bytes(n) + t))
         == Drained(payloads, U32Bytes(n) + t, Some(Oversized(n, MAX_SERVER_MESSAGE_LEN)))
  {
    hide SplitFrameCapped, Frames, U32Bytes;
    OversizedExactly(n, t, MAX_SERVER_MESSAGE_LEN);
    FramesComeOutInOrder(payloads, U32Bytes(n) + t);
    assert payloads + [] == payloads;
  }

  /** A stream that stops within a frame the cap allows leaves that frame pending, and nothing is bad. */
  lemma PartialFrameIsPending(payloads: seq<seq<byte>>, n: u32, t: seq<byte>)
    requires forall p :: p in payloads ==> |p| <= MAX_SERVER_MESSAGE_LEN
    requires |t| < n <= MAX_SERVER_MESSAGE_LEN
    ensures Drain(Frames(payloads) + (U32Bytes(n) + t)) == Drained(payloads, U32Bytes(n) + t, None)
  {
    hide SplitFrameCapped, Frames, U32Bytes;
    OversizedExactly(n, t, MAX_SERVER_MESSAGE_LEN);
    FramesComeOutInOrder(payloads, U32Bytes(n) + t);
    assert payloads + [] == payloads;
  }

  // ---- the read loop --------------------------------------------------------

  /** How the socket ended: end of file or a read error. */
  datatype SocketEnd = ServerClosed | ReadError

  datatype Verdict = Closed(end: SocketEnd) | BadFrame(err: Split)

  /** The bus the read loop delivers payloads to. */
  class Writer {
    var delivered: seq<seq<byte>>

    constructor ()
      ensures delivered == []
    {
      delivered := [];
    }

    method Send(payload: seq<byte>)
      modifies this
      ensures delivered == old(delivered) + [payload]
    {
      delivered := delivered + [payload];
    }
  }

  /** The inner loop: peel frames off `pending` until one is incomplete or bad. */
  method DeliverFrames(received: seq<byte>, writer: Writer) returns (pending: seq<byte>, bad: Option<Split>)
    modifies writer
    ensures Drained(writer.delivered, pending, bad) == After(old(writer.delivered), Drain(received))
  {
    hide SplitFrameCapped;
    pending := received;
    while true
      invariant After(writer.delivered, Drain(pending)) == After(old(writer.delivered), Drain(received))
      decreases |pending|
    {
      var split := SplitFrame(pending);
      match split
      case Incomplete =>
        return pending, None;
      case Oversized(_, _) =>
        return pending, Some(split);
      case Complete(payload, rest) =>
        writer.Send(payload);
        pending := rest;
    }
  }

  /**
   The outer loop over the chunks the socket delivers before it ends. What is
   delivered and the verdict are those of parsing the concatenation at once.
   */
  method ReadLoop(chunks: seq<seq<byte>>, end: SocketEnd, writer: Writer) returns (verdict: Verdict)
    requires writer.delivered == []
    modifies writer
    ensures writer.delivered == Drain(Concat(chunks)).payloads
    ensures verdict == match Drain(Concat(chunks)).bad case Some(e) => BadFrame(e) case None => Closed(end)
  {
    hide Drain;
    var pending: seq<byte> := [];
    var i := 0;
    assert chunks[..0] == [];
    DrainNothing();
    while i < |chunks|
      invariant 0 <= i <= |chunks|
      invariant Drained(writer.delivered, pending, None) == Drain(Concat(chunks[..i]))
    {
      ghost var before := Concat(chunks[..i]);
      ghost var after := Concat(chunks[i + 1..]);
      var sofar := writer.delivered;
      pending := pending + chunks[i];
      var bad;
      DrainExtends(before, chunks[i]);
      pending, bad := DeliverFrames(pending, writer);
      assert chunks[..i + 1] == chunks[..i] + [chunks[i]];
      ConcatAppend(chunks[..i], [chunks[i]]);
      assert Concat([chunks[i]]) == chunks[i];
      if bad.Some? {
        assert chunks == chunks[..i + 1] + chunks[i + 1..];
        ConcatAppend(chunks[..i + 1], chunks[i + 1..]);
        DrainExtends(before + chunks[i], after);
        return BadFrame(bad.value);
      }
      i := i + 1;
    }
    assert chunks[..i] == chunks;
    verdict := Closed(end);
  }

  /** Two chunkings of one stream are indistinguishable to everyone downstream. */
  method SameForEveryChunking(a: seq<seq<byte>>, b: seq<seq<byte>>, end: SocketEnd)
    returns (va: Verdict, vb: Verdict, da: seq<seq<byte>>, db: seq<seq<byte>>)
    requires Concat(a) == Concat(b)
    ensures va == vb && da == db
  {
    var wa := new Writer();
    var wb := new Writer();
    va := ReadLoop(a, end, wa);
    vb := ReadLoop(b, end, wb);
    da, db := wa.delivered, wb.delivered;
  }
}
