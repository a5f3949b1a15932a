/// What the WebSocket client's transitions guarantee, and where they depart
/// from RFC 6455: the shut flag, the Close handshake, the payload the
/// callbacks receive, the reply to a Ping, and how the receive loop consumes
/// frames from the front of its buffer.
module WebSocketLaws {
  import opened Common
  import opened Frame
  import opened HttpResponse
  import opened WebSocketSpec

  // ---------------------------------------------------------------------------
  // Sending and the shut flag

  /// Control and binary sends are refused once the socket is shut, and
  /// change nothing.
  lemma SendWhileShut(env: Env, c: Conn, opcode: int, data: Option<seq<byte>>)
    requires Valid(c) && c.shut
    ensures SendData(env, c, opcode, data) == Step(c, Fail(InvalidOperation(SHUT_MESSAGE)))
    ensures SendBinary(env, c, data).outcome.Fail?
    ensures data.None? || |data.value| < 126 ==> Ping(env, c, data) == Step(c, Fail(InvalidOperation(SHUT_MESSAGE)))
  {
  }

  /// Text sends are not: a short text goes out on a shut socket that still
  /// holds its stream.
  lemma TextWhileShut(env: Env, c: Conn, enc: TextEncoding, s: string)
    requires Valid(c) && c.shut && c.stream.Some? && |Encode(enc, s)| < C64K
    ensures SendText(env, c, enc, s).outcome == Pass
    ensures |SendText(env, c, enc, s).conn.output| == |c.output| + 1
  {
  }

  /// A successful Shutdown shuts the socket and writes a Close frame whose
  /// body is the code in network order (read back by the peer as the same
  /// code) followed by the data.
  lemma ShutdownWritesCode(env: Env, c: Conn, code: int, data: Option<seq<byte>>)
    requires Valid(c) && !c.shut && c.stream.Some?
    requires -32768 <= code < 32768 && (data.None? || |data.value| < 124)
    ensures var s := Shutdown(env, c, Some(code), data);
      && s.outcome == Pass && s.conn.shut
      && |s.conn.output| == |c.output| + 1
      && var w := s.conn.output[|c.output|].bytes;
         var h := HeaderLen(2 + |PayloadOf(data)|, c.masking);
         && |w| == h + 2 + |PayloadOf(data)|
         && w[0] == 128 + OP_CLOSE as byte
         && CloseCode(w[h], w[h + 1]) == code
         && w[h + 2..] == PayloadOf(data)
  {
    var body := CodeBytes(code) + PayloadOf(data);
    var h := PrepareFrame(OP_CLOSE, |body|, c.masking, env.le, MaskAt(env, c.draws)).value;
    var w := h + body;
    var s := SendData(env, c, OP_CLOSE, Some(body));
    assert Shutdown(env, c, Some(code), data) == s;
    assert s.conn.output == c.output + [Write(c.stream.value, w)];
    assert w[|h|] == CodeBytes(code)[0] && w[|h| + 1] == CodeBytes(code)[1];
    assert w[|h| + 2..] == PayloadOf(data);
    CloseCodeRoundTrip(code);
  }

  /// After a successful Shutdown every Ping and binary send is refused.
  lemma ShutdownThenRefused(env: Env, c: Conn, code: int, data: Option<seq<byte>>,
                            later: Option<seq<byte>>)
    requires Valid(c) && -32768 <= code < 32768
    requires Shutdown(env, c, Some(code), data).outcome == Pass
    ensures var s := Shutdown(env, c, Some(code), data).conn;
      && SendBinary(env, s, later).outcome.Fail?
      && Ping(env, s, later).outcome.Fail?
  {
  }

  /// Data and a missing code are refused before anything is sent.
  lemma ShutdownArguments(env: Env, c: Conn, code: Option<int>, data: Option<seq<byte>>)
    requires Valid(c) && (code.Some? ==> -32768 <= code.value < 32768)
    ensures data.Some? && |data.value| >= 124 ==>
      Shutdown(env, c, code, data) == Step(c, Fail(ArgumentError(SHUTDOWN_DATA_MESSAGE)))
    ensures data.Some? && |data.value| < 124 && code.None? ==>
      Shutdown(env, c, code, data) == Step(c, Fail(ArgumentError(SHUTDOWN_CODE_MESSAGE)))
    ensures data.Some? && |data.value| >= 126 ==>
      Ping(env, c, data) == Step(c, Fail(ArgumentError(PING_MESSAGE)))
  {
  }

  /// Close() shuts the socket and drops its stream: binary sends are
  /// refused and nothing more is written, not even text.
  lemma CloseSilences(env: Env, c: Conn, enc: TextEncoding, s: string, data: Option<seq<byte>>)
    requires Valid(c)
    ensures Close(c).shut && Close(c).stream.None? && Close(c).headers == map[]
    ensures SendData(env, Close(c), OP_BINARY, data).outcome.Fail?
    ensures SendText(env, Close(c), enc, s).conn.output == c.output
  {
  }

  /// IsMasking can be changed exactly while no stream is held.
  lemma MaskingOnlyWhileDisconnected(c: Conn, value: bool)
    ensures SetMasking(c, value).outcome == Pass <==> c.stream.None?
    ensures SetMasking(c, value).outcome == Pass ==> SetMasking(c, value).conn.masking == value
    ensures SetMasking(c, value).outcome.Fail? ==> SetMasking(c, value).conn == c
  {
  }

  /// With masking on, the frame announces a mask and carries its key, but
  /// its payload is the caller's bytes as they are: maskFrame worked on the
  /// receive buffer. A server that unmasks it as section 5.3 of RFC 6455
  /// asks reads different bytes on a little-endian host.
  lemma SentPayloadUnmasked(env: Env, c: Conn, opcode: int, payload: seq<byte>)
    requires Valid(c) && !c.shut && c.masking && c.stream.Some? && env.le
    requires 0 <= opcode < 16 && 0 < |payload| < C64K
    ensures var s := SendData(env, c, opcode, Some(payload));
      && s.outcome == Pass
      && var w := s.conn.output[|c.output|].bytes;
         var h := HeaderLen(|payload|, true);
         && |w| == h + |payload|
         && HighBit(w[1])
         && w[h..] == payload
         && Masked(w[h..], w[h - 4..h]) != payload
  {
    var m := MaskAt(env, c.draws);
    var h := PrepareFrame(opcode, |payload|, true, true, m).value;
    var w := h + payload;
    assert SendData(env, c, opcode, Some(payload)).conn.output[|c.output|].bytes == w;
    assert w[|h|..] == payload;
    assert w[|h| - 4..|h|] == h[|h| - 4..];
    UnmaskedPayloadMisread(payload, m);
  }

  // ---------------------------------------------------------------------------
  // The opening handshake

  /// Open writes its request to the new stream from the front of the
  /// receive buffer, where the response is then read; it succeeds exactly
  /// when the response is read to its blank line and passes the checks, and
  /// only then is a new stream installed, read from offset 0 and the shut
  /// flag cleared. A failed Open leaves the socket closed; a request too long
  /// for the buffer fails before anything is written.
  lemma OpenOutcome(env: Env, c: Conn, response: seq<byte>, key: string)
    requires Valid(c)
    ensures var req, r := env.request(key), Open(env, c, response, key);
      |req| > RECV_BUF_LEN ==>
        r.outcome == Fail(ArgumentError(REQUEST_OVERFLOW)) && r.conn.output == c.output
        && r.conn.stream.None? && r.conn.shut
    ensures var req, r := env.request(key), Open(env, c, response, key);
      |req| <= RECV_BUF_LEN ==>
        var rr := ReadResponse(response, req + c.buf[|req|..], map[]);
        && r.conn.output == c.output + [Write(c.streamsOpened, req)]
        && (r.outcome == Pass <==>
             rr.outcome.Ok? && UpgradeAccepted(rr.headers) && Lookup(rr.headers, ACCEPT_KEY) == Some(env.accept(key)))
        && r.conn.headers == rr.headers && r.conn.buf == rr.buf
        && (r.outcome == Pass ==>
             r.conn.stream == Some(c.streamsOpened) && !r.conn.shut
             && r.conn.pending == Some(Pending(c.streamsOpened, 0)))
        && (r.outcome.Fail? ==> r.conn.stream.None? && r.conn.shut)
  {
  }

  /// A response that ends before its blank line fails with the IOException
  /// of readHttpResponse.
  lemma OpenTruncated(env: Env, c: Conn, response: seq<byte>, key: string)
    requires Valid(c)
    requires forall j :: 0 <= j < |response| ==> !TermAt(response, j)
    ensures Open(env, c, response, key).outcome.Fail?
    ensures Open(env, c, response, key).conn.stream.None?
  {
    var req := env.request(key);
    if |req| <= RECV_BUF_LEN {
      ReadResponseTerminator(response, req + c.buf[|req|..], map[]);
    }
  }

  // ---------------------------------------------------------------------------
  // The receive loop

  /// A frame that is not all there yet stops the loop with the buffer as it
  /// is; the bytes stay at the front.
  lemma IncompleteKept(env: Env, c: Conn, was: nat, len: nat, all: nat)
    requires Valid(c) && 2 <= all <= RECV_BUF_LEN && was + len <= RECV_BUF_LEN
    requires ParseHeader(c.buf, all) == Incomplete
    ensures RecvLoop(env, c, was, len, all) == Loop(c, all, Pass)
  {
  }

  /// A complete frame whose dispatch does not throw is removed from the
  /// front: exactly tn + n bytes go, and what followed it moves to index 0.
  lemma CompleteConsumed(env: Env, c: Conn, was: nat, len: nat, all: nat)
    requires Valid(c) && 2 <= all <= RECV_BUF_LEN && was + len <= RECV_BUF_LEN
    requires ParseHeader(c.buf, all).Complete?
    ensures var p := ParseHeader(c.buf, all);
      var d := Dispatch(env, c, p.opcode, p.tn, p.n);
      d.outcome == Pass ==>
        var it := Iteration(env, c, was, len, all);
        && it == Next(it.conn, all - (p.tn + p.n))
        && it.conn.buf[..all - (p.tn + p.n)] == d.conn.buf[p.tn + p.n..all]
        && it.conn.(buf := d.conn.buf) == d.conn
  {
  }

  /// A malformed header (a non-FIN frame, a masked frame, the 8-byte length
  /// form) ends the loop with its exception.
  lemma MalformedStops(env: Env, c: Conn, was: nat, len: nat, all: nat)
    requires Valid(c) && 2 <= all <= RECV_BUF_LEN && was + len <= RECV_BUF_LEN
    requires ParseHeader(c.buf, all).Malformed?
    ensures RecvLoop(env, c, was, len, all) == Loop(c, all, Fail(ParseHeader(c.buf, all).error))
  {
  }

  /// An unknown opcode throws.
  lemma UnknownOpcodeStops(env: Env, c: Conn, op: nat, tn: nat, n: nat)
    requires Valid(c) && tn + n <= RECV_BUF_LEN
    requires op !in {OP_TEXT, OP_BINARY, OP_CLOSE, OP_PING, OP_PONG}
    ensures Dispatch(env, c, op, tn, n) == Step(c, Fail(ArgumentError(UNKNOWN_TYPE + NatToString(op))))
  {
  }

  /// Binary and Pong payloads reach the handler as the whole 65K receive
  /// buffer, whatever the frame's length.
  lemma CallbacksGetWholeBuffer(env: Env, c: Conn, tn: nat, n: nat)
    requires Valid(c) && 2 <= tn && tn + n <= RECV_BUF_LEN && 0 < n && c.handler
    ensures Dispatch(env, c, OP_BINARY, tn, n).conn.events == c.events + [OnBinary(Some(c.buf))]
    ensures !c.shut ==> Dispatch(env, c, OP_PONG, tn, n).conn.events == c.events + [OnPong(Some(c.buf))]
    ensures |c.buf| == RECV_BUF_LEN && RECV_BUF_LEN != n
  {
  }

  /// So a Ping with a payload cannot be answered: the Pong would carry the
  /// whole buffer, which prepareFrame refuses as 64K or longer.
  lemma PingWithPayloadThrows(env: Env, c: Conn, tn: nat, n: nat)
    requires Valid(c) && tn + n <= RECV_BUF_LEN && 0 < n && !c.shut
    ensures Dispatch(env, c, OP_PING, tn, n) == Step(c, Fail(ArgumentError(LENGTH_MESSAGE)))
  {
  }

  /// An empty Ping is answered with an empty Pong while not shut; nothing is
  /// answered once shut.
  lemma EmptyPingAnswered(env: Env, c: Conn, tn: nat)
    requires Valid(c) && tn <= RECV_BUF_LEN && c.stream.Some?
    ensures !c.shut ==> (Dispatch(env, c, OP_PING, tn, 0).outcome == Pass
      && Dispatch(env, c, OP_PING, tn, 0).conn.output
         == c.output + [Write(c.stream.value, PrepareFrame(OP_PONG, 0, c.masking, env.le, MaskAt(env, c.draws)).value)])
    ensures c.shut ==> Dispatch(env, c, OP_PING, tn, 0) == Step(c, Pass)
    ensures c.shut ==> Dispatch(env, c, OP_PONG, tn, 0) == Step(c, Pass)
  {
    if !c.shut {
      var h := PrepareFrame(OP_PONG, 0, c.masking, env.le, MaskAt(env, c.draws)).value;
      assert h + PayloadOf(None) == h;
    }
  }

  /// A Close frame from the peer: its code is read in network order (Normal
  /// when the body is shorter than 2 bytes); unless the socket is already
  /// shut, the handler hears of it and the code is sent back in a Close
  /// frame; the socket ends closed.
  lemma CloseFrameHandled(env: Env, c: Conn, tn: nat, n: nat)
    requires Valid(c) && tn + n <= RECV_BUF_LEN && c.stream.Some? && c.handler && !c.shut
    ensures var code := if n >= 2 then CloseCode(c.buf[tn], c.buf[tn + 1]) else NORMAL_CODE;
      var d := CloseFrame(env, c, tn, n);
      && d.outcome == Pass
      && d.conn.shut && d.conn.stream.None? && d.conn.headers == map[]
      && d.conn.events == c.events + [OnShutdown(code, if n > 2 then Some(c.buf) else None)]
  {
    var code := if n >= 2 then CloseCode(c.buf[tn], c.buf[tn + 1]) else NORMAL_CODE;
    var c1 := Notify(c, OnShutdown(code, if n > 2 then Some(c.buf) else None));
    var s := CloseFrameShutdown(env, c, tn, n, code, c1);
    ShutdownKeepsEvents(env, c1, code);
  }

  /// The Close frame sent back carries the received code in network order.
  lemma CloseFrameEcho(env: Env, c: Conn, tn: nat, n: nat)
    requires Valid(c) && tn + n <= RECV_BUF_LEN && c.stream.Some? && !c.shut
    ensures var code := if n >= 2 then CloseCode(c.buf[tn], c.buf[tn + 1]) else NORMAL_CODE;
      var d := CloseFrame(env, c, tn, n);
      && |d.conn.output| == |c.output| + 1
      && var w := d.conn.output[|c.output|].bytes;
         var h := HeaderLen(2, c.masking);
         |w| == h + 2 && w[0] == 128 + OP_CLOSE as byte && CloseCode(w[h], w[h + 1]) == code
  {
    var code := if n >= 2 then CloseCode(c.buf[tn], c.buf[tn + 1]) else NORMAL_CODE;
    var c1 := Notify(c, OnShutdown(code, if n > 2 then Some(c.buf) else None));
    var s := CloseFrameShutdown(env, c, tn, n, code, c1);
  }

  /// The Close case on a socket not yet shut is a successful Shutdown with
  /// the received code, then Close.
  lemma CloseFrameShutdown(env: Env, c: Conn, tn: nat, n: nat, code: int, c1: Conn) returns (s: Step)
    requires Valid(c) && tn + n <= RECV_BUF_LEN && c.stream.Some? && !c.shut
    requires code == if n >= 2 then CloseCode(c.buf[tn], c.buf[tn + 1]) else NORMAL_CODE
    requires c1 == Notify(c, OnShutdown(code, if n > 2 then Some(c.buf) else None))
    ensures s == Shutdown(env, c1, Some(code), None) && s.outcome == Pass
    ensures CloseFrame(env, c, tn, n) == Step(Close(s.conn), Pass)
    ensures |s.conn.output| == |c.output| + 1
    ensures var w := s.conn.output[|c.output|].bytes;
      var h := HeaderLen(2, c.masking);
      |w| == h + 2 && w[0] == 128 + OP_CLOSE as byte && CloseCode(w[h], w[h + 1]) == code
  {
    ShutdownWritesCode(env, c1, code, None);
    s := Shutdown(env, c1, Some(code), None);
  }

  /// Shutdown raises no event.
  lemma ShutdownKeepsEvents(env: Env, c: Conn, code: int)
    requires Valid(c) && -32768 <= code < 32768
    ensures Shutdown(env, c, Some(code), None).conn.events == c.events
  {
  }

  /// The echo of our own Shutdown only closes the socket.
  lemma CloseFrameWhenShut(env: Env, c: Conn, tn: nat, n: nat)
    requires Valid(c) && tn + n <= RECV_BUF_LEN && c.shut
    ensures Dispatch(env, c, OP_CLOSE, tn, n) == Step(Close(c), Pass)
  {
  }

  /// The shut flag is only ever raised by the loop.
  lemma {:induction false} RecvLoopKeepsShut(env: Env, c: Conn, was: nat, len: nat, all: nat)
    requires Valid(c) && all <= RECV_BUF_LEN && was + len <= RECV_BUF_LEN && c.shut
    ensures RecvLoop(env, c, was, len, all).conn.shut
    decreases all
  {
    if all > 1 {
      match Iteration(env, c, was, len, all)
      case Break(c1, o) =>
      case Next(c1, all1) =>
        RecvLoopKeepsShut(env, c1, was, len, all1);
    }
  }

  /// After the recv callback a new read is pending exactly when the loop
  /// did not throw, the socket is not shut and its stream is still the one
  /// read; the new read fills from the end of the bytes kept. An exception
  /// is reported only while the stream is still the one read.
  lemma ReceiveRestarts(env: Env, c: Conn, chunk: seq<byte>)
    requires Valid(c) && c.pending.Some? && c.pending.value.was + |chunk| <= RECV_BUF_LEN
    requires |chunk| > 0
    ensures var p := c.pending.value;
      var all := p.was + |chunk|;
      var l := RecvLoop(env, Filled(c, chunk), p.was, |chunk|, all);
      var r := Receive(env, c, chunk);
      && (r.pending.Some? <==> l.outcome == Pass && !l.conn.shut && l.conn.stream == Some(p.source))
      && (r.pending.Some? ==> r.pending.value == Pending(p.source, l.all) && l.all <= all)
      && (l.outcome.Fail? && l.conn.handler ==>
            (r.events == l.conn.events + [OnError("recv", l.outcome.error)] <==> l.conn.stream == Some(p.source)))
  {
  }

  /// Zero bytes from the stream report OnClosed, whether or not the
  /// socket still holds that stream, and end reading.
  lemma ReceiveEndOfStream(env: Env, c: Conn)
    requires Valid(c) && c.pending.Some? && c.handler
    ensures Receive(env, c, []).events == c.events + [OnClosed]
    ensures Receive(env, c, []).pending.None?
  {
  }

  /// A complete Close frame leaves the socket shut, whether its dispatch
  /// went through or not.
  lemma IterationCloseShuts(env: Env, c: Conn, was: nat, len: nat, all: nat)
    requires Valid(c) && 2 <= all <= RECV_BUF_LEN && was + len <= RECV_BUF_LEN
    requires ParseHeader(c.buf, all).Complete? && ParseHeader(c.buf, all).opcode == OP_CLOSE
    ensures Iteration(env, c, was, len, all).conn.shut
  {
    var p := ParseHeader(c.buf, all);
    assert Dispatch(env, c, OP_CLOSE, p.tn, p.n) == CloseFrame(env, c, p.tn, p.n);
  }

  /// A Close frame at the front of a fresh read ends reading for good: no
  /// new read is begun, whatever follows it in the buffer.
  lemma ReceiveCloseStops(env: Env, c: Conn, chunk: seq<byte>)
    requires Valid(c) && c.pending.Some? && c.pending.value.was == 0 && 2 <= |chunk| <= RECV_BUF_LEN
    requires chunk[0] == 128 + OP_CLOSE as byte && chunk[1] as int + 2 <= |chunk| && chunk[1] < 126
    ensures Receive(env, c, chunk).pending.None?
  {
    var all := |chunk|;
    var c1 := Filled(c, chunk);
    assert c1.buf[0] == chunk[0] && c1.buf[1] == chunk[1];
    assert ParseHeader(c1.buf, all) == Complete(OP_CLOSE, 2, chunk[1] as nat);
    IterationCloseShuts(env, c1, 0, all, all);
    var it := Iteration(env, c1, 0, all, all);
    if it.Next? {
      RecvLoopKeepsShut(env, it.conn, 0, all, it.all);
    }
  }

  // ---------------------------------------------------------------------------
  // Text frames from sender to receiver

  /// An unmasked text frame with a payload shorter than 126 bytes.
  function TextFrame(p: seq<byte>): (f: seq<byte>)
    requires |p| < 126
    ensures |f| == 2 + |p|
  {
    [128 + OP_TEXT as byte, |p| as byte] + p
  }

  predicate AllShort(ps: seq<seq<byte>>)
  {
    forall k :: 0 <= k < |ps| ==> |ps[k]| < 126
  }

  function TextFrames(ps: seq<seq<byte>>): seq<byte>
    requires AllShort(ps)
  {
    if ps == [] then [] else TextFrame(ps[0]) + TextFrames(ps[1..])
  }

  function TextEvents(ps: seq<seq<byte>>): seq<Event>
  {
    if ps == [] then [] else [OnString(ps[0])] + TextEvents(ps[1..])
  }

  /// What an unmasked socket writes for a short text is that frame.
  lemma SendTextFrame(env: Env, c: Conn, enc: TextEncoding, s: string)
    requires Valid(c) && !c.masking && c.stream.Some? && |Encode(enc, s)| < 126
    ensures SendText(env, c, enc, s).conn.output == c.output + [Write(c.stream.value, TextFrame(Encode(enc, s)))]
  {
    var bytes := Encode(enc, s);
    var h := PrepareFrame(OP_TEXT, |bytes|, false, env.le, MaskAt(env, c.draws)).value;
    assert h == [128 + OP_TEXT as byte, |bytes| as byte];
  }

  /// One text frame at the front of the buffer is handed to the handler
  /// and removed.
  lemma TextFrameReceived(env: Env, c: Conn, was: nat, len: nat, all: nat, p: seq<byte>)
    requires Valid(c) && all <= RECV_BUF_LEN && was + len <= RECV_BUF_LEN && |p| < 126
    requires 2 + |p| <= all && c.buf[..2 + |p|] == TextFrame(p)
    ensures var it := Iteration(env, c, was, len, all);
      && it.Next? && it.all == all - (2 + |p|)
      && it.conn.events == Notify(c, OnString(p)).events
      && it.conn.buf[..it.all] == c.buf[2 + |p|..all]
      && it.conn.shut == c.shut && it.conn.stream == c.stream
  {
    assert c.buf[0] == TextFrame(p)[0] && c.buf[1] == TextFrame(p)[1];
    assert ParseHeader(c.buf, all) == Complete(OP_TEXT, 2, |p|);
    assert c.buf[2..2 + |p|] == TextFrame(p)[2..];
  }

  /// The first frame of a run of text frames and the run after it.
  lemma TextFramesSplit(buf: seq<byte>, ps: seq<seq<byte>>)
    requires AllShort(ps) && ps != [] && |TextFrames(ps)| <= |buf|
    requires buf[..|TextFrames(ps)|] == TextFrames(ps)
    ensures AllShort(ps[1..]) && |ps[0]| < 126
    ensures |TextFrames(ps)| == 2 + |ps[0]| + |TextFrames(ps[1..])|
    ensures buf[..2 + |ps[0]|] == TextFrame(ps[0])
    ensures buf[2 + |ps[0]|..|TextFrames(ps)|] == TextFrames(ps[1..])
    ensures TextEvents(ps) == [OnString(ps[0])] + TextEvents(ps[1..])
  {
    var all := |TextFrames(ps)|;
    var p := ps[0];
    assert TextFrames(ps) == TextFrame(p) + TextFrames(ps[1..]);
    assert buf[..2 + |p|] == buf[..all][..2 + |p|];
    assert buf[2 + |p|..all] == buf[..all][2 + |p|..];
    forall k | 0 <= k < |ps[1..]| ensures |ps[1..][k]| < 126 {
      assert ps[1..][k] == ps[k + 1];
    }
  }

  /// Appending the event of the first text and then those of the rest.
  lemma TextEventsCons(events: seq<Event>, ps: seq<seq<byte>>)
    requires ps != []
    ensures events + [OnString(ps[0])] + TextEvents(ps[1..]) == events + TextEvents(ps)
  {
    assert TextEvents(ps) == [OnString(ps[0])] + TextEvents(ps[1..]);
  }

  /// The loop goes on from where a pass that did not stop left it.
  lemma RecvLoopNext(env: Env, c: Conn, was: nat, len: nat, all: nat)
    requires Valid(c) && 2 <= all <= RECV_BUF_LEN && was + len <= RECV_BUF_LEN
    requires Iteration(env, c, was, len, all).Next?
    ensures var it := Iteration(env, c, was, len, all);
      RecvLoop(env, c, was, len, all) == RecvLoop(env, it.conn, was, len, it.all)
  {
  }

  /// A receiving socket whose buffer starts with the text frames of ps.
  predicate TextReady(c: Conn, ps: seq<seq<byte>>)
  {
    && Valid(c) && c.handler && AllShort(ps)
    && |TextFrames(ps)| <= RECV_BUF_LEN && c.buf[..|TextFrames(ps)|] == TextFrames(ps)
  }

  /// One pass over the first of several text frames.
  lemma TextFrameStep(env: Env, c: Conn, was: nat, len: nat, ps: seq<seq<byte>>) returns (c1: Conn)
    requires TextReady(c, ps) && ps != [] && was + len <= RECV_BUF_LEN
    ensures TextReady(c1, ps[1..])
    ensures c1.events == c.events + [OnString(ps[0])]
    ensures c1.events + TextEvents(ps[1..]) == c.events + TextEvents(ps)
    ensures RecvLoop(env, c, was, len, |TextFrames(ps)|) == RecvLoop(env, c1, was, len, |TextFrames(ps[1..])|)
  {
    var all := |TextFrames(ps)|;
    TextFramesSplit(c.buf, ps);
    TextFrameReceived(env, c, was, len, all, ps[0]);
    var it := Iteration(env, c, was, len, all);
    RecvLoopNext(env, c, was, len, all);
    c1 := it.conn;
    TextEventsCons(c.events, ps);
  }

  /// A buffer holding nothing but short text frames is read to its end:
  /// each text reaches the handler, in order, and nothing is left.
  lemma {:induction false} TextFramesReceived(env: Env, c: Conn, was: nat, len: nat, ps: seq<seq<byte>>)
    requires TextReady(c, ps) && was + len <= RECV_BUF_LEN
    ensures var l := RecvLoop(env, c, was, len, |TextFrames(ps)|);
      l.outcome == Pass && l.all == 0 && l.conn.events == c.events + TextEvents(ps)
    decreases |ps|
  {
    if ps == [] {
      assert RecvLoop(env, c, was, len, 0) == Loop(c, 0, Pass);
    } else {
      var c1 := TextFrameStep(env, c, was, len, ps);
      TextFramesReceived(env, c1, was, len, ps[1..]);
    }
  }
}
