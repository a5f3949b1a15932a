/// The WebSocket client's state as a value and what each operation does to
/// it. The class in WebSocketNet keeps the same fields and its methods are
/// proved to move between these states; the properties of the client are
/// stated here, as lemmas about the transitions.
module WebSocketSpec {
  import opened Common
  import opened Frame
  import opened HttpResponse
  import Helper

  /// A callback on the handler (`IWebSocketHandler`). Text is carried as
  /// the payload bytes the handler's string is decoded from.
  datatype Event =
    | OnString(text: seq<byte>)
    | OnBinary(data: Option<seq<byte>>)
    | OnPong(data: Option<seq<byte>>)
    | OnError(op: string, error: Error)
    | OnShutdown(code: int, data: Option<seq<byte>>)
    | OnClosed

  /// Bytes written to the connection stream with the given identity.
  datatype Write = Write(stream: nat, bytes: seq<byte>)

  /// The read begun by `beginRecv(stream, pos)`: the stream it reads and the
  /// offset in the receive buffer it fills from.
  datatype Pending = Pending(source: nat, was: nat)

  /// What the client gets from its surroundings: the host byte order, the
  /// text encoding `_enc`, the draws of `Helper.Random`, the
  /// `Sec-WebSocket-Accept` value a key calls for (the base64 of the SHA-1 of
  /// the key and the GUID of section 1.3 of RFC 6455), and the UTF-8 bytes of
  /// the opening request (the GET line and the request headers for the URL)
  /// that carries a key.
  datatype Env = Env(le: bool, enc: TextEncoding, rng: nat -> nat, accept: string -> string,
                     request: string -> seq<byte>)

  /// The fields of a WebSocket: `_stream` (by identity), `_isShuted`,
  /// `_masking`, whether a `_handler` is set, `ResponseHeaders`, the receive
  /// buffer `_buf`; what was written and called back so far; how many masks
  /// were drawn, how many streams were opened, and the read in progress.
  datatype Conn = Conn(
    stream: Option<nat>,
    shut: bool,
    masking: bool,
    handler: bool,
    headers: Headers,
    buf: seq<byte>,
    output: seq<Write>,
    events: seq<Event>,
    draws: nat,
    streamsOpened: nat,
    pending: Option<Pending>)

  predicate Valid(c: Conn)
  {
    |c.buf| == RECV_BUF_LEN && (c.pending.Some? ==> c.pending.value.was <= RECV_BUF_LEN)
  }

  /// A new WebSocket: no stream, shut, not masking, no handler.
  const INITIAL: Conn := Conn(None, true, false, false, map[], seq(RECV_BUF_LEN, _ => 0), [], [], 0, 0, None)

  /// What sending and receiving never change: the read in progress, the
  /// masking flag, the handler and the stream counter.
  predicate Keeps(a: Conn, b: Conn)
  {
    a.pending == b.pending && a.masking == b.masking && a.handler == b.handler
    && a.streamsOpened == b.streamsOpened
  }

  /// A transition that can throw.
  datatype Step = Step(conn: Conn, outcome: Outcome)

  const SHUT_MESSAGE: string := "Stream is shutdowned"
  const PING_MESSAGE: string := "Ping.data.Length must be less than 126"
  const SHUTDOWN_DATA_MESSAGE: string := "Shutdown.data.Length must be less than 124"
  const SHUTDOWN_CODE_MESSAGE: string := "If data is not null than ShutdownCode must be set"
  const MASKING_MESSAGE: string := "Cannot change IsMasking when websocket is connected"
  const INVALID_HANDSHAKE: string := "Invalid handshake response"
  const ACCEPT_MISMATCH: string := "Sec-WebSocket-Accept not equals to SHA1-hash"
  /// The parameter Encoding.GetBytes names when the request overruns `_buf`.
  const REQUEST_OVERFLOW: string := "bytes"
  const UNKNOWN_TYPE: string := "Unknown WebSocket.Payload.Type "
  const SWITCHING: string := "HTTP/1.1 101 Switching Protocols"
  const UPGRADE_KEY: string := "Upgrade"
  const CONNECTION_KEY: string := "Connection"
  const ACCEPT_KEY: string := "Sec-WebSocket-Accept"
  const WEBSOCKET: string := "websocket"
  const UPGRADE: string := "Upgrade"
  /// `ShutdownCode.Normal`.
  const NORMAL_CODE: int := 1000

  /// The k-th draw of `Helper.Random.Next(0x40000000, Int32.MaxValue)`.
  function MaskAt(env: Env, k: nat): (m: nat)
    ensures ValidMask(m) && m < TWO_32
  {
    0x4000_0000 + env.rng(k) % 0x3FFF_FFFF
  }

  /// A callback reaches the handler only when one is set.
  function Notify(c: Conn, e: Event): (r: Conn)
    ensures r.events == (if c.handler then c.events + [e] else c.events)
    ensures r.(events := c.events) == c
  {
    if c.handler then c.(events := c.events + [e]) else c
  }

  /// `send(buf, len, flush)`: written only while a stream is held.
  function Emit(c: Conn, bytes: seq<byte>): (r: Conn)
    ensures r.output == (if c.stream.Some? then c.output + [Write(c.stream.value, bytes)] else c.output)
    ensures r.(output := c.output) == c
  {
    if c.stream.Some? then c.(output := c.output + [Write(c.stream.value, bytes)]) else c
  }

  /// The mask counter after prepareFrame: one draw when masking.
  function DrawsAfter(c: Conn): nat
  {
    if c.masking then c.draws + 1 else c.draws
  }

  function PayloadOf(data: Option<seq<byte>>): seq<byte>
  {
    if data.Some? then data.value else []
  }

  // ---------------------------------------------------------------------------
  // Sending

  /// What a send does once prepareFrame has put the header h into
  /// `_sbuf`: the payload is copied after it, maskFrame runs (on the receive
  /// buffer), the mask draw is counted, a Close frame marks the socket shut,
  /// and header and payload are written.
  function SendFrame(c: Conn, opcode: int, h: seq<byte>, payload: seq<byte>): (r: Conn)
    requires Valid(c) && (c.masking ==> 4 <= |h|) && |h| + |payload| <= RECV_BUF_LEN
    ensures Valid(r) && Keeps(c, r)
  {
    var buf := if |payload| > 0 && c.masking then MaskInPlace(c.buf, |payload|, |h|) else c.buf;
    Emit(c.(buf := buf, draws := DrawsAfter(c), shut := c.shut || opcode == OP_CLOSE), h + payload)
  }

  /// `send(payload, data, flush)`, behind Ping, Shutdown and Send(byte[]):
  /// refused once shut; then prepareFrame and the frame.
  function SendData(env: Env, c: Conn, opcode: int, data: Option<seq<byte>>): (r: Step)
    requires Valid(c)
    ensures Valid(r.conn) && Keeps(c, r.conn)
  {
    if c.shut then Step(c, Fail(InvalidOperation(SHUT_MESSAGE)))
    else
      var payload := PayloadOf(data);
      match PrepareFrame(opcode, |payload|, c.masking, env.le, MaskAt(env, c.draws))
      case Err(e) => Step(c, Fail(e))
      case Ok(h) => Step(SendFrame(c, opcode, h, payload), Pass)
  }

  /// `send(str, enc, len, flush)`, behind Send(string) and SendAscii: the
  /// same frame with opcode 1, but without the shut check (maskFrame of no
  /// bytes changes nothing, so the frame is that of SendFrame).
  function SendText(env: Env, c: Conn, enc: TextEncoding, s: string): (r: Step)
    requires Valid(c)
    ensures Valid(r.conn) && Keeps(c, r.conn)
  {
    var bytes := Encode(enc, s);
    match PrepareFrame(OP_TEXT, |bytes|, c.masking, env.le, MaskAt(env, c.draws))
    case Err(e) => Step(c, Fail(e))
    case Ok(h) => Step(SendFrame(c, OP_TEXT, h, bytes), Pass)
  }

  /// Send(byte[]): ArgumentNullException for a null array.
  function SendBinary(env: Env, c: Conn, data: Option<seq<byte>>): (r: Step)
    requires Valid(c)
    ensures Valid(r.conn) && Keeps(c, r.conn)
  {
    if data.None? then Step(c, Fail(ArgumentNullError("data")))
    else SendData(env, c, OP_BINARY, data)
  }

  /// Ping(data): the payload of a control frame is shorter than 126 bytes.
  function Ping(env: Env, c: Conn, data: Option<seq<byte>>): (r: Step)
    requires Valid(c)
    ensures Valid(r.conn) && Keeps(c, r.conn)
  {
    if !(data.None? || |data.value| < 126) then Step(c, Fail(ArgumentError(PING_MESSAGE)))
    else SendData(env, c, OP_PING, data)
  }

  /// The body of a Close frame: the code in network order, then the data.
  function CloseBody(code: Option<int>, data: Option<seq<byte>>): (r: Option<seq<byte>>)
    requires code.Some? ==> -32768 <= code.value < 32768
  {
    if code.Some? then Some(CodeBytes(code.value) + PayloadOf(data)) else data
  }

  /// Shutdown(code, data): data shorter than 124 bytes, and only with a code.
  function Shutdown(env: Env, c: Conn, code: Option<int>, data: Option<seq<byte>>): (r: Step)
    requires Valid(c)
    requires code.Some? ==> -32768 <= code.value < 32768
    ensures Valid(r.conn) && Keeps(c, r.conn)
  {
    if !(data.None? || |data.value| < 124) then Step(c, Fail(ArgumentError(SHUTDOWN_DATA_MESSAGE)))
    else if !(code.Some? || data.None?) then Step(c, Fail(ArgumentError(SHUTDOWN_CODE_MESSAGE)))
    else SendData(env, c, OP_CLOSE, CloseBody(code, data))
  }

  // ---------------------------------------------------------------------------
  // Connection management

  /// The guard of the Version setter as written: an ArgumentException unless
  /// the new value is null or empty.
  function VersionCheck(value: Option<string>): (o: Outcome)
  {
    Helper.CheckArg(value.None? || value.value == "", "Version")
  }

  /// The protocol version "13" the client starts with cannot be set again.
  lemma VersionCheckRejectsVersions(v: string)
    requires v != ""
    ensures VersionCheck(Some(v)) == Fail(ArgumentError("Version"))
    ensures VersionCheck(None).Pass? && VersionCheck(Some("")).Pass?
  {
  }

  /// The guard the setter evidently means: a version must be given.
  function VersionCheckFixed(value: Option<string>): (o: Outcome)
    ensures o.Pass? <==> value.Some? && value.value != ""
    ensures o.Fail? ==> o == Fail(ArgumentError("Version"))
  {
    Helper.CheckArg(!(value.None? || value.value == ""), "Version")
  }

  /// Close(): shut, response headers cleared, stream dropped (and closed).
  function Close(c: Conn): (r: Conn)
  {
    c.(shut := true, headers := map[], stream := None)
  }

  /// Detach(): shut, and the stream handed to the caller.
  function Detach(c: Conn): (r: (Conn, Option<nat>))
  {
    (c.(shut := true, stream := None), c.stream)
  }

  /// The IsMasking setter: only while no stream is held.
  function SetMasking(c: Conn, value: bool): (r: Step)
  {
    if c.stream.Some? then Step(c, Fail(InvalidOperation(MASKING_MESSAGE)))
    else Step(c.(masking := value), Pass)
  }

  /// The status line, Upgrade and Connection headers of an accepted
  /// handshake.
  predicate UpgradeAccepted(h: Headers)
  {
    Lookup(h, HTTP_KEY) == Some(SWITCHING)
    && Lookup(h, UPGRADE_KEY) == Some(WEBSOCKET)
    && Lookup(h, CONNECTION_KEY) == Some(UPGRADE)
  }

  /// Open(url) once the connection is made: Close(); the request is encoded
  /// into the front of the receive buffer (ArgumentException if it does not
  /// fit) and written to the new stream; the response is read into
  /// ResponseHeaders and checked; only then is the new stream installed, its
  /// first read begun at offset 0, and the shut flag cleared.
  function Open(env: Env, c: Conn, response: seq<byte>, key: string): (r: Step)
    requires Valid(c)
    ensures Valid(r.conn)
  {
    var c1 := Close(c);
    var id := c1.streamsOpened;
    var req := env.request(key);
    if |req| > |c1.buf| then Step(c1.(streamsOpened := id + 1), Fail(ArgumentError(REQUEST_OVERFLOW)))
    else
      var c2 := c1.(streamsOpened := id + 1, buf := req + c1.buf[|req|..], output := c1.output + [Write(id, req)]);
      var rr := ReadResponse(response, c2.buf, c2.headers);
      Handshake(env, c2.(buf := rr.buf, headers := rr.headers), rr.outcome, id, key)
  }

  /// The checks on the response once it is read: the read must have
  /// succeeded, the server must have agreed to upgrade, and its accept key
  /// must match ours; only then is stream `id` installed and read from.
  function Handshake(env: Env, c: Conn, read: Result<nat>, id: nat, key: string): (r: Step)
    requires Valid(c)
    ensures Valid(r.conn)
  {
    if read.Err? then Step(c, Fail(read.error))
    else if !UpgradeAccepted(c.headers) then Step(c, Fail(FormatError(INVALID_HANDSHAKE)))
    else if Lookup(c.headers, ACCEPT_KEY) != Some(env.accept(key)) then Step(c, Fail(FormatError(ACCEPT_MISMATCH)))
    else Step(c.(stream := Some(id), pending := Some(Pending(id, 0)), shut := false), Pass)
  }

  // ---------------------------------------------------------------------------
  // Receiving

  /// `Array.IndexOf(_buf, value, start, count)`: the first index in
  /// [start, start + count) holding value, or -1.
  function IndexOfByte(s: seq<byte>, value: byte, start: nat, count: nat): (r: int)
    requires start + count <= |s|
    ensures r == -1 || (start <= r < start + count && s[r] == value)
    ensures r == -1 ==> forall i :: start <= i < start + count ==> s[i] != value
    ensures r >= 0 ==> forall i :: start <= i < r ==> s[i] != value
    decreases count
  {
    if count == 0 then -1
    else if s[start] == value then start
    else IndexOfByte(s, value, start + 1, count - 1)
  }

  /// `Array.Copy(_buf, from, _buf, 0, count)`: the count bytes at `from`
  /// move to the front; the rest stays.
  function ShiftDown(buf: seq<byte>, from: nat, count: nat): (r: seq<byte>)
    requires from + count <= |buf|
    ensures |r| == |buf|
    ensures r[..count] == buf[from..from + count]
    ensures r[count..] == buf[count..]
  {
    buf[from..from + count] + buf[count..]
  }

  /// One pass of the recv loop: it either leaves the loop (with or without
  /// an exception) or consumes bytes from the front and goes on.
  datatype Iter = Break(conn: Conn, outcome: Outcome) | Next(conn: Conn, all: nat)

  /// The legacy branch (first byte 0): without a 0xFF among the bytes this
  /// read delivered, the loop stops and waits. Otherwise the text is handed
  /// on and the bytes up to the 0xFF are dropped, with the offsets the
  /// source computes from `was` and `len` of this read.
  function LegacyIteration(c: Conn, was: nat, len: nat, all: nat): (r: Iter)
    requires Valid(c) && 2 <= all <= RECV_BUF_LEN && was + len <= RECV_BUF_LEN
    ensures r.Next? ==> r.all < all && Valid(r.conn)
    ensures r.Break? ==> Valid(r.conn)
    ensures Keeps(c, r.conn)
  {
    var pos := IndexOfByte(c.buf, 255, was, len);
    if pos < 0 then Break(c, Pass)
    else if was + pos < 1 || was + pos > RECV_BUF_LEN then Break(c, Fail(ArgumentOutOfRange))
    else LegacyFound(c, was, pos, all)
  }

  /// The legacy branch once a 0xFF was found at `was + pos`.
  function LegacyFound(c: Conn, was: nat, pos: nat, all: nat): (r: Iter)
    requires Valid(c) && 2 <= all <= RECV_BUF_LEN && 1 <= was + pos <= RECV_BUF_LEN
    ensures r.Next? ==> r.all < all && Valid(r.conn)
    ensures r.Break? ==> Valid(r.conn)
    ensures Keeps(c, r.conn)
  {
    var c1 := Notify(c, OnString(c.buf[1..was + pos]));
    if pos + 1 > all then Break(c1, Fail(ArgumentOutOfRange))
    else Next(c1.(buf := ShiftDown(c1.buf, pos + 1, all - (pos + 1))), all - (pos + 1))
  }

  /// What the payload callbacks receive: `new ArraySegment(_buf, tn, n).Array`
  /// is the whole receive buffer; null for text and close frames and for an
  /// empty payload.
  function FrameData(c: Conn, op: nat, n: nat): Option<seq<byte>>
  {
    if op != OP_TEXT && op != OP_CLOSE && n > 0 then Some(c.buf) else None
  }

  /// A Close frame: the code is the first two payload bytes in network
  /// order, Normal when there are fewer. Unless this is the echo of our own
  /// Shutdown, the handler hears of it and the code is sent back; the
  /// connection is closed in either case.
  function CloseFrame(env: Env, c: Conn, tn: nat, n: nat): (r: Step)
    requires Valid(c) && tn + n <= RECV_BUF_LEN
    ensures Valid(r.conn) && Keeps(c, r.conn)
  {
    var code := if n >= 2 then CloseCode(c.buf[tn], c.buf[tn + 1]) else NORMAL_CODE;
    var data := if n > 2 then Some(c.buf) else None;
    if !c.shut then
      var s := Shutdown(env, Notify(c, OnShutdown(code, data)), Some(code), None);
      if s.outcome.Fail? then s else Step(Close(s.conn), Pass)
    else Step(Close(c), Pass)
  }

  /// The opcode switch of the recv loop for a complete frame.
  function Dispatch(env: Env, c: Conn, op: nat, tn: nat, n: nat): (r: Step)
    requires Valid(c) && tn + n <= RECV_BUF_LEN
    ensures Valid(r.conn) && Keeps(c, r.conn)
  {
    var data := FrameData(c, op, n);
    if op == OP_TEXT then Step(Notify(c, OnString(c.buf[tn..tn + n])), Pass)
    else if op == OP_BINARY then Step(Notify(c, OnBinary(data)), Pass)
    else if op == OP_PING then (if !c.shut then SendData(env, c, OP_PONG, data) else Step(c, Pass))
    else if op == OP_PONG then (if !c.shut then Step(Notify(c, OnPong(data)), Pass) else Step(c, Pass))
    else if op == OP_CLOSE then CloseFrame(env, c, tn, n)
    else Step(c, Fail(ArgumentError(UNKNOWN_TYPE + NatToString(op))))
  }

  /// One pass of `while (all > 1)` on the first `all` bytes of the buffer.
  function Iteration(env: Env, c: Conn, was: nat, len: nat, all: nat): (r: Iter)
    requires Valid(c) && 2 <= all <= RECV_BUF_LEN && was + len <= RECV_BUF_LEN
    ensures r.Next? ==> r.all < all && Valid(r.conn)
    ensures r.Break? ==> Valid(r.conn)
    ensures Keeps(c, r.conn)
  {
    match ParseHeader(c.buf, all)
    case Legacy => LegacyIteration(c, was, len, all)
    case Incomplete => Break(c, Pass)
    case Malformed(e) => Break(c, Fail(e))
    case Complete(op, tn, n) =>
      var s := Dispatch(env, c, op, tn, n);
      if s.outcome.Fail? then Break(s.conn, s.outcome)
      else Next(s.conn.(buf := ShiftDown(s.conn.buf, tn + n, all - (tn + n))), all - (tn + n))
  }

  /// The state the loop ends in, the bytes left at the front of the buffer,
  /// and whether it threw.
  datatype Loop = Loop(conn: Conn, all: nat, outcome: Outcome)

  /// The recv loop from `all` buffered bytes to its end.
  function RecvLoop(env: Env, c: Conn, was: nat, len: nat, all: nat): (r: Loop)
    requires Valid(c) && all <= RECV_BUF_LEN && was + len <= RECV_BUF_LEN
    ensures Valid(r.conn) && r.all <= all && Keeps(c, r.conn)
    decreases all
  {
    if all <= 1 then Loop(c, all, Pass)
    else
      match Iteration(env, c, was, len, all)
      case Break(c1, o) => Loop(c1, all, o)
      case Next(c1, all1) => RecvLoop(env, c1, was, len, all1)
  }

  /// The state the loop starts from: the read is over and its bytes sit in
  /// the buffer at the offset it was begun with.
  function Filled(c: Conn, chunk: seq<byte>): (r: Conn)
    requires Valid(c) && c.pending.Some? && c.pending.value.was + |chunk| <= RECV_BUF_LEN
    ensures Valid(r)
    ensures r.buf[c.pending.value.was..c.pending.value.was + |chunk|] == chunk
  {
    var was := c.pending.value.was;
    var buf := c.buf[..was] + chunk + c.buf[was + |chunk|..];
    assert buf[was..was + |chunk|] == chunk;
    c.(pending := None, buf := buf)
  }

  /// The recv callback for the read in progress, which delivered `chunk`
  /// at offset `was`: zero bytes mean the peer closed; otherwise the loop
  /// runs; after it a new read is begun at the end of what is left, unless
  /// the socket is shut or its stream changed; an exception ends reading
  /// and is reported only while the stream is still the one read.
  function Receive(env: Env, c: Conn, chunk: seq<byte>): (r: Conn)
    requires Valid(c) && c.pending.Some? && c.pending.value.was + |chunk| <= RECV_BUF_LEN
    ensures Valid(r)
  {
    var p := c.pending.value;
    if |chunk| == 0 then Notify(c.(pending := None), OnClosed)
    else
      Resume(RecvLoop(env, Filled(c, chunk), p.was, |chunk|, p.was + |chunk|), p)
  }

  /// After the loop of the read `p`: an exception is reported while the
  /// stream is still the one read; otherwise a new read is begun at the end
  /// of what is left, unless the socket is shut or its stream changed.
  function Resume(l: Loop, p: Pending): (r: Conn)
    requires Valid(l.conn) && l.conn.pending.None? && l.all <= RECV_BUF_LEN
    ensures Valid(r)
  {
    if l.outcome.Fail? then
      (if l.conn.stream == Some(p.source) then Notify(l.conn, OnError("recv", l.outcome.error)) else l.conn)
    else if !l.conn.shut && l.conn.stream == Some(p.source) then l.conn.(pending := Some(Pending(p.source, l.all)))
    else l.conn
  }

  /// The read in progress failed: reported only while its stream is held.
  function ReadFailed(c: Conn, err: Error): (r: Conn)
    requires c.pending.Some?
  {
    var c0 := c.(pending := None);
    if c.stream == Some(c.pending.value.source) then Notify(c0, OnError("recv", err)) else c0
  }
}
