/// The WebSocket class itself: its fields, the receive buffer `_buf` and
/// the send buffer `_sbuf` as arrays, and each operation as a method that
/// changes them in place. Every method is proved to move the fields from
/// one state of WebSocketSpec to the next, so the laws proved there hold
/// of the class.
module WebSocketNet {
  import opened Common
  import opened Frame
  import opened HttpResponse
  import opened WebSocketSpec
  import WebSocketLaws

  class WebSocket {
    /// Host byte order, `_enc`, the mask draws and the accept function.
    const env: Env
    /// `_stream`, by identity.
    var stream: Option<nat>
    /// `_isShuted`.
    var shut: bool
    /// `_masking`.
    var masking: bool
    /// Whether `_handler` is set.
    var handler: bool
    /// `ResponseHeaders`.
    var headers: Headers
    /// `_version`.
    var version: Option<string>
    /// `_buf`, 65 * 1024 bytes.
    const buf: array<byte>
    /// `_sbuf`, 64K + 16 bytes.
    const sbuf: array<byte>
    /// What was written to the streams and called back on the handler.
    var output: seq<Write>
    var events: seq<Event>
    /// Masks drawn, streams opened, and the read in progress.
    var draws: nat
    var streamsOpened: nat
    var pending: Option<Pending>

    /// The fields as a state of WebSocketSpec.
    function Snapshot(): Conn
      reads this, buf
    {
      Conn(stream, shut, masking, handler, headers, buf[..], output, events, draws, streamsOpened, pending)
    }

    predicate Valid()
      reads this, buf
    {
      buf.Length == RECV_BUF_LEN && sbuf.Length == SEND_BUF_LEN && buf != sbuf
      && WebSocketSpec.Valid(Snapshot())
    }

    /// `new WebSocket(encoding)`: shut, not masking, no stream, no handler,
    /// protocol version 13.
    constructor (env: Env)
      ensures Valid() && fresh(buf) && fresh(sbuf)
      ensures this.env == env && version == Some("13")
      ensures Snapshot() == INITIAL
    {
      this.env := env;
      stream := None;
      shut := true;
      masking := false;
      handler := false;
      headers := map[];
      version := Some("13");
      buf := new byte[RECV_BUF_LEN](_ => 0);
      sbuf := new byte[SEND_BUF_LEN](_ => 0);
      output := [];
      events := [];
      draws := 0;
      streamsOpened := 0;
      pending := None;
    }

    // -------------------------------------------------------------------------
    // Properties

    /// The Version setter, with its guard as written.
    method SetVersion(value: Option<string>) returns (o: Outcome)
      modifies this
      ensures o == VersionCheck(value)
      ensures version == (if o.Pass? then value else old(version))
      ensures Snapshot() == old(Snapshot())
    {
      o := VersionCheck(value);
      if o.Pass? {
        version := value;
      }
    }

    /// The Handler setter.
    method SetHandler(value: bool)
      modifies this
      ensures Snapshot() == old(Snapshot()).(handler := value)
    {
      handler := value;
    }

    /// The IsMasking setter.
    method SetMasking(value: bool) returns (o: Outcome)
      modifies this
      ensures Step(Snapshot(), o) == WebSocketSpec.SetMasking(old(Snapshot()), value)
    {
      if stream.Some? {
        return Fail(InvalidOperation(MASKING_MESSAGE));
      }
      masking := value;
      o := Pass;
    }

    // -------------------------------------------------------------------------
    // Sending

    /// `prepareFrame(payload, len)`: the header, with the key of the
    /// current mask draw, goes to the front of `_sbuf` and its length is
    /// returned. The caller counts the draw.
    method PrepareFrame(opcode: int, len: nat) returns (r: Result<nat>)
      requires sbuf.Length == SEND_BUF_LEN
      modifies sbuf
      ensures var p := Frame.PrepareFrame(opcode, len, masking, env.le, MaskAt(env, draws));
        && (p.Err? ==> r == Err(p.error))
        && (p.Ok? ==> r == Ok(|p.value|) && sbuf[..|p.value|] == p.value)
    {
      if !(len < C64K) {
        return Err(ArgumentError(LENGTH_MESSAGE));
      }
      if !(0 <= opcode < 16) {
        return Err(ArgumentError(OPCODE_MESSAGE));
      }
      var key := MaskKeyBytes(MaskAt(env, draws), env.le);
      var ofs := WriteHeader(opcode, len, LengthBytesAsWritten(len, env.le), key);
      return Ok(ofs);
    }

    /// The byte stores of prepareFrame: FIN and opcode, the length (with
    /// the mask bit when masking), the extended length, the key.
    method WriteHeader(opcode: nat, len: nat, lenBytes: seq<byte>, key: seq<byte>) returns (ofs: nat)
      requires opcode < 16 && len < C64K && |lenBytes| == 2 && |key| == 4
      requires sbuf.Length == SEND_BUF_LEN
      modifies sbuf
      ensures ofs == HeaderLen(len, masking)
      ensures sbuf[..ofs] == Header(opcode, len, masking, lenBytes, key)
    {
      ghost var h := Header(opcode, len, masking, lenBytes, key);
      ofs := if len < 126 then 2 else 4;
      sbuf[0] := SetHighBit(opcode as byte);
      if len < 126 {
        sbuf[1] := len as byte;
      } else {
        sbuf[1] := 126;
        sbuf[2] := lenBytes[0];
        sbuf[3] := lenBytes[1];
      }
      if masking {
        sbuf[1] := SetHighBit(sbuf[1]);
        sbuf[ofs] := key[0];
        sbuf[ofs + 1] := key[1];
        sbuf[ofs + 2] := key[2];
        sbuf[ofs + 3] := key[3];
        ofs := ofs + 4;
        assert sbuf[ofs - 4..ofs] == h[|h| - 4..];
      }
      assert len >= 126 ==> sbuf[2..4] == h[2..4];
      assert forall k :: 0 <= k < ofs ==> sbuf[k] == h[k];
    }

    /// `maskFrame(len, ofs)`: nothing unless masking; otherwise each of the
    /// len bytes at ofs is XORed with the key byte `i & 3` (that is, i mod
    /// 4) of the four before ofs -- in the receive buffer `_buf`.
    method MaskFrame(len: nat, ofs: nat)
      requires Valid() && (masking ==> 4 <= ofs) && ofs + len <= RECV_BUF_LEN
      modifies buf
      ensures Valid()
      ensures buf[..] == if masking then MaskInPlace(old(buf[..]), len, ofs) else old(buf[..])
    {
      if !masking {
        return;
      }
      var i := 0;
      while i < len
        invariant 0 <= i <= len
        invariant buf[..] == MaskInPlace(old(buf[..]), i, ofs)
      {
        MaskInPlaceStep(old(buf[..]), i, ofs);
        buf[i + ofs] := Xor(buf[i + ofs], buf[ofs - 4 + i % 4]);
        i := i + 1;
      }
    }

    /// `Array.Copy(data, 0, _sbuf, ofs, len)` and `enc.GetBytes(str, ...,
    /// _sbuf, ofs)`: the payload goes right after the header.
    method CopyToSend(ofs: nat, payload: seq<byte>)
      requires sbuf.Length == SEND_BUF_LEN && ofs + |payload| <= SEND_BUF_LEN
      modifies sbuf
      ensures sbuf[..ofs + |payload|] == old(sbuf[..ofs]) + payload
    {
      forall k | 0 <= k < |payload| {
        sbuf[ofs + k] := payload[k];
      }
      assert forall k :: 0 <= k < ofs + |payload| ==> sbuf[k] == (old(sbuf[..ofs]) + payload)[k];
    }

    /// `send(buf, len, flush)`: the first len bytes of `_sbuf` go to the
    /// stream, if one is held.
    method WriteOut(len: nat)
      requires len <= sbuf.Length
      modifies this
      ensures Snapshot() == Emit(old(Snapshot()), sbuf[..len])
    {
      if stream.Some? {
        output := output + [Write(stream.value, sbuf[..len])];
      }
    }

    /// `send(payload, data, flush)`.
    method SendData(opcode: int, data: Option<seq<byte>>) returns (o: Outcome)
      requires Valid()
      modifies this, buf, sbuf
      ensures Valid()
      ensures Step(Snapshot(), o) == WebSocketSpec.SendData(env, old(Snapshot()), opcode, data)
    {
      if shut {
        return Fail(InvalidOperation(SHUT_MESSAGE));
      }
      var payload := PayloadOf(data);
      var r := PrepareFrame(opcode, |payload|);
      if r.Err? {
        return Fail(r.error);
      }
      SendFrame(opcode, r.value, payload);
      o := Pass;
    }

    /// `send(str, enc, len, flush)`.
    method SendText(enc: TextEncoding, s: string) returns (o: Outcome)
      requires Valid()
      modifies this, buf, sbuf
      ensures Valid()
      ensures Step(Snapshot(), o) == WebSocketSpec.SendText(env, old(Snapshot()), enc, s)
    {
      var bytes := Encode(enc, s);
      var r := PrepareFrame(OP_TEXT, |bytes|);
      if r.Err? {
        return Fail(r.error);
      }
      SendFrame(OP_TEXT, r.value, bytes);
      o := Pass;
    }

    /// The rest of a send once the header of ofs bytes is in `_sbuf`.
    method SendFrame(opcode: int, ofs: nat, payload: seq<byte>)
      requires Valid() && (masking ==> 4 <= ofs) && ofs + |payload| <= SEND_BUF_LEN
      modifies this, buf, sbuf
      ensures Valid()
      ensures Snapshot() == WebSocketSpec.SendFrame(old(Snapshot()), opcode, old(sbuf[..ofs]), payload)
    {
      CopyToSend(ofs, payload);
      if |payload| > 0 {
        MaskFrame(|payload|, ofs);
      }
      if masking {
        draws := draws + 1;
      }
      shut := shut || opcode == OP_CLOSE;
      WriteOut(ofs + |payload|);
    }

    /// SendAscii(str).
    method SendAscii(s: string) returns (o: Outcome)
      requires Valid()
      modifies this, buf, sbuf
      ensures Valid()
      ensures Step(Snapshot(), o) == WebSocketSpec.SendText(env, old(Snapshot()), Ascii, s)
    {
      o := SendText(Ascii, s);
    }

    /// Send(string), in the socket's encoding.
    method Send(s: string) returns (o: Outcome)
      requires Valid()
      modifies this, buf, sbuf
      ensures Valid()
      ensures Step(Snapshot(), o) == WebSocketSpec.SendText(env, old(Snapshot()), env.enc, s)
    {
      o := SendText(env.enc, s);
    }

    /// Send(byte[]).
    method SendBinary(data: Option<seq<byte>>) returns (o: Outcome)
      requires Valid()
      modifies this, buf, sbuf
      ensures Valid()
      ensures Step(Snapshot(), o) == WebSocketSpec.SendBinary(env, old(Snapshot()), data)
    {
      if data.None? {
        return Fail(ArgumentNullError("data"));
      }
      o := SendData(OP_BINARY, data);
    }

    /// Ping(data).
    method Ping(data: Option<seq<byte>>) returns (o: Outcome)
      requires Valid()
      modifies this, buf, sbuf
      ensures Valid()
      ensures Step(Snapshot(), o) == WebSocketSpec.Ping(env, old(Snapshot()), data)
    {
      if !(data.None? || |data.value| < 126) {
        return Fail(ArgumentError(PING_MESSAGE));
      }
      o := SendData(OP_PING, data);
    }

    /// Shutdown(code, data).
    method Shutdown(code: Option<int>, data: Option<seq<byte>>) returns (o: Outcome)
      requires Valid() && (code.Some? ==> -32768 <= code.value < 32768)
      modifies this, buf, sbuf
      ensures Valid()
      ensures Step(Snapshot(), o) == WebSocketSpec.Shutdown(env, old(Snapshot()), code, data)
    {
      if !(data.None? || |data.value| < 124) {
        return Fail(ArgumentError(SHUTDOWN_DATA_MESSAGE));
      }
      if !(code.Some? || data.None?) {
        return Fail(ArgumentError(SHUTDOWN_CODE_MESSAGE));
      }
      o := SendData(OP_CLOSE, CloseBody(code, data));
    }

    // -------------------------------------------------------------------------
    // Connection management

    /// Close().
    method Close()
      requires Valid()
      modifies this
      ensures Valid()
      ensures Snapshot() == WebSocketSpec.Close(old(Snapshot()))
    {
      shut := true;
      headers := map[];
      stream := None;
    }

    /// Detach(): the stream goes to the caller.
    method Detach() returns (s: Option<nat>)
      modifies this
      ensures (Snapshot(), s) == WebSocketSpec.Detach(old(Snapshot()))
    {
      shut := true;
      s := stream;
      stream := None;
    }

    /// readHttpResponse(stream, ResponseHeaders): byte by byte into `_buf`,
    /// with the last four bytes in the shift register `eof`.
    method ReadHttpResponse(input: seq<byte>) returns (r: Result<nat>)
      requires Valid()
      modifies this, buf
      ensures Valid()
      ensures var rr := ReadResponse(input, old(buf[..]), old(headers));
        r == rr.outcome && Snapshot() == old(Snapshot()).(buf := rr.buf, headers := rr.headers)
    {
      var i, eof, pos := 0, 0, 0;
      while true
        invariant Valid() && i <= |input|
        invariant Read(StoreBytes, input, i, eof, pos, buf[..], headers) == ReadResponse(input, old(buf[..]), old(headers))
        invariant Snapshot() == old(Snapshot()).(buf := buf[..], headers := headers)
        decreases |input| - i
      {
        if i >= |input| {
          return Err(IOError("stream was closed"));
        }
        var b := input[i];
        if pos >= buf.Length {
          return Err(IndexOutOfRange);
        }
        buf[pos] := b;
        i, pos := i + 1, pos + 1;
        eof := ShiftIn(eof, b);
        if eof == EOF {
          return Ok(i);
        }
        if eof % 65536 == EOL {
          if pos < 2 {
            return Err(ArgumentOutOfRange);
          }
          var stored := StoreBytes(headers, buf[..pos - 2]);
          if stored.Err? {
            return Err(stored.error);
          }
          headers := stored.value;
          pos := 0;
        }
      }
    }

    /// Open(url), from the moment the connection is made: the response is
    /// read and checked, and only then is the stream installed and its first
    /// read begun.
    method Open(response: seq<byte>, key: string) returns (o: Outcome)
      requires Valid()
      modifies this, buf
      ensures Valid()
      ensures Step(Snapshot(), o) == WebSocketSpec.Open(env, old(Snapshot()), response, key)
    {
      ghost var c1 := WebSocketSpec.Close(Snapshot());
      var id := Restart();
      var req := env.request(key);
      if |req| > buf.Length {
        return Fail(ArgumentError(REQUEST_OVERFLOW));
      }
      SendRequest(id, req);
      ghost var c2 := Snapshot();
      assert c2 == c1.(streamsOpened := id + 1, buf := req + c1.buf[|req|..], output := c1.output + [Write(id, req)]);
      var r := ReadHttpResponse(response);
      ghost var rr := ReadResponse(response, c2.buf, c2.headers);
      assert r == rr.outcome && Snapshot() == c2.(buf := rr.buf, headers := rr.headers);
      o := Accept(r, id, key);
    }

    /// `Encoding.UTF8.GetBytes(sreq, 0, sreq.Length, _buf, 0)`, then
    /// `stream.Write(_buf, 0, len)` on the new stream.
    method SendRequest(id: nat, req: seq<byte>)
      requires Valid() && |req| <= buf.Length
      modifies this, buf
      ensures Valid()
      ensures Snapshot() == old(Snapshot()).(buf := req + old(buf[..])[|req|..], output := old(output) + [Write(id, req)])
    {
      forall k | 0 <= k < |req| {
        buf[k] := req[k];
      }
      assert buf[..] == req + old(buf[..])[|req|..];
      output := output + [Write(id, req)];
    }

    /// Close(), then the number of the stream about to be opened, counted.
    method Restart() returns (id: nat)
      requires Valid()
      modifies this
      ensures Valid() && id == old(streamsOpened)
      ensures Snapshot() == WebSocketSpec.Close(old(Snapshot())).(streamsOpened := id + 1)
    {
      Close();
      id := streamsOpened;
      streamsOpened := id + 1;
    }

    /// The checks once the response is read, and the stream installed when
    /// they pass.
    method Accept(read: Result<nat>, id: nat, key: string) returns (o: Outcome)
      requires Valid()
      modifies this
      ensures Valid()
      ensures Step(Snapshot(), o) == WebSocketSpec.Handshake(env, old(Snapshot()), read, id, key)
    {
      if read.Err? {
        return Fail(read.error);
      }
      if !UpgradeAccepted(headers) {
        return Fail(FormatError(INVALID_HANDSHAKE));
      }
      if Lookup(headers, ACCEPT_KEY) != Some(env.accept(key)) {
        return Fail(FormatError(ACCEPT_MISMATCH));
      }
      stream := Some(id);
      pending := Some(Pending(id, 0));
      shut := false;
      o := Pass;
    }

    // -------------------------------------------------------------------------
    // Receiving

    /// A callback on the handler, if one is set.
    method Notify(e: Event)
      modifies this
      ensures Snapshot() == WebSocketSpec.Notify(old(Snapshot()), e)
    {
      if handler {
        events := events + [e];
      }
    }

    /// `Array.Copy(_buf, from, _buf, 0, count)`.
    method ShiftDown(from: nat, count: nat)
      requires Valid() && from + count <= RECV_BUF_LEN
      modifies buf
      ensures Valid()
      ensures buf[..] == WebSocketSpec.ShiftDown(old(buf[..]), from, count)
    {
      forall k | 0 <= k < count {
        buf[k] := buf[from + k];
      }
    }

    /// The Close branch of the opcode switch.
    method CloseFrame(tn: nat, n: nat) returns (o: Outcome)
      requires Valid() && tn + n <= RECV_BUF_LEN
      modifies this, buf, sbuf
      ensures Valid()
      ensures Step(Snapshot(), o) == WebSocketSpec.CloseFrame(env, old(Snapshot()), tn, n)
    {
      var code := if n >= 2 then CloseCode(buf[tn], buf[tn + 1]) else NORMAL_CODE;
      var data := if n > 2 then Some(buf[..]) else None;
      if !shut {
        Notify(OnShutdown(code, data));
        o := Shutdown(Some(code), None);
        if o.Fail? {
          return;
        }
      }
      Close();
      o := Pass;
    }

    /// The opcode switch for a complete frame of n payload bytes after a
    /// header of tn bytes.
    method Dispatch(op: nat, tn: nat, n: nat) returns (o: Outcome)
      requires Valid() && tn + n <= RECV_BUF_LEN
      modifies this, buf, sbuf
      ensures Valid()
      ensures Step(Snapshot(), o) == WebSocketSpec.Dispatch(env, old(Snapshot()), op, tn, n)
    {
      var data := if op != OP_TEXT && op != OP_CLOSE && n > 0 then Some(buf[..]) else None;
      if op == OP_TEXT {
        Notify(OnString(buf[tn..tn + n]));
        o := Pass;
      } else if op == OP_BINARY {
        Notify(OnBinary(data));
        o := Pass;
      } else if op == OP_PING {
        if !shut {
          o := SendData(OP_PONG, data);
        } else {
          o := Pass;
        }
      } else if op == OP_PONG {
        if !shut {
          Notify(OnPong(data));
        }
        o := Pass;
      } else if op == OP_CLOSE {
        o := CloseFrame(tn, n);
      } else {
        o := Fail(ArgumentError(UNKNOWN_TYPE + NatToString(op)));
      }
    }

    /// The legacy branch of the loop, for a buffer starting with 0.
    method LegacyIteration(was: nat, len: nat, all: nat) returns (next: bool, o: Outcome, rest: nat)
      requires Valid() && 2 <= all <= RECV_BUF_LEN && was + len <= RECV_BUF_LEN
      modifies this, buf
      ensures Valid()
      ensures WebSocketSpec.LegacyIteration(old(Snapshot()), was, len, all)
        == if next then Next(Snapshot(), rest) else Break(Snapshot(), o)
    {
      var pos := IndexOfByte(buf[..], 255, was, len);
      if pos < 0 {
        return false, Pass, all;
      }
      if was + pos < 1 || was + pos > RECV_BUF_LEN {
        return false, Fail(ArgumentOutOfRange), all;
      }
      next, o, rest := LegacyFound(was, pos, all);
    }

    /// The legacy branch once a 0xFF was found at `was + pos`.
    method LegacyFound(was: nat, pos: nat, all: nat) returns (next: bool, o: Outcome, rest: nat)
      requires Valid() && 2 <= all <= RECV_BUF_LEN && 1 <= was + pos <= RECV_BUF_LEN
      modifies this, buf
      ensures Valid()
      ensures WebSocketSpec.LegacyFound(old(Snapshot()), was, pos, all)
        == if next then Next(Snapshot(), rest) else Break(Snapshot(), o)
    {
      Notify(OnString(buf[1..was + pos]));
      if pos + 1 > all {
        return false, Fail(ArgumentOutOfRange), all;
      }
      ShiftDown(pos + 1, all - (pos + 1));
      return true, Pass, all - (pos + 1);
    }

    /// The header checks of the loop, reading the front of the buffer.
    method ReadHeader(all: nat) returns (p: HeaderParse)
      requires buf.Length == RECV_BUF_LEN && 2 <= all <= RECV_BUF_LEN
      ensures p == ParseHeader(buf[..], all)
    {
      var b := buf[0];
      if b == 0 {
        return Legacy;
      }
      if !HighBit(b) {
        return Malformed(ArgumentError(NON_FIN_MESSAGE));
      }
      var op := LowNibble(b) as nat;
      var n := buf[1] as nat;
      var tn := 2;
      if HighBit(buf[1]) {
        return Malformed(ArgumentError(MASKED_MESSAGE));
      }
      if n >= 126 {
        if n >= 127 {
          return Malformed(ArgumentError(LONG_MESSAGE));
        }
        if all < 4 {
          return Incomplete;
        }
        n := (buf[2] as nat) * 256 + buf[3] as nat;
        tn := 4;
      }
      if all < tn + n {
        return Incomplete;
      }
      return Complete(op, tn, n);
    }

    /// One pass of `while (all > 1)`: the header checks, the switch, and
    /// the removal of the frame from the front of the buffer.
    method Iteration(was: nat, len: nat, all: nat) returns (next: bool, o: Outcome, rest: nat)
      requires Valid() && 2 <= all <= RECV_BUF_LEN && was + len <= RECV_BUF_LEN
      modifies this, buf, sbuf
      ensures Valid()
      ensures WebSocketSpec.Iteration(env, old(Snapshot()), was, len, all)
        == if next then Next(Snapshot(), rest) else Break(Snapshot(), o)
    {
      var p := ReadHeader(all);
      match p
      case Legacy =>
        next, o, rest := LegacyIteration(was, len, all);
      case Incomplete =>
        return false, Pass, all;
      case Malformed(e) =>
        return false, Fail(e), all;
      case Complete(op, tn, n) =>
        next, o, rest := FrameIteration(op, tn, n, all);
    }

    /// A complete frame of `tn + n` bytes: dispatched, then shifted out of
    /// the buffer unless handling it threw.
    method FrameIteration(op: nat, tn: nat, n: nat, all: nat) returns (next: bool, o: Outcome, rest: nat)
      requires Valid() && tn + n <= all <= RECV_BUF_LEN
      modifies this, buf, sbuf
      ensures Valid()
      ensures var s := WebSocketSpec.Dispatch(env, old(Snapshot()), op, tn, n);
        (if next then Next(Snapshot(), rest) else Break(Snapshot(), o))
        == if s.outcome.Fail? then Break(s.conn, s.outcome)
           else Next(s.conn.(buf := WebSocketSpec.ShiftDown(s.conn.buf, tn + n, all - (tn + n))), all - (tn + n))
    {
      o := Dispatch(op, tn, n);
      if o.Fail? {
        return false, o, all;
      }
      ghost var c := Snapshot();
      ShiftDown(tn + n, all - (tn + n));
      assert Snapshot() == c.(buf := buf[..]);
      return true, Pass, all - (tn + n);
    }

    /// The recv loop over the first all0 bytes of the buffer.
    method RecvLoop(was: nat, len: nat, all0: nat) returns (all: nat, o: Outcome)
      requires Valid() && all0 <= RECV_BUF_LEN && was + len <= RECV_BUF_LEN
      modifies this, buf, sbuf
      ensures Valid()
      ensures WebSocketSpec.RecvLoop(env, old(Snapshot()), was, len, all0) == Loop(Snapshot(), all, o)
    {
      all := all0;
      while all > 1
        invariant Valid() && all <= RECV_BUF_LEN
        invariant WebSocketSpec.RecvLoop(env, Snapshot(), was, len, all)
          == WebSocketSpec.RecvLoop(env, old(Snapshot()), was, len, all0)
        decreases all
      {
        ghost var c := Snapshot();
        var next, o', rest := Iteration(was, len, all);
        if !next {
          return all, o';
        }
        WebSocketLaws.RecvLoopNext(env, c, was, len, all);
        all := rest;
      }
      o := Pass;
    }

    /// recv(ar) for the read in progress, which delivered `chunk` into the
    /// buffer at the offset it was begun with.
    method Receive(chunk: seq<byte>)
      requires Valid() && pending.Some? && pending.value.was + |chunk| <= RECV_BUF_LEN
      modifies this, buf, sbuf
      ensures Valid()
      ensures Snapshot() == WebSocketSpec.Receive(env, old(Snapshot()), chunk)
    {
      var p := pending.value;
      if |chunk| == 0 {
        pending := None;
        Notify(OnClosed);
        return;
      }
      Fill(chunk);
      var all, o := RecvLoop(p.was, |chunk|, p.was + |chunk|);
      Resume(all, o, p);
    }

    /// What follows the loop of the read `p`, which ended with `all` bytes
    /// kept and outcome `o`.
    method Resume(all: nat, o: Outcome, p: Pending)
      requires Valid() && pending.None? && all <= RECV_BUF_LEN
      modifies this
      ensures Valid()
      ensures Snapshot() == WebSocketSpec.Resume(Loop(old(Snapshot()), all, o), p)
    {
      if o.Fail? {
        if stream == Some(p.source) {
          Notify(OnError("recv", o.error));
        }
        return;
      }
      if !shut && stream == Some(p.source) {
        pending := Some(Pending(p.source, all));
      }
    }

    /// The read completes: its bytes are in the buffer at its offset.
    method Fill(chunk: seq<byte>)
      requires Valid() && pending.Some? && pending.value.was + |chunk| <= RECV_BUF_LEN
      modifies this, buf
      ensures Valid()
      ensures Snapshot() == Filled(old(Snapshot()), chunk)
    {
      var was := pending.value.was;
      forall k | 0 <= k < |chunk| {
        buf[was + k] := chunk[k];
      }
      pending := None;
      assert buf[..] == old(buf[..was]) + chunk + old(buf[was + |chunk|..]);
    }

    /// EndRead threw.
    method ReadFailed(err: Error)
      requires pending.Some?
      modifies this
      ensures Snapshot() == WebSocketSpec.ReadFailed(old(Snapshot()), err)
    {
      var p := pending.value;
      pending := None;
      if stream == Some(p.source) {
        Notify(OnError("recv", err));
      }
    }
  }
}
