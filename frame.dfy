/// The frame codec of the WebSocket client (section 5.2 of RFC 6455, reduced
/// to FIN frames with payloads shorter than 64K): the header prepareFrame
/// writes, the XOR loop of maskFrame, the header decisions of the receive
/// loop, and the two-byte status code of a Close frame.
module Frame {
  import opened Common

  /// Payloads must be shorter than this (`c64K`).
  const C64K: nat := 65536
  /// Length of the receive buffer `_buf` (65 * 1024).
  const RECV_BUF_LEN: nat := 66560
  /// Length of the send buffer `_sbuf` (64K + 16).
  const SEND_BUF_LEN: nat := 65552

  const OP_TEXT: int := 1
  const OP_BINARY: int := 2
  const OP_CLOSE: int := 8
  const OP_PING: int := 9
  const OP_PONG: int := 10

  /// The range of `Helper.Random.Next(0x40000000, Int32.MaxValue)`.
  predicate ValidMask(m: int) { 0x4000_0000 <= m < 0x7FFF_FFFF }

  // ---------------------------------------------------------------------------
  // 32-bit patterns and host byte order

  /// The four bytes of a 32-bit pattern, least significant first.
  function Bytes32(v: nat): (r: seq<byte>)
    requires v < TWO_32
    ensures |r| == 4
    ensures (r[0] as int) + 256 * (r[1] as int) + 65536 * (r[2] as int) + 16777216 * (r[3] as int) == v
  {
    Base256(v);
    [(v % 256) as byte, ((v / 256) % 256) as byte, ((v / 65536) % 256) as byte, (v / 16777216) as byte]
  }

  lemma Base256(v: nat)
    requires v < TWO_32
    ensures v / 16777216 < 256
    ensures v % 256 + 256 * ((v / 256) % 256) + 65536 * ((v / 65536) % 256) + 16777216 * (v / 16777216) == v
  {
    var q1, q2, q3 := v / 256, v / 65536, v / 16777216;
    assert v == 256 * q1 + v % 256;
    assert q1 / 256 == q2;
    assert q1 == 256 * q2 + q1 % 256;
    assert q2 / 256 == q3;
    assert q2 == 256 * q3 + q2 % 256;
  }

  /// The pattern whose bytes are those of v in reverse order.
  function Swap32(v: nat): (r: nat)
    requires v < TWO_32
    ensures r < TWO_32
  {
    var b := Bytes32(v);
    (b[3] as int) + 256 * (b[2] as int) + 65536 * (b[1] as int) + 16777216 * (b[0] as int)
  }

  /// `IPAddress.HostToNetworkOrder(int)` on a host that is little-endian
  /// (`le`) or big-endian: a byte swap on the former, the identity on the
  /// latter.
  function HostToNetwork32(v: nat, le: bool): (r: nat)
    requires v < TWO_32
    ensures r < TWO_32
  {
    if le then Swap32(v) else v
  }

  lemma Swap32Bytes(v: nat)
    requires v < TWO_32
    ensures Bytes32(Swap32(v)) == [Bytes32(v)[3], Bytes32(v)[2], Bytes32(v)[1], Bytes32(v)[0]]
  {
    var b := Bytes32(v);
    var w := Swap32(v);
    var c := Bytes32(w);
    ByteDigits(b[3] as int, b[2] as int, b[1] as int, b[0] as int);
  }

  // ---------------------------------------------------------------------------
  // prepareFrame

  /// The two extended-length bytes as written: bytes 0 and 1 (least
  /// significant first) of `HostToNetworkOrder(len)`.
  function LengthBytesAsWritten(len: nat, le: bool): (r: seq<byte>)
    requires len < C64K
    ensures |r| == 2
  {
    var ulen := HostToNetwork32(len, le);
    [(ulen % 256) as byte, ((ulen / 256) % 256) as byte]
  }

  /// On a little-endian host both bytes are 0; on a big-endian host they
  /// are the length least significant byte first.
  lemma LengthBytesByHost(len: nat, le: bool)
    requires len < C64K
    ensures le ==> LengthBytesAsWritten(len, le) == [0, 0]
    ensures !le ==> LengthBytesAsWritten(len, le) == [(len % 256) as byte, (len / 256) as byte]
  {
    if le {
      var b := Bytes32(len);
      assert b[2] == 0 && b[3] == 0;
      Swap32Bytes(len);
      var w := Swap32(len);
      assert Bytes32(w)[0] == 0 && Bytes32(w)[1] == 0;
    }
  }

  /// The extended-length bytes section 5.2 of RFC 6455 asks for: the
  /// length as a 16-bit unsigned integer in network byte order.
  function LengthBytes(len: nat): (r: seq<byte>)
    requires len < C64K
    ensures |r| == 2 && (r[0] as int) * 256 + (r[1] as int) == len
  {
    [(len / 256) as byte, (len % 256) as byte]
  }

  /// The four masking-key bytes prepareFrame writes for the drawn value m.
  function MaskKeyBytes(m: nat, le: bool): (r: seq<byte>)
    requires m < TWO_32
    ensures |r| == 4
  {
    Bytes32(HostToNetwork32(m, le))
  }

  /// On a little-endian host the key is m in network byte order, so its
  /// first byte is never 0 for a drawn mask.
  lemma MaskKeyFirstByte(m: nat)
    requires ValidMask(m)
    ensures MaskKeyBytes(m, true)[0] == (m / 16777216) as byte
    ensures MaskKeyBytes(m, true)[0] != 0
  {
    Swap32Bytes(m);
  }

  /// Header length for a payload of len bytes.
  function HeaderLen(len: nat, masking: bool): nat
  {
    (if len < 126 then 2 else 4) + (if masking then 4 else 0)
  }

  /// Where the length field is and what goes into it, before the mask bit.
  function LengthField(len: nat, lenBytes: seq<byte>): seq<byte>
    requires len < C64K
  {
    if len < 126 then [len as byte] else [126 as byte] + lenBytes
  }

  /// The header prepareFrame writes into `_sbuf`, given the length bytes it
  /// uses and the masking key; the returned offset is its length.
  function Header(opcode: nat, len: nat, masking: bool, lenBytes: seq<byte>, key: seq<byte>): (h: seq<byte>)
    requires opcode < 16 && len < C64K && |lenBytes| == 2 && |key| == 4
    ensures |h| == HeaderLen(len, masking)
    ensures h[0] == 128 + opcode as byte
    ensures h[1] == (if masking then 128 else 0) + (if len < 126 then len as byte else 126)
    ensures len >= 126 ==> h[2..4] == lenBytes
    ensures masking ==> h[|h| - 4..] == key
  {
    var f := LengthField(len, lenBytes);
    var b1 := if masking then SetHighBit(f[0]) else f[0];
    [SetHighBit(opcode as byte), b1] + f[1..] + (if masking then key else [])
  }

  /// prepareFrame(payload, len): the argument checks, in the source's order,
  /// then the header with the length bytes as written and the key drawn
  /// from m.
  function PrepareFrame(opcode: int, len: nat, masking: bool, le: bool, m: nat): (r: Result<seq<byte>>)
    requires m < TWO_32
    ensures r.Ok? <==> len < C64K && 0 <= opcode < 16
    ensures len >= C64K ==> r == Err(ArgumentError(LENGTH_MESSAGE))
    ensures len < C64K && !(0 <= opcode < 16) ==> r == Err(ArgumentError(OPCODE_MESSAGE))
    ensures r.Ok? ==> |r.value| == HeaderLen(len, masking)
  {
    if !(len < C64K) then Err(ArgumentError(LENGTH_MESSAGE))
    else if !(0 <= opcode < 16) then Err(ArgumentError(OPCODE_MESSAGE))
    else Ok(Header(opcode, len, masking, LengthBytesAsWritten(len, le), MaskKeyBytes(m, le)))
  }

  const LENGTH_MESSAGE: string := "length must be less 64K. NB: string.Length <= UTF8(string).Length for non-ASCII"
  const OPCODE_MESSAGE: string := "unknow data's payload type"

  /// The header with the length bytes section 5.2 asks for.
  function PrepareFrameFixed(opcode: int, len: nat, masking: bool, le: bool, m: nat): (r: Result<seq<byte>>)
    requires m < TWO_32
    ensures r.Ok? <==> len < C64K && 0 <= opcode < 16
  {
    if !(len < C64K) then Err(ArgumentError(LENGTH_MESSAGE))
    else if !(0 <= opcode < 16) then Err(ArgumentError(OPCODE_MESSAGE))
    else Ok(Header(opcode, len, masking, LengthBytes(len), MaskKeyBytes(m, le)))
  }

  // ---------------------------------------------------------------------------
  // maskFrame

  /// maskFrame(len, ofs) as written: payload byte i of the buffer it works
  /// on is XORed with the key byte i mod 4 that sits just before ofs. The
  /// source applies it to the receive buffer `_buf`.
  function MaskInPlace(buf: seq<byte>, len: nat, ofs: nat): (r: seq<byte>)
    requires 4 <= ofs && ofs + len <= |buf|
    ensures |r| == |buf|
    ensures forall i :: 0 <= i < |buf| && !(ofs <= i < ofs + len) ==> r[i] == buf[i]
    ensures forall i :: ofs <= i < ofs + len ==> r[i] == Xor(buf[i], buf[ofs - 4 + (i - ofs) % 4])
  {
    seq(|buf|, i requires 0 <= i < |buf| =>
      if ofs <= i < ofs + len then Xor(buf[i], buf[ofs - 4 + (i - ofs) % 4]) else buf[i])
  }

  /// One more byte of maskFrame's loop: byte `ofs + i` XORed with its key
  /// byte, which the earlier steps left untouched.
  lemma MaskInPlaceStep(buf: seq<byte>, i: nat, ofs: nat)
    requires 4 <= ofs && ofs + i < |buf|
    ensures var m := MaskInPlace(buf, i, ofs);
      m[ofs + i := Xor(m[ofs + i], m[ofs - 4 + i % 4])] == MaskInPlace(buf, i + 1, ofs)
  {
    var m := MaskInPlace(buf, i, ofs);
    assert (ofs + i - ofs) % 4 == i % 4;
    assert m[ofs - 4 + i % 4] == buf[ofs - 4 + i % 4];
  }

  /// Masking of a payload with a 4-byte key (section 5.3 of RFC 6455).
  function Masked(payload: seq<byte>, key: seq<byte>): (r: seq<byte>)
    requires |key| == 4
    ensures |r| == |payload|
    ensures forall i :: 0 <= i < |payload| ==> r[i] == Xor(payload[i], key[i % 4])
  {
    seq(|payload|, i requires 0 <= i < |payload| => Xor(payload[i], key[i % 4]))
  }

  /// Masking is an involution: the server's unmasking recovers the payload.
  lemma MaskedTwice(payload: seq<byte>, key: seq<byte>)
    requires |key| == 4
    ensures Masked(Masked(payload, key), key) == payload
  {
    var m := Masked(payload, key);
    forall i | 0 <= i < |payload|
      ensures Masked(m, key)[i] == payload[i]
    {
      XorTwice(payload[i], key[i % 4]);
    }
  }

  /// A frame whose mask bit is set but whose payload went out unmasked is
  /// read by a conforming server (which unmasks it) as a different payload
  /// whenever the first key byte is not 0, as it never is on a
  /// little-endian host.
  lemma UnmaskedPayloadMisread(payload: seq<byte>, m: nat)
    requires ValidMask(m) && |payload| > 0
    ensures Masked(payload, MaskKeyBytes(m, true)) != payload
  {
    var key := MaskKeyBytes(m, true);
    MaskKeyFirstByte(m);
    XorNonZero(payload[0], key[0]);
    assert Masked(payload, key)[0] != payload[0];
  }

  /// The frame section 5.3 asks a masking client to send.
  function MaskedFrame(header: seq<byte>, payload: seq<byte>): (r: seq<byte>)
    requires |header| >= 4
    ensures |r| == |header| + |payload| && r[..|header|] == header
    ensures r[|header|..] == Masked(payload, header[|header| - 4..])
  {
    header + Masked(payload, header[|header| - 4..])
  }

  // ---------------------------------------------------------------------------
  // Receiving: the header decisions of the recv loop

  /// What the loop decides about the frame at the front of the buffer.
  datatype HeaderParse =
    | Legacy                                  // first byte 0: old text framing
    | Incomplete                              // wait for more bytes
    | Malformed(error: Error)                 // the loop throws
    | Complete(opcode: nat, tn: nat, n: nat)  // header of tn bytes, n payload bytes

  const NON_FIN_MESSAGE: string := "This WebSocket's implementation doesnt support non-FIN frames"
  const MASKED_MESSAGE: string := "Unexpected WebSocket.frame-masking from server"
  const LONG_MESSAGE: string := "This WebSocket's implementation doesnt support frames with 8bytes-length"

  /// The decisions of one pass of the recv loop on the first `all` bytes of
  /// the buffer, in the source's order: FIN bit, mask bit, the 8-byte
  /// length form, enough bytes for the 16-bit length, enough bytes for the
  /// payload.
  function ParseHeader(buf: seq<byte>, all: nat): (p: HeaderParse)
    requires 2 <= all <= |buf|
    ensures p.Complete? ==> p.tn + p.n <= all && p.opcode < 16 && HighBit(buf[0])
    ensures p.Complete? ==> (p.tn == 2 && p.n < 126) || (p.tn == 4 && p.n < C64K)
    ensures p == Legacy <==> buf[0] == 0
  {
    var b := buf[0];
    if b == 0 then Legacy
    else if !HighBit(b) then Malformed(ArgumentError(NON_FIN_MESSAGE))
    else
      var op := LowNibble(b) as nat;
      var n := buf[1] as nat;
      if HighBit(buf[1]) then Malformed(ArgumentError(MASKED_MESSAGE))
      else if n >= 126 then
        if n >= 127 then Malformed(ArgumentError(LONG_MESSAGE))
        else if all < 4 then Incomplete
        else
          var n16 := (buf[2] as nat) * 256 + (buf[3] as nat);
          if all < 4 + n16 then Incomplete else Complete(op, 4, n16)
      else if all < 2 + n then Incomplete
      else Complete(op, 2, n)
  }

  /// A frame built with the length bytes section 5.2 asks for, unmasked,
  /// followed by anything, is read back as the same opcode and length, and
  /// its payload is the bytes right after the header.
  lemma ParseHeaderRoundTrip(opcode: nat, payload: seq<byte>, rest: seq<byte>, le: bool, m: nat)
    requires 0 < opcode < 16 && |payload| < C64K && m < TWO_32
    ensures PrepareFrameFixed(opcode, |payload|, false, le, m).Ok?
    ensures var h := PrepareFrameFixed(opcode, |payload|, false, le, m).value;
      var buf := h + payload + rest;
      ParseHeader(buf, |buf|) == Complete(opcode, |h|, |payload|)
      && buf[|h|..|h| + |payload|] == payload
  {
    var h := PrepareFrameFixed(opcode, |payload|, false, le, m).value;
    var buf := h + payload + rest;
    assert buf[0] == h[0];
    assert buf[1] == h[1];
    if |payload| >= 126 {
      assert buf[2..4] == h[2..4];
    }
    assert buf[|h|..|h| + |payload|] == payload;
  }

  /// The header the source builds on a little-endian host for a payload of
  /// 126 bytes or more announces an empty payload to the receive side.
  lemma ParseHeaderAsWritten(opcode: nat, payload: seq<byte>, m: nat)
    requires 0 < opcode < 16 && 126 <= |payload| < C64K && m < TWO_32
    ensures PrepareFrame(opcode, |payload|, false, true, m).Ok?
    ensures var h := PrepareFrame(opcode, |payload|, false, true, m).value;
      var buf := h + payload;
      ParseHeader(buf, |buf|) == Complete(opcode, 4, 0)
  {
    var h := PrepareFrame(opcode, |payload|, false, true, m).value;
    var buf := h + payload;
    LengthBytesByHost(|payload|, true);
    assert buf[0] == h[0] && buf[1] == h[1];
    assert buf[2..4] == h[2..4] == [0, 0];
    assert buf[2] == 0 && buf[3] == 0;
  }

  // ---------------------------------------------------------------------------
  // Close frames

  /// The 16-bit status code read from two payload bytes: BitConverter reads
  /// host order and NetworkToHostOrder undoes it, so the bytes are read in
  /// network order on either host, as a signed `short`.
  function CloseCode(hi: byte, lo: byte): (c: int)
    ensures -32768 <= c < 32768
  {
    var v := (hi as int) * 256 + (lo as int);
    if v >= 32768 then v - 65536 else v
  }

  /// The two bytes Shutdown(code) prepends: the `short` code in network
  /// order.
  function CodeBytes(code: int): (r: seq<byte>)
    requires -32768 <= code < 32768
    ensures |r| == 2
  {
    var u := code % 65536;
    [(u / 256) as byte, (u % 256) as byte]
  }

  /// Reading back the bytes of a code gives the code.
  lemma CloseCodeRoundTrip(code: int)
    requires -32768 <= code < 32768
    ensures CloseCode(CodeBytes(code)[0], CodeBytes(code)[1]) == code
  {
    var u := code % 65536;
    assert (u / 256) * 256 + u % 256 == u;
    if code < 0 {
      assert u == code + 65536;
    }
  }

  /// Status codes of section 7.4.1 of RFC 6455 (`ShutdownCode`).
  datatype ShutdownCode =
    | Normal | GoingAway | ProtocolError | UnsupportedData | InvalidData
    | PolicyViolation | MessageTooBig | ServerError | TlsHandshake

  function CodeValue(c: ShutdownCode): (v: int)
    ensures 1000 <= v <= 1015
  {
    match c
    case Normal => 1000
    case GoingAway => 1001
    case ProtocolError => 1002
    case UnsupportedData => 1003
    case InvalidData => 1007
    case PolicyViolation => 1008
    case MessageTooBig => 1009
    case ServerError => 1011
    case TlsHandshake => 1015
  }

  /// Distinct names have distinct codes.
  lemma CodeValueInjective(a: ShutdownCode, b: ShutdownCode)
    ensures CodeValue(a) == CodeValue(b) <==> a == b
  {
  }
}
