/// The socket.io v0.9 adapter over the WebSocket client: the text lines of
/// the protocol's packets, the decoding of received lines into callbacks,
/// the handshake that turns an http(s) URL into a WebSocket URL, and the
/// SocketIO object that owns one WebSocket at a time.
module SocketIO {
  import opened Common
  import opened Helper
  import WebSocketSpec
  import WebSocketNet

  // ---------------------------------------------------------------------------
  // Packet lines

  /// A message id as the builders write it: its decimal form, or nothing.
  function MidText(mid: Option<int>): string
  {
    if mid.Some? then IntToString(mid.value) else ""
  }

  /// `string.IsNullOrEmpty(s) ? "" : sep + s`.
  function Tail(sep: string, s: string): string
  {
    if s == "" then "" else sep + s
  }

  /// The packets a SocketIO object sends through its socket; each of the
  /// builders of the class other than Disconnect, overloads kept apart.
  datatype Packet =
    | ConnectPacket(path: string, query: string)
    | BareHeartbeat
    | HeartbeatPacket(mid: Option<int>, data: string, endPoint: string)
    | MessagePacket(message: string, mid: Option<int>, endPoint: string)
    | JsonPacket(data: string, mid: Option<int>, endPoint: string)
    | EventPacket(data: string, mid: Option<int>, endPoint: string)
    | AckPacket(ackId: int, data: string)
    | ErrorPacket(reason: string, advise: string, endPoint: string)
    | BareNoop
    | NoopPacket(mid: Option<int>, data: string, endPoint: string)

  /// The packet-type digit that starts a packet's line.
  function TypeChar(p: Packet): char
  {
    match p
    case ConnectPacket(_, _) => '1'
    case BareHeartbeat => '2'
    case HeartbeatPacket(_, _, _) => '2'
    case MessagePacket(_, _, _) => '3'
    case JsonPacket(_, _, _) => '4'
    case EventPacket(_, _, _) => '5'
    case AckPacket(_, _) => '6'
    case ErrorPacket(_, _, _) => '7'
    case BareNoop => '8'
    case NoopPacket(_, _, _) => '8'
  }

  /// The line Disconnect(endPoint) sends.
  function DisconnectLine(endPoint: string): (r: string)
    ensures |r| == 3 + |endPoint| && r[..3] == "0::" && r[3..] == endPoint
  {
    "0::" + endPoint
  }

  /// The line each builder formats.
  function Line(p: Packet): (r: string)
    ensures |r| >= 3 && r[0] == TypeChar(p) && r[1] == ':'
  {
    match p
    case ConnectPacket(path, query) => "1::" + path + query
    case BareHeartbeat => "2::"
    case HeartbeatPacket(mid, data, ep) => "2:" + MidText(mid) + ":" + ep + Tail(":", data)
    case MessagePacket(msg, mid, ep) => "3:" + MidText(mid) + ":" + ep + ":" + msg
    case JsonPacket(data, mid, ep) => "4:" + MidText(mid) + ":" + ep + ":" + data
    case EventPacket(data, mid, ep) => "5:" + MidText(mid) + ":" + ep + ":" + data
    case AckPacket(id, data) => "6:" + IntToString(id) + Tail(":", data)
    case ErrorPacket(reason, advise, ep) => "7::" + ep + ":" + reason + Tail("+", advise)
    case BareNoop => "8::"
    case NoopPacket(mid, data, ep) => "8:" + MidText(mid) + ":" + ep + Tail(":", data)
  }

  /// The two parameterless builders go out through SendAscii, the others
  /// through Send with the socket's encoding.
  predicate IsBare(p: Packet)
  {
    p.BareHeartbeat? || p.BareNoop?
  }

  // ---------------------------------------------------------------------------
  // Received lines

  /// The callbacks the object raises: its events, and Helper.RaiseUnexpected
  /// for the exceptions it swallows.
  datatype Callback =
    | Disconnected(endPoint: Option<string>)
    | Connected(path: string, query: Option<string>)
    | MessageReceived(data: string, mid: Option<int>, endPoint: Option<string>)
    | JsonReceived(data: string, mid: Option<int>, endPoint: Option<string>)
    | Failed(op: string, error: Error)
    | Unexpected(error: Error)

  /// What handling one received line does: raise a callback, echo the line
  /// back through SendAscii, or nothing.
  datatype Reaction = Raise(cb: Callback) | Echo(line: string) | Ignore

  /// `IndexOf(':', from) + 1`: one past the next colon, or 0.
  function Colon(line: string, from: nat): (r: nat)
    requires from <= |line|
    ensures r == 0 || (from < r <= |line| && line[r - 1] == ':')
  {
    IndexOfFrom(line, ':', from) + 1
  }

  /// The message id of a '3' or '4' line: present when a colon follows
  /// index 3 or later, and then the 64-bit digit scan from index 2 cast to
  /// `int`.
  function MidField(line: string, pos2: nat): Result<Option<int>>
  {
    if 3 < pos2 then
      match ParseInt64(line, 2, 100)
      case Ok(v) => Ok(Some(Wrap32(v)))
      case Err(e) => Err(e)
    else Ok(None)
  }

  /// The end point between the second and third colons, when not empty.
  /// As written the code takes `pos3 - pos2 + 1` characters from pos2 (the
  /// closing colon and one more, or an exception at the end of the line);
  /// `exact` takes the `pos3 - pos2 - 1` characters of the field.
  function EndPointField(line: string, pos2: nat, pos3: nat, exact: bool): Result<Option<string>>
    requires pos2 <= |line| && pos3 <= |line|
  {
    if pos2 + 1 < pos3 then
      if exact then Ok(Some(line[pos2..pos3 - 1]))
      else if pos3 + 1 <= |line| then Ok(Some(line[pos2..pos3 + 1]))
      else Err(ArgumentOutOfRange)
    else Ok(None)
  }

  datatype Fields = Fields(data: string, mid: Option<int>, endPoint: Option<string>)

  /// The slicing of a '3' (message) or '4' (json) line, in the order the
  /// code evaluates it.
  function MessageFields(line: string, exact: bool): Result<Fields>
  {
    if |line| < 2 then Err(ArgumentOutOfRange)
    else
      var pos2 := Colon(line, 2);
      var pos3 := Colon(line, pos2);
      match MidField(line, pos2)
      case Err(e) => Err(e)
      case Ok(mid) =>
        match EndPointField(line, pos2, pos3, exact)
        case Err(e) => Err(e)
        case Ok(ep) => Ok(Fields(line[pos3..], mid, ep))
  }

  /// handleString: the switch on the first character of a line. Any
  /// exception ends in Helper.RaiseUnexpected.
  function Decode(line: string, exact: bool): Reaction
  {
    if line == [] then Raise(Unexpected(IndexOutOfRange))
    else match line[0]
      case '0' => Raise(Disconnected(if |line| > 3 then Some(line[3..]) else None))
      case '1' =>
        if |line| < 3 then Raise(Unexpected(ArgumentOutOfRange))
        else
          var rest := line[3..];
          var pos := IndexOfFrom(rest, '?', 0) + 1;
          if 0 < pos then Raise(Connected(rest[..pos - 1], Some(rest[pos..])))
          else Raise(Connected(rest, None))
      case '2' => Echo(line)
      case '3' =>
        (match MessageFields(line, exact)
         case Err(e) => Raise(Unexpected(e))
         case Ok(f) => Raise(MessageReceived(f.data, f.mid, f.endPoint)))
      case '4' =>
        (match MessageFields(line, exact)
         case Err(e) => Raise(Unexpected(e))
         case Ok(f) => Raise(JsonReceived(f.data, f.mid, f.endPoint)))
      case '5' => Ignore
      case '6' => Ignore
      case '7' => Ignore
      case '8' => Echo(line)
      case _ => Raise(Unexpected(NotSupported("Unknown socket.io packet " + [line[0]])))
  }

  /// The switch as a whole: heartbeats and no-ops come back verbatim, event,
  /// ack and error packets are dropped, an empty line or an unknown type is
  /// reported.
  lemma DecodeDispatch(line: string, exact: bool)
    ensures line == [] ==> Decode(line, exact) == Raise(Unexpected(IndexOutOfRange))
    ensures Decode(line, exact).Echo? <==> line != [] && line[0] in {'2', '8'}
    ensures Decode(line, exact).Echo? ==> Decode(line, exact).line == line
    ensures Decode(line, exact) == Ignore <==> line != [] && line[0] in {'5', '6', '7'}
    ensures line != [] && !('0' <= line[0] <= '8')
      ==> Decode(line, exact) == Raise(Unexpected(NotSupported("Unknown socket.io packet " + [line[0]])))
  {
  }

  /// A disconnect line gives its end point back, or none for "0::".
  lemma DisconnectRoundTrip(endPoint: string, exact: bool)
    ensures Decode(DisconnectLine(endPoint), exact)
      == Raise(Disconnected(if endPoint == "" then None else Some(endPoint)))
  {
    var line := DisconnectLine(endPoint);
    if endPoint != "" {
      assert line[3..] == endPoint;
    }
  }

  /// A connect line whose path has no '?' splits back into the path and the
  /// query after the '?', or no query.
  lemma ConnectRoundTrip(path: string, query: string, exact: bool)
    requires '?' !in path && (query == "" || query[0] == '?')
    ensures Decode(Line(ConnectPacket(path, query)), exact)
      == Raise(Connected(path, if query == "" then None else Some(query[1..])))
  {
    var line := Line(ConnectPacket(path, query));
    var rest := line[3..];
    assert rest == path + query;
    forall i | 0 <= i < |path| ensures rest[i] != '?' {
      assert rest[i] == path[i];
    }
    assert line[0] == '1' && |line| >= 3;
    if query != "" {
      assert rest[|path|] == '?';
      assert IndexOfFrom(rest, '?', 0) == |path|;
      assert rest[..|path|] == path && rest[|path| + 1..] == query[1..];
    } else {
      assert rest == path;
      assert IndexOfFrom(rest, '?', 0) == -1;
    }
  }

  /// The digit scan from index 2 reads back the id the builders wrote.
  lemma MidRoundTrip(line: string, mid: Option<int>)
    requires mid.Some? ==> -TWO_31 <= mid.value < TWO_31
    requires 3 + |MidText(mid)| <= |line| && line[2..2 + |MidText(mid)|] == MidText(mid)
    requires line[2 + |MidText(mid)|] == ':'
    ensures MidField(line, 3 + |MidText(mid)|) == Ok(mid)
  {
    if mid.Some? {
      if mid.value >= 0 {
        MidRoundTripNat(line, mid.value);
      } else {
        MidRoundTripNeg(line, mid.value);
      }
    }
  }

  lemma MidRoundTripNat(line: string, m: int)
    requires 0 <= m < TWO_31
    requires 3 + |MidText(Some(m))| <= |line| && line[2..2 + |MidText(Some(m))|] == MidText(Some(m))
    requires line[2 + |MidText(Some(m))|] == ':'
    ensures MidField(line, 3 + |MidText(Some(m))|) == Ok(Some(m))
  {
    assert Pow10(10) == 10000000000;
    var d := NatToString(m);
    NatToStringLength(m, 10);
    ParseInt64Digits(line, 2, 100, d);
    Wrap64Id(m);
    Wrap32Id(m);
  }

  lemma MidRoundTripNeg(line: string, m: int)
    requires -TWO_31 <= m < 0
    requires 3 + |MidText(Some(m))| <= |line| && line[2..2 + |MidText(Some(m))|] == MidText(Some(m))
    requires line[2 + |MidText(Some(m))|] == ':'
    ensures MidField(line, 3 + |MidText(Some(m))|) == Ok(Some(m))
  {
    assert Pow10(10) == 10000000000;
    var d := NatToString(-m);
    NatToStringLength(-m, 10);
    assert line[3..3 + |d|] == MidText(Some(m))[1..];
    ParseInt64Negative(line, 2, 100, d);
    Wrap64Id(-m);
    Wrap32Id(m);
  }

  /// The colons of a line `k:m:e:rest` whose id and end-point fields hold
  /// no colon.
  lemma ColonsOf(line: string, m: string, e: string)
    requires ':' !in m && ':' !in e && 4 + |m| + |e| <= |line|
    requires line[1] == ':' && line[2..2 + |m|] == m && line[2 + |m|] == ':'
    requires line[3 + |m|..3 + |m| + |e|] == e && line[3 + |m| + |e|] == ':'
    ensures Colon(line, 2) == 3 + |m|
    ensures Colon(line, 3 + |m|) == 4 + |m| + |e|
  {
    forall i | 2 <= i < 2 + |m| ensures line[i] != ':' {
      assert line[i] == line[2..2 + |m|][i - 2];
    }
    forall i | 3 + |m| <= i < 3 + |m| + |e| ensures line[i] != ':' {
      assert line[i] == line[3 + |m|..3 + |m| + |e|][i - 3 - |m|];
    }
  }

  /// MessageFields once its three steps are known.
  lemma MessageFieldsOf(line: string, pos2: nat, pos3: nat, exact: bool, mid: Option<int>, ep: Option<string>)
    requires |line| >= 2 && Colon(line, 2) == pos2 && Colon(line, pos2) == pos3
    requires MidField(line, pos2) == Ok(mid) && EndPointField(line, pos2, pos3, exact) == Ok(ep)
    ensures MessageFields(line, exact) == Ok(Fields(line[pos3..], mid, ep))
  {
  }

  /// The end-point field of a line whose field `e` ends at pos3 - 1.
  lemma EndPointOf(line: string, pos2: nat, e: string, exact: bool)
    requires pos2 + |e| + 1 <= |line| && line[pos2..pos2 + |e|] == e
    ensures var pos3 := pos2 + |e| + 1; var rest := line[pos3..];
      EndPointField(line, pos2, pos3, exact)
        == if e == "" then Ok(None)
           else if exact then Ok(Some(e))
           else if rest == "" then Err(ArgumentOutOfRange)
           else Ok(Some(line[pos2..pos3] + [rest[0]]))
  {
    var pos3 := pos2 + |e| + 1;
    if e != "" && pos3 + 1 <= |line| {
      assert line[pos2..pos3 + 1] == line[pos2..pos3] + [line[pos3..][0]];
    }
  }

  /// The fields of a line `k:{id}:{ep}:{data}` as the builders write it.
  lemma FieldsOfLine(k: char, mid: Option<int>, ep: string, data: string, exact: bool)
    requires mid.Some? ==> -TWO_31 <= mid.value < TWO_31
    requires ':' !in ep
    ensures var line := [k] + ":" + MidText(mid) + ":" + ep + ":" + data;
      MessageFields(line, exact)
        == if ep == "" then Ok(Fields(data, mid, None))
           else if exact then Ok(Fields(data, mid, Some(ep)))
           else if data == "" then Err(ArgumentOutOfRange)
           else Ok(Fields(data, mid, Some(ep + ":" + [data[0]])))
  {
    var m := MidText(mid);
    var line := [k] + ":" + m + ":" + ep + ":" + data;
    var pos2 := 3 + |m|;
    var pos3 := pos2 + |ep| + 1;
    assert line[2..2 + |m|] == m;
    assert line[pos2..pos2 + |ep|] == ep;
    assert line[pos2..pos3] == ep + ":";
    assert line[pos3..] == data;
    assert ':' !in m by {
      IntToStringChars(if mid.Some? then mid.value else 0);
    }
    ColonsOf(line, m, ep);
    MidRoundTrip(line, mid);
    EndPointOf(line, pos2, ep, exact);
    var r := EndPointField(line, pos2, pos3, exact);
    if r.Ok? {
      MessageFieldsOf(line, pos2, pos3, exact, mid, r.value);
    }
  }

  /// Decode of a json line whose fields are known.
  lemma DecodeJsonLine(line: string, exact: bool, r: Result<Fields>)
    requires line != [] && line[0] == '4' && MessageFields(line, exact) == r
    ensures Decode(line, exact)
      == if r.Ok? then Raise(JsonReceived(r.value.data, r.value.mid, r.value.endPoint)) else Raise(Unexpected(r.error))
  {
  }

  /// Decode of a message line whose fields are known.
  lemma DecodeMessageLine(line: string, exact: bool, r: Result<Fields>)
    requires line != [] && line[0] == '3' && MessageFields(line, exact) == r
    ensures Decode(line, exact)
      == if r.Ok? then Raise(MessageReceived(r.value.data, r.value.mid, r.value.endPoint)) else Raise(Unexpected(r.error))
  {
  }

  /// A json or message line as the builders write it.
  lemma LineOf(p: Packet)
    requires p.JsonPacket? || p.MessagePacket?
    ensures Line(p) == [TypeChar(p)] + ":" + MidText(p.mid) + ":" + p.endPoint + ":"
                       + (if p.JsonPacket? then p.data else p.message)
  {
  }

  /// With no end point, the json and message lines decode to the data and id
  /// they were built from, colons in the data included.
  lemma JsonRoundTrip(data: string, mid: Option<int>)
    requires mid.Some? ==> -TWO_31 <= mid.value < TWO_31
    ensures Decode(Line(JsonPacket(data, mid, "")), false) == Raise(JsonReceived(data, mid, None))
    ensures Decode(Line(MessagePacket(data, mid, "")), false) == Raise(MessageReceived(data, mid, None))
  {
    var json := Line(JsonPacket(data, mid, ""));
    LineOf(JsonPacket(data, mid, ""));
    FieldsOfLine('4', mid, "", data, false);
    DecodeJsonLine(json, false, Ok(Fields(data, mid, None)));
    var msg := Line(MessagePacket(data, mid, ""));
    LineOf(MessagePacket(data, mid, ""));
    FieldsOfLine('3', mid, "", data, false);
    DecodeMessageLine(msg, false, Ok(Fields(data, mid, None)));
  }

  /// As written, a named end point comes back with the closing colon and the
  /// first data character attached, and an empty payload throws.
  lemma EndPointOverread(data: string, mid: Option<int>, ep: string)
    requires mid.Some? ==> -TWO_31 <= mid.value < TWO_31
    requires ep != "" && ':' !in ep
    ensures Decode(Line(JsonPacket(data, mid, ep)), false)
      == if data == "" then Raise(Unexpected(ArgumentOutOfRange))
         else Raise(JsonReceived(data, mid, Some(ep + ":" + [data[0]])))
  {
    var json := Line(JsonPacket(data, mid, ep));
    LineOf(JsonPacket(data, mid, ep));
    FieldsOfLine('4', mid, ep, data, false);
    DecodeJsonLine(json, false, MessageFields(json, false));
  }

  /// The ICBIT feed's lines, "4::/icbit:{...}", name the end point "/icbit:{".
  lemma IcbitEndPoint(line: string, data: string)
    requires line == "4::/icbit:" + data && data != []
    ensures Decode(line, false) == Raise(JsonReceived(data, None, Some("/icbit:" + [data[0]])))
  {
    IcbitLine(data);
    EndPointOverread(data, None, "/icbit");
    assert "/icbit" + ":" + [data[0]] == "/icbit:" + [data[0]];
  }

  /// The ICBIT feed's json line for a payload.
  lemma IcbitLine(data: string)
    ensures Line(JsonPacket(data, None, "/icbit")) == "4::/icbit:" + data
  {
    var p := JsonPacket(data, None, "/icbit");
    LineOf(p);
    assert [TypeChar(p)] + ":" + MidText(p.mid) + ":" + p.endPoint + ":" == "4::/icbit:";
  }

  /// With the field length corrected, json and message lines decode to the
  /// data, id and end point they were built from.
  lemma JsonRoundTripExact(data: string, mid: Option<int>, ep: string)
    requires mid.Some? ==> -TWO_31 <= mid.value < TWO_31
    requires ':' !in ep
    ensures Decode(Line(JsonPacket(data, mid, ep)), true)
      == Raise(JsonReceived(data, mid, if ep == "" then None else Some(ep)))
    ensures Decode(Line(MessagePacket(data, mid, ep)), true)
      == Raise(MessageReceived(data, mid, if ep == "" then None else Some(ep)))
  {
    var epv := if ep == "" then None else Some(ep);
    var json := Line(JsonPacket(data, mid, ep));
    LineOf(JsonPacket(data, mid, ep));
    FieldsOfLine('4', mid, ep, data, true);
    DecodeJsonLine(json, true, Ok(Fields(data, mid, epv)));
    var msg := Line(MessagePacket(data, mid, ep));
    LineOf(MessagePacket(data, mid, ep));
    FieldsOfLine('3', mid, ep, data, true);
    DecodeMessageLine(msg, true, Ok(Fields(data, mid, epv)));
  }

  /// The id field: absent when empty; its leading digit run when it starts
  /// with a digit; 0 when it starts with neither a digit nor '-'.
  lemma MidFieldCases(line: string, m: string)
    requires ':' !in m && 3 + |m| <= |line| && line[2..2 + |m|] == m && line[2 + |m|] == ':'
    ensures m == "" ==> MidField(line, 3 + |m|) == Ok(None)
    ensures m != "" && m[0] != '-' && !IsDigit(m[0]) ==> MidField(line, 3 + |m|) == Ok(Some(0))
    ensures m != "" && AllDigits(m) && |m| <= 100 ==> MidField(line, 3 + |m|) == Ok(Some(Wrap32(Wrap64(DigitsValue(m)))))
  {
    if m != "" {
      assert line[2] == m[0];
      if m[0] != '-' && !IsDigit(m[0]) {
        ParseInt64NoDigits(line, 2, 100);
      }
      if AllDigits(m) && |m| <= 100 {
        ParseInt64Digits(line, 2, 100, m);
      }
    }
  }

  // ---------------------------------------------------------------------------
  // Handshake

  const SOCKET_IO_PATH: string := "socket.io/1"
  const WEBSOCKET: string := "websocket"
  const NO_WEBSOCKET: string := "Server doesnt support websockets"
  /// `RespDelims`: the separators around the transport list's entries.
  const RESP_DELIMS: set<char> := {',', ' ', '.', ';'}

  /// The handshake URL before the slashes are collapsed: the query split
  /// off, the socket.io path added when the URL lacks it (otherwise the
  /// URL is kept whole, query included), and the timestamp query appended.
  function Stamped(url: string, t: int): string
  {
    SocketUrl(url) + "/" + StampQuery(Params(url), t)
  }

  /// The handshake parameters: what follows the first '?' of the URL, if
  /// any.
  function Params(url: string): string
  {
    var q := IndexOfFrom(url, '?', 0);
    if q >= 0 then url[q + 1..] else ""
  }

  /// The URL the timestamp is appended to: the URL without its query and
  /// with the socket.io path added when it lacks one, or else the whole URL.
  function SocketUrl(url: string): string
  {
    var q := IndexOfFrom(url, '?', 0);
    var base := if q >= 0 then url[..q] else url;
    if IndexOfSub(base, SOCKET_IO_PATH, 0) < 0 then base + "/socket.io/1/" else url
  }

  /// `Replace("//", "/")` then `Replace(":/", "://")`.
  function Collapse(s: string): string
  {
    Replace(Replace(s, "//", "/"), ":/", "://")
  }

  /// The URL parseResponse posts to at time t (milliseconds since 1970).
  function HandshakeUrl(url: string, t: int): string
  {
    Collapse(Stamped(url, t))
  }

  /// The query the handshake URL ends with: "?t=<ms>", or
  /// "?<params>&t=<ms>" when there are parameters.
  function StampQuery(params: string, t: int): string
  {
    if params == "" then "?t=" + IntToString(t)
    else "?" + params + "&t=" + IntToString(t)
  }

  /// No character of s is '/' or ':'.
  predicate NoSlashColon(s: string)
  {
    forall i :: 0 <= i < |s| ==> s[i] != '/' && s[i] != ':'
  }

  /// The appended query holds no '/' or ':' when the parameters hold none.
  lemma PlainQuery(p: string, t: int)
    requires NoSlashColon(p)
    ensures NoSlashColon(StampQuery(p, t))
  {
    IntToStringChars(t);
    var n := IntToString(t);
    assert NoSlashColon(n);
    var query := StampQuery(p, t);
    if p == "" {
      assert query == "?t=" + n;
      forall i | 0 <= i < |query| ensures query[i] != '/' && query[i] != ':' {
        if i >= 3 {
          assert query[i] == n[i - 3];
        }
      }
    } else {
      assert query == "?" + p + "&t=" + n;
      var k := |p| + 1;
      forall i | 0 <= i < |query| ensures query[i] != '/' && query[i] != ':' {
        if 1 <= i < k {
          assert query[i] == p[i - 1];
        } else if k + 3 <= i {
          assert query[i] == n[i - k - 3];
        }
      }
    }
  }

  /// Collapsing slashes does not reach into a tail without '/' or ':'.
  lemma CollapseKeepsTail(a: string, tail: string)
    requires NoSlashColon(tail)
    ensures Collapse(a + tail) == Collapse(a) + tail
  {
    assert forall i :: 0 <= i < |tail| ==> tail[i] !in "//" && tail[i] !in ":/";
    ReplaceKeepsTail(a, tail, "//", "/");
    ReplaceKeepsTail(Replace(a, "//", "/"), tail, ":/", "://");
  }

  /// Collapsing the slashes leaves the appended query alone when the URL's
  /// own parameters hold no '/' or ':': the handshake URL ends with
  /// "?t=<ms>", or "?<params>&t=<ms>".
  lemma HandshakeQuery(url: string, t: int)
    requires NoSlashColon(Params(url))
    ensures var s := HandshakeUrl(url, t); var tail := StampQuery(Params(url), t);
      |tail| <= |s| && s[|s| - |tail|..] == tail
  {
    var tail := StampQuery(Params(url), t);
    PlainQuery(Params(url), t);
    var a := SocketUrl(url) + "/";
    CollapseKeepsTail(a, tail);
    var s := Collapse(a) + tail;
    assert s[|s| - |tail|..] == tail;
  }

  datatype Handshake = Handshake(url: string, ping: int, timeout: int)

  /// The token of the reply that holds "websocket": from after the last
  /// delimiter before it to before the first delimiter after it.
  function Token(text: string, pos: nat): string
    requires pos < |text| && text[pos] !in RESP_DELIMS
  {
    var b := LastIndexOfAny(text, RESP_DELIMS, pos);
    var e := IndexOfAny(text, RESP_DELIMS, pos);
    var beg := if b < 0 then 0 else b + 1;
    var end := if e < 0 then |text| - 1 else e - 1;
    text[beg..end + 1]
  }

  /// The token with every "websocket" removed, split at its colons.
  function ReplyFields(token: string): seq<string>
  {
    SplitNonEmpty(Replace(Replace(Replace(token, ":websocket", ""), "websocket:", ""), WEBSOCKET, ""), ':')
  }

  /// Int32.TryParse into an `int` variable: 0 when the parse fails.
  function ParsedOrZero(s: string): int
  {
    match TryParseInt32(s)
    case Some(v) => v
    case None => 0
  }

  /// `Replace("https:", "wss:")` then `Replace("http:", "ws:")`.
  function WsScheme(url: string): string
  {
    Replace(Replace(url, "https:", "wss:"), "http:", "ws:")
  }

  /// The WebSocket URL: the handshake URL with its scheme rewritten, cut at
  /// its last '/', then "/websocket/{sid}". A URL without '/' throws.
  function WebSocketUrl(nurl: string, sid: string): Result<string>
  {
    var u := WsScheme(nurl);
    var p := LastIndexOf(u, '/');
    if p < 0 then Err(ArgumentOutOfRange) else Ok(u[..p] + "/websocket/" + sid)
  }

  /// The reply half of parseResponse: None (the code's null) for an empty
  /// reply, one without "websocket", or a token without fields; otherwise
  /// the offer of the token's fields.
  function ParseReply(nurl: string, text: string): Result<Option<Handshake>>
  {
    if text == "" then Ok(None)
    else
      var pos := IndexOfSub(text, WEBSOCKET, 0);
      if pos < 0 then Ok(None)
      else
        assert text[pos] == text[pos..pos + 9][0] == 'w';
        var vals := ReplyFields(Token(text, pos));
        if |vals| == 0 then Ok(None) else Offer(nurl, vals)
  }

  /// The handshake the reply's fields describe: the session id, the ping
  /// interval (15 when absent, 0 when unparsable) and the timeout (ping + 10
  /// when absent).
  function Offer(nurl: string, vals: seq<string>): Result<Option<Handshake>>
    requires vals != []
  {
    var ping := if |vals| > 1 then ParsedOrZero(vals[1]) else 15;
    var timeout := if |vals| > 2 then ParsedOrZero(vals[2]) else Wrap32(ping + 10);
    match WebSocketUrl(nurl, vals[0])
    case Err(e) => Err(e)
    case Ok(u) => Ok(Some(Handshake(u, ping, timeout)))
  }

  /// parseResponse(url) with the clock reading and the POST's reply text as
  /// inputs.
  function ParseResponse(url: string, t: int, text: string): Result<Option<Handshake>>
  {
    ParseReply(HandshakeUrl(url, t), text)
  }

  /// A reply that never mentions websocket yields no handshake.
  lemma NoWebSocketTransport(nurl: string, text: string)
    requires !Contains(text, WEBSOCKET)
    ensures ParseReply(nurl, text) == Ok(None)
  {
    IndexOfSubNone(text, WEBSOCKET);
  }

  /// A reply field: not empty, without colon, 'w' or delimiter.
  predicate PlainField(f: string)
  {
    f != [] && forall i :: 0 <= i < |f| ==> f[i] != ':' && f[i] != 'w' && f[i] !in RESP_DELIMS
  }

  function JoinColons(fs: seq<string>): string
    requires fs != []
  {
    if |fs| == 1 then fs[0] else fs[0] + ":" + JoinColons(fs[1..])
  }

  /// No character of s is 'w' or a delimiter.
  predicate NoWordStart(s: string)
  {
    forall i :: 0 <= i < |s| ==> s[i] != 'w' && s[i] !in RESP_DELIMS
  }

  lemma {:induction false} JoinColonsPlain(fs: seq<string>)
    requires fs != [] && forall k :: 0 <= k < |fs| ==> PlainField(fs[k])
    ensures NoWordStart(JoinColons(fs))
  {
    if |fs| > 1 {
      JoinColonsPlain(fs[1..]);
      var s := JoinColons(fs);
      var j := JoinColons(fs[1..]);
      forall i | 0 <= i < |s| ensures s[i] != 'w' && s[i] !in RESP_DELIMS {
        if i < |fs[0]| {
          assert s[i] == fs[0][i];
          assert PlainField(fs[0]);
        } else if i > |fs[0]| {
          assert s[i] == j[i - |fs[0]| - 1];
        } else {
          assert s[i] == ':';
        }
      }
    } else {
      assert JoinColons(fs) == fs[0];
    }
  }

  lemma {:induction false} SplitJoinColons(fs: seq<string>)
    requires fs != [] && forall k :: 0 <= k < |fs| ==> PlainField(fs[k])
    ensures SplitNonEmpty(JoinColons(fs), ':') == fs
  {
    var s := JoinColons(fs);
    var f := fs[0];
    if |fs| == 1 {
      assert IndexOfFrom(s, ':', 0) == -1;
    } else {
      assert s[|f|] == ':';
      forall i | 0 <= i < |f| ensures s[i] != ':' {
        assert s[i] == f[i];
      }
      assert IndexOfFrom(s, ':', 0) == |f|;
      assert s[..|f|] == f && s[|f| + 1..] == JoinColons(fs[1..]);
      SplitJoinColons(fs[1..]);
    }
  }

  /// The token of a reply `f1:...:fn:websocket` followed by a delimiter or
  /// nothing is the whole of that prefix.
  lemma ReplyToken(fs: seq<string>, rest: string)
    requires fs != [] && forall k :: 0 <= k < |fs| ==> PlainField(fs[k])
    requires rest == "" || rest[0] in RESP_DELIMS
    ensures var j := JoinColons(fs); var text := j + ":websocket" + rest;
      IndexOfSub(text, WEBSOCKET, 0) == |j| + 1
      && Token(text, |j| + 1) == j + ":websocket"
  {
    var j := JoinColons(fs);
    JoinColonsPlain(fs);
    FirstWebsocket(j, rest, j + ":websocket" + rest);
    TokenAround(j, rest, j + ":websocket" + rest);
  }

  /// In `j:websocket...` with no 'w' in j, the first "websocket" is the one
  /// after the colon.
  lemma FirstWebsocket(j: string, rest: string, text: string)
    requires NoWordStart(j) && text == j + ":websocket" + rest
    ensures IndexOfSub(text, WEBSOCKET, 0) == |j| + 1
  {
    var pos := |j| + 1;
    assert OccursAt(text, WEBSOCKET, pos) by {
      assert text[pos..pos + 9] == WEBSOCKET;
    }
    forall i | 0 <= i < pos ensures !OccursAt(text, WEBSOCKET, i) {
      if i + 9 <= |text| {
        assert text[i..i + 9][0] == text[i];
        if i < |j| {
          assert text[i] == j[i];
        } else {
          assert text[i] == ':';
        }
      }
    }
  }

  /// The token around the "websocket" of `j:websocket` then a delimiter
  /// or nothing, with no delimiter in j, is `j:websocket`.
  lemma TokenAround(j: string, rest: string, text: string)
    requires NoWordStart(j) && text == j + ":websocket" + rest
    requires rest == "" || rest[0] in RESP_DELIMS
    ensures Token(text, |j| + 1) == j + ":websocket"
  {
    var pos := |j| + 1;
    var head := j + ":websocket";
    assert text == head + rest;
    forall i | 0 <= i < |head| ensures text[i] !in RESP_DELIMS {
      if i < |j| {
        assert text[i] == j[i];
      } else if i > |j| {
        assert text[i] == WEBSOCKET[i - pos];
      }
    }
    assert LastIndexOfAny(text, RESP_DELIMS, pos) == -1;
    assert IndexOfAny(text, RESP_DELIMS, pos) == if rest == "" then -1 else |head|;
    assert text[0..|head|] == head;
  }

  /// The three removals of "websocket" strip exactly the trailing one from
  /// a token whose prefix holds no 'w'.
  lemma StripWebsocket(j: string)
    requires 'w' !in j
    ensures Replace(Replace(Replace(j + ":websocket", ":websocket", ""), "websocket:", ""), WEBSOCKET, "") == j
  {
    var pat := ":websocket";
    assert pat[0] == ':' && pat[1] == 'w';
    assert j + pat == j + pat + "";
    ReplaceFirstAfter(j, pat, "", "");
    assert Replace("", pat, "") == "";
    var r1 := Replace(j + pat, pat, "");
    assert r1 == j;
    FirstCharAbsent(j, "websocket:");
    ReplaceAbsent(j, "websocket:", "");
    var r2 := Replace(r1, "websocket:", "");
    assert r2 == j;
    FirstCharAbsent(j, WEBSOCKET);
    ReplaceAbsent(j, WEBSOCKET, "");
  }

  /// Removing "websocket" from `f1:...:fn:websocket` and splitting gives the
  /// fields back.
  lemma TokenFields(fs: seq<string>)
    requires fs != [] && forall k :: 0 <= k < |fs| ==> PlainField(fs[k])
    ensures ReplyFields(JoinColons(fs) + ":websocket") == fs
  {
    var j := JoinColons(fs);
    JoinColonsPlain(fs);
    assert 'w' !in j;
    StripWebsocket(j);
    SplitJoinColons(fs);
  }

  /// A reply `f1:...:fn:websocket[,...]` offers its fields.
  lemma ReplyOffers(nurl: string, fs: seq<string>, rest: string)
    requires fs != [] && forall k :: 0 <= k < |fs| ==> PlainField(fs[k])
    requires rest == "" || rest[0] in RESP_DELIMS
    ensures ParseReply(nurl, JoinColons(fs) + ":websocket" + rest) == Offer(nurl, fs)
  {
    var j := JoinColons(fs);
    ReplyToken(fs, rest);
    TokenFields(fs);
    ParseReplyAt(nurl, j + ":websocket" + rest, |j| + 1);
  }

  /// ParseReply on a reply whose first "websocket" starts at pos.
  lemma ParseReplyAt(nurl: string, text: string, pos: int)
    requires pos >= 0 && IndexOfSub(text, WEBSOCKET, 0) == pos
    ensures pos < |text| && text[pos] !in RESP_DELIMS
    ensures var vals := ReplyFields(Token(text, pos));
      ParseReply(nurl, text) == if |vals| == 0 then Ok(None) else Offer(nurl, vals)
  {
    assert text[pos] == text[pos..pos + 9][0] == 'w';
  }

  /// A reply `sid:ping[:timeout]:websocket[,...]` yields the WebSocket URL
  /// for sid, the parsed ping, and the parsed timeout or ping + 10.
  lemma ReplyParsed(nurl: string, fs: seq<string>, rest: string)
    requires 1 <= |fs| <= 3 && forall k :: 0 <= k < |fs| ==> PlainField(fs[k])
    requires rest == "" || rest[0] in RESP_DELIMS
    requires WebSocketUrl(nurl, fs[0]).Ok?
    ensures var r := ParseReply(nurl, JoinColons(fs) + ":websocket" + rest);
      var ping := if |fs| > 1 then ParsedOrZero(fs[1]) else 15;
      r == Ok(Some(Handshake(WebSocketUrl(nurl, fs[0]).value, ping,
                             if |fs| > 2 then ParsedOrZero(fs[2]) else Wrap32(ping + 10))))
  {
    ReplyOffers(nurl, fs, rest);
  }

  /// The usual reply "sid:15:25:websocket,xhr-polling" offers ping 15 and
  /// timeout 25 for session sid.
  lemma UsualReply(nurl: string, sid: string)
    requires PlainField(sid)
    ensures ParseReply(nurl, sid + ":15:25:websocket,xhr-polling")
      == match WebSocketUrl(nurl, sid)
         case Err(e) => Err(e)
         case Ok(u) => Ok(Some(Handshake(u, 15, 25)))
  {
    var fs := [sid, "15", "25"];
    UsualFields(sid);
    ReplyOffers(nurl, fs, ",xhr-polling");
    TryParseDigits("15");
    TryParseDigits("25");
  }

  lemma UsualFields(sid: string)
    ensures PlainField("15") && PlainField("25")
    ensures JoinColons([sid, "15", "25"]) + ":websocket" + ",xhr-polling" == sid + ":15:25:websocket,xhr-polling"
    ensures DigitsValue("15") == 15 && DigitsValue("25") == 25
  {
    UsualNumbers();
    UsualJoin(sid);
  }

  /// "15" and "25" are plain decimal fields.
  lemma UsualNumbers()
    ensures PlainField("15") && PlainField("25")
    ensures DigitsValue("15") == 15 && DigitsValue("25") == 25
  {
    var p, q := "15", "25";
    assert p[0] == '1' && p[1] == '5' && q[0] == '2' && q[1] == '5';
  }

  /// The usual reply's fields joined, then its transports.
  lemma UsualJoin(sid: string)
    ensures JoinColons([sid, "15", "25"]) + ":websocket" + ",xhr-polling" == sid + ":15:25:websocket,xhr-polling"
  {
    var fs := [sid, "15", "25"];
    assert JoinColons(fs[2..]) == "25";
    assert JoinColons(fs[1..]) == "15:25";
    assert JoinColons(fs) == sid + ":" + "15:25";
    assert ":" + "15:25" == ":15:25";
    assert ":15:25" + ":websocket" == ":15:25:websocket";
    assert ":15:25:websocket" + ",xhr-polling" == ":15:25:websocket,xhr-polling";
    assert sid + ":" + "15:25" + ":websocket" + ",xhr-polling" == sid + (":" + "15:25" + ":websocket" + ",xhr-polling");
  }

  /// The WebSocket URL of an http: handshake URL is its ws: twin, cut at its
  /// last '/', then "/websocket/{sid}".
  lemma WebSocketUrlOf(r: string, sid: string)
    requires !Contains(r, "http:") && !Contains(r, "https:")
    requires '/' in r
    ensures WebSocketUrl("http:" + r, sid) == Ok("ws:" + r[..LastIndexOf(r, '/')] + "/websocket/" + sid)
    ensures WebSocketUrl("https:" + r, sid) == Ok("wss:" + r[..LastIndexOf(r, '/')] + "/websocket/" + sid)
  {
    SchemeRewrite(r);
    LastIndexOfPrefix("ws:", r);
    LastIndexOfPrefix("wss:", r);
    assert ("ws:" + r)[..3 + LastIndexOf(r, '/')] == "ws:" + r[..LastIndexOf(r, '/')];
    assert ("wss:" + r)[..4 + LastIndexOf(r, '/')] == "wss:" + r[..LastIndexOf(r, '/')];
  }

  lemma LastIndexOfPrefix(a: string, r: string)
    requires '/' in r
    ensures LastIndexOf(a + r, '/') == |a| + LastIndexOf(r, '/')
  {
    var k := LastIndexOf(r, '/');
    var s := a + r;
    assert k >= 0;
    assert s[|a| + k] == '/';
    forall i | |a| + k < i < |s| ensures s[i] != '/' {
      assert s[i] == r[i - |a|];
    }
  }

  /// The scheme rewrite turns http: into ws: and https: into wss: when the
  /// rest of the URL names neither scheme.
  lemma SchemeRewrite(r: string)
    requires !Contains(r, "http:") && !Contains(r, "https:")
    ensures WsScheme("http:" + r) == "ws:" + r
    ensures WsScheme("https:" + r) == "wss:" + r
  {
    NoHttpsAfterHttp(r);
    ReplaceAbsent("http:" + r, "https:", "wss:");
    ReplaceAtFront("http:", r, "ws:");
    ReplaceAtFront("https:", r, "wss:");
    NoHttpAfterWss(r);
    ReplaceAbsent("wss:" + r, "http:", "ws:");
  }

  /// "https:" cannot start inside "http:", so it occurs in "http:" + r only
  /// where it occurs in r.
  lemma NoHttpsAfterHttp(r: string)
    requires !Contains(r, "https:")
    ensures !Contains("http:" + r, "https:")
  {
    var a := "http:" + r;
    assert a[4] == ':';
    forall i | 0 <= i <= |a| ensures !OccursAt(a, "https:", i) {
      OccursShift("http:", r, "https:", i);
      if i + 6 <= |a| {
        assert a[i..i + 6][0] == a[i] && a[i..i + 6][4] == a[i + 4];
      }
    }
  }

  /// "http:" cannot start inside "wss:", so it occurs in "wss:" + r only
  /// where it occurs in r.
  lemma NoHttpAfterWss(r: string)
    requires !Contains(r, "http:")
    ensures !Contains("wss:" + r, "http:")
  {
    var c := "wss:" + r;
    assert c[0] == 'w' && c[1] == 's' && c[2] == 's' && c[3] == ':';
    forall i | 0 <= i <= |c| ensures !OccursAt(c, "http:", i) {
      OccursShift("wss:", r, "http:", i);
      if i + 5 <= |c| {
        assert c[i..i + 5][0] == c[i];
      }
    }
  }

  /// A pattern at the front of a rest that does not hold it is replaced
  /// once.
  lemma ReplaceAtFront(pat: string, r: string, rep: string)
    requires |pat| > 0 && !Contains(r, pat)
    ensures Replace(pat + r, pat, rep) == rep + r
  {
    var s := pat + r;
    assert s[..|pat|] == pat && s[|pat|..] == r;
    ReplaceAbsent(r, pat, rep);
  }

  /// A match at or after the prefix is a match in the rest.
  lemma OccursShift(x: string, r: string, pat: string, i: int)
    ensures |x| <= i && OccursAt(x + r, pat, i) ==> OccursAt(r, pat, i - |x|)
  {
    if |x| <= i && OccursAt(x + r, pat, i) {
      assert (x + r)[i..i + |pat|] == r[i - |x|..i - |x| + |pat|];
    }
  }

  // ---------------------------------------------------------------------------
  // The SocketIO object

  /// The state a WebSocket that SocketIO.Open creates is opened from: a new
  /// socket with its handler set and masking on.
  const OPENING: WebSocketSpec.Conn := WebSocketSpec.INITIAL.(handler := true, masking := true)

  /// OnClosed on `_wasDisconnect` and the callbacks: OnDisconnect with no
  /// end point unless the flag is set, and then the flag set.
  function AfterClosed(wasDisconnect: bool, callbacks: seq<Callback>): (r: (bool, seq<Callback>))
    ensures r.0
  {
    if wasDisconnect then (true, callbacks) else (true, callbacks + [Disconnected(None)])
  }

  /// OnClosed raises OnDisconnect at most once, and not at all once the flag
  /// is set (as Disconnect sets it).
  lemma ClosedOnce(wasDisconnect: bool, callbacks: seq<Callback>)
    ensures var r := AfterClosed(wasDisconnect, callbacks);
      AfterClosed(r.0, r.1) == r
      && r.1 == callbacks + (if wasDisconnect then [] else [Disconnected(None)])
  {
  }

  class SocketIO {
    /// `_sock`: the WebSocket in use, if any.
    var sock: WebSocketNet.WebSocket?
    /// `_wasDisconnect`.
    var wasDisconnect: bool
    /// The callbacks raised so far, in order.
    var callbacks: seq<Callback>

    /// The objects of the socket in use.
    function Held(): set<object>
      reads this
    {
      if sock == null then {} else {sock, sock.buf, sock.sbuf}
    }

    /// The socket in use is a valid WebSocket with this object as its
    /// handler and masking on.
    predicate Valid()
      reads this, Held()
    {
      sock != null ==> sock.Valid() && sock.handler && sock.masking
    }

    constructor ()
      ensures Valid() && sock == null && !wasDisconnect && callbacks == []
    {
      sock := null;
      wasDisconnect := false;
      callbacks := [];
    }

    /// Close(): the socket is released, its handler cleared, and closed.
    method Close()
      requires Valid()
      modifies this, Held()
      ensures Valid() && sock == null
      ensures wasDisconnect == old(wasDisconnect) && callbacks == old(callbacks)
      ensures old(sock) != null
        ==> old(sock).Snapshot() == WebSocketSpec.Close(old(sock.Snapshot()).(handler := false))
    {
      var s := sock;
      sock := null;
      if s != null {
        s.SetHandler(false);
        s.Close();
      }
    }

    /// Open(url, encoding): close the socket in use, run the handshake (the
    /// clock reading `t` and the POST's reply are inputs), and on an offer
    /// open a new masking WebSocket with this object as its handler; the
    /// socket is kept only when its opening handshake succeeds.
    method Open(url: string, t: int, reply: string, env: WebSocketSpec.Env, response: seq<byte>, key: string)
      returns (o: Outcome)
      requires Valid()
      modifies this, Held()
      ensures Valid() && wasDisconnect == old(wasDisconnect) && callbacks == old(callbacks)
      ensures old(sock) != null
        ==> old(sock).Snapshot() == WebSocketSpec.Close(old(sock.Snapshot()).(handler := false))
      ensures match ParseResponse(url, t, reply)
        case Err(e) => o == Fail(e) && sock == null
        case Ok(None) => o == Fail(NotSupported(NO_WEBSOCKET)) && sock == null
        case Ok(Some(_)) =>
          var s := WebSocketSpec.Open(env, OPENING, response, key);
          o == s.outcome
          && (o.Fail? ==> sock == null)
          && (o.Pass? ==> sock != null && fresh(sock) && sock.env == env && sock.Snapshot() == s.conn)
      ensures fresh(Held())
    {
      Close();
      var spt := ParseResponse(url, t, reply);
      o := Attach(spt, env, response, key);
    }

    /// The part of Open after the old socket is closed, on the outcome of
    /// the handshake.
    method Attach(spt: Result<Option<Handshake>>, env: WebSocketSpec.Env, response: seq<byte>, key: string)
      returns (o: Outcome)
      requires sock == null
      modifies this
      ensures Valid() && wasDisconnect == old(wasDisconnect) && callbacks == old(callbacks)
      ensures match spt
        case Err(e) => o == Fail(e) && sock == null
        case Ok(None) => o == Fail(NotSupported(NO_WEBSOCKET)) && sock == null
        case Ok(Some(_)) =>
          var s := WebSocketSpec.Open(env, OPENING, response, key);
          o == s.outcome
          && (o.Fail? ==> sock == null)
          && (o.Pass? ==> sock != null && fresh(sock) && sock.env == env && sock.Snapshot() == s.conn)
      ensures fresh(Held())
    {
      if spt.Err? {
        return Fail(spt.error);
      }
      if spt.value.None? {
        return Fail(NotSupported(NO_WEBSOCKET));
      }
      var ws;
      ws, o := NewSocket(env, response, key);
      if o.Pass? {
        sock := ws;
      }
    }

    /// The socket Open makes: `new WebSocket(encoding)` with this object as
    /// its handler and masking on, then its opening handshake.
    static method NewSocket(env: WebSocketSpec.Env, response: seq<byte>, key: string)
      returns (ws: WebSocketNet.WebSocket, o: Outcome)
      ensures fresh(ws) && fresh(ws.buf) && fresh(ws.sbuf) && ws.env == env
      ensures ws.Valid() && ws.handler && ws.masking
      ensures WebSocketSpec.Step(ws.Snapshot(), o) == WebSocketSpec.Open(env, OPENING, response, key)
    {
      ws := new WebSocketNet.WebSocket(env);
      ws.SetHandler(true);
      var m := ws.SetMasking(true);
      o := ws.Open(response, key);
    }

    /// The builders other than Disconnect: the packet's line through Send
    /// (SendAscii for the bare heartbeat and no-op); with no socket in use,
    /// a NullReferenceException.
    method Send(p: Packet) returns (o: Outcome)
      requires Valid()
      modifies Held()
      ensures Valid()
      ensures sock == null ==> o == Fail(NullReference)
      ensures sock != null
        ==> WebSocketSpec.Step(sock.Snapshot(), o)
            == WebSocketSpec.SendText(sock.env, old(sock.Snapshot()), if IsBare(p) then Ascii else sock.env.enc, Line(p))
    {
      if sock == null {
        return Fail(NullReference);
      }
      if IsBare(p) {
        o := sock.SendAscii(Line(p));
      } else {
        o := sock.Send(Line(p));
      }
    }

    /// Disconnect(endPoint): send "0::{endPoint}", set `_wasDisconnect`,
    /// then Close(). A failed send leaves both as they were.
    method Disconnect(endPoint: string) returns (o: Outcome)
      requires Valid()
      modifies this, Held()
      ensures Valid() && callbacks == old(callbacks)
      ensures old(sock) == null ==> o == Fail(NullReference) && sock == null && wasDisconnect == old(wasDisconnect)
      ensures old(sock) != null ==>
        var s := WebSocketSpec.SendText(old(sock).env, old(sock.Snapshot()), old(sock).env.enc, DisconnectLine(endPoint));
        o == s.outcome
        && (o.Pass? ==> wasDisconnect && sock == null
                        && old(sock).Snapshot() == WebSocketSpec.Close(s.conn.(handler := false)))
        && (o.Fail? ==> wasDisconnect == old(wasDisconnect) && sock == old(sock) && sock.Snapshot() == s.conn)
    {
      if sock == null {
        return Fail(NullReference);
      }
      o := sock.Send(DisconnectLine(endPoint));
      if o.Fail? {
        return;
      }
      wasDisconnect := true;
      Close();
    }

    /// The handler's OnString: handleString on the decoded line. Echoes go
    /// back through SendAscii; whatever throws is reported as unexpected.
    method OnString(data: string)
      requires Valid()
      modifies this, Held()
      ensures Valid() && sock == old(sock) && wasDisconnect == old(wasDisconnect)
      ensures match Decode(data, false)
        case Raise(cb) =>
          callbacks == old(callbacks) + [cb] && (sock != null ==> sock.Snapshot() == old(sock.Snapshot()))
        case Ignore =>
          callbacks == old(callbacks) && (sock != null ==> sock.Snapshot() == old(sock.Snapshot()))
        case Echo(line) =>
          if sock == null then callbacks == old(callbacks) + [Unexpected(NullReference)]
          else
            var s := WebSocketSpec.SendText(sock.env, old(sock.Snapshot()), Ascii, line);
            sock.Snapshot() == s.conn
            && callbacks == old(callbacks) + (if s.outcome.Fail? then [Unexpected(s.outcome.error)] else [])
    {
      match Decode(data, false)
      case Raise(cb) =>
        callbacks := callbacks + [cb];
      case Ignore =>
      case Echo(line) =>
        if sock == null {
          callbacks := callbacks + [Unexpected(NullReference)];
        } else {
          var o := sock.SendAscii(line);
          if o.Fail? {
            callbacks := callbacks + [Unexpected(o.error)];
          }
        }
    }

    /// The handler's OnError: OnError(null, message, op).
    method OnError(op: string, error: Error)
      modifies this
      ensures callbacks == old(callbacks) + [Failed(op, error)]
      ensures sock == old(sock) && wasDisconnect == old(wasDisconnect)
    {
      callbacks := callbacks + [Failed(op, error)];
    }

    /// The handler's OnClosed: OnDisconnect(null) unless a disconnect was
    /// already seen or sent.
    method OnClosed()
      modifies this
      ensures (wasDisconnect, callbacks) == AfterClosed(old(wasDisconnect), old(callbacks))
      ensures sock == old(sock)
    {
      if wasDisconnect {
        return;
      }
      callbacks := callbacks + [Disconnected(None)];
      wasDisconnect := true;
    }
  }
}
