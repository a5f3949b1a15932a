/// The Pusher adapter over the WebSocket client: dispatch of received event
/// envelopes on their event name, the fixed subscription message, and the
/// Pusher object that owns one WebSocket at a time. JSON decoding is a
/// parameter (a Decoder), since the serializer is not part of this model.
module Pusher {
  import opened Common
  import WebSocketSpec
  import WebSocketNet

  // ---------------------------------------------------------------------------
  // Events

  const CONNECTION_ESTABLISHED: string := "pusher:connection_established"
  const SUBSCRIPTION_SUCCEEDED: string := "pusher_internal:subscription_succeeded"
  const DATA_EVENT: string := "data"
  const UNKNOWN_PACKET: string := "Unknown socket.io packet "

  /// The message Subscribe sends, whatever channel it is given.
  const SUBSCRIBE: string := "{\"event\":\"pusher:subscribe\",\"data\":{\"channel\":\"order_book\"}}"

  /// PusherEventWrapper: the event name (null when the field is absent) and
  /// the data text.
  datatype Envelope = Envelope(event: Option<string>, data: string)

  /// PusherConnectionEstablished.
  datatype Established = Established(socketId: string, activityTimeout: int)

  /// What JSON deserialization makes of a text, or the exception it throws.
  datatype Decoder = Decoder(envelope: string -> Result<Envelope>, established: string -> Result<Established>)

  /// The events a Pusher object raises, in the order it raises them;
  /// `Unexpected` is a report to Helper.RaiseUnexpected.
  datatype Callback =
    | Connected(data: Established)
    | Disconnected
    | Failed(op: string, error: Error)
    | Unexpected(error: Error)

  /// `"Unknown socket.io packet " + eventWrap.@event`, null as empty.
  function UnknownEvent(event: Option<string>): Error
  {
    NotSupported(UNKNOWN_PACKET + (if event.Some? then event.value else ""))
  }

  /// The event names that are acknowledged without a callback.
  predicate Quiet(event: Option<string>)
  {
    event == Some(SUBSCRIPTION_SUCCEEDED) || event == Some(DATA_EVENT)
  }

  /// handlePusherEvent(msgStr): the callback it raises, if any.
  function HandleEvent(dec: Decoder, msg: string): (r: Option<Callback>)
  {
    match dec.envelope(msg)
    case Err(e) => Some(Unexpected(e))
    case Ok(w) =>
      if w.event == Some(CONNECTION_ESTABLISHED) then
        match dec.established(w.data)
        case Err(e) => Some(Unexpected(e))
        case Ok(d) => Some(Connected(d))
      else if Quiet(w.event) then None
      else Some(Unexpected(UnknownEvent(w.event)))
  }

  /// The three event names are distinct, so each message takes exactly one
  /// branch of the dispatch.
  lemma EventNamesDistinct()
    ensures CONNECTION_ESTABLISHED != SUBSCRIPTION_SUCCEEDED
    ensures CONNECTION_ESTABLISHED != DATA_EVENT
    ensures SUBSCRIPTION_SUCCEEDED != DATA_EVENT
  {
    assert CONNECTION_ESTABLISHED[6] == ':' && SUBSCRIPTION_SUCCEEDED[6] == '_';
    assert |DATA_EVENT| == 4 < |CONNECTION_ESTABLISHED|;
  }

  /// What each envelope leads to: OnConnect exactly for a well-formed
  /// connection_established, silence exactly for the two quiet events, and
  /// otherwise an unexpected-error report (an unknown event name or a
  /// decoding failure), never anything else.
  lemma HandleEventCases(dec: Decoder, msg: string)
    ensures HandleEvent(dec, msg).None?
      <==> dec.envelope(msg).Ok? && Quiet(dec.envelope(msg).value.event)
    ensures forall d :: (HandleEvent(dec, msg) == Some(Connected(d))
                         <==> dec.envelope(msg).Ok? && dec.envelope(msg).value.event == Some(CONNECTION_ESTABLISHED)
                              && dec.established(dec.envelope(msg).value.data) == Ok(d))
    ensures HandleEvent(dec, msg).Some? ==> HandleEvent(dec, msg).value.Connected? || HandleEvent(dec, msg).value.Unexpected?
    ensures dec.envelope(msg).Ok? && dec.envelope(msg).value.event != Some(CONNECTION_ESTABLISHED)
            && !Quiet(dec.envelope(msg).value.event)
      ==> HandleEvent(dec, msg) == Some(Unexpected(UnknownEvent(dec.envelope(msg).value.event)))
  {
    EventNamesDistinct();
  }

  /// OnClosed on `_wasDisconnect` and the callbacks.
  function AfterClosed(wasDisconnect: bool, callbacks: seq<Callback>): (r: (bool, seq<Callback>))
    ensures r.0
  {
    if wasDisconnect then (true, callbacks) else (true, callbacks + [Disconnected])
  }

  /// OnClosed raises OnDisconnect at most once.
  lemma ClosedOnce(wasDisconnect: bool, callbacks: seq<Callback>)
    ensures var r := AfterClosed(wasDisconnect, callbacks);
      AfterClosed(r.0, r.1) == r
      && r.1 == callbacks + (if wasDisconnect then [] else [Disconnected])
  {
  }

  /// The state a WebSocket that Pusher.Open creates is opened from: a new
  /// socket with its handler set and masking left off.
  const OPENING: WebSocketSpec.Conn := WebSocketSpec.INITIAL.(handler := true)

  class Pusher {
    /// `_sock`: the WebSocket in use, if any.
    var sock: WebSocketNet.WebSocket?
    /// `_wasDisconnect`.
    var wasDisconnect: bool
    /// The callbacks raised so far, in order.
    var callbacks: seq<Callback>

    /// The objects of the socket in use.
    function Held(): set<object>
      reads this
    {
      if sock == null then {} else {sock, sock.buf, sock.sbuf}
    }

    /// The socket in use is a valid WebSocket with this object as its
    /// handler.
    predicate Valid()
      reads this, Held()
    {
      sock != null ==> sock.Valid() && sock.handler
    }

    constructor ()
      ensures Valid() && sock == null && !wasDisconnect && callbacks == []
    {
      sock := null;
      wasDisconnect := false;
      callbacks := [];
    }

    /// Close(): the socket is released, its handler cleared, and closed;
    /// nothing happens when none is held.
    method Close()
      requires Valid()
      modifies this, Held()
      ensures Valid() && sock == null
      ensures wasDisconnect == old(wasDisconnect) && callbacks == old(callbacks)
      ensures old(sock) != null
        ==> old(sock).Snapshot() == WebSocketSpec.Close(old(sock.Snapshot()).(handler := false))
    {
      var s := sock;
      sock := null;
      if s != null {
        s.SetHandler(false);
        s.Close();
      }
    }

    /// The socket Open makes: `new WebSocket(encoding)` with this object as
    /// its handler, masking untouched, then its opening handshake.
    static method NewSocket(env: WebSocketSpec.Env, response: seq<byte>, key: string)
      returns (ws: WebSocketNet.WebSocket, o: Outcome)
      ensures fresh(ws) && fresh(ws.buf) && fresh(ws.sbuf) && ws.env == env
      ensures ws.Valid() && ws.handler && !ws.masking
      ensures WebSocketSpec.Step(ws.Snapshot(), o) == WebSocketSpec.Open(env, OPENING, response, key)
    {
      ws := new WebSocketNet.WebSocket(env);
      ws.SetHandler(true);
      o := ws.Open(response, key);
    }

    /// Open(url, encoding): close the socket in use, then open the URL
    /// directly, with no negotiation; the socket is kept only when its
    /// opening handshake succeeds, and it does not mask.
    method Open(env: WebSocketSpec.Env, response: seq<byte>, key: string) returns (o: Outcome)
      requires Valid()
      modifies this, Held()
      ensures Valid() && wasDisconnect == old(wasDisconnect) && callbacks == old(callbacks)
      ensures old(sock) != null
        ==> old(sock).Snapshot() == WebSocketSpec.Close(old(sock.Snapshot()).(handler := false))
      ensures var s := WebSocketSpec.Open(env, OPENING, response, key);
        o == s.outcome
        && (o.Fail? ==> sock == null)
        && (o.Pass? ==> sock != null && fresh(sock) && sock.env == env && !sock.masking && sock.Snapshot() == s.conn)
    {
      Close();
      var ws;
      ws, o := NewSocket(env, response, key);
      if o.Pass? {
        sock := ws;
      }
    }

    /// Subscribe(ch): the fixed order_book subscription through Send, for
    /// every channel; with no socket in use, a NullReferenceException.
    method Subscribe(ch: string) returns (o: Outcome)
      requires Valid()
      modifies Held()
      ensures Valid()
      ensures sock == null ==> o == Fail(NullReference)
      ensures sock != null
        ==> WebSocketSpec.Step(sock.Snapshot(), o) == WebSocketSpec.SendText(sock.env, old(sock.Snapshot()), sock.env.enc, SUBSCRIBE)
    {
      if sock == null {
        return Fail(NullReference);
      }
      o := sock.Send(SUBSCRIBE);
    }

    /// Disconnect(endPoint): nothing is sent; `_wasDisconnect` is set and
    /// the socket closed.
    method Disconnect(endPoint: string)
      requires Valid()
      modifies this, Held()
      ensures Valid() && sock == null && wasDisconnect && callbacks == old(callbacks)
      ensures old(sock) != null
        ==> old(sock).Snapshot() == WebSocketSpec.Close(old(sock.Snapshot()).(handler := false))
    {
      wasDisconnect := true;
      Close();
    }

    /// Connect, Heartbeat, Message, Json, Event, Ack, Error and Noop: their
    /// sends are commented out, so they touch neither the object nor its
    /// socket.
    method Unsent(packet: string)
      ensures sock == old(sock) && wasDisconnect == old(wasDisconnect) && callbacks == old(callbacks)
      ensures sock != null ==> sock.Snapshot() == old(sock.Snapshot())
    {
    }

    /// The handler's OnString: handlePusherEvent; the socket is never
    /// closed by what is received.
    method OnString(dec: Decoder, data: string)
      modifies this
      ensures sock == old(sock) && wasDisconnect == old(wasDisconnect)
      ensures var r := HandleEvent(dec, data);
        callbacks == old(callbacks) + (if r.Some? then [r.value] else [])
    {
      var r := HandleEvent(dec, data);
      if r.Some? {
        callbacks := callbacks + [r.value];
      }
    }

    /// The handler's OnError: OnError(null, message, op).
    method OnError(op: string, error: Error)
      modifies this
      ensures callbacks == old(callbacks) + [Failed(op, error)]
      ensures sock == old(sock) && wasDisconnect == old(wasDisconnect)
    {
      callbacks := callbacks + [Failed(op, error)];
    }

    /// The handler's OnClosed: OnDisconnect(null) unless a disconnect was
    /// already seen or asked for.
    method OnClosed()
      modifies this
      ensures (wasDisconnect, callbacks) == AfterClosed(old(wasDisconnect), old(callbacks))
      ensures sock == old(sock)
    {
      if wasDisconnect {
        return;
      }
      callbacks := callbacks + [Disconnected];
      wasDisconnect := true;
    }
  }
}
