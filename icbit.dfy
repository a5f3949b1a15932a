/// The ICBIT client: the commands it sends on the "/icbit" end point of its
/// socket.io connection, and the local cache of orders, balance and
/// instruments that the JSON packets it receives keep up to date.
module Icbit {
  import opened Common
  import opened IcbitTypes
  import SocketIO
  import WebSocketSpec
  import WebSocketNet

  // ---------------------------------------------------------------------------
  // Commands

  /// The socket.io end point of the ICBIT API.
  const ICBIT: string := "/icbit"

  /// The line a command travels in: a json packet on the ICBIT end point,
  /// with no message id.
  function Command(json: string): string
  {
    SocketIO.Line(SocketIO.JsonPacket(json, None, ICBIT))
  }

  /// Every command line reads "4::/icbit:" followed by its JSON; decoded
  /// with the end-point field measured correctly it gives back the JSON on
  /// the ICBIT end point, and decoded as SocketIO does it gives back the
  /// same JSON with the end point running into it.
  lemma CommandRoundTrip(json: string)
    ensures Command(json) == "4::/icbit:" + json
    ensures SocketIO.Decode(Command(json), true) == SocketIO.Raise(SocketIO.JsonReceived(json, None, Some(ICBIT)))
    ensures json != ""
      ==> SocketIO.Decode(Command(json), false)
          == SocketIO.Raise(SocketIO.JsonReceived(json, None, Some(ICBIT + ":" + [json[0]])))
  {
    CommandText(json);
    SocketIO.JsonRoundTripExact(json, None, ICBIT);
    SocketIO.EndPointOverread(json, None, ICBIT);
  }

  lemma CommandText(json: string)
    ensures Command(json) == "4::/icbit:" + json
  {
    SocketIO.LineOf(SocketIO.JsonPacket(json, None, ICBIT));
  }

  /// Different JSON texts travel in different lines.
  lemma CommandInjective(j1: string, j2: string)
    ensures Command(j1) == Command(j2) ==> j1 == j2
  {
    CommandText(j1);
    CommandText(j2);
    var pre := "4::/icbit:";
    if Command(j1) == Command(j2) {
      assert j1 == Command(j1)[|pre|..];
      assert j2 == Command(j2)[|pre|..];
    }
  }

  /// The create_order command's JSON: the token, then the order's fields.
  function CreateOrderJson(token: ulong, ticker: string, buy: bool, price: int, qty: int): string
  {
    "{\"op\":\"create_order\",\"order\":{\"market\":1,\"token\":\"" + NatToString(token)
    + OrderFields(ticker, buy, price, qty)
  }

  /// What follows the token in a create_order command.
  function OrderFields(ticker: string, buy: bool, price: int, qty: int): (r: string)
    ensures r != [] && r[0] == '"'
  {
    "\",\"ticker\":\"" + ticker + "\",\"buy\":" + IntToString(BuyFlag(buy))
    + ",\"price\":" + IntToString(price) + ",\"qty\":" + IntToString(qty) + "}}"
  }

  /// The cancel_order command's JSON.
  function CancelOrderJson(marketType: int, oid: int): string
  {
    CANCEL_ORDER + IntToString(oid) + MarketTail(marketType)
  }

  /// What precedes the order id in a cancel_order command.
  const CANCEL_ORDER: string := "{\"op\":\"cancel_order\",\"order\":{\"oid\":"

  /// What follows the order id in a cancel_order command.
  function MarketTail(marketType: int): (r: string)
    ensures r != [] && r[0] == ','
  {
    ",\"market\":" + IntToString(marketType) + "}}"
  }

  /// The subscribe command's JSON.
  function SubscribeJson(channel: string): string
  {
    "{\"op\":\"subscribe\",\"channel\": \"" + channel + "\"}"
  }

  /// The get user_trades command's JSON.
  function GetTradesJson(since: int, limit: nat): string
  {
    "{\"since\":\"" + IntToString(since) + "\",\"limit\":" + NatToString(limit) + ",\"type\":\"user_trades\",\"op\":\"get\"}"
  }

  /// In a text made of p, a numeral and a text starting with a non-digit,
  /// the numeral's characters are digits and the one after it is not.
  lemma NumeralEnd(p: string, s: string, q: string)
    requires AllDigits(s) && q != [] && !IsDigit(q[0])
    ensures forall j :: |p| <= j < |p| + |s| ==> IsDigit((p + s + q)[j])
    ensures !IsDigit((p + s + q)[|p| + |s|])
  {
    assert forall j :: |p| <= j < |p| + |s| ==> (p + s + q)[j] == s[j - |p|];
  }

  /// Two texts that agree up to a decimal numeral, each numeral followed by
  /// a non-digit, carry the same numeral.
  lemma {:induction false} NumeralsAgree(p: string, n1: nat, n2: nat, q1: string, q2: string)
    requires p + NatToString(n1) + q1 == p + NatToString(n2) + q2
    requires q1 != [] && q2 != [] && !IsDigit(q1[0]) && !IsDigit(q2[0])
    ensures n1 == n2
  {
    var s1, s2 := NatToString(n1), NatToString(n2);
    var t := p + s1 + q1;
    NumeralEnd(p, s1, q1);
    NumeralEnd(p, s2, q2);
    if |s1| < |s2| {
      assert false;
    } else if |s2| < |s1| {
      assert false;
    }
    assert s1 == t[|p|..|p| + |s1|] == s2;
  }

  /// The same for signed numerals (Int64.ToString).
  lemma {:induction false} SignedNumeralsAgree(p: string, i1: int, i2: int, q1: string, q2: string)
    requires p + IntToString(i1) + q1 == p + IntToString(i2) + q2
    requires q1 != [] && q2 != [] && !IsDigit(q1[0]) && !IsDigit(q2[0])
    ensures i1 == i2
  {
    SameSign(p, i1, i2, q1, q2);
    if i1 < 0 {
      NegativeNumeralsAgree(p, i1, i2, q1, q2);
    } else {
      NumeralsAgree(p, i1, i2, q1, q2);
    }
  }

  /// The negative case: the minus sign joins the common prefix.
  lemma NegativeNumeralsAgree(p: string, i1: int, i2: int, q1: string, q2: string)
    requires i1 < 0 && i2 < 0 && p + IntToString(i1) + q1 == p + IntToString(i2) + q2
    requires q1 != [] && q2 != [] && !IsDigit(q1[0]) && !IsDigit(q2[0])
    ensures i1 == i2
  {
    var a := (p + "-") + NatToString(-i1) + q1;
    var b := (p + "-") + NatToString(-i2) + q2;
    NegativeNumeral(p, i1, q1);
    NegativeNumeral(p, i2, q2);
    assert a == b;
    NumeralsAgree(p + "-", -i1, -i2, q1, q2);
  }

  /// Texts that agree up to a signed numeral agree on its sign.
  lemma SameSign(p: string, i1: int, i2: int, q1: string, q2: string)
    requires p + IntToString(i1) + q1 == p + IntToString(i2) + q2
    ensures i1 < 0 <==> i2 < 0
  {
    assert (p + IntToString(i1) + q1)[|p|] == IntToString(i1)[0];
    assert (p + IntToString(i2) + q2)[|p|] == IntToString(i2)[0];
  }

  /// A negative numeral is a minus sign, then the digits of its magnitude.
  lemma NegativeNumeral(p: string, i: int, q: string)
    requires i < 0
    ensures p + IntToString(i) + q == (p + "-") + NatToString(-i) + q
  {
  }

  /// Orders created with different tokens are sent as different commands,
  /// whatever else they say.
  lemma CreateOrderTokensDiffer(t1: ulong, t2: ulong, x1: string, x2: string, b1: bool, b2: bool,
                                p1: int, p2: int, q1: int, q2: int)
    requires t1 != t2
    ensures Command(CreateOrderJson(t1, x1, b1, p1, q1)) != Command(CreateOrderJson(t2, x2, b2, p2, q2))
  {
    var pre := "{\"op\":\"create_order\",\"order\":{\"market\":1,\"token\":\"";
    CommandInjective(CreateOrderJson(t1, x1, b1, p1, q1), CreateOrderJson(t2, x2, b2, p2, q2));
    if CreateOrderJson(t1, x1, b1, p1, q1) == CreateOrderJson(t2, x2, b2, p2, q2) {
      NumeralsAgree(pre, t1, t2, OrderFields(x1, b1, p1, q1), OrderFields(x2, b2, p2, q2));
    }
  }

  /// Cancels of different orders are different commands.
  lemma CancelOrdersDiffer(m1: int, m2: int, oid1: int, oid2: int)
    requires oid1 != oid2
    ensures Command(CancelOrderJson(m1, oid1)) != Command(CancelOrderJson(m2, oid2))
  {
    CommandInjective(CancelOrderJson(m1, oid1), CancelOrderJson(m2, oid2));
    if CancelOrderJson(m1, oid1) == CancelOrderJson(m2, oid2) {
      SignedNumeralsAgree(CANCEL_ORDER, oid1, oid2, MarketTail(m1), MarketTail(m2));
    }
  }

  /// The cancel commands for a list of order ids, market Futures.
  function Cancels(oids: seq<int>): (r: seq<string>)
    ensures |r| == |oids|
    ensures forall i :: 0 <= i < |oids| ==> r[i] == Command(CancelOrderJson(FUTURES, oids[i]))
  {
    if oids == [] then [] else [Command(CancelOrderJson(FUTURES, oids[0]))] + Cancels(oids[1..])
  }

  /// Lines sent one after another through SendAscii; the first exception
  /// ends the run.
  function SendAll(env: WebSocketSpec.Env, c: WebSocketSpec.Conn, lines: seq<string>): (r: WebSocketSpec.Step)
    requires WebSocketSpec.Valid(c)
    ensures WebSocketSpec.Valid(r.conn) && WebSocketSpec.Keeps(c, r.conn)
    decreases |lines|
  {
    if lines == [] then WebSocketSpec.Step(c, Pass)
    else
      var s := WebSocketSpec.SendText(env, c, Ascii, lines[0]);
      if s.outcome.Fail? then s else SendAll(env, s.conn, lines[1..])
  }

  /// SendAll from the i-th line on: that line, then the rest unless it threw.
  lemma SendAllStep(env: WebSocketSpec.Env, c: WebSocketSpec.Conn, lines: seq<string>, i: nat)
    requires WebSocketSpec.Valid(c) && i < |lines|
    ensures var s := WebSocketSpec.SendText(env, c, Ascii, lines[i]);
      SendAll(env, c, lines[i..]) == if s.outcome.Fail? then s else SendAll(env, s.conn, lines[i + 1..])
  {
    assert lines[i..][0] == lines[i] && lines[i..][1..] == lines[i + 1..];
  }

  // ---------------------------------------------------------------------------
  // The cache

  /// Statuses that end an order: it leaves the cache.
  predicate Terminal(s: OrderStatus)
  {
    s == Rejected || s == Canceled || s == Filled
  }

  /// Statuses under which an order not yet cached is taken in.
  predicate Admitted(s: OrderStatus)
  {
    s == New || s == PartiallyFilled
  }

  /// The cache invariant: every order is stored under its own id and none
  /// has ended.
  predicate OpenOrders(orders: map<int, Order>)
  {
    forall k :: k in orders ==> orders[k].oid == k && !Terminal(orders[k].status)
  }

  /// One received order applied to the cache.
  function Reconcile(orders: map<int, Order>, o: Order): (r: map<int, Order>)
    ensures forall k :: k != o.oid ==> (k in r <==> k in orders) && (k in r ==> r[k] == orders[k])
    ensures o.oid in r <==> !Terminal(o.status) && (o.oid in orders || Admitted(o.status))
    ensures o.oid in r ==> r[o.oid] == o
    ensures OpenOrders(orders) ==> OpenOrders(r)
  {
    if o.oid in orders then
      if o.status == Rejected || o.status == Canceled || o.status == Filled then orders - {o.oid}
      else orders[o.oid := o]
    else if o.status == New || o.status == PartiallyFilled then orders[o.oid := o]
    else orders
  }

  /// The received orders applied in order.
  function ApplyOrders(orders: map<int, Order>, list: seq<Order>): (r: map<int, Order>)
    ensures OpenOrders(orders) ==> OpenOrders(r)
    decreases |list|
  {
    if list == [] then orders else ApplyOrders(Reconcile(orders, list[0]), list[1..])
  }

  /// Whether no order after position i carries the id of the one at i.
  predicate LastOf(list: seq<Order>, i: int)
    requires 0 <= i < |list|
  {
    forall j :: i < j < |list| ==> list[j].oid != list[i].oid
  }

  /// Whether some order of the list carries id k.
  predicate Mentions(list: seq<Order>, k: int)
  {
    exists i :: 0 <= i < |list| && list[i].oid == k
  }

  /// An id the list does not mention keeps its entry (or its absence); for
  /// an id it mentions, the last order with that id decides: the id is kept
  /// exactly when that order has not ended and the id was cached before it
  /// or the order is new or partially filled, and then it is the stored
  /// order.
  lemma {:induction false} ApplyOrdersFacts(orders: map<int, Order>, list: seq<Order>)
    ensures var r := ApplyOrders(orders, list);
      (forall k :: !Mentions(list, k) ==> (k in r <==> k in orders) && (k in r ==> r[k] == orders[k]))
      && (forall i :: 0 <= i < |list| && LastOf(list, i)
            ==> (list[i].oid in r ==> r[list[i].oid] == list[i])
                && (list[i].oid in r <==>
                      !Terminal(list[i].status)
                      && (list[i].oid in ApplyOrders(orders, list[..i]) || Admitted(list[i].status))))
    decreases |list|
  {
    if list != [] {
      var m1 := Reconcile(orders, list[0]);
      var tail := list[1..];
      ApplyOrdersFacts(m1, tail);
      var r := ApplyOrders(orders, list);
      assert r == ApplyOrders(m1, tail);
      forall k | !Mentions(list, k)
        ensures (k in r <==> k in orders) && (k in r ==> r[k] == orders[k])
      {
        assert list[0].oid != k;
      }
      forall i | 0 <= i < |list| && LastOf(list, i)
        ensures (list[i].oid in r ==> r[list[i].oid] == list[i])
                && (list[i].oid in r <==>
                      !Terminal(list[i].status)
                      && (list[i].oid in ApplyOrders(orders, list[..i]) || Admitted(list[i].status)))
      {
        if i == 0 {
          assert list[..0] == [];
          assert !Mentions(tail, list[0].oid) by {
            forall j | 0 <= j < |tail| ensures tail[j].oid != list[0].oid {
              assert tail[j] == list[j + 1];
            }
          }
        } else {
          assert tail[i - 1] == list[i];
          assert list[..i][0] == list[0] && list[..i][1..] == tail[..i - 1];
          assert ApplyOrders(orders, list[..i]) == ApplyOrders(m1, tail[..i - 1]);
          assert LastOf(tail, i - 1) by {
            forall j | i - 1 < j < |tail| ensures tail[j].oid != tail[i - 1].oid {
              assert tail[j] == list[j + 1];
            }
          }
        }
      }
    }
  }

  /// After a full (non-update) order list, every cached id is one the list
  /// mentions, the last order for it, and not ended; and every id whose
  /// last order is new or partially filled is cached with that order.
  lemma SnapshotOrders(list: seq<Order>)
    ensures var r := ApplyOrders(map[], list);
      OpenOrders(r)
      && (forall k :: k in r
           ==> Mentions(list, k)
               && exists i :: 0 <= i < |list| && LastOf(list, i) && list[i].oid == k && r[k] == list[i])
      && (forall i :: 0 <= i < |list| && LastOf(list, i) && Admitted(list[i].status)
           ==> list[i].oid in r && r[list[i].oid] == list[i])
  {
    ApplyOrdersFacts(map[], list);
    var r := ApplyOrders(map[], list);
    forall k | k in r
      ensures Mentions(list, k)
      ensures exists i :: 0 <= i < |list| && LastOf(list, i) && list[i].oid == k && r[k] == list[i]
    {
      var i := LastIndex(list, k);
      assert LastOf(list, i);
    }
  }

  /// The position of the last order with id k in a list that mentions k.
  function LastIndex(list: seq<Order>, k: int): (i: int)
    requires Mentions(list, k)
    ensures 0 <= i < |list| && list[i].oid == k && LastOf(list, i)
    decreases |list|
  {
    if list[|list| - 1].oid == k then |list| - 1
    else
      var init := list[..|list| - 1];
      assert Mentions(init, k) by {
        var j :| 0 <= j < |list| && list[j].oid == k;
        assert init[j].oid == k;
      }
      var i := LastIndex(init, k);
      assert list[i] == init[i];
      i
  }

  /// The largest of t and every token in the list.
  function MaxToken(t: ulong, list: seq<Order>): (r: ulong)
    ensures t <= r
    ensures forall i :: 0 <= i < |list| ==> list[i].token <= r
    ensures r == t || exists i :: 0 <= i < |list| && list[i].token == r
    decreases |list|
  {
    if list == [] then t
    else
      var r := MaxToken(if list[0].token > t then list[0].token else t, list[1..]);
      assert forall i :: 1 <= i < |list| ==> list[i] == list[1..][i - 1];
      r
  }

  /// Entries added in order under their key; a key already present keeps
  /// its entry (ConcurrentDictionary.TryAdd).
  function AddFirst<V>(m: map<string, V>, list: seq<V>, key: V -> string): (r: map<string, V>)
    decreases |list|
  {
    if list == [] then m
    else AddFirst(if key(list[0]) in m then m else m[key(list[0]) := list[0]], list[1..], key)
  }

  /// Whether no entry before position i has the key of the one at i.
  predicate FirstOf<V>(list: seq<V>, key: V -> string, i: int)
    requires 0 <= i < |list|
  {
    forall j :: 0 <= j < i ==> key(list[j]) != key(list[i])
  }

  /// TryAdd in order: existing entries stay, every entry's key ends up
  /// present, nothing else is added, and for a new key the first entry with
  /// it wins.
  lemma {:induction false} AddFirstFacts<V>(m: map<string, V>, list: seq<V>, key: V -> string)
    ensures var r := AddFirst(m, list, key);
      (forall k :: k in m ==> k in r && r[k] == m[k])
      && (forall i :: 0 <= i < |list| ==> key(list[i]) in r)
      && (forall i :: 0 <= i < |list| && key(list[i]) !in m && FirstOf(list, key, i) ==> r[key(list[i])] == list[i])
      && (forall k :: k in r ==> k in m || exists i :: 0 <= i < |list| && key(list[i]) == k)
    decreases |list|
  {
    if list != [] {
      var m1 := if key(list[0]) in m then m else m[key(list[0]) := list[0]];
      var tail := list[1..];
      AddFirstFacts(m1, tail, key);
      var r := AddFirst(m, list, key);
      assert r == AddFirst(m1, tail, key);
      forall i | 0 <= i < |list| ensures key(list[i]) in r {
        if i > 0 { assert list[i] == tail[i - 1]; }
      }
      forall i | 0 <= i < |list| && key(list[i]) !in m && FirstOf(list, key, i)
        ensures r[key(list[i])] == list[i]
      {
        if i > 0 {
          assert list[i] == tail[i - 1];
          assert key(list[0]) != key(list[i]);
          assert FirstOf(tail, key, i - 1) by {
            forall j | 0 <= j < i - 1 ensures key(tail[j]) != key(tail[i - 1]) {
              assert tail[j] == list[j + 1];
            }
          }
        }
      }
      forall k | k in r ensures k in m || exists i :: 0 <= i < |list| && key(list[i]) == k {
        if k !in m1 {
          var j :| 0 <= j < |tail| && key(tail[j]) == k;
          assert list[j + 1] == tail[j];
        } else if k !in m {
          assert key(list[0]) == k;
        }
      }
    }
  }

  /// A list loaded into an empty map: exactly its keys, each with the first
  /// entry that carries it.
  lemma LoadFirst<V>(list: seq<V>, key: V -> string)
    ensures var r := AddFirst(map[], list, key);
      (forall k :: k in r <==> exists i :: 0 <= i < |list| && key(list[i]) == k)
      && (forall i :: 0 <= i < |list| && FirstOf(list, key, i) ==> r[key(list[i])] == list[i])
  {
    AddFirstFacts(map[], list, key);
  }

  /// The events the client raises.
  datatype Event = OrdersChanged | BalanceChanged | ConnectEvent

  /// What onJson maintains.
  datatype Cache = Cache(
    orders: map<int, Order>,
    balance: map<string, Position>,
    instruments: map<string, Instrument>,
    connected: bool,
    orderToken: ulong,
    events: seq<Event>)

  function PositionTicker(p: Position): string { p.ticker }
  function InstrumentTicker(i: Instrument): string { i.ticker }

  /// onJson on a decoded packet (None when the text does not decode). A
  /// packet whose list is null has cleared its map when the loop over it
  /// throws, and raises no event.
  function Receive(c: Cache, p: Option<Packet>): (r: Cache)
  {
    if p.None? || p.value.op != Private then c
    else
      var q := p.value;
      match q.content
      case UserBalance =>
        if q.userBalance.None? then c.(balance := map[])
        else c.(balance := AddFirst(map[], q.userBalance.value, PositionTicker), events := c.events + [BalanceChanged])
      case UserOrder =>
        var start := if q.update then c.orders else map[];
        if q.userOrder.None? then c.(orders := start)
        else c.(orders := ApplyOrders(start, q.userOrder.value),
                orderToken := MaxToken(c.orderToken, q.userOrder.value),
                events := c.events + [OrdersChanged])
      case Instruments =>
        if q.instruments.None? then c.(instruments := map[])
        else c.(instruments := AddFirst(map[], q.instruments.value, InstrumentTicker),
                connected := true,
                events := c.events + if c.connected then [] else [ConnectEvent])
      case _ => c
  }

  /// What onJson promises: packets that are not private, or carry anything
  /// but orders, balance or instruments, change nothing; the order cache
  /// stays open; the token never decreases; ConnectEvent is raised at most
  /// once over any run of packets.
  lemma ReceiveFacts(c: Cache, p: Option<Packet>)
    ensures var r := Receive(c, p);
      ((p.None? || p.value.op != Private || !(p.value.content in {UserBalance, UserOrder, Instruments}))
         ==> r == c)
      && (OpenOrders(c.orders) ==> OpenOrders(r.orders))
      && c.orderToken <= r.orderToken
      && (c.connected ==> r.connected && ConnectEvent !in r.events[|c.events|..])
      && |c.events| <= |r.events| && r.events[..|c.events|] == c.events
  {
  }

  /// Over a run of packets, ConnectEvent is raised at most once.
  function ReceiveAll(c: Cache, ps: seq<Option<Packet>>): (r: Cache)
    decreases |ps|
  {
    if ps == [] then c else ReceiveAll(Receive(c, ps[0]), ps[1..])
  }

  function CountConnects(es: seq<Event>): nat
  {
    if es == [] then 0 else (if es[0] == ConnectEvent then 1 else 0) + CountConnects(es[1..])
  }

  lemma {:induction false} CountConnectsAppend(a: seq<Event>, b: seq<Event>)
    ensures CountConnects(a + b) == CountConnects(a) + CountConnects(b)
    decreases |a|
  {
    if a == [] {
      assert a + b == b;
    } else {
      assert (a + b)[1..] == a[1..] + b;
      CountConnectsAppend(a[1..], b);
    }
  }

  lemma {:induction false} ConnectOnce(c: Cache, ps: seq<Option<Packet>>)
    requires c.connected ==> CountConnects(c.events) <= 1
    requires !c.connected ==> CountConnects(c.events) == 0
    ensures var r := ReceiveAll(c, ps);
      CountConnects(r.events) <= 1 && (!r.connected ==> CountConnects(r.events) == 0)
    decreases |ps|
  {
    if ps != [] {
      var c1 := Receive(c, ps[0]);
      ReceiveFacts(c, ps[0]);
      var added := c1.events[|c.events|..];
      assert c1.events == c.events + added;
      CountConnectsAppend(c.events, added);
      if !c.connected {
        assert CountConnects(added) <= 1 && (!c1.connected ==> CountConnects(added) == 0);
      } else {
        assert CountConnects(added) == 0;
      }
      ConnectOnce(c1, ps[1..]);
    }
  }

  // ---------------------------------------------------------------------------
  // The client

  /// The order tokens of a list.
  function TokensOf(list: seq<Order>): (r: set<int>)
    ensures forall i :: 0 <= i < |list| ==> list[i].token in r
    decreases |list|
  {
    if list == [] then {} else {list[0].token} + TokensOf(list[1..])
  }

  /// The order lists' folds, one order further on.
  lemma OrderListStep(orders: map<int, Order>, t: ulong, list: seq<Order>, i: nat)
    requires i < |list|
    ensures ApplyOrders(orders, list[i..]) == ApplyOrders(Reconcile(orders, list[i]), list[i + 1..])
    ensures MaxToken(t, list[i..]) == MaxToken(if list[i].token > t then list[i].token else t, list[i + 1..])
    ensures TokensOf(list[i..]) == {list[i].token} + TokensOf(list[i + 1..])
  {
    assert list[i..][0] == list[i] && list[i..][1..] == list[i + 1..];
  }

  /// The order tokens a packet brings to onJson.
  function PacketTokens(p: Option<Packet>): set<int>
  {
    if p.Some? && p.value.op == Private && p.value.content == UserOrder && p.value.userOrder.Some?
    then TokensOf(p.value.userOrder.value)
    else {}
  }

  /// A new client's cache: empty maps, not connected, token 0, no events.
  const EMPTY_CACHE: Cache := Cache(map[], map[], map[], false, 0, [])

  /// The line Connect sends to join the ICBIT end point: "1::/icbit".
  const JOIN_LINE: string := SocketIO.Line(SocketIO.ConnectPacket(ICBIT, ""))

  /// The URL the client connects to; the signature and nonce come from the
  /// authenticator, which is not part of this model.
  function ConnectionUrl(apiKey: string, signature: string, nonce: int): string
  {
    "https://api.icbit.se:443/?key=" + apiKey + "&signature=" + signature + "&nonce=" + IntToString(nonce)
  }

  /// `oids` lists the keys of `orders`, each once, in the order the
  /// dictionary enumerates them (which C# leaves unspecified).
  ghost predicate Enumerates(oids: seq<int>, orders: map<int, Order>)
  {
    |oids| == |orders| && (forall k :: k in oids <==> k in orders)
    && (forall i, j :: 0 <= i < j < |oids| ==> oids[i] != oids[j])
  }

  class Icbit {
    const connUrl: string
    const sock: SocketIO.SocketIO
    var orders: map<int, Order>
    var balance: map<string, Position>
    var instruments: map<string, Instrument>
    var connected: bool
    var orderToken: ulong
    /// The events raised so far, in order.
    var events: seq<Event>
    /// Every order token received or issued so far.
    ghost var seen: set<int>
    /// Whether orderToken has wrapped around past the largest ulong.
    ghost var wrapped: bool

    /// The cache as a value.
    function State(): Cache
      reads this
    {
      Cache(orders, balance, instruments, connected, orderToken, events)
    }

    /// The socket.io object is valid and apart from this one, the order cache holds only open
    /// orders under their ids, and no token seen exceeds orderToken unless
    /// it has wrapped around.
    ghost predicate Valid()
      reads this, sock, sock.Held()
    {
      this !in sock.Held() && sock.Valid() && OpenOrders(orders)
      && (wrapped || forall t :: t in seen ==> t <= orderToken)
    }

    /// Icbit(userid, apiKey, apiSecret), with the signature and nonce given.
    constructor (apiKey: string, signature: string, nonce: int)
      ensures Valid() && fresh(sock) && sock.sock == null
      ensures connUrl == ConnectionUrl(apiKey, signature, nonce)
      ensures State() == EMPTY_CACHE && seen == {} && !wrapped
    {
      connUrl := ConnectionUrl(apiKey, signature, nonce);
      sock := new SocketIO.SocketIO();
      orders := map[];
      balance := map[];
      instruments := map[];
      connected := false;
      orderToken := 0;
      events := [];
      seen := {};
      wrapped := false;
    }

    /// Connect(): open the socket.io connection (ASCII) and join the ICBIT
    /// end point.
    method Connect(t: int, reply: string, env: WebSocketSpec.Env, response: seq<byte>, key: string)
      returns (o: Outcome)
      requires Valid()
      modifies sock, sock.Held()
      ensures Valid()
      ensures var ascii := env.(enc := Ascii);
        match SocketIO.ParseResponse(connUrl, t, reply)
        case Err(e) => o == Fail(e) && sock.sock == null
        case Ok(None) => o == Fail(NotSupported(SocketIO.NO_WEBSOCKET)) && sock.sock == null
        case Ok(Some(_)) =>
          var s := WebSocketSpec.Open(ascii, SocketIO.OPENING, response, key);
          if s.outcome.Fail? then o == s.outcome && sock.sock == null
          else sock.sock != null && fresh(sock.sock)
               && WebSocketSpec.Step(sock.sock.Snapshot(), o) == WebSocketSpec.SendText(ascii, s.conn, Ascii, JOIN_LINE)
    {
      o := sock.Open(connUrl, t, reply, env.(enc := Ascii), response, key);
      if o.Fail? {
        return;
      }
      o := sock.sock.SendAscii(JOIN_LINE);
    }

    /// `sock.WebSocket.SendAscii(line)` for a command; with no socket open,
    /// a NullReferenceException.
    method SendCommand(json: string) returns (o: Outcome)
      requires Valid()
      modifies sock.Held()
      ensures Valid() && sock.sock == old(sock.sock)
      ensures sock.sock == null ==> o == Fail(NullReference)
      ensures sock.sock != null
        ==> WebSocketSpec.Step(sock.sock.Snapshot(), o)
            == WebSocketSpec.SendText(sock.sock.env, old(sock.sock.Snapshot()), Ascii, Command(json))
    {
      if sock.sock == null {
        return Fail(NullReference);
      }
      o := sock.sock.SendAscii(Command(json));
    }

    /// CreateOrder: the token is pre-incremented (wrapping as a ulong does),
    /// then the order is sent under it; short of wrap-around, it exceeds
    /// every token seen so far.
    method CreateOrder(ticker: string, buy: bool, price: int, qty: int) returns (o: Outcome)
      requires Valid()
      modifies this, sock.Held()
      ensures Valid()
      ensures orderToken == if old(orderToken) == TWO_64 - 1 then 0 else old(orderToken) + 1
      ensures State() == old(State()).(orderToken := orderToken)
      ensures seen == old(seen) + {orderToken}
      ensures !old(wrapped) && old(orderToken) < TWO_64 - 1
        ==> !wrapped && forall t :: t in old(seen) ==> t < orderToken
      ensures sock.sock == null ==> o == Fail(NullReference)
      ensures sock.sock != null
        ==> WebSocketSpec.Step(sock.sock.Snapshot(), o)
            == WebSocketSpec.SendText(sock.sock.env, old(sock.sock.Snapshot()), Ascii,
                                      Command(CreateOrderJson(orderToken, ticker, buy, price, qty)))
    {
      NextToken();
      o := SendCommand(CreateOrderJson(orderToken, ticker, buy, price, qty));
    }

    /// `++_orderToken` on a ulong, and the new token recorded as seen.
    method NextToken()
      requires Valid()
      modifies this
      ensures Valid()
      ensures orderToken == if old(orderToken) == TWO_64 - 1 then 0 else old(orderToken) + 1
      ensures State() == old(State()).(orderToken := orderToken)
      ensures seen == old(seen) + {orderToken}
      ensures wrapped == (old(wrapped) || old(orderToken) == TWO_64 - 1)
      ensures !wrapped ==> forall t :: t in old(seen) ==> t < orderToken
    {
      if orderToken == TWO_64 - 1 {
        orderToken := 0;
        wrapped := true;
      } else {
        orderToken := orderToken + 1;
      }
      seen := seen + {orderToken};
    }

    /// CancelOrder(marketType, oid).
    method CancelOrder(marketType: int, oid: int) returns (o: Outcome)
      requires Valid()
      modifies sock.Held()
      ensures Valid() && sock.sock == old(sock.sock)
      ensures sock.sock == null ==> o == Fail(NullReference)
      ensures sock.sock != null
        ==> WebSocketSpec.Step(sock.sock.Snapshot(), o)
            == WebSocketSpec.SendText(sock.sock.env, old(sock.sock.Snapshot()), Ascii, Command(CancelOrderJson(marketType, oid)))
    {
      o := SendCommand(CancelOrderJson(marketType, oid));
    }

    /// ClearAllOrders: one Futures cancel per cached order id, in the order
    /// `oids` gives the keys; the first exception ends the run.
    method ClearAllOrders(oids: seq<int>) returns (o: Outcome)
      requires Valid() && Enumerates(oids, orders)
      modifies sock.Held()
      ensures Valid()
      ensures sock.sock == null ==> o == (if oids == [] then Pass else Fail(NullReference))
      ensures sock.sock != null
        ==> WebSocketSpec.Step(sock.sock.Snapshot(), o)
            == SendAll(sock.sock.env, old(sock.sock.Snapshot()), Cancels(oids))
    {
      o := Pass;
      if sock.sock == null {
        if oids != [] {
          o := CancelOrder(FUTURES, oids[0]);
        }
        return;
      }
      ghost var ws := sock.sock;
      ghost var cmds := Cancels(oids);
      ghost var goal := SendAll(ws.env, ws.Snapshot(), cmds);
      assert cmds[0..] == cmds;
      var i := 0;
      while i < |oids|
        invariant 0 <= i <= |oids| && o == Pass
        invariant Valid() && sock.sock == ws
        invariant goal == SendAll(ws.env, ws.Snapshot(), cmds[i..])
        decreases |oids| - i
      {
        SendAllStep(ws.env, ws.Snapshot(), cmds, i);
        o := CancelOrder(FUTURES, oids[i]);
        if o.Fail? {
          return;
        }
        i := i + 1;
      }
      assert cmds[i..] == [];
    }

    /// SubscribeToChannel(channel).
    method SubscribeToChannel(channel: string) returns (o: Outcome)
      requires Valid()
      modifies sock.Held()
      ensures Valid()
      ensures sock.sock == null ==> o == Fail(NullReference)
      ensures sock.sock != null
        ==> WebSocketSpec.Step(sock.sock.Snapshot(), o)
            == WebSocketSpec.SendText(sock.sock.env, old(sock.sock.Snapshot()), Ascii, Command(SubscribeJson(channel)))
    {
      o := SendCommand(SubscribeJson(channel));
    }

    /// GetTrades(since, limit).
    method GetTrades(since: int, limit: nat) returns (o: Outcome)
      requires Valid()
      modifies sock.Held()
      ensures Valid()
      ensures sock.sock == null ==> o == Fail(NullReference)
      ensures sock.sock != null
        ==> WebSocketSpec.Step(sock.sock.Snapshot(), o)
            == WebSocketSpec.SendText(sock.sock.env, old(sock.sock.Snapshot()), Ascii, Command(GetTradesJson(since, limit)))
    {
      o := SendCommand(GetTradesJson(since, limit));
    }

    /// One order of a user_order list: the token raised to it, then the
    /// order applied to the cache.
    method LoadOrder(o: Order)
      requires OpenOrders(orders) && (wrapped || forall t :: t in seen ==> t <= orderToken)
      modifies this
      ensures orders == Reconcile(old(orders), o)
      ensures orderToken == if o.token > old(orderToken) then o.token else old(orderToken)
      ensures seen == old(seen) + {o.token}
      ensures balance == old(balance) && instruments == old(instruments)
      ensures connected == old(connected) && events == old(events) && wrapped == old(wrapped)
      ensures OpenOrders(orders) && (wrapped || forall t :: t in seen ==> t <= orderToken)
    {
      if o.token > orderToken {
        orderToken := o.token;
      }
      seen := seen + {o.token};
      if o.oid in orders {
        if o.status == Rejected || o.status == Canceled || o.status == Filled {
          orders := orders - {o.oid};
        } else {
          orders := orders[o.oid := o];
        }
      } else if o.status == New || o.status == PartiallyFilled {
        orders := orders[o.oid := o];
      }
    }

    /// The loop over a user_order list.
    method LoadOrders(list: seq<Order>)
      requires OpenOrders(orders) && (wrapped || forall t :: t in seen ==> t <= orderToken)
      modifies this
      ensures orders == ApplyOrders(old(orders), list)
      ensures orderToken == MaxToken(old(orderToken), list)
      ensures seen == old(seen) + TokensOf(list)
      ensures balance == old(balance) && instruments == old(instruments)
      ensures connected == old(connected) && events == old(events) && wrapped == old(wrapped)
      ensures OpenOrders(orders) && (wrapped || forall t :: t in seen ==> t <= orderToken)
    {
      var i := 0;
      while i < |list|
        invariant 0 <= i <= |list|
        invariant ApplyOrders(old(orders), list) == ApplyOrders(orders, list[i..])
        invariant MaxToken(old(orderToken), list) == MaxToken(orderToken, list[i..])
        invariant old(seen) + TokensOf(list) == seen + TokensOf(list[i..])
        invariant OpenOrders(orders) && (wrapped || forall t :: t in seen ==> t <= orderToken)
        invariant balance == old(balance) && instruments == old(instruments)
        invariant connected == old(connected) && events == old(events) && wrapped == old(wrapped)
        decreases |list| - i
      {
        OrderListStep(orders, orderToken, list, i);
        LoadOrder(list[i]);
        i := i + 1;
      }
    }

    /// The loop over a user_balance list.
    method LoadBalance(list: seq<Position>)
      modifies this
      ensures balance == AddFirst(old(balance), list, PositionTicker)
      ensures orders == old(orders) && instruments == old(instruments) && orderToken == old(orderToken)
      ensures connected == old(connected) && events == old(events)
      ensures seen == old(seen) && wrapped == old(wrapped)
    {
      var i := 0;
      while i < |list|
        invariant 0 <= i <= |list|
        invariant AddFirst(old(balance), list, PositionTicker) == AddFirst(balance, list[i..], PositionTicker)
        invariant orders == old(orders) && instruments == old(instruments) && orderToken == old(orderToken)
        invariant connected == old(connected) && events == old(events)
        invariant seen == old(seen) && wrapped == old(wrapped)
        decreases |list| - i
      {
        var p := list[i];
        assert list[i..][0] == p && list[i..][1..] == list[i + 1..];
        if p.ticker !in balance {
          balance := balance[p.ticker := p];
        }
        i := i + 1;
      }
    }

    /// The loop over an instruments list.
    method LoadInstruments(list: seq<Instrument>)
      modifies this
      ensures instruments == AddFirst(old(instruments), list, InstrumentTicker)
      ensures orders == old(orders) && balance == old(balance) && orderToken == old(orderToken)
      ensures connected == old(connected) && events == old(events)
      ensures seen == old(seen) && wrapped == old(wrapped)
    {
      var i := 0;
      while i < |list|
        invariant 0 <= i <= |list|
        invariant AddFirst(old(instruments), list, InstrumentTicker) == AddFirst(instruments, list[i..], InstrumentTicker)
        invariant orders == old(orders) && balance == old(balance) && orderToken == old(orderToken)
        invariant connected == old(connected) && events == old(events)
        invariant seen == old(seen) && wrapped == old(wrapped)
        decreases |list| - i
      {
        var p := list[i];
        assert list[i..][0] == p && list[i..][1..] == list[i + 1..];
        if p.ticker !in instruments {
          instruments := instruments[p.ticker := p];
        }
        i := i + 1;
      }
    }

    /// onJson on a decoded packet.
    method OnJson(p: Option<Packet>)
      requires Valid()
      modifies this
      ensures Valid()
      ensures State() == Receive(old(State()), p)
      ensures seen == old(seen) + PacketTokens(p) && wrapped == old(wrapped)
    {
      if p.None? || p.value.op != Private {
        return;
      }
      var q := p.value;
      match q.content {
        case UserBalance =>
          OnBalance(q);
        case UserOrder =>
          OnOrders(q);
        case Instruments =>
          OnInstruments(q);
        case _ =>
      }
    }

    /// onJson on a private user_balance packet.
    method OnBalance(q: Packet)
      requires Valid() && q.op == Private && q.content == UserBalance
      modifies this
      ensures Valid()
      ensures State() == Receive(old(State()), Some(q))
      ensures seen == old(seen) && wrapped == old(wrapped)
    {
      balance := map[];
      if q.userBalance.Some? {
        LoadBalance(q.userBalance.value);
        events := events + [BalanceChanged];
      }
    }

    /// onJson on a private user_order packet: a full list replaces the
    /// cache, an update is applied to it.
    method OnOrders(q: Packet)
      requires Valid() && q.op == Private && q.content == UserOrder
      modifies this
      ensures Valid()
      ensures State() == Receive(old(State()), Some(q))
      ensures seen == old(seen) + PacketTokens(Some(q)) && wrapped == old(wrapped)
    {
      if !q.update {
        orders := map[];
      }
      if q.userOrder.Some? {
        LoadOrders(q.userOrder.value);
        events := events + [OrdersChanged];
      }
    }

    /// onJson on a private instruments packet: the first one connects.
    method OnInstruments(q: Packet)
      requires Valid() && q.op == Private && q.content == Instruments
      modifies this
      ensures Valid()
      ensures State() == Receive(old(State()), Some(q))
      ensures seen == old(seen) && wrapped == old(wrapped)
    {
      instruments := map[];
      if q.instruments.Some? {
        LoadInstruments(q.instruments.value);
        if !connected {
          connected := true;
          events := events + [ConnectEvent];
        }
      }
    }
  }
}
