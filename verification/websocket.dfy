/**
  The WebSocket connection registry of pkg/protocol/websocket/router.go, taken
  sequentially: connection records with an open flag and a bounded send queue, the
  ID-keyed registry, the handler table, the heartbeat sweep and frame dispatch.
  Messages are kept as decoded JSON values; the socket and the pumps that move the
  queue to it are not modelled.
 */
module WebSocket {
  import opened Wrappers
  import opened Collections
  import Json

  /** The buffer of `SendChan` (and `RecvChan`). */
  const Capacity: nat := 100

  /** A connection: its ID, whether `Close` has run, and the messages waiting in `SendChan`. */
  datatype Conn = Conn(id: string, open: bool, queue: seq<Json.Value>)

  /** The two handlers the router registers, under "ping" and "echo". */
  datatype Handler = PingHandler | EchoHandler

  datatype Registry = Registry(conns: map<string, Conn>, handlers: map<string, Handler>)

  const Pong: Json.Value := Json.Object(map["type" := Json.Str("pong")])

  /** A fresh connection as the connect handlers build it: open, nothing queued. */
  function NewConn(id: string): (c: Conn)
    ensures c.id == id && c.open && c.queue == []
  {
    Conn(id, true, [])
  }

  /** The registry and handler table `RegisterRoutes` leaves: no connections, ping and echo handled. */
  function NewRegistry(): (r: Registry)
    ensures r.conns == map[]
    ensures r.handlers.Keys == {"ping", "echo"}
    ensures r.handlers["ping"] == PingHandler && r.handlers["echo"] == EchoHandler
  {
    RegisterHandler(RegisterHandler(Registry(map[], map[]), "ping", PingHandler), "echo", EchoHandler)
  }

  /** AddConnection: stored under its ID, replacing any earlier connection with that ID. */
  function AddConnection(r: Registry, c: Conn): (r': Registry)
    ensures GetConnection(r', c.id) == Some(c)
    ensures forall id :: id != c.id ==> GetConnection(r', id) == GetConnection(r, id)
    ensures r'.handlers == r.handlers
  {
    r.(conns := r.conns[c.id := c])
  }

  /** RemoveConnection: that ID is gone, nothing else changes; an absent ID is a no-op. */
  function RemoveConnection(r: Registry, id: string): (r': Registry)
    ensures GetConnection(r', id).None?
    ensures forall other :: other != id ==> GetConnection(r', other) == GetConnection(r, other)
    ensures GetConnection(r, id).None? ==> r' == r
    ensures r'.handlers == r.handlers
  {
    r.(conns := r.conns - {id})
  }

  /** GetConnection: the connection stored under the ID, if any. */
  function GetConnection(r: Registry, id: string): (c: Option<Conn>)
    ensures c.Some? <==> id in r.conns
    ensures c.Some? ==> c.value == r.conns[id]
  {
    if id in r.conns then Some(r.conns[id]) else None
  }

  /** RegisterHandler: the type now maps to this handler, replacing any earlier one. */
  function RegisterHandler(r: Registry, msgType: string, h: Handler): (r': Registry)
    ensures msgType in r'.handlers && r'.handlers[msgType] == h
    ensures forall t :: t != msgType ==> (t in r'.handlers <==> t in r.handlers)
    ensures forall t :: t != msgType && t in r.handlers ==> r'.handlers[t] == r.handlers[t]
    ensures r'.conns == r.conns
  {
    r.(handlers := r.handlers[msgType := h])
  }

  /** Registering a handler changes only what frames of that type dispatch to; registering the same binding again changes nothing. */
  lemma RegisterHandlerRebinds(r: Registry, msgType: string, h: Handler, h': Handler)
    ensures RegisterHandler(RegisterHandler(r, msgType, h), msgType, h') == RegisterHandler(r, msgType, h')
    ensures msgType in r.handlers && r.handlers[msgType] == h ==> RegisterHandler(r, msgType, h) == r
  {
  }

  /**
    Send on an open connection: queued when fewer than `Capacity` messages are
    waiting, otherwise dropped without blocking. (On a closed connection the source
    sends on a closed channel, which panics; hence the precondition.)
   */
  function Send(c: Conn, msg: Json.Value): (c': Conn)
    requires c.open
    ensures c'.id == c.id && c'.open
    ensures |c.queue| < Capacity ==> c'.queue == c.queue + [msg]
    ensures |c.queue| >= Capacity ==> c' == c
    ensures |c.queue| <= Capacity ==> |c'.queue| <= Capacity
  {
    if |c.queue| < Capacity then c.(queue := c.queue + [msg]) else c
  }

  /** Close: the first call marks the connection closed and removes its ID from the registry; later calls do nothing. */
  function Close(r: Registry, c: Conn): (p: (Registry, Conn))
    ensures !p.1.open && p.1.id == c.id && p.1.queue == c.queue
    ensures c.open ==> p.0 == RemoveConnection(r, c.id)
    ensures !c.open ==> p == (r, c)
  {
    if c.open then (RemoveConnection(r, c.id), c.(open := false)) else (r, c)
  }

  /** Closing twice is closing once. */
  lemma CloseIdempotent(r: Registry, c: Conn)
    ensures var p := Close(r, c);
            Close(p.0, p.1) == p
  {
  }

  /** Every registered connection is open and within its buffer. */
  predicate Live(r: Registry)
  {
    forall id :: id in r.conns ==> r.conns[id].id == id && r.conns[id].open && |r.conns[id].queue| <= Capacity
  }

  /** Registering a fresh connection, removing one, and closing one keep the registry live. */
  lemma LiveInvariant(r: Registry, id: string, c: Conn)
    requires Live(r)
    ensures Live(NewRegistry())
    ensures Live(AddConnection(r, NewConn(id)))
    ensures Live(RemoveConnection(r, id))
    ensures Live(Close(r, c).0)
  {
  }

  /** A connection added and then closed is gone from the registry, whatever it replaced. */
  lemma AddThenClose(r: Registry, id: string)
    ensures var r1 := AddConnection(r, NewConn(id));
            var p := Close(r1, r1.conns[id]);
            GetConnection(p.0, id).None? && !p.1.open
  {
  }

  // ---------------------------------------------------------------------------
  // The heartbeat sweep and Broadcast

  /** The sweep's step for one live connection: a pong if it has room, else Close. */
  function Heartbeat(r: Registry, id: string): (r': Registry)
    requires Live(r) && id in r.conns
    ensures Live(r')
    ensures r'.handlers == r.handlers
    ensures forall x :: x != id ==> GetConnection(r', x) == GetConnection(r, x)
    ensures |r.conns[id].queue| < Capacity ==> id in r'.conns && r'.conns[id] == Send(r.conns[id], Pong)
    ensures |r.conns[id].queue| >= Capacity ==> id !in r'.conns
  {
    var c := r.conns[id];
    if |c.queue| < Capacity then AddConnection(r, Send(c, Pong)) else Close(r, c).0
  }

  /**
    One pass of the heartbeat ticker over the connections in `order` (the map's
    iteration order): a pong is queued on each connection with room; a connection
    whose buffer is full is closed, which removes it from the registry.
   */
  function Sweep(r: Registry, order: seq<string>): (r': Registry)
    requires Live(r)
    requires Distinct(order) && forall id :: id in order ==> id in r.conns
    ensures Live(r')
    ensures r'.handlers == r.handlers
    ensures forall id :: id !in order ==> GetConnection(r', id) == GetConnection(r, id)
    ensures forall id :: id in order && |r.conns[id].queue| < Capacity ==>
              id in r'.conns && r'.conns[id] == Send(r.conns[id], Pong)
    ensures forall id :: id in order && |r.conns[id].queue| >= Capacity ==> id !in r'.conns
    decreases |order|
  {
    if |order| == 0 then r
    else
      var id := order[0];
      var r1 := Heartbeat(r, id);
      SweepStepPre(r, order, r1);
      var r2 := Sweep(r1, order[1..]);
      SweepStepPost(r, order, r1, r2);
      r2
  }

  /** After the first heartbeat the rest of the order still names distinct, registered connections. */
  lemma SweepStepPre(r: Registry, order: seq<string>, r1: Registry)
    requires Live(r) && |order| > 0
    requires Distinct(order) && forall id :: id in order ==> id in r.conns
    requires r1 == Heartbeat(r, order[0])
    ensures Distinct(order[1..]) && forall x :: x in order[1..] ==> x in r1.conns && x != order[0]
  {
    forall x | x in order[1..] ensures x in r1.conns && x != order[0] {
      assert x in order;
      assert GetConnection(r1, x) == GetConnection(r, x);
    }
  }

  /** The heartbeat on the head followed by the sweep of the tail is the sweep of the whole order. */
  lemma SweepStepPost(r: Registry, order: seq<string>, r1: Registry, r2: Registry)
    requires Live(r) && |order| > 0
    requires Distinct(order) && forall id :: id in order ==> id in r.conns
    requires r1 == Heartbeat(r, order[0])
    requires Distinct(order[1..]) && forall x :: x in order[1..] ==> x in r1.conns && x != order[0]
    requires forall id :: id !in order[1..] ==> GetConnection(r2, id) == GetConnection(r1, id)
    requires forall id :: id in order[1..] && |r1.conns[id].queue| < Capacity ==>
               id in r2.conns && r2.conns[id] == Send(r1.conns[id], Pong)
    requires forall id :: id in order[1..] && |r1.conns[id].queue| >= Capacity ==> id !in r2.conns
    ensures forall id :: id !in order ==> GetConnection(r2, id) == GetConnection(r, id)
    ensures forall id :: id in order && |r.conns[id].queue| < Capacity ==>
              id in r2.conns && r2.conns[id] == Send(r.conns[id], Pong)
    ensures forall id :: id in order && |r.conns[id].queue| >= Capacity ==> id !in r2.conns
  {
    forall id | id in order[1..] ensures r1.conns[id] == r.conns[id] {
      assert GetConnection(r1, id) == GetConnection(r, id);
    }
    forall id | id in order && id !in order[1..] ensures id == order[0] {
      var j :| 0 <= j < |order| && order[j] == id;
      if j > 0 { assert order[1..][j - 1] == id; }
    }
  }

  /** The sweep's effect stated without an iteration order: full connections dropped, a pong queued on the rest. */
  function SweepResult(r: Registry): Registry
    requires Live(r)
  {
    r.(conns := map id | id in r.conns && |r.conns[id].queue| < Capacity :: Send(r.conns[id], Pong))
  }

  /** The sweep does not depend on the order the map is iterated in. */
  lemma SweepAnyOrder(r: Registry, order: seq<string>)
    requires Live(r)
    requires Enumerates(order, r.conns.Keys)
    ensures Sweep(r, order) == SweepResult(r)
  {
    var r' := Sweep(r, order);
    var swept := SweepResult(r);
    forall id | id in swept.conns ensures id in r'.conns && r'.conns[id] == swept.conns[id] {
      assert id in order;
    }
    forall id | id in r'.conns ensures id in swept.conns {
      if id !in order {
        assert false;
      }
    }
    SameEntries(swept.conns, r'.conns);
  }

  /** Broadcast: the message queued on every registered connection that has room. */
  function Broadcast(r: Registry, msg: Json.Value): (r': Registry)
    requires Live(r)
    ensures Live(r')
    ensures r'.conns.Keys == r.conns.Keys && r'.handlers == r.handlers
    ensures forall id :: id in r.conns && |r.conns[id].queue| < Capacity ==>
              r'.conns[id].queue == r.conns[id].queue + [msg]
    ensures forall id :: id in r.conns && |r.conns[id].queue| >= Capacity ==> r'.conns[id] == r.conns[id]
  {
    r.(conns := map id | id in r.conns :: Send(r.conns[id], msg))
  }

  // ---------------------------------------------------------------------------
  // Frame dispatch and the two handlers

  /** What reading one frame led to. */
  datatype Dispatched =
    | Skipped                          // not a JSON object, or no string "type"
    | Unhandled(msgType: string)       // no handler registered: a warning is logged
    | Handled(msgType: string, conn: Conn)

  /** handlePing: always queue a pong. */
  function HandlePing(c: Conn): (c': Conn)
    requires c.open
    ensures c' == Send(c, Pong)
  {
    Send(c, Pong)
  }

  /** handleEcho: reply `{"type":"echo","data":d}` when the frame has a `data` key, else send nothing. */
  function HandleEcho(c: Conn, fields: map<string, Json.Value>): (c': Conn)
    requires c.open
    ensures "data" !in fields ==> c' == c
    ensures "data" in fields ==>
              c' == Send(c, Json.Object(map["type" := Json.Str("echo"), "data" := fields["data"]]))
  {
    if "data" in fields then Send(c, Json.Object(map["type" := Json.Str("echo"), "data" := fields["data"]]))
    else c
  }

  /**
    The dispatch part of the read loop for one frame (`None` is a frame that does not
    decode): a frame that is not an object or lacks a string `type` is skipped;
    otherwise the handler registered for the type runs, or none is found.
   */
  function Dispatch(r: Registry, c: Conn, frame: Option<Json.Value>): (d: Dispatched)
    requires c.open
    ensures d.Skipped? <==>
              frame.None? || !frame.value.Object? || Json.StringField(frame.value.fields, "type").None?
    ensures d.Unhandled? ==> d.msgType !in r.handlers
    ensures d.Handled? ==> d.msgType in r.handlers && d.conn.id == c.id && d.conn.open
    ensures !d.Skipped? ==> d.msgType == frame.value.fields["type"].s
    ensures d.Handled? && r.handlers[d.msgType] == PingHandler ==> d.conn.queue == Send(c, Pong).queue
    ensures d.Handled? && r.handlers[d.msgType] == EchoHandler && "data" !in frame.value.fields ==> d.conn == c
    ensures d.Handled? && r.handlers[d.msgType] == EchoHandler && "data" in frame.value.fields ==>
              d.conn == Send(c, Json.Object(map["type" := Json.Str("echo"), "data" := frame.value.fields["data"]]))
  {
    match frame
    case None => Skipped
    case Some(v) =>
      if !v.Object? then Skipped
      else
        match Json.StringField(v.fields, "type")
        case None => Skipped
        case Some(t) =>
          if t !in r.handlers then Unhandled(t)
          else
            match r.handlers[t]
            case PingHandler => Handled(t, HandlePing(c))
            case EchoHandler => Handled(t, HandleEcho(c, v.fields))
  }

  /** A frame of a registered type reaches the handler registered for it. */
  lemma RegisteredTypeIsHandled(r: Registry, c: Conn, msgType: string, h: Handler, fields: map<string, Json.Value>)
    requires c.open && "type" in fields && fields["type"] == Json.Str(msgType)
    ensures var d := Dispatch(RegisterHandler(r, msgType, h), c, Some(Json.Object(fields)));
            d.Handled? && d.msgType == msgType
            && d.conn == (match h case PingHandler => HandlePing(c) case EchoHandler => HandleEcho(c, fields))
  {
  }

  /** With the router's handlers, a ping frame on a connection with room queues exactly one pong. */
  lemma PingRepliesPong(c: Conn)
    requires c.open && |c.queue| < Capacity
    ensures var d := Dispatch(NewRegistry(), c, Some(Json.Object(map["type" := Json.Str("ping")])));
            d.Handled? && d.conn.queue == c.queue + [Pong]
  {
    var f := map["type" := Json.Str("ping")];
    assert Json.StringField(f, "type") == Some("ping");
  }

  /** An echo frame carrying data is answered with that data. */
  lemma EchoRepliesData(c: Conn, data: Json.Value)
    requires c.open && |c.queue| < Capacity
    ensures var f := map["type" := Json.Str("echo"), "data" := data];
            var d := Dispatch(NewRegistry(), c, Some(Json.Object(f)));
            d.Handled? && d.conn.queue == c.queue + [Json.Object(map["type" := Json.Str("echo"), "data" := data])]
  {
    var f := map["type" := Json.Str("echo"), "data" := data];
    assert Json.StringField(f, "type") == Some("echo");
  }

  // ---------------------------------------------------------------------------
  // Connection IDs

  /** The alphabet of connection IDs, "abc…zABC…Z012…9": lower case, upper case, then digits. */
  const IdLength: nat := 16

  /** The draws are 16 values `rand.Intn(len(letters))` could return. */
  predicate ValidDraws(draws: seq<int>)
  {
    |draws| == IdLength && forall i :: 0 <= i < |draws| ==> 0 <= draws[i] < |Letters|
  }

  /** generateConnID: 16 characters, each the letter picked by its draw. */
  function GenerateConnId(draws: seq<int>): (id: string)
    requires ValidDraws(draws)
    ensures |id| == IdLength
    ensures forall i :: 0 <= i < |id| ==> id[i] in Letters && id[i] == Letters[draws[i]]
  {
    seq(IdLength, i requires 0 <= i < IdLength => Letters[draws[i]])
  }

  /** The characters with codes `first`, `first + 1`, …, `first + n - 1`. */
  function Run(first: int, n: nat): (s: string)
    requires 0 <= first && first + n <= 0xD800
    ensures |s| == n
    ensures forall i :: 0 <= i < n ==> s[i] as int == first + i
    decreases n
  {
    if n == 0 then [] else [first as char] + Run(first + 1, n - 1)
  }

  /** The alphabet of connection IDs: lower case, upper case, then digits (62 characters). */
  const Letters: string := Run('a' as int, 26) + Run('A' as int, 26) + Run('0' as int, 10)

  lemma LettersSpelledOut()
    ensures Letters == "abcdefghijklmnopqrstuvwxyz" + "ABCDEFGHIJKLMNOPQRSTUVWXYZ" + "0123456789"
  {
    LowerSpelledOut();
    UpperSpelledOut();
    DigitsSpelledOut();
  }

  /** Each run equals its literal: both have the run's length, and character `i` has code `first + i` in both. */
  lemma LowerSpelledOut()
    ensures Run('a' as int, 26) == "abcdefghijklmnopqrstuvwxyz"
  {
    var s := "abcdefghijklmnopqrstuvwxyz";
    assert forall i :: 0 <= i < 26 ==> s[i] as int == 'a' as int + i;
  }

  lemma UpperSpelledOut()
    ensures Run('A' as int, 26) == "ABCDEFGHIJKLMNOPQRSTUVWXYZ"
  {
    var s := "ABCDEFGHIJKLMNOPQRSTUVWXYZ";
    assert forall i :: 0 <= i < 26 ==> s[i] as int == 'A' as int + i;
  }

  lemma DigitsSpelledOut()
    ensures Run('0' as int, 10) == "0123456789"
  {
    var s := "0123456789";
    assert forall i :: 0 <= i < 10 ==> s[i] as int == '0' as int + i;
  }

  lemma LettersDistinct()
    ensures |Letters| == 62 && Distinct(Letters)
  {
  }

  /** Different draws give different IDs: the alphabet has no repeated letter. */
  lemma ConnIdInjective(d1: seq<int>, d2: seq<int>)
    requires ValidDraws(d1) && ValidDraws(d2)
    requires GenerateConnId(d1) == GenerateConnId(d2)
    ensures d1 == d2
  {
    LettersDistinct();
    forall i | 0 <= i < IdLength ensures d1[i] == d2[i] {
      assert Letters[d1[i]] == GenerateConnId(d1)[i];
    }
  }
}
