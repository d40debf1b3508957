/**
  The plugin-facing socket server: which frames it stores and answers, and the set of
  connected clients that `getConnectionCount` reports.

  A received frame is either unparsable or parsed JSON; the store write, the replies
  and the clock are effects the model returns instead of performing. The server's
  lifetime is a sequence of events applied to a `Server` value.
 */
module WebSocketServer {
  import opened Options

  /** A parsed JSON value. */
  datatype Json =
    | JNull
    | JBool(b: bool)
    | JNum(n: real)
    | JStr(s: string)
    | JArr(items: seq<Json>)
    | JObj(fields: map<string, Json>)

  /** `isValidMessage`: a non-null object whose `type` is a string. `null`, scalars and
      arrays (which have no `type` key) are rejected. */
  function IsValidMessage(m: Json): (b: bool)
    ensures b ==> m.JObj? && "type" in m.fields
    ensures !m.JObj? ==> !b
    ensures m.JObj? && "type" in m.fields ==> (b <==> m.fields["type"].JStr?)
  {
    m.JObj? && "type" in m.fields && m.fields["type"].JStr?
  }

  /** A frame as the `message` listener sees it: `JSON.parse` either throws or yields a value. */
  datatype Frame = Unparsable | Parsed(value: Json)

  /** The replies a client can receive for a frame. */
  datatype Reply = Ack(nodeId: Option<Json>) | Pong

  /** What handling one frame does: whether `setSelection` runs, and the reply sent. */
  datatype Handling = Handling(stored: bool, reply: Option<Reply>)

  /** `message.data` is present and not `null`, so reading `.name` and `.id` from it does not throw. */
  predicate HasData(m: Json)
    requires m.JObj?
  {
    "data" in m.fields && !m.fields["data"].JNull?
  }

  /** `message.data.id` on data that is present: an object's own `id`, otherwise `undefined`. */
  function DataId(data: Json): (r: Option<Json>)
    ensures r.Some? <==> data.JObj? && "id" in data.fields
    ensures r.Some? ==> r.value == data.fields["id"]
  {
    if data.JObj? && "id" in data.fields then Some(data.fields["id"]) else None
  }

  /** `handleMessage`, inside the listener's `try`: a selection is stored; the store's log
      line then reads `message.data.name`, so when `data` is absent or `null` the throw
      cuts off the acknowledgement. A ping is answered; anything else is dropped. */
  function HandleMessage(m: Json): (h: Handling)
    ensures h.stored <==> IsValidMessage(m) && m.fields["type"].s == "figma-selection"
    ensures h.reply == Some(Pong) <==> IsValidMessage(m) && m.fields["type"].s == "ping"
    ensures (h.reply.Some? && h.reply.value.Ack?) <==>
      IsValidMessage(m) && m.fields["type"].s == "figma-selection" && HasData(m)
    ensures h.reply.Some? && h.reply.value.Ack? ==> h.reply.value.nodeId == DataId(m.fields["data"])
    ensures !IsValidMessage(m) ==> h == Handling(false, None)
  {
    if !IsValidMessage(m) then Handling(false, None)
    else if m.fields["type"].s == "figma-selection" then
      if HasData(m) then Handling(true, Some(Ack(DataId(m.fields["data"]))))
      else Handling(true, None)
    else if m.fields["type"].s == "ping" then Handling(false, Some(Pong))
    else Handling(false, None)
  }

  /** The `message` listener: an unparsable frame is logged and ignored. */
  function HandleFrame(f: Frame): (h: Handling)
    ensures f.Unparsable? ==> h == Handling(false, None)
    ensures f.Parsed? ==> h == HandleMessage(f.value)
  {
    match f
    case Unparsable => Handling(false, None)
    case Parsed(m) => HandleMessage(m)
  }

  /** Only a valid `figma-selection` reaches the store, and every reply goes to a frame
      that carried a valid message. */
  lemma OnlySelectionsAreStored(f: Frame)
    ensures HandleFrame(f).stored ==> f.Parsed? && IsValidMessage(f.value)
    ensures HandleFrame(f).reply.Some? ==> f.Parsed? && IsValidMessage(f.value)
    ensures HandleFrame(f).stored && HandleFrame(f).reply.Some? ==> HandleFrame(f).reply.value.Ack?
  {
  }

  // ---------------------------------------------------------------------------
  // Server lifetime and connected clients
  // ---------------------------------------------------------------------------

  type ClientId = nat

  /** `wss !== null` and `connectedClients`. */
  datatype Server = Server(running: bool, clients: set<ClientId>)

  const Initial: Server := Server(false, {})

  datatype Event =
    | Start             // startWebSocketServer()
    | AddrInUse         // the server's 'error' event with EADDRINUSE
    | Connect(c: ClientId)
    | Close(c: ClientId)
    | ClientError(c: ClientId)
    | Stop              // stopWebSocketServer()

  /** The server after one event. */
  function Step(s: Server, e: Event): (s': Server)
    ensures e.Start? ==> s'.running && s'.clients == s.clients
    ensures e.AddrInUse? ==> !s'.running && s'.clients == s.clients
    ensures e.Connect? ==> s'.running == s.running && s'.clients == (if s.running then s.clients + {e.c} else s.clients)
    ensures (e.Close? || e.ClientError?) ==> s'.running == s.running && s'.clients == s.clients - {e.c}
    ensures e.Stop? ==> !s'.running && (s.running ==> s'.clients == {}) && (!s.running ==> s' == s)
  {
    match e
    case Start => if s.running then s else Server(true, s.clients)
    case AddrInUse => Server(false, s.clients)
    case Connect(c) => if s.running then Server(true, s.clients + {c}) else s
    case Close(c) => Server(s.running, s.clients - {c})
    case ClientError(c) => Server(s.running, s.clients - {c})
    case Stop => if s.running then Server(false, {}) else s
  }

  /** `getConnectionCount` */
  function ConnectionCount(s: Server): (c: nat)
    ensures c == 0 <==> s.clients == {}
  {
    |s.clients|
  }

  /** Starting a running server changes nothing, so starting twice is starting once. */
  lemma StartIsIdempotent(s: Server)
    ensures Step(Step(s, Start), Start) == Step(s, Start)
    ensures s.running ==> Step(s, Start) == s
  {
  }

  /** After a stop no client is counted, whatever came before a running server. */
  lemma StopDisconnectsAll(s: Server)
    requires s.running
    ensures ConnectionCount(Step(s, Stop)) == 0 && !Step(s, Stop).running
  {
  }

  /** The server after `events`, applied oldest first. */
  function Run(s: Server, events: seq<Event>): Server
    decreases |events|
  {
    if |events| == 0 then s else Step(Run(s, events[..|events| - 1]), events[|events| - 1])
  }

  /** How many connections were accepted or attempted. */
  function Connects(events: seq<Event>): (n: nat)
    ensures n <= |events|
    decreases |events|
  {
    if |events| == 0 then 0
    else Connects(events[..|events| - 1]) + (if events[|events| - 1].Connect? then 1 else 0)
  }

  /** The client's own `close` or `error` event, after which it is no longer counted. */
  predicate Ends(e: Event, c: ClientId) {
    e == Close(c) || e == ClientError(c)
  }

  /** The count never exceeds the number of connections made since the initial state. */
  lemma {:induction false} CountBoundedByConnects(events: seq<Event>)
    ensures ConnectionCount(Run(Initial, events)) <= Connects(events)
    decreases |events|
  {
    if |events| > 0 {
      var prefix := events[..|events| - 1];
      CountBoundedByConnects(prefix);
      var s := Run(Initial, prefix);
      var e := events[|events| - 1];
      match e {
        case Connect(c) =>
        case Close(c) =>
          assert Step(s, e).clients <= s.clients;
          SubsetCard(Step(s, e).clients, s.clients);
        case ClientError(c) =>
          assert Step(s, e).clients <= s.clients;
          SubsetCard(Step(s, e).clients, s.clients);
        case _ =>
      }
    }
  }

  /** A subset is no larger than its superset. */
  lemma {:induction false} SubsetCard(a: set<ClientId>, b: set<ClientId>)
    requires a <= b
    ensures |a| <= |b|
    decreases |b|
  {
    if b != {} {
      var x :| x in b;
      SubsetCard(a - {x}, b - {x});
    }
  }

  /** A counted client connected at some point and has neither closed nor errored since. */
  lemma {:induction false} CountedClientsAreLive(events: seq<Event>, c: ClientId)
    requires c in Run(Initial, events).clients
    ensures exists i :: (0 <= i < |events| && events[i] == Connect(c)
      && forall j :: i < j < |events| ==> !Ends(events[j], c))
    decreases |events|
  {
    var n := |events|;
    var prefix := events[..n - 1];
    var s := Run(Initial, prefix);
    var e := events[n - 1];
    if e == Connect(c) {
      assert events[n - 1] == Connect(c);
    } else {
      assert c in s.clients;
      CountedClientsAreLive(prefix, c);
      var i :| 0 <= i < |prefix| && prefix[i] == Connect(c)
        && forall j :: i < j < |prefix| ==> !Ends(prefix[j], c);
      assert events[i] == Connect(c);
      assert !Ends(e, c);
      assert forall j :: i < j < n ==> !Ends(events[j], c) by {
        forall j | i < j < n
          ensures !Ends(events[j], c)
        {
          if j < n - 1 {
            assert events[j] == prefix[j];
          }
        }
      }
    }
  }
}
