/**
  The reconnecting WebSocket client as an event-driven state machine.  The browser contributes
  sockets, which deliver one close event each, and armed timers; handlers of the client's own
  events may call `connect` and `disconnect` again before the callback that emitted them goes on.
*/
module SocketClient {
  import opened Common

  /** `Gone`: the close event has been delivered. */
  datatype Socket = Connecting | Open | Closing | Gone

  /** What the browser holds: all sockets ever constructed, armed timeouts and intervals, and a supply of fresh ids. */
  datatype Browser = Browser(sockets: map<nat, Socket>, timeouts: set<nat>, intervals: set<nat>, nextId: nat)

  datatype Client = Client(
    ws: Option<nat>,
    reconnectTimer: Option<nat>,
    pingTimer: Option<nat>,
    isManualClose: bool,
    browser: Browser)

  const Fresh := Client(None, None, None, false, Browser(map[], {}, {}, 0))

  datatype Call = Connect | Disconnect

  datatype Event =
    | Caller(call: Call)
    | Opened(socket: nat, handlers: seq<Call>)
    | Failed(handlers: seq<Call>)                  // an error event
    | PeerCloses(socket: nat)                      // the closing handshake starts; no event yet
    | Closed(socket: nat, handlers: seq<Call>)
    | ReconnectFires(timer: nat)
    | PingFires(timer: nat)

  // ---------- The methods, as functions ----------

  predicate IsOpen(c: Client) { c.ws.Some? && c.ws.value in c.browser.sockets && c.browser.sockets[c.ws.value].Open? }

  function StoppedPing(c: Client): Client {
    if c.pingTimer == None then c
    else c.(pingTimer := None, browser := c.browser.(intervals := c.browser.intervals - {c.pingTimer.value}))
  }

  function StartedPing(c: Client): Client {
    var d := StoppedPing(c);
    var b := d.browser;
    d.(pingTimer := Some(b.nextId), browser := b.(intervals := b.intervals + {b.nextId}, nextId := b.nextId + 1))
  }

  function StoppedReconnect(c: Client): Client {
    if c.reconnectTimer == None then c
    else c.(reconnectTimer := None, browser := c.browser.(timeouts := c.browser.timeouts - {c.reconnectTimer.value}))
  }

  function ScheduledReconnect(c: Client): Client {
    var d := StoppedReconnect(c);
    var b := d.browser;
    d.(reconnectTimer := Some(b.nextId), browser := b.(timeouts := b.timeouts + {b.nextId}, nextId := b.nextId + 1))
  }

  function Connected(c: Client): Client {
    if IsOpen(c) then c
    else
      var b := c.browser;
      c.(isManualClose := false, ws := Some(b.nextId),
         browser := b.(sockets := b.sockets[b.nextId := Connecting], nextId := b.nextId + 1))
  }

  /** `close()` on a socket: one that is connecting or open starts closing. */
  function CloseSocket(b: Browser, socket: nat): Browser {
    if socket in b.sockets && (b.sockets[socket].Connecting? || b.sockets[socket].Open?)
    then b.(sockets := b.sockets[socket := Closing]) else b
  }

  function Disconnected(c: Client): Client {
    var d := StoppedReconnect(StoppedPing(c.(isManualClose := true)));
    if d.ws == None then d else d.(ws := None, browser := CloseSocket(d.browser, d.ws.value))
  }

  function Called(c: Client, call: Call): Client { if call.Connect? then Connected(c) else Disconnected(c) }

  function CalledAll(c: Client, calls: seq<Call>): Client
    decreases |calls|
  {
    if |calls| == 0 then c else CalledAll(Called(c, calls[0]), calls[1..])
  }

  function SetSocket(c: Client, socket: nat, state: Socket): Client {
    c.(browser := c.browser.(sockets := c.browser.sockets[socket := state]))
  }

  predicate Possible(c: Client, e: Event) {
    match e
    case Caller(_) => true
    case Failed(_) => true
    case Opened(s, _) => s in c.browser.sockets && c.browser.sockets[s].Connecting?
    case PeerCloses(s) => s in c.browser.sockets && c.browser.sockets[s].Open?
    case Closed(s, _) => s in c.browser.sockets && !c.browser.sockets[s].Gone?
    case ReconnectFires(t) => t in c.browser.timeouts
    case PingFires(t) => t in c.browser.intervals
  }

  /** One event.  A fired timeout is no longer armed, but the field that names it is not cleared. */
  function After(c: Client, e: Event): Client
    requires Possible(c, e)
  {
    match e
    case Caller(call) => Called(c, call)
    case Failed(handlers) => CalledAll(c, handlers)
    case Opened(s, handlers) => CalledAll(StartedPing(SetSocket(c, s, Open)), handlers)
    case PeerCloses(s) => SetSocket(c, s, Closing)
    case Closed(s, handlers) =>
      var d := CalledAll(StoppedPing(SetSocket(c, s, Gone)), handlers);
      if d.isManualClose then d else ScheduledReconnect(d)
    case ReconnectFires(t) => Connected(c.(browser := c.browser.(timeouts := c.browser.timeouts - {t})))
    case PingFires(_) => c
  }

  ghost predicate CanRun(c: Client, events: seq<Event>)
    decreases |events|
  {
    |events| == 0 || (Possible(c, events[0]) && CanRun(After(c, events[0]), events[1..]))
  }

  ghost function Run(c: Client, events: seq<Event>): Client
    requires CanRun(c, events)
    decreases |events|
  {
    if |events| == 0 then c else Run(After(c, events[0]), events[1..])
  }

  // ---------- Safety ----------

  /**
    Timers are the ones the fields name, ids are fresh, and a manual close leaves neither socket nor
    reconnect behind.
  */
  ghost predicate Tidy(c: Client) {
    && (forall t :: t in c.browser.timeouts ==> c.reconnectTimer == Some(t))
    && (forall t :: t in c.browser.intervals <==> c.pingTimer == Some(t))
    && (forall i :: i in c.browser.sockets ==> i < c.browser.nextId)
    && (c.reconnectTimer.Some? ==> c.reconnectTimer.value < c.browser.nextId)
    && (c.pingTimer.Some? ==> c.pingTimer.value < c.browser.nextId)
    && (c.ws.Some? ==> c.ws.value in c.browser.sockets)
    && (c.isManualClose ==> c.ws == None && c.browser.timeouts == {})
  }

  ghost predicate Live(c: Client, socket: nat) { socket in c.browser.sockets && !c.browser.sockets[socket].Gone? }

  /** Something will still happen: a close event is outstanding, or a reconnect is armed. */
  ghost predicate WillReact(c: Client) { (exists s :: Live(c, s)) || c.browser.timeouts != {} }

  ghost predicate Inv(c: Client) {
    Tidy(c) && (c.browser.sockets != map[] && !c.isManualClose ==> WillReact(c))
  }

  lemma CallKeepsTidy(c: Client, call: Call)
    requires Tidy(c)
    ensures Tidy(Called(c, call))
    ensures c.browser.sockets.Keys <= Called(c, call).browser.sockets.Keys
  {
  }

  lemma CallKeepsInv(c: Client, call: Call)
    requires Inv(c)
    ensures Inv(Called(c, call))
  {
    CallKeepsTidy(c, call);
    var d := Called(c, call);
    if call.Connect? {
      assert Live(d, d.ws.value);
    }
  }

  lemma {:induction false} CallsKeepTidy(c: Client, calls: seq<Call>)
    requires Tidy(c)
    ensures Tidy(CalledAll(c, calls))
    ensures c.browser.sockets.Keys <= CalledAll(c, calls).browser.sockets.Keys
    decreases |calls|
  {
    if |calls| != 0 {
      CallKeepsTidy(c, calls[0]);
      CallsKeepTidy(Called(c, calls[0]), calls[1..]);
    }
  }

  lemma {:induction false} CallsKeepInv(c: Client, calls: seq<Call>)
    requires Inv(c)
    ensures Inv(CalledAll(c, calls))
    decreases |calls|
  {
    if |calls| != 0 {
      CallKeepsInv(c, calls[0]);
      CallsKeepInv(Called(c, calls[0]), calls[1..]);
    }
  }

  lemma OpenKeepsInv(c: Client, s: nat)
    requires Inv(c) && s in c.browser.sockets && c.browser.sockets[s].Connecting?
    ensures Inv(StartedPing(SetSocket(c, s, Open)))
  {
    assert Live(StartedPing(SetSocket(c, s, Open)), s);
  }

  lemma CloseKeepsTidy(c: Client, s: nat)
    requires Tidy(c) && s in c.browser.sockets
    ensures Tidy(StoppedPing(SetSocket(c, s, Gone)))
  {
  }

  lemma ScheduleMakesInv(c: Client)
    requires Tidy(c) && !c.isManualClose
    ensures Inv(ScheduledReconnect(c))
  {
    assert c.browser.nextId in ScheduledReconnect(c).browser.timeouts;
  }

  lemma FireKeepsInv(c: Client, t: nat)
    requires Inv(c) && t in c.browser.timeouts
    ensures Inv(Connected(c.(browser := c.browser.(timeouts := c.browser.timeouts - {t}))))
  {
    var d := Connected(c.(browser := c.browser.(timeouts := c.browser.timeouts - {t})));
    assert Live(d, d.ws.value);
  }

  /** Every event keeps the invariant, whatever the event handlers call. */
  lemma EventKeepsInv(c: Client, e: Event)
    requires Inv(c) && Possible(c, e)
    ensures Inv(After(c, e))
  {
    hide Tidy, WillReact, StartedPing, StoppedPing, ScheduledReconnect, Connected, CalledAll, Called;
    match e
    case Caller(call) => CallKeepsInv(c, call);
    case Failed(handlers) => CallsKeepInv(c, handlers);
    case Opened(s, handlers) =>
      OpenKeepsInv(c, s);
      CallsKeepInv(StartedPing(SetSocket(c, s, Open)), handlers);
    case PeerCloses(s) => PeerCloseKeepsInv(c, s);
    case Closed(s, handlers) =>
      CloseKeepsTidy(c, s);
      var d := CalledAll(StoppedPing(SetSocket(c, s, Gone)), handlers);
      CallsKeepTidy(StoppedPing(SetSocket(c, s, Gone)), handlers);
      if !d.isManualClose {
        ScheduleMakesInv(d);
      }
    case ReconnectFires(t) => FireKeepsInv(c, t);
    case PingFires(_) =>
  }

  lemma PeerCloseKeepsInv(c: Client, s: nat)
    requires Inv(c) && s in c.browser.sockets && c.browser.sockets[s].Open?
    ensures Inv(SetSocket(c, s, Closing))
  {
    assert Live(SetSocket(c, s, Closing), s);
  }

  lemma {:induction false} RunKeepsInv(c: Client, events: seq<Event>)
    requires Inv(c) && CanRun(c, events)
    ensures Inv(Run(c, events))
    decreases |events|
  {
    hide Inv, After, Possible;
    if |events| != 0 {
      EventKeepsInv(c, events[0]);
      RunKeepsInv(After(c, events[0]), events[1..]);
    }
  }

  /**
    On every run: at most one reconnect timer and one ping interval are armed, each the one its
    field names; and once a socket was made and until a manual close, a close event is outstanding
    or a reconnect is armed.
  */
  lemma EveryRunIsSafe(events: seq<Event>)
    requires CanRun(Fresh, events)
    ensures var c := Run(Fresh, events);
            && |c.browser.timeouts| <= 1 && (forall t :: t in c.browser.timeouts ==> c.reconnectTimer == Some(t))
            && |c.browser.intervals| <= 1 && (forall t :: t in c.browser.intervals ==> c.pingTimer == Some(t))
            && (c.browser.sockets != map[] && !c.isManualClose ==> WillReact(c))
  {
    hide Run, WillReact;
    var c := Run(Fresh, events);
    RunKeepsInv(Fresh, events);
    if c.reconnectTimer.Some? {
      AtMostOne(c.browser.timeouts, c.reconnectTimer.value);
    } else {
      assert c.browser.timeouts == {};
    }
    if c.pingTimer.Some? {
      AtMostOne(c.browser.intervals, c.pingTimer.value);
    } else {
      assert c.browser.intervals == {};
    }
  }

  lemma AtMostOne(s: set<nat>, only: nat)
    requires forall t :: t in s ==> t == only
    ensures |s| <= 1
  {
    if s != {} {
      assert s == {only};
    }
  }

  // ---------- After a disconnect ----------

  predicate NoConnectCall(e: Event) {
    match e
    case Caller(call) => call.Disconnect?
    case Failed(handlers) => Connect !in handlers
    case Opened(_, handlers) => Connect !in handlers
    case Closed(_, handlers) => Connect !in handlers
    case _ => true
  }

  /** Manually closed: no reconnect is armed. */
  ghost predicate Quiet(c: Client) { c.isManualClose && c.browser.timeouts == {} }

  lemma {:induction false} HandlersStayQuiet(c: Client, calls: seq<Call>)
    requires Quiet(c) && Connect !in calls
    ensures Quiet(CalledAll(c, calls)) && CalledAll(c, calls).browser.sockets.Keys == c.browser.sockets.Keys
    decreases |calls|
  {
    if |calls| != 0 {
      assert calls[0] in calls;
      HandlersStayQuiet(Called(c, calls[0]), calls[1..]);
    }
  }

  lemma EventStaysQuiet(c: Client, e: Event)
    requires Quiet(c) && Possible(c, e) && NoConnectCall(e)
    ensures Quiet(After(c, e)) && After(c, e).browser.sockets.Keys == c.browser.sockets.Keys
  {
    match e
    case Failed(handlers) => HandlersStayQuiet(c, handlers);
    case Opened(s, handlers) => HandlersStayQuiet(StartedPing(SetSocket(c, s, Open)), handlers);
    case Closed(s, handlers) => HandlersStayQuiet(StoppedPing(SetSocket(c, s, Gone)), handlers);
    case _ =>
  }

  lemma {:induction false} QuietRun(c: Client, events: seq<Event>)
    requires Quiet(c) && CanRun(c, events) && forall i :: 0 <= i < |events| ==> NoConnectCall(events[i])
    ensures Run(c, events).browser.sockets.Keys == c.browser.sockets.Keys
    decreases |events|
  {
    hide After, Quiet, NoConnectCall;
    if |events| != 0 {
      EventStaysQuiet(c, events[0]);
      QuietRun(After(c, events[0]), events[1..]);
    }
  }

  /**
    Once the client is manually closed, by whatever call of `disconnect`, no socket is ever
    constructed until the next call of `connect`, in every run.
  */
  lemma NothingAfterDisconnect(before: seq<Event>, events: seq<Event>)
    requires CanRun(Fresh, before) && Run(Fresh, before).isManualClose
    requires CanRun(Run(Fresh, before), events) && forall i :: 0 <= i < |events| ==> NoConnectCall(events[i])
    ensures var c := Run(Fresh, before);
            Run(c, events).browser.sockets.Keys == c.browser.sockets.Keys
  {
    hide Run;
    RunKeepsInv(Fresh, before);
    QuietRun(Run(Fresh, before), events);
  }

  /** A client that was never told to disconnect is not manually closed, so it keeps reconnecting. */
  lemma ManualCloseNeedsDisconnect(events: seq<Event>)
    requires CanRun(Fresh, events) && forall i :: 0 <= i < |events| ==> Disconnect !in CallsOf(events[i])
    ensures !Run(Fresh, events).isManualClose
  {
    NeverDisconnected(Fresh, events);
  }

  lemma {:induction false} NeverDisconnected(c: Client, events: seq<Event>)
    requires !c.isManualClose && CanRun(c, events)
    requires forall i :: 0 <= i < |events| ==> Disconnect !in CallsOf(events[i])
    ensures !Run(c, events).isManualClose
    decreases |events|
  {
    if |events| != 0 {
      NotDisconnected(c, events[0]);
      assert forall i :: 0 <= i < |events| - 1 ==> events[1..][i] == events[i + 1];
      NeverDisconnected(After(c, events[0]), events[1..]);
    }
  }

  lemma NotDisconnected(c: Client, e: Event)
    requires !c.isManualClose && Possible(c, e) && Disconnect !in CallsOf(e)
    ensures !After(c, e).isManualClose
  {
    match e
    case Failed(handlers) => CallsNotDisconnecting(c, handlers);
    case Opened(s, handlers) => CallsNotDisconnecting(StartedPing(SetSocket(c, s, Open)), handlers);
    case Closed(s, handlers) => CallsNotDisconnecting(StoppedPing(SetSocket(c, s, Gone)), handlers);
    case Caller(call) => assert CallsOf(e) == [call];
    case _ =>
  }

  lemma {:induction false} CallsNotDisconnecting(c: Client, calls: seq<Call>)
    requires !c.isManualClose && Disconnect !in calls
    ensures !CalledAll(c, calls).isManualClose
    decreases |calls|
  {
    if |calls| != 0 {
      assert calls[0] in calls;
      CallsNotDisconnecting(Called(c, calls[0]), calls[1..]);
    }
  }

  /** The calls an event makes, by a caller or by handlers in the middle of a callback. */
  function CallsOf(e: Event): seq<Call> {
    match e
    case Caller(call) => [call]
    case Opened(_, handlers) => handlers
    case Failed(handlers) => handlers
    case Closed(_, handlers) => handlers
    case _ => []
  }

  lemma {:induction false} LastCallDecides(c: Client, pre: seq<Call>, post: seq<Call>)
    requires Tidy(c) && Connect !in post
    ensures Quiet(CalledAll(c, pre + [Disconnect] + post))
    decreases |pre|
  {
    var calls := pre + [Disconnect] + post;
    if |pre| == 0 {
      assert calls[1..] == post;
      CallKeepsTidy(c, Disconnect);
      HandlersStayQuiet(Called(c, Disconnect), post);
    } else {
      assert calls[1..] == pre[1..] + [Disconnect] + post;
      CallKeepsTidy(c, pre[0]);
      LastCallDecides(Called(c, pre[0]), pre[1..], post);
    }
  }

  /**
    Every `disconnect` manually closes the client unless a `connect` follows it in the same event:
    also one made by a handler while its callback has yet to decide about reconnecting.
  */
  lemma DisconnectTakesEffect(c: Client, e: Event, pre: seq<Call>, post: seq<Call>)
    requires Inv(c) && Possible(c, e)
    requires CallsOf(e) == pre + [Disconnect] + post && Connect !in post
    ensures After(c, e).isManualClose && After(c, e).browser.timeouts == {}
  {
    hide Tidy, CalledAll, StartedPing, StoppedPing;
    match e
    case Caller(call) =>
      assert call == CallsOf(e)[|pre|];
      CallerDisconnects(c);
    case Failed(_) => LastCallDecides(c, pre, post);
    case Opened(s, _) =>
      OpenKeepsTidy(c, s);
      LastCallDecides(StartedPing(SetSocket(c, s, Open)), pre, post);
    case Closed(s, _) =>
      CloseKeepsTidy(c, s);
      LastCallDecides(StoppedPing(SetSocket(c, s, Gone)), pre, post);
    case _ =>
  }

  lemma CallerDisconnects(c: Client)
    requires Tidy(c)
    ensures Quiet(Called(c, Disconnect))
  {
    CallKeepsTidy(c, Disconnect);
  }

  // ---------- Keep-alive pings ----------

  ghost predicate PingsWhileOpen(c: Client) { IsOpen(c) ==> c.pingTimer.Some? }

  /** A close event of another socket than the open one, whose handlers do not disconnect. */
  predicate OrphanCloses(c: Client, e: Event) {
    e.Closed? && IsOpen(c) && c.ws != Some(e.socket) && Disconnect !in e.handlers
  }

  /**
    Exactly the close events of orphaned sockets break the rule that an open connection is kept
    alive: every other event, whatever its handlers call, keeps it.
  */
  lemma PingsLostIffOrphanCloses(c: Client, e: Event)
    requires Inv(c) && PingsWhileOpen(c) && Possible(c, e)
    ensures PingsWhileOpen(After(c, e)) <==> !OrphanCloses(c, e)
  {
    hide Inv, Tidy, WillReact;
    match e
    case Caller(call) => PingsThroughCalls(c, [call]);
    case Failed(handlers) => PingsThroughCalls(c, handlers);
    case Opened(s, handlers) => PingsThroughCalls(StartedPing(SetSocket(c, s, Open)), handlers);
    case Closed(s, handlers) =>
      var d := StoppedPing(SetSocket(c, s, Gone));
      if OrphanCloses(c, e) {
        StaysOpenWithoutPings(d, handlers);
      } else if IsOpen(d) {
        DisconnectEndsOpen(d, handlers);
      } else {
        PingsThroughCalls(d, handlers);
      }
    case _ =>
  }

  lemma {:induction false} PingsThroughCalls(c: Client, calls: seq<Call>)
    requires PingsWhileOpen(c)
    ensures PingsWhileOpen(CalledAll(c, calls))
    decreases |calls|
  {
    if |calls| != 0 {
      PingsThroughCalls(Called(c, calls[0]), calls[1..]);
    }
  }

  lemma {:induction false} StaysOpenWithoutPings(c: Client, calls: seq<Call>)
    requires IsOpen(c) && c.pingTimer == None && Disconnect !in calls
    ensures CalledAll(c, calls) == c
    decreases |calls|
  {
    if |calls| != 0 {
      assert calls[0] in calls;
      StaysOpenWithoutPings(c, calls[1..]);
    }
  }

  lemma {:induction false} DisconnectEndsOpen(c: Client, calls: seq<Call>)
    requires IsOpen(c) && Disconnect in calls
    ensures !IsOpen(CalledAll(c, calls))
    decreases |calls|
  {
    if calls[0].Disconnect? {
      StaysNotOpen(Called(c, calls[0]), calls[1..]);
    } else {
      DisconnectEndsOpen(c, calls[1..]);
    }
  }

  lemma {:induction false} StaysNotOpen(c: Client, calls: seq<Call>)
    requires !IsOpen(c)
    ensures !IsOpen(CalledAll(c, calls))
    decreases |calls|
  {
    if |calls| != 0 {
      StaysNotOpen(Called(c, calls[0]), calls[1..]);
    }
  }

  /** Such a run: disconnect and connect again before the old socket's close event arrives. */
  lemma QuickReconnectLosesPings() returns (events: seq<Event>)
    ensures CanRun(Fresh, events)
    ensures IsOpen(Run(Fresh, events)) && Run(Fresh, events).pingTimer == None
    ensures Run(Fresh, events).browser.timeouts != {}
  {
    hide CanRun, Run;
    var c1 := After(Fresh, Caller(Connect));
    var c2 := After(c1, Opened(0, []));
    var c3 := After(c2, Caller(Disconnect));
    var c4 := After(c3, Caller(Connect));
    assert c4.ws == Some(2) && c4.browser.sockets == map[0 := Closing, 2 := Connecting];
    var c5 := After(c4, Opened(2, []));
    var c6 := After(c5, Closed(0, []));
    assert c6.reconnectTimer.value in c6.browser.timeouts;
    RunNothing(c6);
    events := [Closed(0, [])];
    RunOneMore(c5, Closed(0, []), [], c6);
    assert [Closed(0, [])] + [] == events;
    RunOneMore(c4, Opened(2, []), events, c6);
    events := [Opened(2, [])] + events;
    RunOneMore(c3, Caller(Connect), events, c6);
    events := [Caller(Connect)] + events;
    RunOneMore(c2, Caller(Disconnect), events, c6);
    events := [Caller(Disconnect)] + events;
    RunOneMore(c1, Opened(0, []), events, c6);
    events := [Opened(0, [])] + events;
    RunOneMore(Fresh, Caller(Connect), events, c6);
    events := [Caller(Connect)] + events;
  }

  lemma RunNothing(c: Client)
    ensures CanRun(c, []) && Run(c, []) == c
  {
  }

  lemma RunOneMore(c: Client, e: Event, rest: seq<Event>, end: Client)
    requires Possible(c, e) && CanRun(After(c, e), rest) && Run(After(c, e), rest) == end
    ensures CanRun(c, [e] + rest) && Run(c, [e] + rest) == end
  {
    hide After, Possible;
    assert ([e] + rest)[1..] == rest;
  }

  /** Nothing is outstanding: a good moment to call `connect`. */
  ghost predicate AtRest(c: Client) { (forall s :: !Live(c, s)) && c.browser.timeouts == {} }

  /** Calls one after the other, in which `connect` is called at rest and `disconnect` at will. */
  ghost predicate OrderlyCalls(c: Client, calls: seq<Call>)
    decreases |calls|
  {
    |calls| == 0 || ((calls[0].Connect? ==> AtRest(c)) && OrderlyCalls(Called(c, calls[0]), calls[1..]))
  }

  /**
    Callers and handlers call `connect` only at rest.  A close callback is not at rest before it has
    decided about reconnecting, so its handlers do not call it.
  */
  ghost predicate Orderly(c: Client, e: Event)
    requires Possible(c, e)
  {
    match e
    case Caller(call) => OrderlyCalls(c, [call])
    case Failed(handlers) => OrderlyCalls(c, handlers)
    case Opened(s, handlers) => OrderlyCalls(StartedPing(SetSocket(c, s, Open)), handlers)
    case Closed(_, handlers) => Connect !in handlers
    case _ => true
  }

  ghost predicate OrderlyRun(c: Client, events: seq<Event>)
    requires CanRun(c, events)
    decreases |events|
  {
    |events| == 0 || (Orderly(c, events[0]) && OrderlyRun(After(c, events[0]), events[1..]))
  }

  /** At most one live socket, none while a reconnect is armed, and pings whenever the connection is open. */
  ghost predicate Single(c: Client) {
    && Tidy(c)
    && (forall s, t :: Live(c, s) && Live(c, t) ==> s == t)
    && (c.browser.timeouts != {} ==> forall s :: !Live(c, s))
    && PingsWhileOpen(c)
  }

  lemma CallKeepsSingle(c: Client, call: Call)
    requires Single(c) && (call.Connect? ==> AtRest(c))
    ensures Single(Called(c, call))
  {
    hide Tidy;
    var d := Called(c, call);
    CallKeepsTidy(c, call);
    if call.Connect? {
      ConnectedAtRest(c);
    } else {
      assert forall s :: Live(d, s) ==> Live(c, s);
      DisconnectedIsQuiet(c);
    }
  }

  lemma ConnectedAtRest(c: Client)
    requires Tidy(c) && AtRest(c)
    ensures var d := Connected(c);
            !IsOpen(d) && d.browser.timeouts == {} && forall s: nat :: Live(d, s) ==> d.ws == Some(s)
  {
    assert IsOpen(c) ==> Live(c, c.ws.value);
    var d := Connected(c);
    assert forall s: nat :: Live(d, s) ==> d.ws == Some(s) || Live(c, s);
  }

  lemma DisconnectedIsQuiet(c: Client)
    requires Tidy(c)
    ensures Quiet(Disconnected(c)) && Disconnected(c).ws == None
  {
  }

  lemma {:induction false} CallsKeepSingle(c: Client, calls: seq<Call>)
    requires Single(c) && OrderlyCalls(c, calls)
    ensures Single(CalledAll(c, calls))
    decreases |calls|
  {
    hide Single, Called, AtRest;
    if |calls| != 0 {
      CallKeepsSingle(c, calls[0]);
      CallsKeepSingle(Called(c, calls[0]), calls[1..]);
    }
  }

  lemma OpenKeepsSingle(c: Client, s: nat)
    requires Single(c) && s in c.browser.sockets && c.browser.sockets[s].Connecting?
    ensures Single(StartedPing(SetSocket(c, s, Open)))
  {
    hide Tidy;
    OpenKeepsTidy(c, s) by { TidyOfSingle(c); }
    var d := StartedPing(SetSocket(c, s, Open));
    assert Live(c, s);
    assert forall t :: Live(d, t) ==> Live(c, t);
  }

  lemma TidyOfSingle(c: Client)
    requires Single(c)
    ensures Tidy(c)
  {
  }

  ghost predicate NoneLive(c: Client) { forall s :: !Live(c, s) }

  /** The only live socket is gone: nothing is live, and disconnecting makes nothing live. */
  lemma CloseLeavesNoneLive(c: Client, s: nat)
    requires Single(c) && Live(c, s)
    ensures NoneLive(StoppedPing(SetSocket(c, s, Gone)))
  {
    var d := StoppedPing(SetSocket(c, s, Gone));
    assert forall t :: Live(d, t) ==> Live(c, t) && t != s;
  }

  lemma {:induction false} DisconnectsLeaveNoneLive(c: Client, calls: seq<Call>)
    requires Tidy(c) && NoneLive(c) && Connect !in calls
    ensures Tidy(CalledAll(c, calls)) && NoneLive(CalledAll(c, calls))
    decreases |calls|
  {
    hide Tidy;
    if |calls| != 0 {
      assert calls[0] in calls;
      CallKeepsTidy(c, calls[0]);
      var d := Called(c, calls[0]);
      assert forall t :: Live(d, t) ==> Live(c, t);
      DisconnectsLeaveNoneLive(d, calls[1..]);
    }
  }

  lemma NoneLiveIsSingle(c: Client)
    requires Tidy(c) && NoneLive(c)
    ensures Single(c)
    ensures !c.isManualClose ==> Single(ScheduledReconnect(c))
  {
    assert IsOpen(c) ==> Live(c, c.ws.value);
    if !c.isManualClose {
      ScheduleKeepsTidy(c);
      var d := ScheduledReconnect(c);
      assert forall t :: Live(d, t) ==> Live(c, t);
    }
  }

  lemma PeerCloseKeepsSingle(c: Client, s: nat)
    requires Single(c) && s in c.browser.sockets && c.browser.sockets[s].Open?
    ensures Single(SetSocket(c, s, Closing))
  {
    SocketKeepsTidy(c, s, Closing);
    var d := SetSocket(c, s, Closing);
    assert Live(c, s);
    assert forall t :: Live(d, t) ==> Live(c, t);
  }

  lemma FireKeepsSingle(c: Client, t: nat)
    requires Single(c) && t in c.browser.timeouts
    ensures Single(Connected(c.(browser := c.browser.(timeouts := c.browser.timeouts - {t}))))
  {
    FireKeepsTidy(c, t);
    var fired := c.(browser := c.browser.(timeouts := c.browser.timeouts - {t}));
    assert forall s :: Live(fired, s) ==> Live(c, s);
    ConnectedAtRest(fired);
  }

  /** Orderly events keep one live socket and the pings of an open connection. */
  lemma OrderlyKeepsSingle(c: Client, e: Event)
    requires Single(c) && Possible(c, e) && Orderly(c, e)
    ensures Single(After(c, e))
  {
    hide Single, Tidy, NoneLive, OrderlyCalls, CalledAll, Called;
    hide StartedPing, StoppedPing, ScheduledReconnect, Connected;
    match e
    case Caller(call) =>
      OneCall(c, call);
      CallsKeepSingle(c, [call]);
    case Failed(handlers) => CallsKeepSingle(c, handlers);
    case Opened(s, handlers) =>
      OpenKeepsSingle(c, s);
      CallsKeepSingle(StartedPing(SetSocket(c, s, Open)), handlers);
    case PeerCloses(s) => PeerCloseKeepsSingle(c, s);
    case Closed(s, handlers) =>
      TidyOfSingle(c);
      CloseKeepsTidy(c, s);
      CloseLeavesNoneLive(c, s);
      DisconnectsLeaveNoneLive(StoppedPing(SetSocket(c, s, Gone)), handlers);
      NoneLiveIsSingle(CalledAll(StoppedPing(SetSocket(c, s, Gone)), handlers));
    case ReconnectFires(t) => FireKeepsSingle(c, t);
    case PingFires(_) =>
  }

  lemma OneCall(c: Client, call: Call)
    ensures CalledAll(c, [call]) == Called(c, call)
  {
    assert CalledAll(Called(c, call), [call][1..]) == Called(c, call);
  }

  lemma SocketKeepsTidy(c: Client, s: nat, state: Socket)
    requires Tidy(c) && s in c.browser.sockets
    ensures Tidy(SetSocket(c, s, state))
  {
  }

  lemma OpenKeepsTidy(c: Client, s: nat)
    requires Tidy(c) && s in c.browser.sockets
    ensures Tidy(StartedPing(SetSocket(c, s, Open)))
  {
  }

  lemma ScheduleKeepsTidy(c: Client)
    requires Tidy(c) && !c.isManualClose
    ensures Tidy(ScheduledReconnect(c))
  {
  }

  lemma FireKeepsTidy(c: Client, t: nat)
    requires Tidy(c) && t in c.browser.timeouts
    ensures Tidy(Connected(c.(browser := c.browser.(timeouts := c.browser.timeouts - {t}))))
  {
  }

  lemma FreshIsSafe()
    ensures Inv(Fresh) && Single(Fresh)
  {
  }

  lemma {:induction false} OrderlyRunKeepsSingle(c: Client, events: seq<Event>)
    requires Single(c) && CanRun(c, events) && OrderlyRun(c, events)
    ensures Single(Run(c, events))
    decreases |events|
  {
    hide After, Single, Possible, Orderly;
    if |events| != 0 {
      OrderlyKeepsSingle(c, events[0]);
      OrderlyRunKeepsSingle(After(c, events[0]), events[1..]);
    }
  }

  /**
    If `connect` is only called at rest, there is never more than one live socket and no open
    connection without pings, whatever disconnects callers and handlers make.
  */
  lemma OrderlyRunsKeepOneSocket(events: seq<Event>)
    requires CanRun(Fresh, events) && OrderlyRun(Fresh, events)
    ensures var c := Run(Fresh, events);
            (forall s, t :: Live(c, s) && Live(c, t) ==> s == t) && PingsWhileOpen(c)
  {
    hide Run, CanRun, OrderlyRun;
    FreshIsSafe();
    OrderlyRunKeepsSingle(Fresh, events);
  }

  /** A socket that is connecting or open is the client's own. */
  ghost predicate OwnsItsSocket(c: Client) {
    forall s: nat :: s in c.browser.sockets && (c.browser.sockets[s].Connecting? || c.browser.sockets[s].Open?) ==>
      c.ws == Some(s)
  }

  lemma CallKeepsOwned(c: Client, call: Call)
    requires Tidy(c) && OwnsItsSocket(c) && (call.Connect? ==> AtRest(c))
    ensures OwnsItsSocket(Called(c, call))
  {
    if call.Connect? {
      assert forall s :: s in c.browser.sockets ==> !Live(c, s);
    }
  }

  lemma {:induction false} CallsKeepOwned(c: Client, calls: seq<Call>)
    requires Tidy(c) && OwnsItsSocket(c) && OrderlyCalls(c, calls)
    ensures OwnsItsSocket(CalledAll(c, calls))
    decreases |calls|
  {
    hide Tidy, OwnsItsSocket, AtRest, Called;
    if |calls| != 0 {
      CallKeepsTidy(c, calls[0]);
      CallKeepsOwned(c, calls[0]);
      CallsKeepOwned(Called(c, calls[0]), calls[1..]);
    }
  }

  lemma {:induction false} DisconnectsKeepOwned(c: Client, calls: seq<Call>)
    requires Tidy(c) && OwnsItsSocket(c) && Connect !in calls
    ensures OwnsItsSocket(CalledAll(c, calls))
    decreases |calls|
  {
    hide Tidy, OwnsItsSocket, Called;
    if |calls| != 0 {
      assert calls[0] in calls;
      CallKeepsTidy(c, calls[0]);
      CallKeepsOwned(c, calls[0]);
      DisconnectsKeepOwned(Called(c, calls[0]), calls[1..]);
    }
  }

  lemma SocketKeepsOwned(c: Client, s: nat, state: Socket)
    requires Tidy(c) && OwnsItsSocket(c) && s in c.browser.sockets && !c.browser.sockets[s].Gone?
    requires state.Open? ==> c.browser.sockets[s].Connecting?
    requires !state.Connecting?
    ensures OwnsItsSocket(SetSocket(c, s, state))
    ensures OwnsItsSocket(StartedPing(SetSocket(c, s, state))) && OwnsItsSocket(StoppedPing(SetSocket(c, s, state)))
  {
  }

  lemma FireKeepsOwned(c: Client, t: nat)
    requires Single(c) && OwnsItsSocket(c) && t in c.browser.timeouts
    ensures OwnsItsSocket(Connected(c.(browser := c.browser.(timeouts := c.browser.timeouts - {t}))))
  {
    assert forall s :: s in c.browser.sockets ==> !Live(c, s);
  }

  lemma OrderlyKeepsOwned(c: Client, e: Event)
    requires Single(c) && OwnsItsSocket(c) && Possible(c, e) && Orderly(c, e)
    ensures OwnsItsSocket(After(c, e))
  {
    hide Single, Tidy, OwnsItsSocket, OrderlyCalls, CalledAll, Called;
    hide StartedPing, StoppedPing, Connected;
    TidyOfSingle(c);
    match e
    case Caller(call) =>
      OneCall(c, call);
      CallsKeepOwned(c, [call]);
    case Failed(handlers) => CallsKeepOwned(c, handlers);
    case Opened(s, handlers) =>
      SocketKeepsOwned(c, s, Open);
      OpenKeepsTidy(c, s);
      CallsKeepOwned(StartedPing(SetSocket(c, s, Open)), handlers);
    case PeerCloses(s) => SocketKeepsOwned(c, s, Closing);
    case Closed(s, handlers) =>
      SocketKeepsOwned(c, s, Gone);
      CloseKeepsTidy(c, s);
      DisconnectsKeepOwned(StoppedPing(SetSocket(c, s, Gone)), handlers);
      ScheduleKeepsOwned(CalledAll(StoppedPing(SetSocket(c, s, Gone)), handlers));
    case ReconnectFires(t) => FireKeepsOwned(c, t);
    case PingFires(_) =>
  }

  lemma ScheduleKeepsOwned(c: Client)
    requires OwnsItsSocket(c)
    ensures OwnsItsSocket(ScheduledReconnect(c))
  {
  }

  lemma {:induction false} OrderlyRunKeepsOwned(c: Client, events: seq<Event>)
    requires Single(c) && OwnsItsSocket(c) && CanRun(c, events) && OrderlyRun(c, events)
    ensures Single(Run(c, events)) && OwnsItsSocket(Run(c, events))
    decreases |events|
  {
    hide After, Single, OwnsItsSocket, Possible, Orderly;
    if |events| != 0 {
      OrderlyKeepsSingle(c, events[0]);
      OrderlyKeepsOwned(c, events[0]);
      OrderlyRunKeepsOwned(After(c, events[0]), events[1..]);
    }
  }

  /** After an orderly run that ends manually closed, every socket ever made is closing or gone. */
  lemma ManualCloseClosesEverything(events: seq<Event>)
    requires CanRun(Fresh, events) && OrderlyRun(Fresh, events) && Run(Fresh, events).isManualClose
    ensures var sockets := Run(Fresh, events).browser.sockets;
            forall s :: s in sockets ==> sockets[s] == Closing || sockets[s] == Gone
  {
    hide Run, CanRun, OrderlyRun;
    FreshIsSafe();
    OrderlyRunKeepsOwned(Fresh, events);
    TidyOfSingle(Run(Fresh, events));
  }

  // ---------- What calls and events do to the browser ----------

  /** `connect` leaves an open connection alone; otherwise it makes a socket of its own and touches nothing else. */
  lemma ConnectEffect(c: Client)
    requires Tidy(c)
    ensures var d := Called(c, Connect);
            if c.ws.Some? && c.ws.value in c.browser.sockets && c.browser.sockets[c.ws.value] == Open then d == c
            else
              && d.ws.Some? && d.ws.value !in c.browser.sockets && !d.isManualClose
              && d.browser.sockets == c.browser.sockets[d.ws.value := Connecting]
              && d.browser.timeouts == c.browser.timeouts && d.browser.intervals == c.browser.intervals
              && d.reconnectTimer == c.reconnectTimer && d.pingTimer == c.pingTimer
  {
  }

  /** `disconnect` starts closing the client's socket, forgets it, and clears both timers; other sockets stay. */
  lemma DisconnectEffect(c: Client)
    requires Tidy(c)
    ensures var d := Called(c, Disconnect);
            && d.isManualClose && d.ws == None && d.reconnectTimer == None && d.pingTimer == None
            && d.browser.timeouts == {} && d.browser.intervals == {}
            && (c.ws.Some? && c.browser.sockets[c.ws.value] in {Connecting, Open} ==>
                  d.browser.sockets == c.browser.sockets[c.ws.value := Closing])
            && (c.ws.Some? && c.browser.sockets[c.ws.value] in {Closing, Gone} ==>
                  d.browser.sockets == c.browser.sockets)
            && (c.ws == None ==> d.browser.sockets == c.browser.sockets)
  {
  }

  /** Handlers make their calls one after the other. */
  lemma {:induction false} CallsInOrder(c: Client, first: seq<Call>, rest: seq<Call>)
    ensures CalledAll(c, first + rest) == CalledAll(CalledAll(c, first), rest)
    decreases |first|
  {
    if |first| == 0 {
      assert first + rest == rest;
    } else {
      CallsInOrder(Called(c, first[0]), first[1..], rest);
      assert (first + rest)[1..] == first[1..] + rest;
    }
  }

  /** An open event starts a fresh ping interval, the only one. */
  lemma OpenEffect(c: Client, s: nat)
    requires Tidy(c) && Possible(c, Opened(s, []))
    ensures var d := After(c, Opened(s, []));
            && d.browser.sockets == c.browser.sockets[s := Open] && d.ws == c.ws && d.isManualClose == c.isManualClose
            && d.pingTimer.Some? && d.browser.intervals == {d.pingTimer.value}
            && d.pingTimer.value !in c.browser.intervals
            && d.browser.timeouts == c.browser.timeouts && d.reconnectTimer == c.reconnectTimer
  {
  }

  /** A fired reconnect timer is spent, and then the client does what `connect` does. */
  lemma FireEffect(c: Client, t: nat)
    requires Tidy(c) && Possible(c, ReconnectFires(t))
    ensures After(c, ReconnectFires(t)) == Called(c.(browser := c.browser.(timeouts := {})), Connect)
  {
    assert c.browser.timeouts == {t};
  }

  /**
    A peer that starts closing changes that socket only; a ping changes nothing; errors and callers
    only make calls.
  */
  lemma PlainEffects(c: Client, s: nat, t: nat, calls: seq<Call>)
    ensures Possible(c, PeerCloses(s)) ==>
              After(c, PeerCloses(s)) == c.(browser := c.browser.(sockets := c.browser.sockets[s := Closing]))
    ensures Possible(c, PingFires(t)) ==> After(c, PingFires(t)) == c
    ensures After(c, Failed(calls)) == CalledAll(c, calls)
    ensures |calls| == 1 ==> After(c, Caller(calls[0])) == CalledAll(c, calls)
  {
    if |calls| == 1 {
      assert calls == [calls[0]];
      OneCall(c, calls[0]);
    }
  }

  /** The handlers of an open event run after the pings were started. */
  lemma OpenHandlersRunLast(c: Client, s: nat, handlers: seq<Call>)
    requires Possible(c, Opened(s, handlers))
    ensures After(c, Opened(s, handlers)) == CalledAll(After(c, Opened(s, [])), handlers)
  {
  }

  /**
    The handlers of a close event run with the socket gone and the pings stopped, and before the
    decision about reconnecting, which goes by what they leave.
  */
  lemma CloseHandlersRunBeforeReconnect(c: Client, s: nat, handlers: seq<Call>)
    requires Tidy(c) && Possible(c, Closed(s, handlers))
    ensures var seen := c.(pingTimer := None,
                           browser := c.browser.(sockets := c.browser.sockets[s := Gone], intervals := {}));
            var left, d := CalledAll(seen, handlers), After(c, Closed(s, handlers));
            && (left.isManualClose ==> d == left)
            && (!left.isManualClose ==>
                  && d.ws == left.ws && d.browser.sockets == left.browser.sockets && !d.isManualClose
                  && d.pingTimer == left.pingTimer && d.browser.intervals == left.browser.intervals
                  && d.reconnectTimer.Some? && d.browser.timeouts == {d.reconnectTimer.value})
  {
    var seen := c.(pingTimer := None,
                   browser := c.browser.(sockets := c.browser.sockets[s := Gone], intervals := {}));
    assert StoppedPing(SetSocket(c, s, Gone)) == seen by {
      assert c.pingTimer.Some? ==> c.browser.intervals == {c.pingTimer.value};
      assert c.pingTimer == None ==> c.browser.intervals == {};
    }
    CloseKeepsTidy(c, s);
    CallsKeepTidy(seen, handlers);
  }
}
