/**
  `WebSocketClient` with its fields updated in place.  The browser is a field too, since the
  methods arm timers and construct sockets in it.  Callbacks take the calls their handlers make.
*/
module WebSocketClients {
  import opened Common
  import opened SocketClient

  class WebSocketClient {
    var ws: Option<nat>
    var reconnectTimer: Option<nat>
    var pingTimer: Option<nat>
    var isManualClose: bool
    var browser: Browser

    ghost function State(): Client
      reads this
    {
      Client(ws, reconnectTimer, pingTimer, isManualClose, browser)
    }

    constructor ()
      ensures State() == Fresh && Inv(State())
    {
      ws, reconnectTimer, pingTimer, isManualClose := None, None, None, false;
      browser := Browser(map[], {}, {}, 0);
      new;
      FreshIsSafe();
    }

    method StopPingInterval()
      modifies this
      ensures State() == StoppedPing(old(State()))
    {
      if pingTimer != None {
        browser := browser.(intervals := browser.intervals - {pingTimer.value});
        pingTimer := None;
      }
    }

    method StartPingInterval()
      modifies this
      ensures State() == StartedPing(old(State()))
    {
      StopPingInterval();
      pingTimer := Some(browser.nextId);
      browser := browser.(intervals := browser.intervals + {browser.nextId}, nextId := browser.nextId + 1);
    }

    method StopReconnectTimer()
      modifies this
      ensures State() == StoppedReconnect(old(State()))
    {
      if reconnectTimer != None {
        browser := browser.(timeouts := browser.timeouts - {reconnectTimer.value});
        reconnectTimer := None;
      }
    }

    method ScheduleReconnect()
      modifies this
      ensures State() == ScheduledReconnect(old(State()))
    {
      StopReconnectTimer();
      reconnectTimer := Some(browser.nextId);
      browser := browser.(timeouts := browser.timeouts + {browser.nextId}, nextId := browser.nextId + 1);
    }

    method Connect()
      modifies this
      ensures State() == Connected(old(State()))
      ensures old(Inv(State())) ==> Inv(State())
    {
      ghost var before := State();
      if Inv(before) {
        CallKeepsInv(before, SocketClient.Call.Connect);
      }
      if ws.Some? && ws.value in browser.sockets && browser.sockets[ws.value].Open? {
        return;
      }
      isManualClose := false;
      ws := Some(browser.nextId);
      browser := browser.(sockets := browser.sockets[browser.nextId := Connecting], nextId := browser.nextId + 1);
    }

    method Disconnect()
      modifies this
      ensures State() == Disconnected(old(State()))
      ensures old(Inv(State())) ==> Inv(State()) && ws == None && browser.timeouts == {} && browser.intervals == {}
    {
      ghost var before := State();
      if Inv(before) {
        CallKeepsInv(before, SocketClient.Call.Disconnect);
      }
      isManualClose := true;
      StopPingInterval();
      StopReconnectTimer();
      if ws != None {
        browser := CloseSocket(browser, ws.value);
        ws := None;
      }
    }

    /** The handlers of an emitted event run before the callback goes on. */
    method Emit(handlers: seq<Call>)
      modifies this
      ensures State() == CalledAll(old(State()), handlers)
      decreases |handlers|
    {
      if |handlers| != 0 {
        if handlers[0].Connect? {
          Connect();
        } else {
          Disconnect();
        }
        Emit(handlers[1..]);
      }
    }

    method OnOpen(socket: nat, handlers: seq<Call>)
      requires Possible(State(), Opened(socket, handlers))
      modifies this
      ensures State() == After(old(State()), Opened(socket, handlers))
      ensures old(Inv(State())) ==> Inv(State())
    {
      hide StartedPing, CalledAll, Inv;
      Preserved(State(), Opened(socket, handlers));
      browser := browser.(sockets := browser.sockets[socket := Open]);
      StartPingInterval();
      Emit(handlers);
    }

    method OnClose(socket: nat, handlers: seq<Call>)
      requires Possible(State(), Closed(socket, handlers))
      modifies this
      ensures State() == After(old(State()), Closed(socket, handlers))
      ensures old(Inv(State())) ==> Inv(State())
    {
      hide StoppedPing, ScheduledReconnect, CalledAll, Inv;
      Preserved(State(), Closed(socket, handlers));
      browser := browser.(sockets := browser.sockets[socket := Gone]);
      StopPingInterval();
      Emit(handlers);
      if !isManualClose {
        ScheduleReconnect();
      }
    }

    method OnReconnectTimer(timer: nat)
      requires Possible(State(), ReconnectFires(timer))
      modifies this
      ensures State() == After(old(State()), ReconnectFires(timer))
      ensures old(Inv(State())) ==> Inv(State())
    {
      hide Connected, Inv;
      Preserved(State(), ReconnectFires(timer));
      browser := browser.(timeouts := browser.timeouts - {timer});
      Connect();
    }
  }

  lemma Preserved(c: Client, e: Event)
    requires Possible(c, e)
    ensures Inv(c) ==> Inv(After(c, e))
  {
    if Inv(c) {
      EventKeepsInv(c, e);
    }
  }
}
