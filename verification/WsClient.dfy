/** The browser's connection: when a message is really sent, and when the client stops
    reconnecting for good. */
module WsClients {
  import opened FusionTypes

  datatype ReadyState = Connecting | Open | Closed

  datatype Status = StatusConnecting | StatusConnected | StatusReconnecting | DisconnectedTerminal

  /** A kill-switch acknowledgement envelope for a flag; the only message the protocol needs. */
  datatype Ack = Ack(flagId: nat)

  /** sockets: how many were ever created. armed: the reconnect timers that will still fire. */
  datatype Link = Link(
    ws: Option<ReadyState>,
    status: Status,
    isTerminal: bool,
    reconnectAttempt: nat,
    reconnectTimer: Option<nat>,
    armed: set<nat>,
    timers: nat,
    sockets: nat,
    wire: seq<Ack>
  )

  const NO_LINK := Link(None, DisconnectedTerminal, false, 0, None, {}, 0, 0, [])

  /** What happens to a connection. created: whether the WebSocket constructor succeeds. current:
      whether the socket that opens is the latest one; an older one runs the same handler. */
  datatype LinkEvent =
    | Connect(created: bool)
    | Opened(current: bool)
    | Dropped
    | ClosedWith(code: int)
    | TimerFired(timer: nat, created: bool)
    | Disconnect
    | KillSwitchArrived
    | Send(ack: Ack)

  function Connected(l: Link, created: bool): Link {
    if l.isTerminal then l
    else if created then l.(status := StatusConnecting, ws := Some(Connecting), sockets := l.sockets + 1)
    else l.(status := DisconnectedTerminal, isTerminal := true)
  }

  function Sent(l: Link, ack: Ack): Link {
    if l.ws == Some(Open) then l.(wire := l.wire + [ack]) else l
  }

  function OnClose(l: Link, code: int): Link {
    var l' := l.(ws := None);
    if l.isTerminal then l'.(status := DisconnectedTerminal)
    else if 4000 <= code < 5000 then l'.(status := DisconnectedTerminal, isTerminal := true)
    else l'.(
      status := StatusReconnecting, reconnectAttempt := l.reconnectAttempt + 1,
      reconnectTimer := Some(l.timers), armed := l.armed + {l.timers}, timers := l.timers + 1)
  }

  function After(l: Link, e: LinkEvent): Link {
    match e
    case Connect(created) => Connected(l, created)
    case Opened(current) => l.(
      ws := if current && l.ws == Some(Connecting) then Some(Open) else l.ws,
      reconnectAttempt := 0, status := StatusConnected)
    case Dropped => if l.ws.Some? then l.(ws := Some(Closed)) else l
    case ClosedWith(code) => OnClose(l, code)
    case TimerFired(t, created) => if t in l.armed then Connected(l.(armed := l.armed - {t}), created) else l
    case Disconnect => l.(
      isTerminal := true, ws := None, status := DisconnectedTerminal, reconnectTimer := None,
      armed := if l.reconnectTimer.Some? then l.armed - {l.reconnectTimer.value} else l.armed)
    case KillSwitchArrived => l.(isTerminal := true)
    case Send(ack) => Sent(l, ack)
  }

  function AfterAll(l: Link, es: seq<LinkEvent>): Link {
    if |es| == 0 then l else After(AfterAll(l, es[..|es| - 1]), es[|es| - 1])
  }

  /** Once terminal, whatever happens next: no socket is ever created again, although timers
      armed before may still fire. */
  lemma {:induction false} TerminalForGood(l: Link, es: seq<LinkEvent>)
    requires l.isTerminal
    ensures AfterAll(l, es).isTerminal && AfterAll(l, es).sockets == l.sockets
  {
    if |es| > 0 {
      TerminalForGood(l, es[..|es| - 1]);
    }
  }

  /** Of the events that write the status of a terminal client, the last one is an open event. */
  predicate OpensLast(es: seq<LinkEvent>) {
    if |es| == 0 then false
    else
      match es[|es| - 1]
      case Opened(_) => true
      case ClosedWith(_) => false
      case Disconnect => false
      case _ => OpensLast(es[..|es| - 1])
  }

  /** A connection whose client went terminal is closed by the next close event and stays so: from
      then on every acknowledgement is dropped. The status says so too, unless an older socket
      opens after all. */
  lemma {:induction false} TerminalThenSilent(l: Link, code: int, es: seq<LinkEvent>)
    requires l.isTerminal
    ensures var l' := AfterAll(After(l, ClosedWith(code)), es);
      && l'.ws == None && l'.wire == l.wire
      && (l'.status == DisconnectedTerminal <==> !OpensLast(es))
  {
    if |es| > 0 {
      TerminalThenSilent(l, code, es[..|es| - 1]);
      TerminalForGood(After(l, ClosedWith(code)), es[..|es| - 1]);
    }
  }

  /** A close is final for a terminal client and for the codes 4000 to 4999; any other close arms
      one more timer. */
  lemma {:induction false} ClosesForGoodWhen(l: Link, code: int)
    ensures var l' := After(l, ClosedWith(code));
      && l'.ws == None && l'.sockets == l.sockets && l'.wire == l.wire
      && (l'.isTerminal <==> l.isTerminal || 4000 <= code <= 4999)
      && (l'.isTerminal ==> l'.status == DisconnectedTerminal && l'.armed == l.armed)
      && (!l'.isTerminal ==>
            && l'.status == StatusReconnecting && l'.reconnectAttempt == l.reconnectAttempt + 1
            && l'.reconnectTimer == Some(l.timers) && l'.armed == l.armed + {l.timers} && l'.timers == l.timers + 1)
  {
  }

  /** A client that is not terminal comes back: when the timer of the close fires it creates one
      socket, and once that is open an acknowledgement reaches the wire again. */
  lemma {:induction false} ComesBack(l: Link, code: int, ack: Ack)
    requires !l.isTerminal && !(4000 <= code <= 4999)
    ensures var closed := After(l, ClosedWith(code));
      var again := After(closed, TimerFired(l.timers, true));
      && again.ws == Some(Connecting) && again.sockets == l.sockets + 1 && again.status == StatusConnecting
      && l.timers !in again.armed
      && var open := After(again, Opened(true));
         && open.status == StatusConnected && open.reconnectAttempt == 0
         && After(again, Send(ack)).wire == l.wire
         && After(open, Send(ack)).wire == l.wire + [ack]
         && After(After(open, Dropped), Send(ack)).wire == l.wire
  {
  }

  /** Disconnecting is final too, and disarms the latest timer. A constructor that fails is final. */
  lemma {:induction false} StopsForGood(l: Link)
    ensures var l' := After(l, Disconnect);
      && l'.isTerminal && l'.ws == None && l'.status == DisconnectedTerminal
      && (l.reconnectTimer.Some? ==> l.reconnectTimer.value !in l'.armed)
      && (forall t :: t in l.armed && l.reconnectTimer != Some(t) ==> t in l'.armed)
    ensures After(l, Connect(false)).isTerminal && After(l, Connect(false)).sockets == l.sockets
    ensures l.isTerminal ==> After(l, Connect(true)) == l
  {
  }

  class WsClient {
    var ws: Option<ReadyState>
    var status: Status
    var reconnectAttempt: nat
    var reconnectTimer: Option<nat>
    var isTerminal: bool

    ghost var armed: set<nat>
    ghost var sockets: nat
    ghost var wire: seq<Ack>
    var timers: nat

    ghost function View(): Link
      reads this
    {
      Link(ws, status, isTerminal, reconnectAttempt, reconnectTimer, armed, timers, sockets, wire)
    }

    constructor ()
      ensures View() == NO_LINK
    {
      ws, status, reconnectAttempt, reconnectTimer, isTerminal := None, DisconnectedTerminal, 0, None, false;
      armed, timers, sockets, wire := {}, 0, 0, [];
    }

    method Connect(created: bool)
      modifies this
      ensures View() == After(old(View()), LinkEvent.Connect(created))
    {
      if isTerminal {
        return;
      }
      status := StatusConnecting;
      if !created {
        HandleTerminalDisconnect();
        return;
      }
      ws := Some(ReadyState.Connecting);
      sockets := sockets + 1;
    }

    method Disconnect()
      modifies this
      ensures View() == After(old(View()), LinkEvent.Disconnect)
    {
      isTerminal := true;
      ClearReconnect();
      if ws.Some? {
        ws := None;
      }
      status := DisconnectedTerminal;
    }

    /** If the socket is not open the message is silently dropped. */
    method Send(ack: Ack)
      modifies this`wire
      ensures View() == After(old(View()), LinkEvent.Send(ack))
      ensures wire == old(wire) + if ws == Some(ReadyState.Open) then [ack] else []
    {
      if ws == Some(ReadyState.Open) {
        wire := wire + [ack];
      }
    }

    /** Before the handler runs the browser has opened the socket; the handler itself does not
        look which one it is. */
    method HandleOpen(current: bool)
      modifies this
      ensures View() == After(old(View()), Opened(current))
    {
      if current && ws == Some(ReadyState.Connecting) {
        ws := Some(ReadyState.Open);
      }
      reconnectAttempt := 0;
      status := StatusConnected;
    }

    method HandleClose(code: int)
      modifies this
      ensures View() == After(old(View()), ClosedWith(code))
    {
      ws := None;
      if isTerminal {
        status := DisconnectedTerminal;
        return;
      }
      if code >= 4000 && code < 5000 {
        HandleTerminalDisconnect();
        return;
      }
      ScheduleReconnect();
    }

    /** The part of handleMessage that runs before the kill-switch callback. */
    method EnterTerminal()
      modifies this`isTerminal
      ensures View() == After(old(View()), KillSwitchArrived)
    {
      isTerminal := true;
    }

    method HandleTerminalDisconnect()
      modifies this`isTerminal, this`status
      ensures isTerminal && status == DisconnectedTerminal
    {
      isTerminal := true;
      status := DisconnectedTerminal;
    }

    method ScheduleReconnect()
      requires !isTerminal
      modifies this
      ensures View() == old(View()).(
        status := StatusReconnecting, reconnectAttempt := old(reconnectAttempt) + 1,
        reconnectTimer := Some(old(timers)), armed := old(armed) + {old(timers)}, timers := old(timers) + 1)
    {
      status := StatusReconnecting;
      reconnectAttempt := reconnectAttempt + 1;
      reconnectTimer := Some(timers);
      armed := armed + {timers};
      timers := timers + 1;
    }

    method ClearReconnect()
      modifies this`reconnectTimer, this`armed
      ensures reconnectTimer == None
      ensures armed == if old(reconnectTimer).Some? then old(armed) - {old(reconnectTimer).value} else old(armed)
    {
      if reconnectTimer.Some? {
        armed := armed - {reconnectTimer.value};
        reconnectTimer := None;
      }
    }

    method FireTimer(timer: nat, created: bool)
      requires timer in armed
      modifies this
      ensures View() == After(old(View()), TimerFired(timer, created))
    {
      armed := armed - {timer};
      Connect(created);
    }
  }
}
