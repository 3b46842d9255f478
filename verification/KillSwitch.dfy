/** The two ends of the kill-switch protocol: the server's delivery service and the client's
    handler. */
module KillSwitches {
  import opened FusionTypes
  import Buffers = ClientRollingBuffers
  import Links = WsClients

  type FlagId = nat

  datatype KillSwitchDeliver = KillSwitchDeliver(reason: string, flagId: FlagId)

  // -------------------------------------------------------------------------
  // Server: one delivery service per connection
  // -------------------------------------------------------------------------

  datatype Pending = Pending(flagId: FlagId, sentAt: int, retries: nat)

  datatype Server = Server(seqNo: nat, pending: Option<Pending>, acked: bool)

  const NEW_CONNECTION := Server(0, None, false)

  predicate InFlight(s: Server) {
    s.pending.Some? && !s.acked
  }

  /** None when a kill-switch is still in flight: the call raises. */
  function Prepared(s: Server, flag: FlagId, now: int): Option<Server> {
    if InFlight(s) then None else Some(s.(pending := Some(Pending(flag, now, 0)), acked := false))
  }

  predicate Matches(s: Server, flag: FlagId) {
    s.pending.Some? && s.pending.value.flagId == flag
  }

  function Recorded(s: Server, flag: FlagId): Server {
    if Matches(s, flag) then s.(acked := true) else s
  }

  predicate RetryDue(s: Server, now: int, grace: int, maxRetries: nat) {
    InFlight(s) && grace <= now - s.pending.value.sentAt && s.pending.value.retries < maxRetries
  }

  /** The clock is read a second time when the retry is stamped. */
  function Retried(s: Server, now: int, stamp: int, grace: int, maxRetries: nat): Server {
    if RetryDue(s, now, grace, maxRetries) then
      s.(pending := Some(Pending(s.pending.value.flagId, stamp, s.pending.value.retries + 1)))
    else s
  }

  class DeliveryService {
    const ackGrace: int
    const maxRetries: nat
    var seqNo: nat
    var pendingKill: Option<Pending>
    var killSwitchAcked: bool

    ghost function View(): Server
      reads this
    {
      Server(seqNo, pendingKill, killSwitchAcked)
    }

    constructor (ackGrace: int, maxRetries: nat)
      ensures View() == NEW_CONNECTION && this.ackGrace == ackGrace && this.maxRetries == maxRetries
    {
      this.ackGrace, this.maxRetries := ackGrace, maxRetries;
      seqNo, pendingKill, killSwitchAcked := 0, None, false;
    }

    /** The next per-frame acknowledgement number. */
    method NextAck() returns (ack: nat)
      modifies this`seqNo
      ensures ack == old(seqNo) && seqNo == old(seqNo) + 1
    {
      ack := seqNo;
      seqNo := seqNo + 1;
    }

    method PrepareKillSwitch(flag: FlagId, reason: string, now: int) returns (message: Option<KillSwitchDeliver>)
      modifies this`pendingKill, this`killSwitchAcked
      ensures message == if InFlight(old(View())) then None else Some(KillSwitchDeliver(reason, flag))
      ensures View() == if message == None then old(View()) else Prepared(old(View()), flag, now).value
    {
      if pendingKill.Some? && !killSwitchAcked {
        return None;
      }
      pendingKill := Some(Pending(flag, now, 0));
      killSwitchAcked := false;
      message := Some(KillSwitchDeliver(reason, flag));
    }

    method RecordKillSwitchAck(flag: FlagId) returns (matched: bool)
      modifies this`killSwitchAcked
      ensures matched == Matches(old(View()), flag)
      ensures View() == Recorded(old(View()), flag)
    {
      if pendingKill == None {
        return false;
      }
      if pendingKill.value.flagId != flag {
        return false;
      }
      killSwitchAcked := true;
      matched := true;
    }

    method ShouldRetryKillSwitch(now: int, stamp: int) returns (message: Option<KillSwitchDeliver>)
      modifies this`pendingKill
      ensures message == if RetryDue(old(View()), now, ackGrace, maxRetries)
        then Some(KillSwitchDeliver("retry", old(pendingKill).value.flagId)) else None
      ensures View() == Retried(old(View()), now, stamp, ackGrace, maxRetries)
    {
      if pendingKill == None || killSwitchAcked {
        return None;
      }
      var elapsed := now - pendingKill.value.sentAt;
      if elapsed < ackGrace {
        return None;
      }
      if pendingKill.value.retries >= maxRetries {
        return None;
      }
      pendingKill := Some(Pending(pendingKill.value.flagId, stamp, pendingKill.value.retries + 1));
      message := Some(KillSwitchDeliver("retry", pendingKill.value.flagId));
    }
  }

  // -------------------------------------------------------------------------
  // Client
  // -------------------------------------------------------------------------

  /** handled: the dedup set. ops: the calls made to the rolling buffer so far. results: what
      each call of the handler returned. */
  datatype Client = Client(
    link: Links.Link,
    handled: set<FlagId>,
    ops: seq<Buffers.Op>,
    results: seq<KillSwitchResult>
  )

  datatype KillSwitchResult = KillSwitchResult(bufferedEntries: seq<Buffers.Entry>, flagId: FlagId, reason: string)

  const PAGE_LOAD := Client(Links.NO_LINK, {}, [], [])

  function LinkAfter(l: Links.Link, flag: FlagId): Links.Link {
    Links.After(Links.After(l, Links.KillSwitchArrived), Links.Send(Links.Ack(flag)))
  }

  /** A kill-switch message arrives: the link turns terminal, the buffer is drained the first
      time this flag is seen, and the flag is acknowledged every time. */
  function Received(c: Client, m: KillSwitchDeliver, windowMs: int): Client {
    var entries := if m.flagId in c.handled then [] else Buffers.Kept(c.ops, windowMs);
    Client(
      LinkAfter(c.link, m.flagId), c.handled + {m.flagId},
      if m.flagId in c.handled then c.ops else c.ops + [Buffers.Clear],
      c.results + [KillSwitchResult(entries, m.flagId, m.reason)])
  }

  class KillSwitchHandler {
    const ws: Links.WsClient
    const rollingBuffer: Buffers.RollingBuffer
    var handledFlagIds: set<FlagId>
    ghost var results: seq<KillSwitchResult>

    ghost function View(): Client
      reads this, ws, rollingBuffer
    {
      Client(ws.View(), handledFlagIds, rollingBuffer.ops, results)
    }

    constructor (windowMs: int)
      ensures fresh(ws) && fresh(rollingBuffer) && rollingBuffer.Valid()
      ensures rollingBuffer.windowMs == windowMs && View() == PAGE_LOAD
    {
      ws := new Links.WsClient();
      rollingBuffer := new Buffers.RollingBuffer(windowMs);
      handledFlagIds, results := {}, [];
    }

    /** The connection's message handler, for a kill-switch message. */
    method HandleMessage(m: KillSwitchDeliver) returns (result: KillSwitchResult)
      requires rollingBuffer.Valid()
      modifies this, ws, rollingBuffer
      ensures rollingBuffer.Valid()
      ensures View() == Received(old(View()), m, rollingBuffer.windowMs)
      ensures result == results[|results| - 1]
    {
      hide Links.After, Buffers.Kept;
      ws.EnterTerminal();
      result := HandleKillSwitch(m);
      results := results + [result];
    }

    method HandleKillSwitch(m: KillSwitchDeliver) returns (result: KillSwitchResult)
      requires rollingBuffer.Valid()
      modifies this`handledFlagIds, ws, rollingBuffer
      ensures rollingBuffer.Valid()
      ensures ws.View() == Links.After(old(ws.View()), Links.Send(Links.Ack(m.flagId)))
      ensures handledFlagIds == old(handledFlagIds) + {m.flagId}
      ensures m.flagId in old(handledFlagIds) ==>
        rollingBuffer.ops == old(rollingBuffer.ops) && result == KillSwitchResult([], m.flagId, m.reason)
      ensures m.flagId !in old(handledFlagIds) ==>
        && rollingBuffer.ops == old(rollingBuffer.ops) + [Buffers.Clear]
        && result == KillSwitchResult(Buffers.Kept(old(rollingBuffer.ops), rollingBuffer.windowMs), m.flagId, m.reason)
    {
      hide Links.After, Buffers.Kept;
      if m.flagId in handledFlagIds {
        ws.Send(Links.Ack(m.flagId));
        return KillSwitchResult([], m.flagId, m.reason);
      }
      handledFlagIds := handledFlagIds + {m.flagId};
      var entries := rollingBuffer.Drain();
      ws.Send(Links.Ack(m.flagId));
      result := KillSwitchResult(entries, m.flagId, m.reason);
    }
  }
}
