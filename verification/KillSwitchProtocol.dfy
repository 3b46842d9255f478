/** The two ends and everything in flight between them. The channel may lose, duplicate and
    reorder: any message ever sent may arrive at any later time, any number of times, or never. */
module KillSwitchProtocol {
  import opened FusionTypes
  import opened KillSwitches
  import Buffers = ClientRollingBuffers
  import Links = WsClients

  datatype Config = Config(grace: int, maxRetries: nat, windowMs: int)

  /** One accepted kill-switch of the server: when it was sent and re-sent, and whether it was
      acknowledged. */
  datatype Epoch = Epoch(flagId: FlagId, sentAt: seq<int>, acked: bool)

  /** downlink: every kill-switch message ever sent. The acknowledgements ever sent are on the
      client's wire. */
  datatype System = System(
    server: Server,
    epochs: seq<Epoch>,
    downlink: set<KillSwitchDeliver>,
    client: Client,
    now: int
  )

  function Start(now: int): System {
    System(NEW_CONNECTION, [], {}, PAGE_LOAD, now)
  }

  datatype Step =
    | Prepare(flagId: FlagId, reason: string, now: int)
    | Retry(now: int, stamp: int)
    | Reconnect                               // the server side of a new connection
    | Deliver(message: KillSwitchDeliver)
    | Acknowledge(flagId: FlagId)
    | LinkStep(event: Links.LinkEvent)
    | Capture(frame: Buffers.HeavyFrameEntry, now: int, nowHeavy: int)

  /** Clocks do not go back, and only messages that were sent arrive. */
  predicate Enabled(s: System, step: Step) {
    match step
    case Prepare(_, _, now) => s.now <= now
    case Retry(now, stamp) => s.now <= now <= stamp
    case Reconnect => true
    case Deliver(m) => m in s.downlink
    case Acknowledge(f) => Links.Ack(f) in s.client.link.wire
    case LinkStep(e) => !e.Send? && !e.KillSwitchArrived?
    case Capture(_, _, _) => true
  }

  function Resent(es: seq<Epoch>, at: int): seq<Epoch> {
    if |es| == 0 then es
    else es[|es| - 1 := es[|es| - 1].(sentAt := es[|es| - 1].sentAt + [at])]
  }

  function Acked(es: seq<Epoch>): seq<Epoch> {
    if |es| == 0 then es else es[|es| - 1 := es[|es| - 1].(acked := true)]
  }

  function After(c: Config, s: System, step: Step): System {
    match step
    case Prepare(f, reason, now) =>
      var prepared := Prepared(s.server, f, now);
      if prepared == None then s.(now := now)
      else s.(
        server := prepared.value, epochs := s.epochs + [Epoch(f, [now], false)],
        downlink := s.downlink + {KillSwitchDeliver(reason, f)}, now := now)
    case Retry(now, stamp) =>
      if !RetryDue(s.server, now, c.grace, c.maxRetries) then s.(now := stamp)
      else s.(
        server := Retried(s.server, now, stamp, c.grace, c.maxRetries), epochs := Resent(s.epochs, stamp),
        downlink := s.downlink + {KillSwitchDeliver("retry", s.server.pending.value.flagId)}, now := stamp)
    case Reconnect => s.(server := NEW_CONNECTION)
    case Deliver(m) => s.(client := Received(s.client, m, c.windowMs))
    case Acknowledge(f) =>
      s.(server := Recorded(s.server, f), epochs := if Matches(s.server, f) then Acked(s.epochs) else s.epochs)
    case LinkStep(e) => s.(client := s.client.(link := Links.After(s.client.link, e)))
    case Capture(f, now, nowHeavy) =>
      s.(client := s.client.(ops := s.client.ops + [Buffers.Op.Add(f, now, nowHeavy)]))
  }

  ghost predicate IsRun(c: Config, steps: seq<Step>, states: seq<System>) {
    && |states| == |steps| + 1
    && forall i :: 0 <= i < |steps| ==> Enabled(states[i], steps[i]) && states[i + 1] == After(c, states[i], steps[i])
  }

  // -------------------------------------------------------------------------
  // Server side: how often and when a kill-switch is sent
  // -------------------------------------------------------------------------

  /** At most 1 + maxRetries sends, each at least the grace period after the one before. */
  predicate Paced(c: Config, e: Epoch) {
    && 1 <= |e.sentAt| <= 1 + c.maxRetries
    && forall i :: 0 < i < |e.sentAt| ==> c.grace <= e.sentAt[i] - e.sentAt[i - 1]
  }

  /** The pending record describes the latest epoch. */
  predicate ServerTied(s: System) {
    match s.server.pending
    case None => !s.server.acked
    case Some(p) =>
      && |s.epochs| > 0
      && var e := s.epochs[|s.epochs| - 1];
         && e.flagId == p.flagId
         && |e.sentAt| == 1 + p.retries && e.sentAt[p.retries] == p.sentAt
         && e.acked == s.server.acked
  }

  predicate AllPaced(c: Config, s: System) {
    forall k :: 0 <= k < |s.epochs| ==> Paced(c, s.epochs[k])
  }

  lemma {:induction false} ServerStep(c: Config, s: System, step: Step)
    requires Enabled(s, step) && ServerTied(s) && AllPaced(c, s)
    ensures ServerTied(After(c, s, step)) && AllPaced(c, After(c, s, step))
  {
    hide Received, Links.After;
  }

  // -------------------------------------------------------------------------
  // Acknowledgements: nothing on the wire that the client has not handled
  // -------------------------------------------------------------------------

  ghost predicate Handled(s: System) {
    && (forall a :: a in s.client.link.wire ==> a.flagId in s.client.handled)
    && (forall k :: 0 <= k < |s.epochs| ==> s.epochs[k].acked ==> s.epochs[k].flagId in s.client.handled)
    && (s.client.handled != {} ==> s.client.link.isTerminal)
  }

  /** The client locks only for flags that the server really sent. */
  ghost predicate Authentic(s: System) {
    && (forall m :: m in s.downlink ==> SentFor(s.epochs, m.flagId))
    && (forall f :: f in s.client.handled ==> SentFor(s.epochs, f))
  }

  predicate SentFor(es: seq<Epoch>, f: FlagId) {
    exists k :: 0 <= k < |es| && es[k].flagId == f
  }

  /** An epoch once begun keeps its place and flag, and nothing is added to it once it is
      acknowledged or another epoch has begun. */
  predicate Extends(es: seq<Epoch>, es': seq<Epoch>) {
    && |es| <= |es'|
    && forall k :: 0 <= k < |es| ==>
         && es[k].flagId == es'[k].flagId
         && (es[k].acked || k < |es| - 1 ==> es'[k] == es[k])
  }

  lemma {:induction false} EpochsStep(c: Config, s: System, step: Step)
    requires Enabled(s, step) && ServerTied(s)
    ensures Extends(s.epochs, After(c, s, step).epochs)
  {
    hide Received, Links.After;
  }

  lemma {:induction false} SentForLater(es: seq<Epoch>, es': seq<Epoch>, f: FlagId)
    requires Extends(es, es') && SentFor(es, f)
    ensures SentFor(es', f)
  {
    var k :| 0 <= k < |es| && es[k].flagId == f;
    assert es'[k].flagId == f;
  }

  lemma {:induction false} WireStep(l: Links.Link, e: Links.LinkEvent)
    requires !e.Send?
    ensures Links.After(l, e).wire == l.wire && (l.isTerminal ==> Links.After(l, e).isTerminal)
  {
  }

  lemma {:induction false} ReceivedWire(c: Client, m: KillSwitchDeliver, windowMs: int)
    ensures var c' := Received(c, m, windowMs);
      && c'.handled == c.handled + {m.flagId} && c'.link.isTerminal
      && forall a :: a in c'.link.wire ==> a in c.link.wire || a.flagId == m.flagId
  {
    hide Buffers.Kept;
  }

  lemma {:induction false} HandledStep(c: Config, s: System, step: Step)
    requires Enabled(s, step) && Handled(s) && ServerTied(s)
    ensures Handled(After(c, s, step))
  {
    hide Received, Links.After;
    match step
    case Deliver(m) => ReceivedWire(s.client, m, c.windowMs);
    case LinkStep(e) => WireStep(s.client.link, e);
    case Acknowledge(f) => assert Links.Ack(f) in s.client.link.wire;
    case _ =>
  }

  lemma {:induction false} AuthenticStep(c: Config, s: System, step: Step)
    requires Enabled(s, step) && Authentic(s) && ServerTied(s)
    ensures Authentic(After(c, s, step))
  {
    EpochsStep(c, s, step);
    hide Received, Links.After, SentFor, Extends, Resent, Acked;
    var s' := After(c, s, step);
    forall f | SentFor(s.epochs, f)
      ensures SentFor(s'.epochs, f)
    {
      SentForLater(s.epochs, s'.epochs, f);
    }
    if step.Deliver? {
      ReceivedWire(s.client, step.message, c.windowMs);
    }
    NewMessagesSent(c, s, step);
  }

  lemma {:induction false} NewMessagesSent(c: Config, s: System, step: Step)
    requires Enabled(s, step) && ServerTied(s)
    ensures forall m :: m in After(c, s, step).downlink ==> m in s.downlink || SentFor(After(c, s, step).epochs, m.flagId)
  {
    hide Received, Links.After;
    var es' := After(c, s, step).epochs;
    assert |es'| > 0 ==> SentFor(es', es'[|es'| - 1].flagId);
  }

  // -------------------------------------------------------------------------
  // Draining: once per flag, and everything drained is handed over
  // -------------------------------------------------------------------------

  /** What the drains among the calls of the buffer returned. */
  function Drains(ops: seq<Buffers.Op>, windowMs: int): seq<seq<Buffers.Entry>> {
    if |ops| == 0 then []
    else
      var front := ops[..|ops| - 1];
      Drains(front, windowMs) + (if ops[|ops| - 1].Clear? then [Buffers.Kept(front, windowMs)] else [])
  }

  /** The results returned for the first message of each flag. */
  function FirstResults(rs: seq<KillSwitchResult>): seq<KillSwitchResult> {
    if |rs| == 0 then []
    else
      var front, r := rs[..|rs| - 1], rs[|rs| - 1];
      FirstResults(front) + (if r.flagId in FlagsOf(front) then [] else [r])
  }

  function FlagsOf(rs: seq<KillSwitchResult>): set<FlagId> {
    set r | r in rs :: r.flagId
  }

  function EntriesOf(rs: seq<KillSwitchResult>): (es: seq<seq<Buffers.Entry>>)
    ensures |es| == |rs| && forall i :: 0 <= i < |rs| ==> es[i] == rs[i].bufferedEntries
  {
    seq(|rs|, i requires 0 <= i < |rs| => rs[i].bufferedEntries)
  }

  /** Repeated messages hand over nothing. */
  predicate RepeatsEmpty(rs: seq<KillSwitchResult>) {
    forall i, j :: 0 <= i < j < |rs| ==> rs[i].flagId == rs[j].flagId ==> rs[j].bufferedEntries == []
  }

  ghost predicate DrainedOnce(c: Config, s: System) {
    && s.client.handled == FlagsOf(s.client.results)
    && |FirstResults(s.client.results)| == |s.client.handled|
    && EntriesOf(FirstResults(s.client.results)) == Drains(s.client.ops, c.windowMs)
    && RepeatsEmpty(s.client.results)
  }

  lemma {:induction false} DrainsStep(ops: seq<Buffers.Op>, op: Buffers.Op, windowMs: int)
    ensures Drains(ops + [op], windowMs) ==
      Drains(ops, windowMs) + (if op.Clear? then [Buffers.Kept(ops, windowMs)] else [])
  {
    hide Buffers.Kept;
    assert (ops + [op])[..|ops|] == ops;
  }

  lemma {:induction false} ResultsStep(rs: seq<KillSwitchResult>, r: KillSwitchResult)
    ensures FlagsOf(rs + [r]) == FlagsOf(rs) + {r.flagId}
    ensures FirstResults(rs + [r]) == FirstResults(rs) + (if r.flagId in FlagsOf(rs) then [] else [r])
    ensures RepeatsEmpty(rs) && (r.flagId in FlagsOf(rs) ==> r.bufferedEntries == []) ==> RepeatsEmpty(rs + [r])
  {
    assert (rs + [r])[..|rs|] == rs;
    assert r in rs + [r];
    assert forall i :: 0 <= i < |rs| ==> rs[i] in rs;
  }

  lemma {:induction false} EntriesStep(rs: seq<KillSwitchResult>, r: KillSwitchResult)
    ensures EntriesOf(rs + [r]) == EntriesOf(rs) + [r.bufferedEntries]
  {
  }

  lemma {:induction false} DrainedStep(c: Config, s: System, step: Step)
    requires DrainedOnce(c, s)
    ensures DrainedOnce(c, After(c, s, step))
  {
    hide Links.After, FirstResults, FlagsOf, EntriesOf, RepeatsEmpty, Drains, Buffers.Kept;
    match step
    case Deliver(m) =>
      var rs := s.client.results;
      var r := Received(s.client, m, c.windowMs).results[|rs|];
      ResultsStep(rs, r);
      EntriesStep(FirstResults(rs), r);
      DrainsStep(s.client.ops, Buffers.Clear, c.windowMs);
      assert FirstResults(rs) + [] == FirstResults(rs);
    case Capture(f, now, nowHeavy) =>
      DrainsStep(s.client.ops, Buffers.Op.Add(f, now, nowHeavy), c.windowMs);
      assert Drains(s.client.ops, c.windowMs) + [] == Drains(s.client.ops, c.windowMs);
    case _ =>
  }

  // -------------------------------------------------------------------------
  // Every run
  // -------------------------------------------------------------------------

  ghost predicate Inv(c: Config, s: System) {
    ServerTied(s) && AllPaced(c, s) && Handled(s) && Authentic(s) && DrainedOnce(c, s)
  }

  lemma {:induction false} StartInv(c: Config, now: int)
    ensures Inv(c, Start(now))
  {
  }

  lemma {:induction false} RunKeepsInv(c: Config, steps: seq<Step>, states: seq<System>, i: nat)
    requires IsRun(c, steps, states) && states[0] == Start(states[0].now) && i <= |steps|
    ensures Inv(c, states[i])
    decreases i
  {
    hide ServerTied, AllPaced, Handled, Authentic, DrainedOnce, After, Enabled;
    if i == 0 {
      StartInv(c, states[0].now);
    } else {
      var s, step := states[i - 1], steps[i - 1];
      RunKeepsInv(c, steps, states, i - 1);
      ServerStep(c, s, step);
      HandledStep(c, s, step);
      AuthenticStep(c, s, step);
      DrainedStep(c, s, step);
    }
  }

  /** The server believes itself acknowledged only if the client has handled the very flag that
      is pending. */
  lemma {:induction false} AckedMeansHandled(c: Config, steps: seq<Step>, states: seq<System>, i: nat)
    requires IsRun(c, steps, states) && states[0] == Start(states[0].now) && i <= |steps|
    requires states[i].server.acked
    ensures states[i].server.pending.Some?
    ensures states[i].server.pending.value.flagId in states[i].client.handled
  {
    RunKeepsInv(c, steps, states, i);
  }

  /** Acknowledgement comes about only by an acknowledgement of the pending flag: stale ones for
      other flags change nothing. */
  lemma {:induction false} StaleAcksIgnored(c: Config, s: System, step: Step)
    requires Enabled(s, step)
    ensures After(c, s, step).server.acked && !s.server.acked ==>
      s.server.pending.Some? && step == Acknowledge(s.server.pending.value.flagId)
    ensures step.Acknowledge? && !Matches(s.server, step.flagId) ==> After(c, s, step) == s
  {
    hide Received, Links.After;
  }

  /** Each accepted kill-switch is sent at most 1 + maxRetries times, at least the grace period
      apart. */
  lemma {:induction false} SendsArePaced(c: Config, steps: seq<Step>, states: seq<System>, i: nat, k: nat)
    requires IsRun(c, steps, states) && states[0] == Start(states[0].now) && i <= |steps| && k < |states[i].epochs|
    ensures Paced(c, states[i].epochs[k])
  {
    hide Paced;
    RunKeepsInv(c, steps, states, i);
  }

  lemma {:induction false} InvTied(c: Config, s: System)
    requires Inv(c, s)
    ensures ServerTied(s)
  {
  }

  /** Once an epoch is acknowledged, or superseded by another one, it is never sent again. */
  lemma {:induction false} NoSendAfterAck(c: Config, steps: seq<Step>, states: seq<System>, i: nat, j: nat, k: nat)
    requires IsRun(c, steps, states) && states[0] == Start(states[0].now) && i <= j <= |steps|
    requires k < |states[i].epochs| && (states[i].epochs[k].acked || k < |states[i].epochs| - 1)
    ensures k < |states[j].epochs| && states[j].epochs[k] == states[i].epochs[k]
    ensures |states[i].epochs| <= |states[j].epochs|
    decreases j
  {
    if i < j {
      NoSendAfterAck(c, steps, states, i, j - 1, k);
      RunKeepsInv(c, steps, states, j - 1);
      InvTied(c, states[j - 1]);
      hide Inv, ServerTied, After, Enabled;
      EpochsStep(c, states[j - 1], steps[j - 1]);
    }
  }

  /** The buffer is drained exactly once per flag handled, everything drained is handed over with
      the first message of its flag, and repeats hand over nothing. */
  lemma {:induction false} DrainsOncePerFlag(c: Config, steps: seq<Step>, states: seq<System>, i: nat)
    requires IsRun(c, steps, states) && states[0] == Start(states[0].now) && i <= |steps|
    ensures var client := states[i].client;
      && |Drains(client.ops, c.windowMs)| == |client.handled|
      && Drains(client.ops, c.windowMs) == EntriesOf(FirstResults(client.results))
      && client.handled == FlagsOf(client.results)
      && RepeatsEmpty(client.results)
  {
    hide Handled, Authentic, ServerTied, AllPaced;
    RunKeepsInv(c, steps, states, i);
  }

  /** The client handles only flags the server sent, and from the first one on it is terminal:
      whatever happens later, it opens no further socket. */
  lemma {:induction false} HandledForGood(c: Config, steps: seq<Step>, states: seq<System>, i: nat, j: nat)
    requires IsRun(c, steps, states) && states[0] == Start(states[0].now) && i <= j <= |steps|
    requires states[i].client.handled != {}
    ensures states[j].client.link.isTerminal && states[j].client.link.sockets == states[i].client.link.sockets
    ensures states[i].client.handled <= states[j].client.handled
    ensures forall f :: f in states[j].client.handled ==> SentFor(states[j].epochs, f)
    decreases j
  {
    RunKeepsInv(c, steps, states, j);
    if i < j {
      HandledForGood(c, steps, states, i, j - 1);
      hide Inv;
      SocketsStep(c, states[j - 1], steps[j - 1]);
    }
  }

  lemma {:induction false} SocketsStep(c: Config, s: System, step: Step)
    requires s.client.link.isTerminal
    ensures After(c, s, step).client.link.isTerminal
    ensures After(c, s, step).client.link.sockets == s.client.link.sockets
    ensures s.client.handled <= After(c, s, step).client.handled
  {
    hide Buffers.Kept;
  }

  // -------------------------------------------------------------------------
  // How many kill-switches are begun, and what a reconnect leaves of them
  // -------------------------------------------------------------------------

  /** The flags for which a kill-switch was prepared, in order. */
  function PreparedFlags(steps: seq<Step>): seq<FlagId> {
    if |steps| == 0 then []
    else
      var last := steps[|steps| - 1];
      PreparedFlags(steps[..|steps| - 1]) + if last.Prepare? then [last.flagId] else []
  }

  lemma {:induction false} PreparedPrefix(steps: seq<Step>, i: nat)
    requires i <= |steps|
    ensures PreparedFlags(steps[..i]) <= PreparedFlags(steps)
    ensures forall f :: f in PreparedFlags(steps[..i]) ==> f in PreparedFlags(steps)
    decreases |steps|
  {
    if i < |steps| {
      PreparedPrefix(steps[..|steps| - 1], i);
      assert steps[..|steps| - 1][..i] == steps[..i];
    } else {
      assert steps[..i] == steps;
    }
  }

  lemma {:induction false} PreparedStep(steps: seq<Step>, i: nat)
    requires i < |steps|
    ensures PreparedFlags(steps[..i + 1]) == PreparedFlags(steps[..i]) + if steps[i].Prepare? then [steps[i].flagId] else []
  {
    assert steps[..i + 1][..i] == steps[..i];
  }

  /** With at most one prepare step in the run: as long as it has not come nothing is pending, so
      it is not refused. */
  lemma {:induction false} OnePrepare(c: Config, steps: seq<Step>, states: seq<System>, i: nat)
    requires IsRun(c, steps, states) && states[0] == Start(states[0].now) && i <= |steps|
    requires |PreparedFlags(steps)| <= 1
    ensures |states[i].epochs| == |PreparedFlags(steps[..i])| <= 1
    ensures PreparedFlags(steps[..i]) == [] ==> states[i].server.pending == None && states[i].epochs == []
    ensures i < |steps| && steps[i].Prepare? ==> PreparedFlags(steps[..i]) == []
  {
    PreparedPrefix(steps, i);
    if i < |steps| {
      PreparedStep(steps, i);
      PreparedPrefix(steps, i + 1);
    }
    if i > 0 {
      OnePrepare(c, steps, states, i - 1);
      PreparedStep(steps, i - 1);
      assert Enabled(states[i - 1], steps[i - 1]) && states[i] == After(c, states[i - 1], steps[i - 1]);
      hide IsRun, Enabled, After, PreparedFlags;
      PrepareBegins(c, states[i - 1], steps[i - 1]);
    }
  }

  lemma {:induction false} PrepareBegins(c: Config, s: System, step: Step)
    ensures var s' := After(c, s, step);
      if step.Prepare? then s.server.pending == None ==> |s'.epochs| == |s.epochs| + 1
      else |s'.epochs| == |s.epochs| && (s.server.pending == None ==> s'.server.pending == None)
  {
    hide Received, Links.After;
  }

  /** Messages are sent, and the client locks, only for prepared flags. */
  lemma {:induction false} OnlyPrepared(c: Config, steps: seq<Step>, states: seq<System>, i: nat)
    requires IsRun(c, steps, states) && states[0] == Start(states[0].now) && i <= |steps|
    ensures forall m :: m in states[i].downlink ==> m.flagId in PreparedFlags(steps[..i])
    ensures forall f :: f in states[i].client.handled ==> f in PreparedFlags(steps[..i])
  {
    RunKeepsInv(c, steps, states, i);
    EpochsPrepared(c, steps, states, i);
    hide ServerTied, AllPaced, Handled, DrainedOnce, IsRun, PreparedFlags;
  }

  lemma {:induction false} EpochsPrepared(c: Config, steps: seq<Step>, states: seq<System>, i: nat)
    requires IsRun(c, steps, states) && states[0] == Start(states[0].now) && i <= |steps|
    ensures forall f :: SentFor(states[i].epochs, f) ==> f in PreparedFlags(steps[..i])
  {
    if i > 0 {
      EpochsPrepared(c, steps, states, i - 1);
      PreparedStep(steps, i - 1);
      assert Enabled(states[i - 1], steps[i - 1]) && states[i] == After(c, states[i - 1], steps[i - 1]);
      hide IsRun, PreparedFlags;
      NewEpochs(c, states[i - 1], steps[i - 1]);
    }
  }

  lemma {:induction false} NewEpochs(c: Config, s: System, step: Step)
    requires Enabled(s, step)
    ensures forall f :: SentFor(After(c, s, step).epochs, f) ==>
      SentFor(s.epochs, f) || (step.Prepare? && f == step.flagId)
  {
    hide Received, Links.After;
    forall f | SentFor(After(c, s, step).epochs, f)
      ensures SentFor(s.epochs, f) || (step.Prepare? && f == step.flagId)
    {
      var k :| 0 <= k < |After(c, s, step).epochs| && After(c, s, step).epochs[k].flagId == f;
      assert k < |s.epochs| ==> s.epochs[k].flagId == f;
    }
  }

  lemma {:induction false} PrepareOnlyOnce(steps: seq<Step>, k: nat)
    requires |PreparedFlags(steps)| <= 1 && k < |steps| && steps[k].Prepare?
    ensures forall n :: k < n < |steps| ==> !steps[n].Prepare?
  {
    forall n | k < n < |steps|
      ensures !steps[n].Prepare?
    {
      PreparedStep(steps, k);
      assert steps[..n][..k + 1] == steps[..k + 1];
      PreparedPrefix(steps[..n], k + 1);
      PreparedStep(steps, n);
      PreparedPrefix(steps, n + 1);
    }
  }

  /** The delivery service of a new connection sends nothing until a kill-switch is prepared on it:
      what was pending on the old one is neither retried nor sent again. */
  lemma {:induction false} SilentAfterReconnect(c: Config, steps: seq<Step>, states: seq<System>, i: nat, j: nat)
    requires IsRun(c, steps, states) && i < j <= |steps| && steps[i].Reconnect?
    requires forall n :: i < n < j ==> !steps[n].Prepare?
    ensures states[j].server.pending == None
    ensures states[j].epochs == states[i].epochs && states[j].downlink == states[i].downlink
    decreases j
  {
    hide Received, Links.After;
    assert Enabled(states[j - 1], steps[j - 1]) && states[j] == After(c, states[j - 1], steps[j - 1]);
    if i < j - 1 {
      SilentAfterReconnect(c, steps, states, i, j - 1);
    }
  }
}
