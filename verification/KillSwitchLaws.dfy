/** What each step of the kill-switch protocol does, and runs in which it succeeds. */
module KillSwitchLaws {
  import opened FusionTypes
  import opened KillSwitches
  import opened KillSwitchProtocol
  import Buffers = ClientRollingBuffers
  import Links = WsClients

  // -------------------------------------------------------------------------
  // Step by step
  // -------------------------------------------------------------------------

  /** A kill-switch message that arrives, the first one or a repeated one, puts exactly one
      acknowledgement of its flag on the wire if the socket is open and nothing otherwise. The
      client turns terminal. The buffer is drained, and what it held handed over, the first time. */
  lemma {:induction false} DeliverActs(c: Config, s: System, m: KillSwitchDeliver)
    ensures var old', new' := s.client, After(c, s, Deliver(m)).client;
      && new'.link.wire == old'.link.wire + (if old'.link.ws == Some(Links.Open) then [Links.Ack(m.flagId)] else [])
      && new'.link == old'.link.(isTerminal := true, wire := new'.link.wire)
      && (forall f :: f in new'.handled <==> f in old'.handled || f == m.flagId)
      && (m.flagId in old'.handled ==>
            new'.ops == old'.ops && new'.results == old'.results + [KillSwitchResult([], m.flagId, m.reason)])
      && (m.flagId !in old'.handled ==>
            && new'.ops == old'.ops + [Buffers.Clear]
            && new'.results == old'.results + [
                 KillSwitchResult(Buffers.Kept(old'.ops, c.windowMs), m.flagId, m.reason)])
    ensures After(c, s, Deliver(m)) == s.(client := After(c, s, Deliver(m)).client)
  {
    hide Buffers.Kept;
  }

  /** Preparing is refused exactly while another kill-switch is unacknowledged; otherwise the new one
      is pending and its message sent. */
  lemma {:induction false} PrepareActs(c: Config, s: System, f: FlagId, reason: string, now: int)
    ensures var s' := After(c, s, Prepare(f, reason, now));
      if s.server.pending.Some? && !s.server.acked then s' == s.(now := now)
      else
        && s'.server.pending == Some(Pending(f, now, 0)) && !s'.server.acked
        && s'.epochs == s.epochs + [Epoch(f, [now], false)]
        && s'.downlink == s.downlink + {KillSwitchDeliver(reason, f)}
        && s'.client == s.client
  {
  }

  /** A retry is sent exactly when a kill-switch is unacknowledged, its last message is at least the
      grace period old and the budget is not used up. */
  lemma {:induction false} RetryActs(c: Config, s: System, now: int, stamp: int)
    ensures var s' := After(c, s, Retry(now, stamp));
      if s.server.pending.Some? && !s.server.acked && c.grace <= now - s.server.pending.value.sentAt
        && s.server.pending.value.retries < c.maxRetries then
        var pending := s.server.pending.value;
        && s'.server.pending == Some(Pending(pending.flagId, stamp, pending.retries + 1)) && !s'.server.acked
        && s'.downlink == s.downlink + {KillSwitchDeliver("retry", pending.flagId)}
        && (ServerTied(s) ==>
              && |s'.epochs| == |s.epochs| > 0
              && s'.epochs[|s.epochs| - 1].sentAt == s.epochs[|s.epochs| - 1].sentAt + [stamp])
      else s'.server == s.server && s'.downlink == s.downlink && s'.epochs == s.epochs
  {
  }

  /** An acknowledgement that arrives counts exactly when it names the pending flag. */
  lemma {:induction false} AcknowledgeActs(c: Config, s: System, f: FlagId)
    ensures var s' := After(c, s, Acknowledge(f));
      && (s'.server.acked <==> s.server.acked || (s.server.pending.Some? && s.server.pending.value.flagId == f))
      && s'.server.pending == s.server.pending && s'.client == s.client && s'.downlink == s.downlink
  {
  }

  // -------------------------------------------------------------------------
  // Runs that succeed
  // -------------------------------------------------------------------------

  /** Opening a connection, and its socket. */
  lemma {:induction false} OpenActs(c: Config, s: System)
    ensures var s' := After(c, s, LinkStep(Links.Connect(true)));
      !s.client.link.isTerminal ==>
        && s'.client.link.ws == Some(Links.Connecting) && !s'.client.link.isTerminal
        && s'.client.link.wire == s.client.link.wire && s'.client.handled == s.client.handled
        && s'.server == s.server && s'.downlink == s.downlink && s'.now == s.now
    ensures var s' := After(c, s, LinkStep(Links.Opened(true)));
      s.client.link.ws == Some(Links.Connecting) ==>
        && s'.client.link.ws == Some(Links.Open) && s'.client.link.wire == s.client.link.wire
        && s'.client.handled == s.client.handled
        && s'.server == s.server && s'.downlink == s.downlink && s'.now == s.now
  {
  }

  /** The states that some steps lead through. */
  function Through(c: Config, s: System, steps: seq<Step>): (states: seq<System>)
    ensures |states| == |steps| + 1 && states[0] == s
    decreases |steps|
  {
    if |steps| == 0 then [s] else [s] + Through(c, After(c, s, steps[0]), steps[1..])
  }

  /** Each step is enabled where it is taken. */
  predicate AllEnabled(c: Config, s: System, steps: seq<Step>)
    decreases |steps|
  {
    |steps| > 0 ==> Enabled(s, steps[0]) && AllEnabled(c, After(c, s, steps[0]), steps[1..])
  }

  lemma {:induction false} ThroughIsRun(c: Config, s: System, steps: seq<Step>)
    requires AllEnabled(c, s, steps)
    ensures IsRun(c, steps, Through(c, s, steps))
    decreases |steps|
  {
    hide Enabled, After;
    if |steps| > 0 {
      var s', rest := After(c, s, steps[0]), steps[1..];
      ThroughIsRun(c, s', rest);
      var states, states' := Through(c, s, steps), Through(c, s', rest);
      assert states == [s] + states';
      forall i | 0 <= i < |steps|
        ensures Enabled(states[i], steps[i]) && states[i + 1] == After(c, states[i], steps[i])
      {
        if i > 0 {
          assert steps[i] == rest[i - 1] && states[i] == states'[i - 1] && states[i + 1] == states'[i];
        }
      }
    }
  }

  lemma {:induction false} OneFurther(c: Config, s: System, step: Step, rest: seq<Step>)
    ensures Through(c, s, [step] + rest) == [s] + Through(c, After(c, s, step), rest)
    ensures AllEnabled(c, s, [step] + rest) <==> Enabled(s, step) && AllEnabled(c, After(c, s, step), rest)
  {
    hide Enabled, After;
    assert ([step] + rest)[1..] == rest;
  }

  /** The client has locked for flag 1 and the server knows. */
  predicate Settled(s: System) {
    s.server.acked && s.client.handled == {1} && s.client.link.wire == [Links.Ack(1)]
  }

  /** Deliver the message of flag 1 to an open socket, and its acknowledgement to the server. */
  lemma {:induction false} LastTwo(c: Config, s: System, m: KillSwitchDeliver)
    requires m in s.downlink && m.flagId == 1 && s.client.handled <= {1} && s.client.link.wire == []
    requires s.client.link.ws == Some(Links.Open) && s.server.pending.Some? && s.server.pending.value.flagId == 1
    ensures AllEnabled(c, s, [Deliver(m), Acknowledge(1)])
    ensures Settled(Through(c, s, [Deliver(m), Acknowledge(1)])[2])
  {
    var s1 := After(c, s, Deliver(m));
    DeliverActs(c, s, m);
    AcknowledgeActs(c, s1, 1);
    assert Enabled(s, Deliver(m)) && Enabled(s1, Acknowledge(1));
    hide After, Enabled;
    OneFurther(c, s, Deliver(m), [Acknowledge(1)]);
    OneFurther(c, s1, Acknowledge(1), []);
    assert [Deliver(m)] + [Acknowledge(1)] == [Deliver(m), Acknowledge(1)] && [Acknowledge(1)] + [] == [Acknowledge(1)];
    assert s1.client.handled == {1};
  }

  const FIRST := KillSwitchDeliver("second_person", 1)

  /** Connect, send, acknowledge: the server learns that the client has locked. */
  lemma {:induction false} AcknowledgedRun(c: Config) returns (steps: seq<Step>, states: seq<System>)
    ensures steps == [LinkStep(Links.Connect(true)), LinkStep(Links.Opened(true)), Prepare(1, "second_person", 0)] +
      [Deliver(FIRST), Acknowledge(1)]
    ensures IsRun(c, steps, states) && states[0] == Start(0) && |states| == 6 && Settled(states[5])
  {
    var connect, open, prepare := LinkStep(Links.Connect(true)), LinkStep(Links.Opened(true)), Prepare(1, "second_person", 0);
    var s0 := Start(0);
    OpenActs(c, s0);
    var s1 := After(c, s0, connect);
    OpenActs(c, s1);
    var s2 := After(c, s1, open);
    PrepareActs(c, s2, 1, "second_person", 0);
    var s3 := After(c, s2, prepare);
    assert Enabled(s0, connect) && Enabled(s1, open) && Enabled(s2, prepare);
    hide After, Enabled, AllEnabled, Through, Settled, IsRun;
    var last := [Deliver(FIRST), Acknowledge(1)];
    LastTwo(c, s3, FIRST);
    OneFurther(c, s2, prepare, last);
    OneFurther(c, s1, open, [prepare] + last);
    OneFurther(c, s0, connect, [open] + ([prepare] + last));
    steps := [connect, open, prepare] + last;
    assert steps == [connect] + ([open] + ([prepare] + last));
    states := Through(c, s0, steps);
    ThroughIsRun(c, s0, steps);
  }

  /** The first message finds the socket not open, so its acknowledgement is dropped; a retry finds it
      open and gets the acknowledgement through, although the flag has been handled before. */
  lemma {:induction false} RetriedRun(c: Config) returns (steps: seq<Step>, states: seq<System>)
    requires 0 <= c.grace && 0 < c.maxRetries
    ensures steps == [LinkStep(Links.Connect(true)), Prepare(1, "second_person", 0), Deliver(FIRST)] +
      [LinkStep(Links.Opened(true)), Retry(c.grace, c.grace)] + [Deliver(KillSwitchDeliver("retry", 1)), Acknowledge(1)]
    ensures IsRun(c, steps, states) && states[0] == Start(0) && |states| == 8
    ensures states[3].client.handled == {1} && states[3].client.link.wire == []
    ensures Settled(states[7])
  {
    var connect, prepare := LinkStep(Links.Connect(true)), Prepare(1, "second_person", 0);
    var s0 := Start(0);
    OpenActs(c, s0);
    var s1 := After(c, s0, connect);
    PrepareActs(c, s1, 1, "second_person", 0);
    var s2 := After(c, s1, prepare);
    assert Enabled(s0, connect) && Enabled(s1, prepare) && Enabled(s2, Deliver(FIRST));
    assert s2.now == 0;
    DeliverActs(c, s2, FIRST);
    var s3 := After(c, s2, Deliver(FIRST));
    hide After, Enabled, AllEnabled, Through, Settled, IsRun;
    var more := [LinkStep(Links.Opened(true)), Retry(c.grace, c.grace)];
    var last := [Deliver(KillSwitchDeliver("retry", 1)), Acknowledge(1)];
    LastFour(c, s3, more, last);
    OneFurther(c, s2, Deliver(FIRST), more + last);
    OneFurther(c, s1, prepare, [Deliver(FIRST)] + (more + last));
    OneFurther(c, s0, connect, [prepare] + ([Deliver(FIRST)] + (more + last)));
    steps := [connect, prepare, Deliver(FIRST)] + more + last;
    assert steps == [connect] + ([prepare] + ([Deliver(FIRST)] + (more + last)));
    states := Through(c, s0, steps);
    ThroughIsRun(c, s0, steps);
  }

  /** Open the socket after all, retry, and deliver the retry and its acknowledgement. */
  lemma {:induction false} LastFour(c: Config, s: System, more: seq<Step>, last: seq<Step>)
    requires 0 <= c.grace && 0 < c.maxRetries
    requires s.client.link.ws == Some(Links.Connecting) && s.client.link.wire == [] && s.client.handled == {1}
    requires s.server.pending == Some(Pending(1, 0, 0)) && !s.server.acked && s.now == 0
    requires more == [LinkStep(Links.Opened(true)), Retry(c.grace, c.grace)]
    requires last == [Deliver(KillSwitchDeliver("retry", 1)), Acknowledge(1)]
    ensures AllEnabled(c, s, more + last) && Settled(Through(c, s, more + last)[4])
  {
    var open, retry := more[0], more[1];
    OpenActs(c, s);
    var s1 := After(c, s, open);
    RetryActs(c, s1, c.grace, c.grace);
    var s2 := After(c, s1, retry);
    assert Enabled(s, open) && Enabled(s1, retry) && s2.client == s1.client;
    hide After, Enabled, AllEnabled, Through, Settled;
    LastTwo(c, s2, KillSwitchDeliver("retry", 1));
    OneFurther(c, s1, retry, last);
    OneFurther(c, s, open, [retry] + last);
    assert more + last == [open] + ([retry] + last);
  }
}
