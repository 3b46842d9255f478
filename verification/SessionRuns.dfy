/** A whole exam session: one connection after another, each with its own dispatcher, aggregator,
    worker and delivery service, over the same tables. */
module SessionRuns {
  import opened FusionTypes
  import opened Trails
  import opened Histories
  import opened Fusion
  import opened Pairing
  import opened FlagPersistence
  import opened Pipeline
  import PipelineRuns
  import Protocol = KillSwitchProtocol

  datatype Connection = Connection(policy: Policy, config: DispatcherConfig, steps: seq<Step>, states: seq<State>) {
    ghost predicate Over(t0: Tables) {
      IsRun(policy, config, t0, steps, states)
    }

    /** Where the connection ended. */
    function Last(): State
      requires |states| > 0
    {
      states[|states| - 1]
    }
  }

  /** What the connections leave in the tables. */
  function TablesAfter(cs: seq<Connection>, t0: Tables): Tables {
    if |cs| == 0 || |cs[|cs| - 1].states| == 0 then t0 else cs[|cs| - 1].Last().tables
  }

  /** Each connection is a run over the tables as the one before it left them. */
  ghost predicate IsSession(cs: seq<Connection>, t0: Tables) {
    if |cs| == 0 then t0.session.Some?
    else
      var front := cs[..|cs| - 1];
      IsSession(front, t0) && cs[|cs| - 1].Over(TablesAfter(front, t0))
  }

  /** The callbacks of all connections, in order. */
  function Fired(cs: seq<Connection>): seq<nat> {
    if |cs| == 0 then []
    else Fired(cs[..|cs| - 1]) + if |cs[|cs| - 1].states| == 0 then [] else cs[|cs| - 1].Last().fired
  }

  // -------------------------------------------------------------------------
  // The kill-switch callback, over the whole session
  // -------------------------------------------------------------------------

  lemma {:induction false} FiredInConnection(cn: Connection, t0: Tables)
    requires cn.Over(t0)
    ensures |cn.states| > 0 && cn.Last().tables.session.Some? && |cn.Last().fired| <= 1
    ensures t0.termination.Some? ==> cn.Last().tables.termination == t0.termination && cn.Last().fired == []
    ensures cn.Last().fired != [] ==>
      && cn.Last().tables.termination.Some?
      && cn.Last().tables.termination.value.triggeringFlag == cn.Last().fired[0]
  {
    RecordStands(cn.policy, cn.config, cn.steps, cn.states, t0, |cn.steps|);
    RunKeepsInv(cn.policy, cn.config, cn.steps, cn.states, t0, |cn.steps|);
  }

  lemma {:induction false} NoConnection(cs: seq<Connection>, t0: Tables)
    requires IsSession(cs, t0) && |cs| == 0
    ensures t0.session.Some? && TablesAfter(cs, t0) == t0 && Fired(cs) == []
  {
  }

  lemma {:induction false} LastConnection(cs: seq<Connection>, t0: Tables)
    requires IsSession(cs, t0) && |cs| > 0
    ensures IsSession(cs[..|cs| - 1], t0) && cs[|cs| - 1].Over(TablesAfter(cs[..|cs| - 1], t0))
  {
    hide Connection.Over;
  }

  lemma {:induction false} FiredUpTo(cs: seq<Connection>, t0: Tables)
    requires |cs| > 0 && |cs[|cs| - 1].states| > 0
    ensures TablesAfter(cs, t0) == cs[|cs| - 1].Last().tables
    ensures Fired(cs) == Fired(cs[..|cs| - 1]) + cs[|cs| - 1].Last().fired
  {
  }

  /** However often the client reconnects, the callback is invoked at most once in a session: for
      the flag that the one termination record names. */
  lemma {:induction false} FiresOncePerSession(cs: seq<Connection>, t0: Tables)
    requires IsSession(cs, t0)
    ensures |Fired(cs)| <= 1 && TablesAfter(cs, t0).session.Some?
    ensures t0.termination.Some? ==> TablesAfter(cs, t0).termination == t0.termination && Fired(cs) == []
    ensures Fired(cs) != [] ==>
      && TablesAfter(cs, t0).termination.Some?
      && TablesAfter(cs, t0).termination.value.triggeringFlag == Fired(cs)[0]
  {
    hide Connection.Over, Connection.Last, IsSession, TablesAfter, Fired;
    if |cs| == 0 {
      NoConnection(cs, t0);
    } else {
      var front, last := cs[..|cs| - 1], cs[|cs| - 1];
      LastConnection(cs, t0);
      FiresOncePerSession(front, t0);
      FiredInConnection(last, TablesAfter(front, t0));
      FiredUpTo(cs, t0);
    }
  }

  // -------------------------------------------------------------------------
  // What becomes of it on the wire
  // -------------------------------------------------------------------------

  /** The drain tasks prepare kill-switches only for callbacks of the session, in order; one whose
      connection has gone is not prepared. */
  ghost predicate Serves(steps: seq<Protocol.Step>, cs: seq<Connection>) {
    InOrder(Protocol.PreparedFlags(steps), Fired(cs))
  }

  /** Pipeline and protocol together: in a session at most one kill-switch is ever begun, no call
      to prepare one is refused, every message sent is for the flag of the termination record, and
      the client locks for no other. */
  lemma {:induction false} OneKillSwitchPerSession(
    cs: seq<Connection>, t0: Tables, c: Protocol.Config, steps: seq<Protocol.Step>, states: seq<Protocol.System>, i: nat)
    requires IsSession(cs, t0) && Serves(steps, cs)
    requires Protocol.IsRun(c, steps, states) && states[0] == Protocol.Start(states[0].now) && i <= |steps|
    ensures |states[i].epochs| <= 1
    ensures i < |steps| && steps[i].Prepare? ==> states[i].server.pending == None && states[i].epochs == []
    ensures forall m :: m in states[i].downlink ==> RecordNames(TablesAfter(cs, t0), m.flagId)
    ensures forall f :: f in states[i].client.handled ==> RecordNames(TablesAfter(cs, t0), f)
  {
    hide IsSession, Fired, TablesAfter, Serves, Protocol.IsRun, Protocol.PreparedFlags;
    FiresOncePerSession(cs, t0);
    ServedFlags(steps, cs);
    Protocol.OnePrepare(c, steps, states, i);
    Protocol.OnlyPrepared(c, steps, states, i);
    Protocol.PreparedPrefix(steps, i);
  }

  predicate RecordNames(t: Tables, flag: nat) {
    t.termination.Some? && t.termination.value.triggeringFlag == flag
  }

  lemma {:induction false} ServedFlags(steps: seq<Protocol.Step>, cs: seq<Connection>)
    requires Serves(steps, cs) && |Fired(cs)| <= 1
    ensures |Protocol.PreparedFlags(steps)| <= 1
    ensures forall f :: f in Protocol.PreparedFlags(steps) ==> Fired(cs) != [] && f == Fired(cs)[0]
  {
    hide Protocol.PreparedFlags, Fired;
    InOrderNoLonger(Protocol.PreparedFlags(steps), Fired(cs));
    InOrderDistinct(Protocol.PreparedFlags(steps), Fired(cs));
  }

  /** A kill-switch lost with its connection is never sent again: after a reconnect that follows
      it, nothing is sent in the session any more. */
  lemma {:induction false} NeverSentAgain(
    cs: seq<Connection>, t0: Tables, c: Protocol.Config, steps: seq<Protocol.Step>, states: seq<Protocol.System>,
    k: nat, i: nat, j: nat)
    requires IsSession(cs, t0) && Serves(steps, cs)
    requires Protocol.IsRun(c, steps, states) && states[0] == Protocol.Start(states[0].now)
    requires k < i < j <= |steps| && steps[k].Prepare? && steps[i].Reconnect?
    ensures states[j].epochs == states[i].epochs && states[j].downlink == states[i].downlink
    ensures states[j].server.pending == None
  {
    FiresOncePerSession(cs, t0);
    ServedFlags(steps, cs);
    Protocol.PrepareOnlyOnce(steps, k);
    Protocol.SilentAfterReconnect(c, steps, states, i, j);
  }

  // -------------------------------------------------------------------------
  // The score, over the whole session
  // -------------------------------------------------------------------------

  /** What a connection's aggregator counted, without what was lost with failed items and what was
      still queued at its end. */
  function Contributed(s: State): real {
    if |s.log| <= |s.outbox.sent| then
      s.hist.Score() - TotalDelta(Decisions(Lost(s.outbox.sent, s.log)))
        - TotalDelta(Decisions(s.outbox.sent[|s.log|..]))
    else 0.0
  }

  function AllContributed(cs: seq<Connection>): real {
    if |cs| == 0 then 0.0
    else
      AllContributed(cs[..|cs| - 1]) + if |cs[|cs| - 1].states| == 0 then 0.0 else Contributed(cs[|cs| - 1].Last())
  }

  /** The session row adds up the scores of all connections, although each aggregator starts from
      zero and compares only its own score with the threshold. */
  lemma {:induction false} SessionScore(cs: seq<Connection>, t0: Tables)
    requires IsSession(cs, t0) && forall cn :: cn in cs ==> cn.policy.NonNegativeWeights()
    ensures t0.session.Some? && TablesAfter(cs, t0).session.Some?
    ensures TablesAfter(cs, t0).session.value.accumulatedMediumScore ==
      t0.session.value.accumulatedMediumScore + AllContributed(cs)
  {
    if |cs| > 0 {
      hide Connection.Over, IsSession, TablesAfter, Contributed;
      var front, last := cs[..|cs| - 1], cs[|cs| - 1];
      LastConnection(cs, t0);
      assert last in cs;
      SessionScore(front, t0);
      ConnectionScore(last, TablesAfter(front, t0));
      FiredUpTo(cs, t0);
    }
  }

  lemma {:induction false} ConnectionScore(cn: Connection, t0: Tables)
    requires cn.Over(t0) && cn.policy.NonNegativeWeights()
    ensures t0.session.Some? && |cn.states| > 0 && cn.Last().tables.session.Some?
    ensures cn.Last().tables.session.value.accumulatedMediumScore ==
      t0.session.value.accumulatedMediumScore + Contributed(cn.Last())
  {
    hide TotalDelta, Decisions, Lost;
    ScoreAlwaysConserved(cn.policy, cn.config, cn.steps, cn.states, t0, |cn.steps|);
  }

  // -------------------------------------------------------------------------
  // Two sessions that go wrong
  // -------------------------------------------------------------------------

  /** Two scored events reach the threshold, and that terminates. */
  const PATIENT: Policy := PolicySnapshot(true, 3, 800, 300, 3, 8, 2.0, AutoTerminate, false, None, 3, 0.6, 3, map[])

  lemma {:induction false} BlurAlone(id: EventId)
    ensures BrowserDecisions(PATIENT, 0.0, BrowserEventResult(true), id) == [PipelineRuns.Scored(id).decision]
  {
  }

  lemma {:induction false} OneEmitted(o: Outbox, id: EventId, a: FlagDecision)
    requires a.contributing == [id] && id in o.buffered
    ensures Emitted(o, [a]).sent == o.sent + [PersistedFlag(a, [o.buffered[id]])]
  {
    assert [a][..0] == [];
    PipelineRuns.TakeOne(id, o.buffered);
    hide TakeEvents;
    NothingEmitted(o);
  }

  /** A connection that sees one blur, persists its flag and ends. */
  lemma {:induction false} OneBlurConnection(c: DispatcherConfig, t0: Tables, id: EventId) returns (cn: Connection)
    requires t0.session.Some? && id !in t0.telemetry
    ensures cn.policy == PATIENT && cn.Over(t0) && |cn.states| > 0
    ensures cn.Last().hist.emitted == [PipelineRuns.Scored(id).decision]
    ensures cn.Last().tables.telemetry.Keys == t0.telemetry.Keys + {id} && cn.Last().fired == []
    ensures cn.Last().tables.session ==
      Some(SessionRow(t0.session.value.accumulatedMediumScore + 1.0))
  {
    hide DispatchStep, Emitted, BrowserDecisions, PersistItem, IsRun, PipelineRuns.Scored;
    var s0, blur, persist := Start(t0), Dispatch(id, PipelineRuns.BLUR), Persist(NoFault);
    NothingRun(c, t0);
    PipelineRuns.LongerRun(PATIENT, c, t0, [], [s0], blur);
    BlurOnce(c, t0, id);
    var s1 := DispatchStep(PATIENT, c, s0, id, PipelineRuns.BLUR);
    PipelineRuns.LongerRun(PATIENT, c, t0, [] + [blur], [s0] + [s1], persist);
    PipelineRuns.PersistScored(t0, id);
    cn := Connection(PATIENT, c, [] + [blur] + [persist], [s0] + [s1] + [PersistStep(s1, NoFault)]);
  }

  lemma {:induction false} NothingRun(c: DispatcherConfig, t0: Tables)
    requires t0.session.Some?
    ensures IsRun(PATIENT, c, t0, [], [Start(t0)])
  {
  }

  lemma {:induction false} BlurOnce(c: DispatcherConfig, t0: Tables, id: EventId)
    ensures var s := DispatchStep(PATIENT, c, Start(t0), id, PipelineRuns.BLUR);
      && s.outbox.sent == [PipelineRuns.Scored(id)] && s.hist.emitted == [PipelineRuns.Scored(id).decision]
      && s.log == [] && s.tables == t0 && s.fired == []
  {
    hide DispatchStep, Emitted, BrowserDecisions;
    var o := Outbox(map[][id := TaggedEvent(id, PipelineRuns.BLUR)], []);
    PipelineRuns.BlurDispatched(PATIENT, c, Start(t0), id);
    BlurAlone(id);
    OneEmitted(o, id, PipelineRuns.Scored(id).decision);
  }

  /** The score of a session can reach the threshold unnoticed: one blur on each of two connections
      brings the row to 2.0, the threshold, and no decision of either connection terminates. */
  lemma {:induction false} ThresholdMissed(c: DispatcherConfig) returns (cs: seq<Connection>)
    ensures |cs| == 2 && IsSession(cs, PipelineRuns.NEW_SESSION)
    ensures forall cn :: cn in cs ==> |cn.states| > 0 && cn.policy == PATIENT
    ensures forall cn :: cn in cs ==> forall d :: d in cn.Last().hist.emitted ==> !d.triggeredTermination
    ensures TablesAfter(cs, PipelineRuns.NEW_SESSION).session ==
      Some(SessionRow(PATIENT.mediumScoreTerminationThreshold))
    ensures Fired(cs) == []
  {
    var t0 := PipelineRuns.NEW_SESSION;
    var first := OneBlurConnection(c, t0, 1);
    var second := OneBlurConnection(c, first.Last().tables, 2);
    cs := [first, second];
    TwoConnections(first, second, t0);
  }

  lemma {:induction false} TwoConnections(first: Connection, second: Connection, t0: Tables)
    requires t0.session.Some? && first.Over(t0) && |first.states| > 0 && |second.states| > 0
    requires second.Over(first.Last().tables)
    ensures IsSession([first, second], t0) && TablesAfter([first, second], t0) == second.Last().tables
    ensures Fired([first, second]) == first.Last().fired + second.Last().fired
  {
    hide Connection.Over;
    OneConnection(first, t0);
    assert [first, second][..1] == [first];
  }

  lemma {:induction false} OneConnection(cn: Connection, t0: Tables)
    requires t0.session.Some? && cn.Over(t0) && |cn.states| > 0
    ensures IsSession([cn], t0) && TablesAfter([cn], t0) == cn.Last().tables && Fired([cn]) == cn.Last().fired
  {
    hide Connection.Over;
    assert [cn][..0] == [];
  }

  /** A kill-switch lost with its connection: it fires for flag 1, is prepared, and the connection
      goes before the message arrives. The record stands, nothing is pending, the client has not
      locked; by NeverSentAgain that is how it stays unless the lost message still arrives. */
  lemma {:induction false} LostWithConnection(c: DispatcherConfig, p: Protocol.Config)
    returns (cs: seq<Connection>, steps: seq<Protocol.Step>, states: seq<Protocol.System>)
    ensures IsSession(cs, PipelineRuns.NEW_SESSION) && Fired(cs) == [1] && Serves(steps, cs)
    ensures RecordNames(TablesAfter(cs, PipelineRuns.NEW_SESSION), 1)
    ensures steps == [Protocol.Prepare(1, "accumulated_score", 0), Protocol.Reconnect]
    ensures Protocol.IsRun(p, steps, states) && states[0] == Protocol.Start(0)
    ensures states[2].server.pending == None && states[2].client.handled == {} && |states[2].epochs| == 1
  {
    var ps, ss := PipelineRuns.SecondRecordRejectedRun(c);
    var cn := Connection(PipelineRuns.EAGER, c, ps, ss);
    cs := [cn];
    OneConnection(cn, PipelineRuns.NEW_SESSION);
    FiresOncePerSession(cs, PipelineRuns.NEW_SESSION);
    steps := [Protocol.Prepare(1, "accumulated_score", 0), Protocol.Reconnect];
    hide IsSession, Fired, TablesAfter;
    var s0 := Protocol.Start(0);
    var s1 := Protocol.After(p, s0, steps[0]);
    states := [s0, s1, Protocol.After(p, s1, steps[1])];
    PreparedOne(steps[0], steps[1]);
    assert Picks([0], [1], Fired(cs));
  }

  lemma {:induction false} PreparedOne(a: Protocol.Step, b: Protocol.Step)
    requires a.Prepare? && b.Reconnect?
    ensures Protocol.PreparedFlags([a, b]) == [a.flagId]
  {
    assert [a, b][..1] == [a] && [a][..0] == [];
    assert Protocol.PreparedFlags([a]) == [a.flagId];
  }
}
