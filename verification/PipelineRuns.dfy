/** Runs of the pipeline in which a kill-switch is lost, refused, or fired late. */
module PipelineRuns {
  import opened FusionTypes
  import opened Histories
  import opened Fusion
  import opened Pairing
  import opened FlagPersistence
  import opened Pipeline
  import TelemetryBuffers

  /** One scored event reaches the threshold, and that terminates. */
  const EAGER: Policy := PolicySnapshot(true, 3, 800, 300, 3, 8, 1.0, AutoTerminate, false, None, 3, 0.6, 3, map[])

  /** The window loses the focus. */
  const BLUR: BufferedEvent := TelemetryBuffers.BufferedEvent(BrowserMessage(Some(BrowserEventResult(true))), 0)

  const NEW_SESSION := Tables(Some(SessionRow(0.0)), map[], [], [], None)

  /** The two items a blur puts on the queue: its own flag, which takes the event along, and the
      terminating one, which cites the same event. */
  function Scored(id: EventId): PersistedFlag {
    PersistedFlag(FlagDecision(BrowserEvent, Medium, CERTAIN, false, None, [id], 1.0), [TaggedEvent(id, BLUR)])
  }

  function Terminating(id: EventId): PersistedFlag {
    PersistedFlag(FlagDecision(AccumulatedScore, Critical, CERTAIN, true, None, [id], 0.0), [])
  }

  // -------------------------------------------------------------------------
  // Single steps
  // -------------------------------------------------------------------------

  lemma {:induction false} BlurDecisions(score: real, id: EventId)
    requires 0.0 <= score
    ensures BrowserDecisions(EAGER, score, BrowserEventResult(true), id) == [Scored(id).decision, Terminating(id).decision]
  {
  }

  lemma {:induction false} PairEmitted(o: Outbox, id: EventId, a: FlagDecision, b: FlagDecision)
    requires a.contributing == b.contributing == [id] && id in o.buffered
    ensures Emitted(o, [a, b]) == Outbox(o.buffered - {id}, o.sent +
      [PersistedFlag(a, [o.buffered[id]]), PersistedFlag(b, [])])
  {
    assert [a, b][..1] == [a] && [a][..0] == [];
    assert IdSet([id]) == {id};
    TakeOne(id, o.buffered);
    TakeOne(id, o.buffered - {id});
    hide TakeEvents;
    assert Emitted(o, [a]) == EmittedOne(o, a);
  }

  lemma {:induction false} TakeOne(id: EventId, m: map<EventId, TaggedEvent>)
    ensures TakeEvents([id], m) == if id in m then [m[id]] else []
  {
    assert [id][..0] == [];
  }

  lemma {:induction false} PairTotal(a: FlagDecision, b: FlagDecision)
    ensures TotalDelta([a, b]) == a.scoreDelta + b.scoreDelta
  {
    assert [a, b][..1] == [a] && [a][..0] == [];
    assert TotalDelta([a]) == TotalDelta([]) + a.scoreDelta;
  }

  /** Dispatching a blur, under any policy. */
  lemma {:induction false} BlurDispatched(p: Policy, c: DispatcherConfig, s: State, id: EventId)
    ensures var s', ds := DispatchStep(p, c, s, id, BLUR), BrowserDecisions(p, s.hist.Score(), BrowserEventResult(true), id);
      && s'.hist.emitted == s.hist.emitted + ds
      && s'.outbox == Emitted(s.outbox.(buffered := s.outbox.buffered[id := TaggedEvent(id, BLUR)]), ds)
      && s'.minted == s.minted + {id} && s'.log == s.log && s'.tables == s.tables && s'.fired == s.fired
  {
    hide Emitted, TotalDelta, BrowserDecisions;
    var h, ds := s.hist, BrowserDecisions(p, s.hist.Score(), BrowserEventResult(true), id);
    assert Dispatched(p, c, h, BLUR.message, id).emitted == h.emitted + ds;
    assert (h.emitted + ds)[|h.emitted|..] == ds;
  }

  lemma {:induction false} DispatchBlur(c: DispatcherConfig, s: State, id: EventId)
    requires 0.0 <= s.hist.Score()
    ensures var s' := DispatchStep(EAGER, c, s, id, BLUR);
      && s'.outbox.sent == s.outbox.sent + [Scored(id), Terminating(id)]
      && s'.minted == s.minted + {id} && s'.log == s.log && s'.tables == s.tables && s'.fired == s.fired
      && 0.0 <= s'.hist.Score()
  {
    hide Emitted, TotalDelta, BrowserDecisions, DispatchStep;
    var a, b := Scored(id).decision, Terminating(id).decision;
    BlurDecisions(s.hist.Score(), id);
    BlurDispatched(EAGER, c, s, id);
    PairEmitted(s.outbox.(buffered := s.outbox.buffered[id := TaggedEvent(id, BLUR)]), id, a, b);
    PairTotal(a, b);
    TotalDeltaConcat(s.hist.emitted, [a, b]);
  }

  lemma {:induction false} OneEvent(t: map<EventId, TaggedEvent>, e: TaggedEvent)
    ensures WithEvents(t, [e]).Keys == t.Keys + {e.id}
    ensures WithEvents(t, []) == t
  {
    assert [e][..0] == [];
  }

  /** The flag of a blur is stored with its event. */
  lemma {:induction false} PersistScored(t: Tables, id: EventId)
    requires t.session.Some?
    ensures var (t', outcome) := PersistItem(t, Scored(id), NoFault);
      && outcome == Stored && t'.termination == t.termination
      && t'.session == Some(SessionRow(t.session.value.accumulatedMediumScore + 1.0))
      && |t'.flags| == |t.flags| + 1 && t'.telemetry.Keys == t.telemetry.Keys + {id}
  {
    hide WithEvents;
    OneEvent(t.telemetry, TaggedEvent(id, BLUR));
  }

  /** The terminating one is committed if the event's row is there, and fails without a trace if not. */
  lemma {:induction false} PersistTerminating(t: Tables, id: EventId, fault: Fault)
    requires t.session.Some? && fault != AtFlagCommit
    ensures var (t', outcome) := PersistItem(t, Terminating(id), fault);
      if id in t.telemetry then
        && t'.session.Some? && |t'.flags| == |t.flags| + 1 && t'.telemetry == t.telemetry
        && (outcome == if t.termination.Some? then RecordRejected else RecordOutcome(fault))
        && (t'.termination.Some? <==> t.termination.Some? || fault != AtRecordCommit)
      else t' == t && outcome == Failed
  {
    hide WithEvents;
    OneEvent(t.telemetry, TaggedEvent(id, BLUR));
  }

  /** The outcome of a terminating item without a record before it. */
  function RecordOutcome(fault: Fault): Outcome {
    match fault
    case NoFault => Terminated
    case AtFlagCommit => Failed
    case AtRecordCommit => RecordFailed
    case AfterRecordCommit => Unfired
  }

  // -------------------------------------------------------------------------
  // Runs, step by step
  // -------------------------------------------------------------------------

  lemma {:induction false} LongerRun(
    p: Policy, c: DispatcherConfig, t0: Tables, steps: seq<Step>, states: seq<State>, step: Step)
    requires IsRun(p, c, t0, steps, states) && Enabled(states[|steps|], step)
    ensures IsRun(p, c, t0, steps + [step], states + [After(p, c, states[|steps|], step)])
  {
    hide Enabled, After, Start;
    var steps', states' := steps + [step], states + [After(p, c, states[|steps|], step)];
    forall i | 0 <= i < |steps'|
      ensures Enabled(states'[i], steps'[i]) && states'[i + 1] == After(p, c, states'[i], steps'[i])
    {
      assert i < |steps| ==> steps'[i] == steps[i] && states'[i] == states[i] && states'[i + 1] == states[i + 1];
    }
  }

  lemma {:induction false} EmptyRun(p: Policy, c: DispatcherConfig)
    ensures IsRun(p, c, NEW_SESSION, [], [Start(NEW_SESSION)])
    ensures Start(NEW_SESSION).hist.Score() == 0.0
  {
  }

  /** Persist steps under a list of faults, and the outcomes in a log. */
  function Persists(faults: seq<Fault>): (steps: seq<Step>)
    ensures |steps| == |faults|
  {
    seq(|faults|, i requires 0 <= i < |faults| => Persist(faults[i]))
  }

  /** Each state is what persisting under the next fault makes of the one before. */
  predicate IsTrace(trace: seq<State>, faults: seq<Fault>) {
    && |trace| == |faults| + 1
    && forall k :: 0 <= k < |faults| ==>
         |trace[k].log| < |trace[k].outbox.sent| && trace[k + 1] == PersistStep(trace[k], faults[k])
  }

  lemma {:induction false} PersistsRun(
    c: DispatcherConfig, steps: seq<Step>, states: seq<State>, faults: seq<Fault>, trace: seq<State>)
    requires IsRun(EAGER, c, NEW_SESSION, steps, states) && |states| == |steps| + 1
    requires IsTrace(trace, faults) && trace[0] == states[|steps|]
    ensures IsRun(EAGER, c, NEW_SESSION, steps + Persists(faults), states + trace[1..])
    decreases |faults|
  {
    hide PersistStep, IsRun;
    if |faults| == 0 {
      assert steps + Persists(faults) == steps && states + trace[1..] == states;
    } else {
      var n := |faults| - 1;
      PersistsRun(c, steps, states, faults[..n], trace[..n + 1]);
      var steps', states' := steps + Persists(faults[..n]), states + trace[..n + 1][1..];
      assert states'[|steps'|] == trace[n];
      LongerRun(EAGER, c, NEW_SESSION, steps', states', Persist(faults[n]));
      assert steps' + [Persist(faults[n])] == steps + Persists(faults);
      assert states' + [trace[n + 1]] == states + trace[1..];
    }
  }

  function Outcomes(log: seq<Attempt>): (outcomes: seq<Outcome>)
    ensures |outcomes| == |log|
  {
    seq(|log|, i requires 0 <= i < |log| => log[i].outcome)
  }

  /** One blur: both items are queued, nothing is persisted yet. */
  lemma {:induction false} OneBlur(c: DispatcherConfig) returns (s: State)
    ensures IsRun(EAGER, c, NEW_SESSION, [Dispatch(1, BLUR)], [Start(NEW_SESSION), s])
    ensures s.outbox.sent == [Scored(1), Terminating(1)] && s.minted == {1} && 0.0 <= s.hist.Score()
    ensures s.log == [] && s.tables == NEW_SESSION && s.fired == []
  {
    EmptyRun(EAGER, c);
    hide DispatchStep;
    var s0 := Start(NEW_SESSION);
    LongerRun(EAGER, c, NEW_SESSION, [], [s0], Dispatch(1, BLUR));
    DispatchBlur(c, s0, 1);
    s := After(EAGER, c, s0, Dispatch(1, BLUR));
    assert [] + [Dispatch(1, BLUR)] == [Dispatch(1, BLUR)] && [s0] + [s] == [s0, s];
  }

  /** Two blurs: four items are queued. */
  lemma {:induction false} TwoBlurs(c: DispatcherConfig) returns (steps: seq<Step>, states: seq<State>)
    ensures steps == [Dispatch(1, BLUR), Dispatch(2, BLUR)] && |states| == 3
    ensures IsRun(EAGER, c, NEW_SESSION, steps, states)
    ensures states[2].outbox.sent == [Scored(1), Terminating(1), Scored(2), Terminating(2)]
    ensures states[2].log == [] && states[2].tables == NEW_SESSION && states[2].fired == []
  {
    var s := OneBlur(c);
    hide DispatchStep, IsRun;
    LongerRun(EAGER, c, NEW_SESSION, [Dispatch(1, BLUR)], [Start(NEW_SESSION), s], Dispatch(2, BLUR));
    DispatchBlur(c, s, 2);
    var s' := After(EAGER, c, s, Dispatch(2, BLUR));
    steps, states := [Dispatch(1, BLUR)] + [Dispatch(2, BLUR)], [Start(NEW_SESSION), s] + [s'];
    assert [Scored(1), Terminating(1)] + [Scored(2), Terminating(2)]
      == [Scored(1), Terminating(1), Scored(2), Terminating(2)];
  }

  /** A failed flag commit loses the kill-switch: the blur's own flag is lost with its event, and
      so the terminating one, which cites it, fails although its own commit would go through. */
  lemma {:induction false} LostKillSwitchRun(c: DispatcherConfig) returns (steps: seq<Step>, states: seq<State>)
    ensures steps == [Dispatch(1, BLUR)] + Persists([AtFlagCommit, NoFault])
    ensures IsRun(EAGER, c, NEW_SESSION, steps, states) && |states| == 4
    ensures states[3].outbox.sent == [Scored(1), Terminating(1)] && Outcomes(states[3].log) == [Failed, Failed]
    ensures states[3].tables == NEW_SESSION && states[3].fired == []
  {
    hide IsRun, PersistStep, Outcomes, Persists, Scored, Terminating;
    var s1 := OneBlur(c);
    steps, states := [Dispatch(1, BLUR)], [Start(NEW_SESSION), s1];
    var s2, s3 := TwoFailed(s1);
    var faults, trace := [AtFlagCommit, NoFault], [s1, s2, s3];
    PersistsRun(c, steps, states, faults, trace);
    steps, states := steps + Persists(faults), states + trace[1..];
  }

  lemma {:induction false} TwoFailed(s1: State) returns (s2: State, s3: State)
    requires s1.outbox.sent == [Scored(1), Terminating(1)]
    requires s1.log == [] && s1.tables == NEW_SESSION && s1.fired == []
    ensures s2 == PersistStep(s1, AtFlagCommit) && s2.outbox == s1.outbox && |s2.log| == 1
    ensures s3 == PersistStep(s2, NoFault) && s3.outbox == s1.outbox
    ensures Outcomes(s3.log) == [Failed, Failed] && s3.tables == NEW_SESSION && s3.fired == []
  {
    hide Linkable, WithEvents;
    s2 := PersistStep(s1, AtFlagCommit);
    s3 := PersistStep(s2, NoFault);
    PersistTerminating(NEW_SESSION, 1, NoFault);
  }

  /** Two blurs and four persist steps; the faults meet the two terminating items. */
  lemma {:induction false} TwoKillSwitches(c: DispatcherConfig, first: Fault, second: Fault)
    returns (steps: seq<Step>, states: seq<State>)
    requires first != AtFlagCommit && second != AtFlagCommit
    ensures steps == [Dispatch(1, BLUR), Dispatch(2, BLUR)] + Persists([NoFault, first, NoFault, second])
    ensures IsRun(EAGER, c, NEW_SESSION, steps, states) && |states| == 7
    ensures Outcomes(states[6].log) == [Stored, RecordOutcome(first), Stored,
      if first == AtRecordCommit then RecordOutcome(second) else RecordRejected]
    ensures states[6].fired ==
      if first == NoFault then [1] else if first == AtRecordCommit && second == NoFault then [3] else []
  {
    hide IsRun, PersistStep, Persists, Scored, Terminating;
    steps, states := TwoBlurs(c);
    var s3, s4 := TwoPersisted(states[2], 1, first);
    var s5, s6 := TwoPersisted(s4, 2, second);
    var faults, trace := [NoFault, first, NoFault, second], [states[2], s3, s4, s5, s6];
    PersistsRun(c, steps, states, faults, trace);
    steps, states := steps + Persists(faults), states + trace[1..];
  }

  lemma {:induction false} OutcomesStep(s: State, fault: Fault)
    requires |s.log| < |s.outbox.sent|
    ensures var s' := PersistStep(s, fault);
      && s'.outbox == s.outbox && |s'.log| == |s.log| + 1
      && Outcomes(s'.log) == Outcomes(s.log) + [PersistItem(s.tables, s.outbox.sent[|s.log|], fault).1]
  {
    hide PersistItem;
  }

  lemma {:induction false} TwoPersisted(s: State, id: EventId, fault: Fault) returns (s1: State, s2: State)
    requires fault != AtFlagCommit && s.tables.session.Some?
    requires |s.log| + 1 < |s.outbox.sent|
    requires s.outbox.sent[|s.log|] == Scored(id) && s.outbox.sent[|s.log| + 1] == Terminating(id)
    ensures s1 == PersistStep(s, NoFault) && s1.outbox == s.outbox && |s1.log| == |s.log| + 1
    ensures s2 == PersistStep(s1, fault) && s2.outbox == s.outbox && |s2.log| == |s.log| + 2
    ensures var outcome := if s.tables.termination.Some? then RecordRejected else RecordOutcome(fault);
      && Outcomes(s2.log) == Outcomes(s.log) + [Stored, outcome]
      && s2.fired == s.fired + if outcome == Terminated then [|s.tables.flags| + 1] else []
    ensures s2.tables.session.Some? && |s2.tables.flags| == |s.tables.flags| + 2
    ensures s2.tables.termination.Some? <==> s.tables.termination.Some? || fault != AtRecordCommit
  {
    hide PersistItem, Scored, Terminating, Outcomes;
    s1 := PersistStep(s, NoFault);
    OutcomesStep(s, NoFault);
    PersistScored(s.tables, id);
    s2 := PersistStep(s1, fault);
    OutcomesStep(s1, fault);
    PersistTerminating(s1.tables, id, fault);
  }

  /** The second terminating item of a session is committed as a flag, its record is refused. */
  lemma {:induction false} SecondRecordRejectedRun(c: DispatcherConfig) returns (steps: seq<Step>, states: seq<State>)
    ensures steps == [Dispatch(1, BLUR), Dispatch(2, BLUR)] + Persists([NoFault, NoFault, NoFault, NoFault])
    ensures IsRun(EAGER, c, NEW_SESSION, steps, states) && |states| == 7
    ensures Outcomes(states[6].log) == [Stored, Terminated, Stored, RecordRejected] && states[6].fired == [1]
  {
    steps, states := TwoKillSwitches(c, NoFault, NoFault);
  }

  /** If the first record's commit fails, the second terminating item fires. */
  lemma {:induction false} SecondFlagFiresRun(c: DispatcherConfig) returns (steps: seq<Step>, states: seq<State>)
    ensures steps == [Dispatch(1, BLUR), Dispatch(2, BLUR)] + Persists([NoFault, AtRecordCommit, NoFault, NoFault])
    ensures IsRun(EAGER, c, NEW_SESSION, steps, states) && |states| == 7
    ensures Outcomes(states[6].log) == [Stored, RecordFailed, Stored, Terminated] && states[6].fired == [3]
  {
    steps, states := TwoKillSwitches(c, AtRecordCommit, NoFault);
  }

  /** If the first record cannot be read back after its commit, nothing fires, then or later. */
  lemma {:induction false} NeverFiresRun(c: DispatcherConfig) returns (steps: seq<Step>, states: seq<State>)
    ensures steps == [Dispatch(1, BLUR), Dispatch(2, BLUR)] + Persists([NoFault, AfterRecordCommit, NoFault, NoFault])
    ensures IsRun(EAGER, c, NEW_SESSION, steps, states) && |states| == 7
    ensures Outcomes(states[6].log) == [Stored, Unfired, Stored, RecordRejected] && states[6].fired == []
  {
    steps, states := TwoKillSwitches(c, AfterRecordCommit, NoFault);
  }
}
