/** What a run of the pipeline leaves in the tables, column by column, and whom it terminates. */
module RunLaws {
  import opened FusionTypes
  import opened Trails
  import opened Histories
  import opened Fusion
  import opened FusionRuns
  import opened Pairing
  import opened FlagPersistence
  import opened Pipeline
  import opened AggregatorLaws
  import opened DispatchLaws

  // -------------------------------------------------------------------------
  // The columns of a flag, its links, its events and its credit
  // -------------------------------------------------------------------------

  /** Committing an item, column by column: a flag row with the decision's rule, severity,
      confidence, termination bit and exemption; one link for each cited id, by position; the events
      it brings, each as it was buffered; and a positive delta added to the score. Older rows stay. */
  lemma {:induction false} ItemColumns(t: Tables, item: PersistedFlag, fault: Fault)
    requires PersistItem(t, item, fault).1 != Dropped && PersistItem(t, item, fault).1 != Failed
    requires forall i, j :: 0 <= i < j < |item.events| ==> item.events[i].id != item.events[j].id
    ensures var t', d := PersistItem(t, item, fault).0, item.decision;
      && |t'.flags| == |t.flags| + 1 && t'.flags[..|t.flags|] == t.flags
      && var row := t'.flags[|t.flags|];
         && row.ruleCode == d.ruleCode && row.severity == d.severity && row.confidence == d.confidence
         && row.triggeredTermination == d.triggeredTermination && row.suppressedBy == d.suppressedBy
    ensures var t', d := PersistItem(t, item, fault).0, item.decision;
      && |t'.links| == |t.links| + |d.contributing| && t'.links[..|t.links|] == t.links
      && forall k :: 0 <= k < |d.contributing| ==>
           var link := t'.links[|t.links| + k];
           link.flag == |t.flags| && link.event == d.contributing[k] && link.position == k
    ensures var t' := PersistItem(t, item, fault).0;
      && (forall id :: id in t.telemetry ==> id in t'.telemetry && t'.telemetry[id] == t.telemetry[id])
      && (forall e :: e in item.events && e.id !in t.telemetry ==> e.id in t'.telemetry && t'.telemetry[e.id] == e)
      && (forall id :: id in t'.telemetry ==> id in t.telemetry || t'.telemetry[id] in item.events)
    ensures var t', d := PersistItem(t, item, fault).0, item.decision;
      && t.session.Some? && t'.session.Some?
      && t'.session.value.accumulatedMediumScore == t.session.value.accumulatedMediumScore +
           if d.scoreDelta > 0.0 then d.scoreDelta else 0.0
  {
    hide WithEvents;
    EventsStored(t.telemetry, item.events);
  }

  lemma {:induction false} EventsStored(t: map<EventId, TaggedEvent>, es: seq<TaggedEvent>)
    requires forall i, j :: 0 <= i < j < |es| ==> es[i].id != es[j].id
    ensures var t' := WithEvents(t, es);
      && (forall id :: id in t ==> id in t' && t'[id] == t[id])
      && (forall e :: e in es && e.id !in t ==> e.id in t' && t'[e.id] == e)
      && (forall id :: id in t' ==> id in t || t'[id] in es)
  {
    if |es| > 0 {
      var front, last := es[..|es| - 1], es[|es| - 1];
      EventsStored(t, front);
      NewTagged(t, front);
      hide WithEvents;
      OneEventMore(t, front, last);
      LastIsNew(es);
      assert es == front + [last];
    }
  }

  lemma {:induction false} LastIsNew(es: seq<TaggedEvent>)
    requires |es| > 0 && forall i, j :: 0 <= i < j < |es| ==> es[i].id != es[j].id
    ensures forall e :: e in es[..|es| - 1] ==> e.id != es[|es| - 1].id
  {
    var front := es[..|es| - 1];
    forall e | e in front
      ensures e.id != es[|es| - 1].id
    {
      var i :| 0 <= i < |front| && front[i] == e;
      assert es[i] == e;
    }
  }

  lemma {:induction false} OneEventMore(t: map<EventId, TaggedEvent>, es: seq<TaggedEvent>, e: TaggedEvent)
    ensures var t' := WithEvents(t, es); WithEvents(t, es + [e]) == if e.id in t' then t' else t'[e.id := e]
  {
    assert (es + [e])[..|es|] == es;
  }

  /** What becomes of an item, case by case. */
  lemma {:induction false} ItemOutcome(t: Tables, item: PersistedFlag, fault: Fault)
    ensures var (t', outcome) := PersistItem(t, item, fault);
      var terminating, record := item.decision.triggeredTermination, t.termination;
      && (outcome == Dropped <==> t.session == None)
      && (outcome == Dropped || outcome == Failed ==> t' == t)
      && (outcome == Stored ==> !terminating)
      && (outcome == RecordRejected ==> terminating && record.Some?)
      && (outcome == RecordFailed ==> terminating && record == None && fault == AtRecordCommit)
      && (outcome == Unfired ==> terminating && record == None && fault == AfterRecordCommit)
      && (outcome == Terminated ==> terminating && record == None && fault != AtRecordCommit && fault != AfterRecordCommit)
      && (if outcome == Unfired || outcome == Terminated then
            && t'.termination.Some? && t'.termination.value.triggeringFlag == |t.flags|
            && t'.termination.value.reason == item.decision.ruleCode
          else t'.termination == t.termination)
  {
    hide WithEvents, Linkable, LinkRows, Credit;
  }

  /** In every run, a persist step that commits its item adds exactly this to the tables, and one
      that does not adds nothing. */
  lemma {:induction false} CommittedColumns(
    p: Policy, c: DispatcherConfig, steps: seq<Step>, states: seq<State>, t0: Tables, i: nat)
    requires IsRun(p, c, t0, steps, states) && i < |steps| && steps[i].Persist?
    ensures |states[i].log| < |states[i].outbox.sent|
    ensures var t, t', d := states[i].tables, states[i + 1].tables, states[i].outbox.sent[|states[i].log|].decision;
      if |t'.flags| == |t.flags| then t' == t
      else
        && |t'.flags| == |t.flags| + 1 && t'.flags[..|t.flags|] == t.flags
        && t'.flags[|t.flags|].ruleCode == d.ruleCode
        && t'.flags[|t.flags|].severity == d.severity
        && t'.flags[|t.flags|].confidence == d.confidence
        && t'.flags[|t.flags|].triggeredTermination == d.triggeredTermination
        && t'.flags[|t.flags|].suppressedBy == d.suppressedBy
        && t.session.Some? && t'.session.Some?
        && t'.session.value.accumulatedMediumScore == t.session.value.accumulatedMediumScore +
             if d.scoreDelta > 0.0 then d.scoreDelta else 0.0
  {
    assert Enabled(states[i], steps[i]) && states[i + 1] == After(p, c, states[i], steps[i]);
    RunKeepsInv(p, c, steps, states, t0, i);
    hide IsRun, After, Inv;
    StepColumns(states[i], steps[i].fault, t0);
  }

  lemma {:induction false} StepColumns(s: State, fault: Fault, t0: Tables)
    requires Inv(s, t0) && |s.log| < |s.outbox.sent|
    ensures var t, t', item := s.tables, PersistStep(s, fault).tables, s.outbox.sent[|s.log|];
      && t' == PersistItem(t, item, fault).0
      && (forall i, j :: 0 <= i < j < |item.events| ==> item.events[i].id != item.events[j].id)
      && if PersistStep(s, fault).log[|s.log|].Committed() then
           && |t'.flags| == |t.flags| + 1 && t'.flags[..|t.flags|] == t.flags
           && t'.flags[|t.flags|].ruleCode == item.decision.ruleCode
           && t'.flags[|t.flags|].severity == item.decision.severity
           && t'.flags[|t.flags|].confidence == item.decision.confidence
           && t'.flags[|t.flags|].triggeredTermination == item.decision.triggeredTermination
           && t'.flags[|t.flags|].suppressedBy == item.decision.suppressedBy
           && t.session.Some? && t'.session.Some?
           && t'.session.value.accumulatedMediumScore == t.session.value.accumulatedMediumScore +
                if item.decision.scoreDelta > 0.0 then item.decision.scoreDelta else 0.0
         else t' == t
  {
    NewRows(s, t0);
    hide Inv, PersistItem;
    var item := s.outbox.sent[|s.log|];
    forall i, j | 0 <= i < j < |item.events|
      ensures item.events[i].id != item.events[j].id
    {
      assert EventIdsOf(item.events)[i] != EventIdsOf(item.events)[j];
    }
    ItemOutcome(s.tables, item, fault);
    if PersistStep(s, fault).log[|s.log|].Committed() {
      ItemColumns(s.tables, item, fault);
    }
  }

  // -------------------------------------------------------------------------
  // The row a termination record names
  // -------------------------------------------------------------------------

  /** A record this connection wrote names a terminating flag, with its rule as the reason. */
  predicate RecordSound(t: Tables, t0: Tables) {
    t0.termination == None && t.termination.Some? ==>
      var record := t.termination.value;
      && record.triggeringFlag < |t.flags|
      && t.flags[record.triggeringFlag].triggeredTermination
      && t.flags[record.triggeringFlag].ruleCode == record.reason
  }

  /** In every state of every run: the flag that a termination record of this connection names is
      committed and terminating, and its rule is the reason recorded. */
  lemma {:induction false} RecordNamesTerminatingFlag(
    p: Policy, c: DispatcherConfig, steps: seq<Step>, states: seq<State>, t0: Tables, i: nat)
    requires IsRun(p, c, t0, steps, states) && i <= |steps|
    ensures RecordSound(states[i].tables, t0)
    decreases i
  {
    if i > 0 {
      RecordNamesTerminatingFlag(p, c, steps, states, t0, i - 1);
      assert Enabled(states[i - 1], steps[i - 1]) && states[i] == After(p, c, states[i - 1], steps[i - 1]);
      RunKeepsInv(p, c, steps, states, t0, i - 1);
      hide IsRun, Inv, PersistItem, RecordSound, Dispatched, Emitted;
      var s := states[i - 1];
      match steps[i - 1]
      case Dispatch(_, _) =>
      case Persist(fault) =>
        StepColumns(s, fault, t0);
        RecordStep(s.tables, s.outbox.sent[|s.log|], fault, t0);
    }
  }

  lemma {:induction false} RecordStep(t: Tables, item: PersistedFlag, fault: Fault, t0: Tables)
    requires RecordSound(t, t0)
    requires forall i, j :: 0 <= i < j < |item.events| ==> item.events[i].id != item.events[j].id
    ensures RecordSound(PersistItem(t, item, fault).0, t0)
  {
    hide PersistItem;
    ItemOutcome(t, item, fault);
    var (t', outcome) := PersistItem(t, item, fault);
    if outcome != Dropped && outcome != Failed {
      ItemColumns(t, item, fault);
      assert forall k :: 0 <= k < |t.flags| ==> t'.flags[k] == t'.flags[..|t.flags|][k];
    }
  }

  // -------------------------------------------------------------------------
  // Every telemetry row is a dispatched event
  // -------------------------------------------------------------------------

  /** The event was dispatched under its id in one of the first i steps. */
  predicate WasDispatched(steps: seq<Step>, i: nat, e: TaggedEvent)
    requires i <= |steps|
  {
    exists k :: 0 <= k < i && steps[k] == Dispatch(e.id, e.event)
  }

  /** Everything in the map and on the queue was dispatched. */
  ghost predicate BoxTraced(o: Outbox, steps: seq<Step>, i: nat)
    requires i <= |steps|
  {
    && (forall id :: id in o.buffered ==> WasDispatched(steps, i, o.buffered[id]))
    && (forall item, e :: item in o.sent && e in item.events ==> WasDispatched(steps, i, e))
  }

  ghost predicate EventsTraced(s: State, steps: seq<Step>, i: nat, t0: Tables)
    requires i <= |steps|
  {
    && BoxTraced(s.outbox, steps, i)
    && (forall id :: id in s.tables.telemetry && id !in t0.telemetry ==>
          s.tables.telemetry[id].id == id && WasDispatched(steps, i, s.tables.telemetry[id]))
  }

  lemma {:induction false} TakenFrom(ids: seq<EventId>, m: map<EventId, TaggedEvent>)
    ensures forall e :: e in TakeEvents(ids, m) ==> exists id :: id in m && m[id] == e
  {
    if |ids| > 0 {
      TakenFrom(ids[..|ids| - 1], m);
    }
  }

  /** Emitting only moves events from the map to the queue. */
  lemma {:induction false} EmittedTraced(o: Outbox, ds: seq<FlagDecision>, steps: seq<Step>, i: nat)
    requires i <= |steps| && BoxTraced(o, steps, i)
    ensures BoxTraced(Emitted(o, ds), steps, i)
  {
    hide WasDispatched, TakeEvents;
    if |ds| > 0 {
      var front, last := ds[..|ds| - 1], ds[|ds| - 1];
      EmittedTraced(o, front, steps, i);
      TakenFrom(last.contributing, Emitted(o, front).buffered);
    }
  }

  lemma {:induction false} TracedLater(s: State, steps: seq<Step>, i: nat, t0: Tables)
    requires i < |steps| && EventsTraced(s, steps, i, t0)
    ensures EventsTraced(s, steps, i + 1, t0)
  {
    hide WasDispatched;
    var o, t := s.outbox, s.tables.telemetry;
    forall id | id in o.buffered
      ensures WasDispatched(steps, i + 1, o.buffered[id])
    {
      DispatchedLater(steps, i, o.buffered[id]);
    }
    forall item, e | item in o.sent && e in item.events
      ensures WasDispatched(steps, i + 1, e)
    {
      DispatchedLater(steps, i, e);
    }
    forall id | id in t && id !in t0.telemetry
      ensures WasDispatched(steps, i + 1, t[id])
    {
      DispatchedLater(steps, i, t[id]);
    }
  }

  lemma {:induction false} DispatchedLater(steps: seq<Step>, i: nat, e: TaggedEvent)
    requires i < |steps| && WasDispatched(steps, i, e)
    ensures WasDispatched(steps, i + 1, e)
  {
  }

  lemma {:induction false} DispatchTraced(
    p: Policy, c: DispatcherConfig, s: State, steps: seq<Step>, i: nat, t0: Tables)
    requires i < |steps| && steps[i].Dispatch? && EventsTraced(s, steps, i + 1, t0)
    ensures EventsTraced(DispatchStep(p, c, s, steps[i].id, steps[i].event), steps, i + 1, t0)
  {
    var e := TaggedEvent(steps[i].id, steps[i].event);
    assert WasDispatched(steps, i + 1, e);
    hide WasDispatched, Dispatched, Emitted;
    var h := Dispatched(p, c, s.hist, steps[i].event.message, steps[i].id);
    var ds := if |s.hist.emitted| <= |h.emitted| then h.emitted[|s.hist.emitted|..] else [];
    EmittedTraced(s.outbox.(buffered := s.outbox.buffered[e.id := e]), ds, steps, i + 1);
  }

  lemma {:induction false} PersistTraced(s: State, fault: Fault, steps: seq<Step>, i: nat, t0: Tables)
    requires i <= |steps| && Inv(s, t0) && |s.log| < |s.outbox.sent| && EventsTraced(s, steps, i, t0)
    ensures EventsTraced(PersistStep(s, fault), steps, i, t0)
  {
    StepColumns(s, fault, t0);
    hide WasDispatched, PersistItem, Inv;
    var item := s.outbox.sent[|s.log|];
    var (t', outcome) := PersistItem(s.tables, item, fault);
    ItemOutcome(s.tables, item, fault);
    if outcome != Dropped && outcome != Failed {
      ItemColumns(s.tables, item, fault);
      RowsTagged(s, fault, t0);
    }
  }

  lemma {:induction false} RowsTagged(s: State, fault: Fault, t0: Tables)
    requires Inv(s, t0) && |s.log| < |s.outbox.sent|
    ensures var t' := PersistItem(s.tables, s.outbox.sent[|s.log|], fault).0;
      forall id :: id in t'.telemetry && id !in s.tables.telemetry ==> t'.telemetry[id].id == id
  {
    hide Inv, Linkable, LinkRows, Credit;
    NewTagged(s.tables.telemetry, s.outbox.sent[|s.log|].events);
  }

  lemma {:induction false} NewTagged(t: map<EventId, TaggedEvent>, es: seq<TaggedEvent>)
    ensures forall id :: id in WithEvents(t, es) && id !in t ==> WithEvents(t, es)[id].id == id
  {
    if |es| > 0 {
      NewTagged(t, es[..|es| - 1]);
    }
  }

  /** In every state of every run: each telemetry row this connection wrote is an event that was
      dispatched, under the id it was given then. */
  lemma {:induction false} RowsAreDispatchedEvents(
    p: Policy, c: DispatcherConfig, steps: seq<Step>, states: seq<State>, t0: Tables, i: nat)
    requires IsRun(p, c, t0, steps, states) && i <= |steps|
    ensures EventsTraced(states[i], steps, i, t0)
    decreases i
  {
    if i > 0 {
      RowsAreDispatchedEvents(p, c, steps, states, t0, i - 1);
      assert Enabled(states[i - 1], steps[i - 1]) && states[i] == After(p, c, states[i - 1], steps[i - 1]);
      RunKeepsInv(p, c, steps, states, t0, i - 1);
      hide IsRun, Inv, After, Enabled, EventsTraced;
      StepTraced(p, c, states[i - 1], steps, i - 1, t0);
    }
  }

  lemma {:induction false} StepTraced(p: Policy, c: DispatcherConfig, s: State, steps: seq<Step>, i: nat, t0: Tables)
    requires i < |steps| && Enabled(s, steps[i]) && Inv(s, t0) && EventsTraced(s, steps, i, t0)
    ensures EventsTraced(After(p, c, s, steps[i]), steps, i + 1, t0)
  {
    hide Inv, PersistStep, DispatchStep, EventsTraced;
    TracedLater(s, steps, i, t0);
    match steps[i]
    case Dispatch(_, _) => DispatchTraced(p, c, s, steps, i, t0);
    case Persist(fault) => PersistTraced(s, fault, steps, i + 1, t0);
  }

  // -------------------------------------------------------------------------
  // Who is terminated
  // -------------------------------------------------------------------------

  /** A decision terminates only by second person, identity, gaze or liveness, or by the accumulated
      score under a policy that terminates on it. */
  predicate TerminatesLawfully(p: Policy, d: FlagDecision) {
    d.triggeredTermination ==>
      || d.ruleCode in {SecondPerson, IdentityMismatch, GazeAwayFrequency, LivenessCheckFailed}
      || (d.ruleCode == AccumulatedScore && p.mediumScoreAction == AutoTerminate)
  }

  lemma {:induction false} ReturnedLawfully(p: Policy, h: History, input: Input)
    ensures forall d :: d in Returned(p, h, input) ==> TerminatesLawfully(p, d)
  {
    hide Returned, MediumFlag;
    var ds := Returned(p, h, input);
    ReturnsTwoAtMost(p, h, input);
    AccumulatedActs(p, h, input);
    forall d | d in ds
      ensures TerminatesLawfully(p, d)
    {
      var i :| 0 <= i < |ds| && ds[i] == d;
      if i > 0 {
        assert d == ds[1..][i - 1];
      } else if input.ObjectInput? || input.BrowserInput? || input.AudioInput? {
        SinglesContinue(p, h, input);
      }
    }
  }

  lemma {:induction false} SinglesContinue(p: Policy, h: History, input: Input)
    requires input.ObjectInput? || input.BrowserInput? || input.AudioInput?
    ensures var ds := Returned(p, h, input); |ds| > 0 ==> !ds[0].triggeredTermination
  {
    hide TotalDelta;
  }

  lemma {:induction false} FedLawfully(p: Policy, h: History, inputs: seq<Input>)
    ensures forall d :: d in AllReturned(p, h, inputs) ==> TerminatesLawfully(p, d)
  {
    hide Returned, FedAll, TerminatesLawfully;
    if |inputs| > 0 {
      var front := inputs[..|inputs| - 1];
      FedLawfully(p, h, front);
      ReturnedLawfully(p, FedAll(p, h, front), inputs[|inputs| - 1]);
    }
  }

  lemma {:induction false} EmittedLawfully(
    p: Policy, c: DispatcherConfig, steps: seq<Step>, states: seq<State>, t0: Tables, i: nat)
    requires IsRun(p, c, t0, steps, states) && i <= |steps|
    ensures forall d :: d in states[i].hist.emitted ==> TerminatesLawfully(p, d)
    decreases i
  {
    if i > 0 {
      EmittedLawfully(p, c, steps, states, t0, i - 1);
      assert Enabled(states[i - 1], steps[i - 1]) && states[i] == After(p, c, states[i - 1], steps[i - 1]);
      hide IsRun, PersistItem, Dispatched, Emitted, TerminatesLawfully;
      var s := states[i - 1];
      match steps[i - 1]
      case Dispatch(id, event) =>
        var inputs := MessageInputs(p, c, s.hist, event.message, id);
        FedAllAppends(p, s.hist, inputs);
        FedLawfully(p, s.hist, inputs);
      case Persist(_) =>
    }
  }

  /** Under FLAG_FOR_REVIEW the score terminates nobody: a run without a terminating second-person,
      identity, gaze or liveness decision fires no kill-switch and writes no termination record,
      however high the score. */
  lemma {:induction false} ReviewKeepsSessionLive(
    p: Policy, c: DispatcherConfig, steps: seq<Step>, states: seq<State>, t0: Tables, i: nat)
    requires IsRun(p, c, t0, steps, states) && i <= |steps| && p.mediumScoreAction == FlagForReview
    requires forall d :: d in states[i].hist.emitted && d.triggeredTermination ==>
      d.ruleCode !in {SecondPerson, IdentityMismatch, GazeAwayFrequency, LivenessCheckFailed}
    ensures states[i].fired == [] && states[i].tables.termination == t0.termination
  {
    EmittedLawfully(p, c, steps, states, t0, i);
    RunKeepsInv(p, c, steps, states, t0, i);
    RecordStands(p, c, steps, states, t0, i);
    var s := states[i];
    hide IsRun, Sound, Whole, TablesHold, TerminationHolds, Kept, Decisions;
    DecisionsAt(s.outbox.sent);
    forall k | 0 <= k < |s.log|
      ensures !Recordable(s.outbox.sent[k], s.log[k])
    {
      assert Decisions(s.outbox.sent)[k] in s.hist.emitted;
    }
  }

  // -------------------------------------------------------------------------
  // Second person, from the messages to the queue
  // -------------------------------------------------------------------------

  /** The face results of the light messages dispatched, in order. */
  function LightCalls(steps: seq<Step>): seq<Call<FacePresenceResult>> {
    if |steps| == 0 then []
    else
      var last := steps[|steps| - 1];
      LightCalls(steps[..|steps| - 1]) +
      (if last.Dispatch? && last.event.message.Light? then
         var m := last.event.message;
         [Call(FacePresenceResult(m.faceCount, ConfidenceInterval(m.confidence, m.confidence, m.confidence)), last.id)]
       else [])
  }

  lemma {:induction false} FaceCallsConcat(a: seq<Input>, b: seq<Input>)
    ensures FaceCalls(a + b) == FaceCalls(a) + FaceCalls(b)
    decreases |b|
  {
    if |b| == 0 {
      assert a + b == a;
    } else {
      assert (a + b)[..|a + b| - 1] == a + b[..|b| - 1];
      FaceCallsConcat(a, b[..|b| - 1]);
    }
  }

  lemma {:induction false} AfterConcat(p: Policy, a: seq<Input>, b: seq<Input>)
    ensures AfterInputs(p, a + b) == FedAll(p, AfterInputs(p, a), b)
    decreases |b|
  {
    hide Fed;
    if |b| == 0 {
      assert a + b == a;
    } else {
      assert (a + b)[..|a + b| - 1] == a + b[..|b| - 1];
      AfterConcat(p, a, b[..|b| - 1]);
    }
  }

  /** The aggregator of a connection is fed what the dispatched messages say. */
  lemma {:induction false} RunInputs(
    p: Policy, c: DispatcherConfig, steps: seq<Step>, states: seq<State>, t0: Tables, i: nat) returns (inputs: seq<Input>)
    requires IsRun(p, c, t0, steps, states) && i <= |steps|
    ensures states[i].hist == AfterInputs(p, inputs) && FaceCalls(inputs) == LightCalls(steps[..i])
    decreases i
  {
    if i == 0 {
      inputs := [];
    } else {
      var s := states[i - 1];
      assert Enabled(s, steps[i - 1]) && states[i] == After(p, c, s, steps[i - 1]);
      inputs := RunInputs(p, c, steps, states, t0, i - 1);
      assert steps[..i][..i - 1] == steps[..i - 1];
      hide IsRun, PersistItem, Dispatched, Emitted, AfterInputs, FaceCalls;
      match steps[i - 1] {
        case Dispatch(id, event) =>
          var more := MessageInputs(p, c, s.hist, event.message, id);
          AfterConcat(p, inputs, more);
          FaceCallsConcat(inputs, more);
          inputs := inputs + more;
        case Persist(_) =>
      }
    }
  }

  /** From end to end: in any run of a connection, whatever else is dispatched, exactly one
      second-person decision is queued if the policy asks for it and some k consecutive light
      messages count two faces or more: at the first such k, terminating, with the confidence of
      the last of them and citing exactly them. Otherwise none is. */
  lemma {:induction false} SecondPersonByMessages(
    p: Policy, c: DispatcherConfig, steps: seq<Step>, states: seq<State>, t0: Tables, i: nat, n: nat)
    requires IsRun(p, c, t0, steps, states) && i <= |steps|
    ensures var calls, k := LightCalls(steps[..i]), p.secondFaceConfirmationFrames;
      p.terminateOnSecondFace && SeveralFaces(calls, k, n) && (forall m: nat :: m < n ==> !SeveralFaces(calls, k, m)) ==>
        Of(Decisions(states[i].outbox.sent), {SecondPerson}) == [FlagDecision(
          SecondPerson, Critical, calls[n - 1].result.confidence, true, None, CallIds(calls[n - k..n]), 0.0)]
    ensures var calls, k := LightCalls(steps[..i]), p.secondFaceConfirmationFrames;
      !p.terminateOnSecondFace || (forall m: nat :: m <= |calls| ==> !SeveralFaces(calls, k, m)) ==>
        Of(Decisions(states[i].outbox.sent), {SecondPerson}) == []
  {
    var inputs := RunInputs(p, c, steps, states, t0, i);
    RunKeepsInv(p, c, steps, states, t0, i);
    AllQueued(states[i], t0);
    hide IsRun, Inv, Of, AfterInputs, LightCalls, FaceCalls, Decisions, SeveralFaces;
    SecondPersonLaw(p, inputs, n);
  }

  lemma {:induction false} AllQueued(s: State, t0: Tables)
    requires Inv(s, t0)
    ensures Decisions(s.outbox.sent) == s.hist.emitted
  {
  }
}
