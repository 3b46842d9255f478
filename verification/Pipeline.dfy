/** The whole pipeline as a transition system: dispatching a buffered event and persisting the
    oldest queued item, in any interleaving, where any persist step may fail. */
module Pipeline {
  import opened FusionTypes
  import opened Trails
  import opened Histories
  import opened Fusion
  import opened Pairing
  import opened FlagPersistence

  /** What became of one item the worker took. */
  datatype Attempt = Attempt(fault: Fault, outcome: Outcome) {
    /** Its flag, links, events and credit are in the tables. */
    predicate Committed() {
      outcome != Dropped && outcome != Failed
    }
  }

  /** log: one attempt for each item the worker has taken, oldest first. fired: the flags for
      which the kill-switch callback was invoked. */
  datatype State = State(
    hist: History,
    minted: set<EventId>,
    outbox: Outbox,
    log: seq<Attempt>,
    tables: Tables,
    fired: seq<nat>
  )

  /** A persist step may fail at any of its faults. */
  datatype Step = Dispatch(id: EventId, event: BufferedEvent) | Persist(fault: Fault)

  /** A new connection: dispatcher, aggregator and worker start anew, over the tables as earlier
      connections of the session left them. */
  /** A new connection: dispatcher, aggregator and worker start anew, over the tables as earlier
      connections of the session left them. */
  function Start(t0: Tables): State {
    State(NO_HISTORY, {}, Outbox(map[], []), [], t0, [])
  }

  /** A fresh id is minted for every dispatched event; the worker waits on an empty queue. */
  predicate Enabled(s: State, step: Step) {
    match step
    case Dispatch(id, _) => id !in s.minted && id !in s.tables.telemetry
    case Persist(_) => |s.log| < |s.outbox.sent|
  }

  ghost function DispatchStep(p: Policy, c: DispatcherConfig, s: State, id: EventId, event: BufferedEvent): State {
    var h := Dispatched(p, c, s.hist, event.message, id);
    var fresh' := if |s.hist.emitted| <= |h.emitted| then h.emitted[|s.hist.emitted|..] else [];
    var outbox := s.outbox.(buffered := s.outbox.buffered[id := TaggedEvent(id, event)]);
    s.(hist := h, minted := s.minted + {id}, outbox := Emitted(outbox, fresh'))
  }

  function PersistStep(s: State, fault: Fault): State
    requires |s.log| < |s.outbox.sent|
  {
    var (t, outcome) := PersistItem(s.tables, s.outbox.sent[|s.log|], fault);
    s.(log := s.log + [Attempt(fault, outcome)], tables := t,
       fired := if outcome == Terminated then s.fired + [|s.tables.flags|] else s.fired)
  }

  ghost function After(p: Policy, c: DispatcherConfig, s: State, step: Step): State
    requires Enabled(s, step)
  {
    match step
    case Dispatch(id, event) => DispatchStep(p, c, s, id, event)
    case Persist(fault) => PersistStep(s, fault)
  }

  /** The states of a run over the tables of an existing session: each step is enabled where it is
      taken. */
  ghost predicate IsRun(p: Policy, c: DispatcherConfig, t0: Tables, steps: seq<Step>, states: seq<State>) {
    && t0.session.Some?
    && |states| == |steps| + 1 && states[0] == Start(t0)
    && forall i :: 0 <= i < |steps| ==> Enabled(states[i], steps[i]) && states[i + 1] == After(p, c, states[i], steps[i])
  }

  // -------------------------------------------------------------------------
  // What is in the tables, as a function of the items committed
  // -------------------------------------------------------------------------

  /** The items that were committed, and the ones that were lost, oldest first. */
  function Kept(items: seq<PersistedFlag>, log: seq<Attempt>): (kept: seq<PersistedFlag>)
    requires |log| <= |items|
    ensures |kept| <= |log|
  {
    if |log| == 0 then []
    else
      var n := |log| - 1;
      Kept(items, log[..n]) + (if log[n].Committed() then [items[n]] else [])
  }

  function Lost(items: seq<PersistedFlag>, log: seq<Attempt>): seq<PersistedFlag>
    requires |log| <= |items|
  {
    if |log| == 0 then []
    else
      var n := |log| - 1;
      Lost(items, log[..n]) + (if log[n].Committed() then [] else [items[n]])
  }

  /** The sum of the positive deltas: what persistence credits to the session. */
  function Credited(ds: seq<FlagDecision>): real {
    if |ds| == 0 then 0.0
    else Credited(ds[..|ds| - 1]) + (if ds[|ds| - 1].scoreDelta > 0.0 then ds[|ds| - 1].scoreDelta else 0.0)
  }

  /** The links of a list of items: each decision's cited ids, in order and by position. The flags
      are numbered from base on. */
  function AllLinks(items: seq<PersistedFlag>, base: nat): seq<Link> {
    if |items| == 0 then []
    else
      var n := |items| - 1;
      AllLinks(items[..n], base) + LinkRows(base + n, items[n].decision.contributing)
  }

  function AllFlags(items: seq<PersistedFlag>): seq<FlagRow> {
    if |items| == 0 then [] else AllFlags(items[..|items| - 1]) + [FlagRowOf(items[|items| - 1].decision)]
  }

  function Credits(r: SessionRow, ds: seq<FlagDecision>): SessionRow {
    SessionRow(r.accumulatedMediumScore + Credited(ds))
  }

  /** What the items committed have added to the tables the connection started with. */
  ghost predicate TablesHold(t: Tables, kept: seq<PersistedFlag>, t0: Tables) {
    && t0.session.Some? && t.session == Some(Credits(t0.session.value, Decisions(kept)))
    && (Tagged(t0.telemetry) ==> Tagged(t.telemetry))
    && t.telemetry.Keys == t0.telemetry.Keys + IdSet(PairedIds(kept))
    && (forall id :: id in t0.telemetry ==> t.telemetry[id] == t0.telemetry[id])
    && t.flags == t0.flags + AllFlags(kept)
    && |AllFlags(kept)| == |kept|
    && t.links == t0.links + AllLinks(kept, |t0.flags|)
  }

  // -------------------------------------------------------------------------
  // Termination
  // -------------------------------------------------------------------------

  /** The attempt's flag and termination record can both be committed. */
  predicate Recordable(item: PersistedFlag, a: Attempt) {
    a.Committed() && item.decision.triggeredTermination && a.fault != AtRecordCommit
  }

  /** The n-th item taken is the first one whose flag and record can both be committed. */
  predicate FirstRecorded(items: seq<PersistedFlag>, log: seq<Attempt>, n: nat)
    requires n < |log| <= |items|
  {
    && Recordable(items[n], log[n])
    && forall k :: 0 <= k < n ==> !Recordable(items[k], log[k])
  }

  /** The record is that of the n-th item, and the callback was invoked for it unless the record
      could not be read back. */
  predicate RecordedAt(
    items: seq<PersistedFlag>, log: seq<Attempt>, base: nat, record: TerminationRow, fired: seq<nat>, n: nat)
    requires n < |log| <= |items|
  {
    && FirstRecorded(items, log, n)
    && record == TerminationRow(base + |Kept(items, log[..n])|, items[n].decision.ruleCode)
    && fired == if log[n].fault == AfterRecordCommit then [] else [record.triggeringFlag]
  }

  /** A record that was there at the start stays and nothing fires. Otherwise there is one as soon
      as an item is recordable, that of the first such item, and only it can have fired. */
  predicate TerminationHolds(items: seq<PersistedFlag>, log: seq<Attempt>, t: Tables, fired: seq<nat>, t0: Tables)
    requires |log| <= |items|
  {
    if t0.termination.Some? then t.termination == t0.termination && fired == []
    else if t.termination == None then
      fired == [] && forall k :: 0 <= k < |log| ==> !Recordable(items[k], log[k])
    else exists n :: 0 <= n < |log| && RecordedAt(items, log, |t0.flags|, t.termination.value, fired, n)
  }

  ghost predicate Inv(s: State, t0: Tables) {
    && Sound(s.hist, s.minted)
    && Whole(s.minted, s.outbox)
    && (forall id :: id in t0.telemetry ==> id !in s.minted)
    && Decisions(s.outbox.sent) == s.hist.emitted
    && |s.log| <= |s.outbox.sent|
    && TablesHold(s.tables, Kept(s.outbox.sent, s.log), t0)
    && TerminationHolds(s.outbox.sent, s.log, s.tables, s.fired, t0)
  }

  lemma {:induction false} NothingHeld(t0: Tables)
    requires t0.session.Some?
    ensures TablesHold(t0, [], t0)
  {
    assert t0.flags + AllFlags([]) == t0.flags && t0.links + AllLinks([], |t0.flags|) == t0.links;
    assert IdSet(PairedIds([])) == {} && t0.telemetry.Keys + {} == t0.telemetry.Keys;
  }

  lemma {:induction false} NothingQueued()
    ensures Sound(NO_HISTORY, {}) && Whole({}, Outbox(map[], []))
    ensures Decisions([]) == NO_HISTORY.emitted && Kept([], []) == []
  {
  }

  lemma {:induction false} StartInv(t0: Tables)
    requires t0.session.Some?
    ensures Inv(Start(t0), t0)
  {
    hide Sound, Whole, TablesHold, Decisions, Kept;
    NothingHeld(t0);
    NothingQueued();
  }

  // -------------------------------------------------------------------------
  // Dispatching
  // -------------------------------------------------------------------------

  /** Items put on the queue later do not change what became of the earlier ones. */
  lemma {:induction false} KeptOfMore(items: seq<PersistedFlag>, items': seq<PersistedFlag>, log: seq<Attempt>)
    requires |log| <= |items| && items <= items'
    ensures Kept(items', log) == Kept(items, log)
  {
    if |log| > 0 {
      KeptOfMore(items, items', log[..|log| - 1]);
      assert items'[|log| - 1] == items[|log| - 1];
    }
  }

  lemma {:induction false} TerminationOfMore(
    items: seq<PersistedFlag>, items': seq<PersistedFlag>, log: seq<Attempt>, t: Tables, fired: seq<nat>, t0: Tables)
    requires |log| <= |items| && items <= items' && TerminationHolds(items, log, t, fired, t0)
    ensures TerminationHolds(items', log, t, fired, t0)
  {
    hide Recordable, Kept;
    assert forall k :: 0 <= k < |log| ==> items'[k] == items[k];
    if t0.termination == None && t.termination.Some? {
      var n :| 0 <= n < |log| && RecordedAt(items, log, |t0.flags|, t.termination.value, fired, n);
      KeptOfMore(items, items', log[..n]);
      assert RecordedAt(items', log, |t0.flags|, t.termination.value, fired, n);
    }
  }

  lemma {:induction false} EmittedFresh(h: History, minted: set<EventId>, n: nat)
    requires Sound(h, minted) && n <= |h.emitted|
    ensures forall d :: d in h.emitted[n..] ==> Fresh(d.contributing, minted)
  {
    assert forall d :: d in h.emitted[n..] ==> d in h.emitted;
  }

  lemma {:induction false} EarlierRowsStay(t: Tables, kept: seq<PersistedFlag>, t0: Tables)
    requires TablesHold(t, kept, t0)
    ensures forall id :: id in t0.telemetry ==> id in t.telemetry
  {
  }

  lemma {:induction false} DispatchKeepsInv(
    p: Policy, c: DispatcherConfig, s: State, id: EventId, event: BufferedEvent, t0: Tables)
    requires Inv(s, t0) && id !in s.minted && id !in s.tables.telemetry
    ensures Inv(DispatchStep(p, c, s, id, event), t0)
  {
    hide Sound, Whole, TablesHold, TerminationHolds, Emitted, Decisions, Dispatched, Fresh, Kept;
    EarlierRowsStay(s.tables, Kept(s.outbox.sent, s.log), t0);
    var minted := s.minted + {id};
    var h := Dispatched(p, c, s.hist, event.message, id);
    DispatchKeepsSound(p, c, s.hist, event.message, id, s.minted);
    var ds := h.emitted[|s.hist.emitted|..];
    var outbox := s.outbox.(buffered := s.outbox.buffered[id := TaggedEvent(id, event)]);
    MintKeepsWhole(s.minted, s.outbox, TaggedEvent(id, event));
    EmittedFresh(h, minted, |s.hist.emitted|);
    EmitKeepsWhole(minted, outbox, ds);
    EmitAppends(outbox, ds);
    EmitExtends(outbox, ds);
    KeptOfMore(s.outbox.sent, Emitted(outbox, ds).sent, s.log);
    TerminationOfMore(s.outbox.sent, Emitted(outbox, ds).sent, s.log, s.tables, s.fired, t0);
  }

  // -------------------------------------------------------------------------
  // Which item brings which event
  // -------------------------------------------------------------------------

  /** The k-th item took the event along when it was queued. */
  predicate Brings(items: seq<PersistedFlag>, k: nat, id: EventId)
    requires k < |items|
  {
    id in EventIdsOf(items[k].events)
  }

  lemma {:induction false} PairedByOne(items: seq<PersistedFlag>, id: EventId)
    ensures id in PairedIds(items) <==> exists k :: 0 <= k < |items| && Brings(items, k, id)
  {
    if |items| > 0 {
      var front, n := items[..|items| - 1], |items| - 1;
      PairedByOne(front, id);
      assert forall k :: 0 <= k < n ==> (Brings(items, k, id) <==> Brings(front, k, id));
      assert id in EventIdsOf(items[n].events) <==> Brings(items, n, id);
    }
  }

  lemma {:induction false} DistinctParts<T>(a: seq<T>, b: seq<T>)
    requires Distinct(a + b)
    ensures Distinct(a) && Distinct(b) && forall x :: x in b ==> x !in a
  {
    forall i, j | 0 <= i < |a| && 0 <= j < |b|
      ensures a[i] != b[j]
    {
      assert (a + b)[i] == a[i] && (a + b)[|a| + j] == b[j];
    }
    assert forall i :: 0 <= i < |b| ==> (a + b)[|a| + i] == b[i];
    assert forall i :: 0 <= i < |a| ==> (a + b)[i] == a[i];
  }

  /** No event is taken along by two items. */
  lemma {:induction false} BroughtOnce(items: seq<PersistedFlag>, i: nat, j: nat, id: EventId)
    requires Distinct(PairedIds(items)) && i < |items| && j < |items|
    requires Brings(items, i, id) && Brings(items, j, id)
    ensures i == j
    decreases |items|
  {
    hide EventIdsOf;
    var front, n := items[..|items| - 1], |items| - 1;
    DistinctParts(PairedIds(front), EventIdsOf(items[n].events));
    assert forall k :: 0 <= k < n ==> (Brings(items, k, id) <==> Brings(front, k, id));
    if i < n && j < n {
      BroughtOnce(front, i, j, id);
    } else {
      PairedByOne(front, id);
    }
  }

  lemma {:induction false} EventsDistinct(items: seq<PersistedFlag>, k: nat)
    requires Distinct(PairedIds(items)) && k < |items|
    ensures Distinct(EventIdsOf(items[k].events))
    decreases |items|
  {
    hide EventIdsOf;
    var front, n := items[..|items| - 1], |items| - 1;
    DistinctParts(PairedIds(front), EventIdsOf(items[n].events));
    if k < n {
      EventsDistinct(front, k);
      assert front[k] == items[k];
    }
  }

  /** An id has a telemetry row exactly when an item that was committed took its event along. */
  lemma {:induction false} KeptBrings(items: seq<PersistedFlag>, log: seq<Attempt>, id: EventId)
    requires |log| <= |items|
    ensures id in PairedIds(Kept(items, log)) <==>
      exists k :: 0 <= k < |log| && log[k].Committed() && Brings(items, k, id)
  {
    if |log| > 0 {
      hide Kept, PairedIds, Brings;
      var front, a := log[..|log| - 1], log[|log| - 1];
      KeptBrings(items, front, id);
      KeptBringsStep(items, front, a, id);
      FrontAndLast(log);
    }
  }

  lemma {:induction false} KeptBringsStep(items: seq<PersistedFlag>, log: seq<Attempt>, a: Attempt, id: EventId)
    requires |log| < |items|
    requires id in PairedIds(Kept(items, log)) <==>
      exists k :: 0 <= k < |log| && log[k].Committed() && Brings(items, k, id)
    ensures id in PairedIds(Kept(items, log + [a])) <==>
      exists k :: 0 <= k <= |log| && (log + [a])[k].Committed() && Brings(items, k, id)
  {
    hide Kept, PairedIds, Attempt.Committed;
    var n, log' := |log|, log + [a];
    KeptStep(items, log, a);
    PairedStep(Kept(items, log), items[n]);
    assert Kept(items, log) + [] == Kept(items, log);
    assert id in EventIdsOf(items[n].events) <==> Brings(items, n, id);
    assert log'[n] == a && forall k :: 0 <= k < n ==> log'[k] == log[k];
    if k :| 0 <= k < n && log[k].Committed() && Brings(items, k, id) {
      assert log'[k].Committed() && Brings(items, k, id);
    }
  }

  // -------------------------------------------------------------------------
  // Exactly when an item is committed
  // -------------------------------------------------------------------------

  /** The id comes with the n-th item, or came with an earlier one that was committed. */
  predicate Available(items: seq<PersistedFlag>, log: seq<Attempt>, n: nat, id: EventId)
    requires |log| == n < |items|
  {
    Brings(items, n, id) || exists k :: 0 <= k < n && log[k].Committed() && Brings(items, k, id)
  }

  /** The event of the id went along with an earlier item that was lost. */
  predicate LostWith(items: seq<PersistedFlag>, log: seq<Attempt>, id: EventId)
    requires |log| <= |items|
  {
    exists k :: 0 <= k < |log| && !log[k].Committed() && Brings(items, k, id)
  }

  /** An event some item took along was minted in this connection. */
  lemma {:induction false} BroughtIsNew(s: State, t0: Tables, k: nat, id: EventId)
    requires Inv(s, t0) && k < |s.outbox.sent| && Brings(s.outbox.sent, k, id)
    ensures id in PairedIds(s.outbox.sent) && id !in t0.telemetry
  {
    hide Sound, TablesHold, TerminationHolds, PairedIds, Brings;
    PairedByOne(s.outbox.sent, id);
  }

  lemma {:induction false} CitedIsBrought(s: State, t0: Tables, n: nat, id: EventId)
    requires Inv(s, t0) && n < |s.outbox.sent| && id in s.outbox.sent[n].decision.contributing
    ensures exists k :: 0 <= k <= n && Brings(s.outbox.sent, k, id)
    ensures id !in t0.telemetry
  {
    hide Sound, TablesHold, TerminationHolds, PairedIds, Brings;
    var items := s.outbox.sent;
    assert Covered(items, n);
    PairedByOne(items[..n + 1], id);
    var k :| 0 <= k < n + 1 && Brings(items[..n + 1], k, id);
    BringsPrefix(items, n + 1, k, id);
    BroughtIsNew(s, t0, k, id);
  }

  lemma {:induction false} AvailableInTables(s: State, t0: Tables, id: EventId)
    requires Inv(s, t0) && |s.log| < |s.outbox.sent|
    requires id !in t0.telemetry
    ensures var item := s.outbox.sent[|s.log|];
      id in WithEvents(s.tables.telemetry, item.events) <==> Available(s.outbox.sent, s.log, |s.log|, id)
  {
    hide Sound, Whole, TerminationHolds, Kept, PairedIds, EventIdsOf;
    var item := s.outbox.sent[|s.log|];
    WithEventsKeys(s.tables.telemetry, item.events);
    KeptBrings(s.outbox.sent, s.log, id);
    assert id in EventIdsOf(item.events) <==> Brings(s.outbox.sent, |s.log|, id);
  }

  /** A cited id is available unless its event was lost with an earlier item: emission has taken
      the event along with this item or an earlier one, and with no other. */
  lemma {:induction false} AvailableUnlessLost(s: State, t0: Tables, id: EventId)
    requires Inv(s, t0) && |s.log| < |s.outbox.sent|
    requires id in s.outbox.sent[|s.log|].decision.contributing
    ensures Available(s.outbox.sent, s.log, |s.log|, id) <==> !LostWith(s.outbox.sent, s.log, id)
  {
    hide Sound, TablesHold, TerminationHolds, PairedIds, Brings;
    var items, n := s.outbox.sent, |s.log|;
    CitedIsBrought(s, t0, n, id);
    var k :| 0 <= k <= n && Brings(items, k, id);
    forall j | 0 <= j <= n && Brings(items, j, id)
      ensures j == k
    {
      BroughtOnce(items, j, k, id);
    }
  }

  lemma {:induction false} BringsPrefix(items: seq<PersistedFlag>, n: nat, k: nat, id: EventId)
    requires k < n <= |items|
    ensures Brings(items[..n], k, id) <==> Brings(items, k, id)
  {
  }

  /** In every reachable state, the next item is committed exactly when its own commit does not
      fail and every id it cites comes with it or came with an earlier committed item; in other
      words, when none of the events it cites was lost with an earlier item. */
  lemma {:induction false} CommitsWhen(s: State, fault: Fault, t0: Tables)
    requires Inv(s, t0) && |s.log| < |s.outbox.sent|
    ensures var item, n := s.outbox.sent[|s.log|], |s.log|;
      && (PersistStep(s, fault).log[n].Committed() <==>
            && fault != AtFlagCommit
            && forall id :: id in item.decision.contributing ==> Available(s.outbox.sent, s.log, n, id))
      && (PersistStep(s, fault).log[n].Committed() <==>
            && fault != AtFlagCommit
            && forall id :: id in item.decision.contributing ==> !LostWith(s.outbox.sent, s.log, id))
  {
    hide Available, LostWith, WithEvents, TerminationHolds, Sound;
    var item, n := s.outbox.sent[|s.log|], |s.log|;
    forall id | id in item.decision.contributing
      ensures id in WithEvents(s.tables.telemetry, item.events) <==> Available(s.outbox.sent, s.log, n, id)
      ensures Available(s.outbox.sent, s.log, n, id) <==> !LostWith(s.outbox.sent, s.log, id)
    {
      CitedIsBrought(s, t0, n, id);
      AvailableInTables(s, t0, id);
      AvailableUnlessLost(s, t0, id);
    }
    assert Distinct(item.decision.contributing);
  }

  // -------------------------------------------------------------------------
  // Persisting
  // -------------------------------------------------------------------------

  lemma {:induction false} PersistedStep(kept: seq<PersistedFlag>, item: PersistedFlag)
    ensures AllFlags(kept + [item]) == AllFlags(kept) + [FlagRowOf(item.decision)]
    ensures forall n: nat ::
      AllLinks(kept + [item], n) == AllLinks(kept, n) + LinkRows(n + |kept|, item.decision.contributing)
    ensures Decisions(kept + [item]) == Decisions(kept) + [item.decision]
    ensures PairedIds(kept + [item]) == PairedIds(kept) + EventIdsOf(item.events)
  {
    assert (kept + [item])[..|kept|] == kept;
  }

  lemma {:induction false} CreditStep(ds: seq<FlagDecision>, d: FlagDecision, r: SessionRow)
    ensures Credit(Credits(r, ds), d.scoreDelta) == Credits(r, ds + [d])
  {
    assert (ds + [d])[..|ds|] == ds;
  }

  lemma {:induction false} KeptStep(items: seq<PersistedFlag>, log: seq<Attempt>, a: Attempt)
    requires |log| < |items|
    ensures Kept(items, log + [a]) == Kept(items, log) + (if a.Committed() then [items[|log|]] else [])
    ensures Lost(items, log + [a]) == Lost(items, log) + (if a.Committed() then [] else [items[|log|]])
  {
    assert (log + [a])[..|log|] == log;
  }

  lemma {:induction false} PersistKeepsTables(
    t: Tables, kept: seq<PersistedFlag>, item: PersistedFlag, fault: Fault, t0: Tables)
    requires TablesHold(t, kept, t0)
    ensures var (t', outcome) := PersistItem(t, item, fault);
      && outcome != Dropped
      && TablesHold(t', if outcome == Failed then kept else kept + [item], t0)
  {
    hide Linkable, AllFlags, AllLinks, Decisions, Credits, Credit, WithEvents, PairedIds, EventIdsOf;
    PersistedStep(kept, item);
    CreditStep(Decisions(kept), item.decision, t0.session.value);
    WithEventsKeys(t.telemetry, item.events);
    IdSetConcat(PairedIds(kept), EventIdsOf(item.events));
  }

  lemma {:induction false} IdSetConcat(a: seq<EventId>, b: seq<EventId>)
    ensures IdSet(a + b) == IdSet(a) + IdSet(b)
  {
  }

  /** How the outcome of one item bears on termination. */
  lemma {:induction false} TerminationOutcome(t: Tables, item: PersistedFlag, fault: Fault)
    requires t.session.Some?
    ensures var (t', outcome) := PersistItem(t, item, fault);
      if t.termination == None && Recordable(item, Attempt(fault, outcome)) then
        && t'.termination == Some(TerminationRow(|t.flags|, item.decision.ruleCode))
        && outcome == if fault == AfterRecordCommit then Unfired else Terminated
      else t'.termination == t.termination && outcome != Terminated
  {
    hide Linkable, WithEvents, LinkRows, Credit;
  }

  lemma {:induction false} PersistKeepsTermination(
    items: seq<PersistedFlag>, log: seq<Attempt>, t: Tables, fired: seq<nat>, fault: Fault, t0: Tables)
    requires |log| < |items| && TerminationHolds(items, log, t, fired, t0)
    requires t.session.Some? && |t.flags| == |t0.flags| + |Kept(items, log)|
    ensures var (t', outcome) := PersistItem(t, items[|log|], fault);
      TerminationHolds(
        items, log + [Attempt(fault, outcome)], t', if outcome == Terminated then fired + [|t.flags|] else fired, t0)
  {
    hide PersistItem, Recordable, Kept;
    var item, n := items[|log|], |log|;
    var (t', outcome) := PersistItem(t, item, fault);
    var a := Attempt(fault, outcome);
    var log' := log + [a];
    TerminationOutcome(t, item, fault);
    assert forall k :: 0 <= k < n ==> log'[k] == log[k];
    assert log'[..n] == log;
    if t0.termination == None && t.termination.Some? {
      var m :| 0 <= m < n && RecordedAt(items, log, |t0.flags|, t.termination.value, fired, m);
      assert log'[..m] == log[..m];
      assert RecordedAt(items, log', |t0.flags|, t.termination.value, fired, m);
    } else if t0.termination == None && t'.termination.Some? {
      var fired' := if outcome == Terminated then fired + [|t.flags|] else fired;
      assert RecordedAt(items, log', |t0.flags|, t'.termination.value, fired', n);
    }
  }

  lemma {:induction false} PersistKeepsInv(s: State, fault: Fault, t0: Tables)
    requires Inv(s, t0) && |s.log| < |s.outbox.sent|
    ensures Inv(PersistStep(s, fault), t0)
  {
    hide Sound, Whole, TerminationHolds, PersistItem, Kept, Lost, PairedIds, AllFlags, AllLinks, Credited, Decisions;
    var n, item := |s.log|, s.outbox.sent[|s.log|];
    var a := Attempt(fault, PersistItem(s.tables, item, fault).1);
    PersistKeepsTables(s.tables, Kept(s.outbox.sent, s.log), item, fault, t0);
    KeptStep(s.outbox.sent, s.log, a);
    assert Kept(s.outbox.sent, s.log) + [] == Kept(s.outbox.sent, s.log);
    PersistKeepsTermination(s.outbox.sent, s.log, s.tables, s.fired, fault, t0);
  }

  // -------------------------------------------------------------------------
  // Every run
  // -------------------------------------------------------------------------

  lemma {:induction false} StepKeepsInv(p: Policy, c: DispatcherConfig, s: State, step: Step, t0: Tables)
    requires Inv(s, t0) && Enabled(s, step)
    ensures Inv(After(p, c, s, step), t0)
  {
    hide Inv, DispatchStep, PersistStep;
    match step
    case Dispatch(id, event) => DispatchKeepsInv(p, c, s, id, event, t0);
    case Persist(fault) => PersistKeepsInv(s, fault, t0);
  }

  /** Every state of every run of a connection meets the invariant, whatever earlier connections
      left in the tables and whichever persist steps fail. */
  lemma {:induction false} RunKeepsInv(
    p: Policy, c: DispatcherConfig, steps: seq<Step>, states: seq<State>, t0: Tables, i: nat)
    requires IsRun(p, c, t0, steps, states) && i <= |steps|
    ensures Inv(states[i], t0)
    decreases i
  {
    hide Inv, After, Enabled, Start;
    if i == 0 {
      StartInv(t0);
    } else {
      RunKeepsInv(p, c, steps, states, t0, i - 1);
      StepKeepsInv(p, c, states[i - 1], steps[i - 1], t0);
    }
  }

  /** Referential integrity over runs: whenever a persist step commits its item, every cited id
      has a telemetry row afterwards, the links are in order and unique, and no event row it
      brings existed before. When it does not, no table changes. */
  lemma {:induction false} EveryLinkResolves(
    p: Policy, c: DispatcherConfig, steps: seq<Step>, states: seq<State>, t0: Tables, i: nat)
    requires IsRun(p, c, t0, steps, states)
    requires i < |steps| && steps[i].Persist?
    ensures |states[i].log| < |states[i].outbox.sent| && |states[i + 1].log| == |states[i].log| + 1
    ensures var item, t, t' := states[i].outbox.sent[|states[i].log|], states[i].tables, states[i + 1].tables;
      && Distinct(EventIdsOf(item.events)) && (forall id :: id in EventIdsOf(item.events) ==> id !in t.telemetry)
      && if states[i + 1].log[|states[i].log|].Committed() then
           && t'.links == t.links + LinkRows(|t.flags|, item.decision.contributing)
           && t'.flags == t.flags + [FlagRowOf(item.decision)]
           && Distinct(item.decision.contributing)
           && (forall id :: id in item.decision.contributing ==> id in t'.telemetry)
         else t' == t
  {
    RunKeepsInv(p, c, steps, states, t0, i);
    assert Enabled(states[i], steps[i]) && states[i + 1] == After(p, c, states[i], steps[i]);
    PersistResolves(states[i], steps[i].fault, t0);
    NewRows(states[i], t0);
  }

  lemma {:induction false} PersistResolves(s: State, fault: Fault, t0: Tables)
    requires Inv(s, t0) && |s.log| < |s.outbox.sent|
    ensures var item, t, t' := s.outbox.sent[|s.log|], s.tables, PersistStep(s, fault).tables;
      if PersistStep(s, fault).log[|s.log|].Committed() then
        && t'.links == t.links + LinkRows(|t.flags|, item.decision.contributing)
        && t'.flags == t.flags + [FlagRowOf(item.decision)]
        && Distinct(item.decision.contributing)
        && (forall id :: id in item.decision.contributing ==> id in t'.telemetry)
      else t' == t
  {
    hide Inv, WithEvents, LinkRows, Credit;
  }

  lemma {:induction false} NewRows(s: State, t0: Tables)
    requires Inv(s, t0) && |s.log| < |s.outbox.sent|
    ensures var ids := EventIdsOf(s.outbox.sent[|s.log|].events);
      Distinct(ids) && forall id :: id in ids ==> id !in s.tables.telemetry
  {
    hide Sound, TerminationHolds, Kept, EventIdsOf, PairedIds;
    var items, n := s.outbox.sent, |s.log|;
    EventsDistinct(items, n);
    forall id | id in EventIdsOf(items[n].events)
      ensures id !in s.tables.telemetry
    {
      BroughtIsNew(s, t0, n, id);
      KeptBrings(items, s.log, id);
      if k :| 0 <= k < n && s.log[k].Committed() && Brings(items, k, id) {
        BroughtOnce(items, k, n, id);
      }
    }
  }

  /** An event lost with one item is lost for good: every later item that cites it fails too,
      whatever happens at its own commit. This includes repeated warnings and terminating flags. */
  lemma {:induction false} LostForGood(
    p: Policy, c: DispatcherConfig, steps: seq<Step>, states: seq<State>, t0: Tables, i: nat, k: nat, id: EventId)
    requires IsRun(p, c, t0, steps, states)
    requires i < |steps| && steps[i].Persist?
    requires k < |states[i].log| <= |states[i].outbox.sent| && !states[i].log[k].Committed()
    requires Brings(states[i].outbox.sent, k, id)
    requires |states[i].log| < |states[i].outbox.sent|
    requires id in states[i].outbox.sent[|states[i].log|].decision.contributing
    ensures states[i + 1].log == states[i].log + [Attempt(steps[i].fault, Failed)]
    ensures states[i + 1].tables == states[i].tables
  {
    var s, fault := states[i], steps[i].fault;
    RunKeepsInv(p, c, steps, states, t0, i);
    assert Enabled(s, steps[i]) && states[i + 1] == After(p, c, s, steps[i]);
    CommitsWhen(s, fault, t0);
    PersistResolves(s, fault, t0);
    PersistKeepsTables(s.tables, Kept(s.outbox.sent, s.log), s.outbox.sent[|s.log|], fault, t0);
    hide Inv, PersistItem, Brings, Available;
    assert LostWith(s.outbox.sent, s.log, id);
  }

  // -------------------------------------------------------------------------
  // Batches from the telemetry buffer
  // -------------------------------------------------------------------------

  /** Dispatching a drained batch, event by event, each under its own id. */
  ghost function DispatchAll(
    p: Policy, c: DispatcherConfig, s: State, ids: seq<EventId>, events: seq<BufferedEvent>): State
    requires |ids| == |events|
  {
    if |ids| == 0 then s
    else
      var n := |ids| - 1;
      DispatchStep(p, c, DispatchAll(p, c, s, ids[..n], events[..n]), ids[n], events[n])
  }

  lemma {:induction false} NothingDispatched(p: Policy, c: DispatcherConfig, s: State)
    ensures DispatchAll(p, c, s, [], []) == s
  {
  }

  lemma {:induction false} DispatchOneMore(
    p: Policy, c: DispatcherConfig, s: State, ids: seq<EventId>, events: seq<BufferedEvent>, n: nat)
    requires n < |ids| == |events|
    ensures DispatchAll(p, c, s, ids[..n + 1], events[..n + 1]) ==
      DispatchStep(p, c, DispatchAll(p, c, s, ids[..n], events[..n]), ids[n], events[n])
  {
    hide DispatchStep;
    assert ids[..n + 1][..n] == ids[..n] && events[..n + 1][..n] == events[..n];
  }

  /** Under fresh distinct ids a batch is a sequence of enabled dispatch steps: it mints just these
      ids and keeps the invariant. */
  lemma {:induction false} BatchKeepsInv(
    p: Policy, c: DispatcherConfig, s: State, ids: seq<EventId>, events: seq<BufferedEvent>, t0: Tables)
    requires |ids| == |events| && Inv(s, t0)
    requires Distinct(ids) && forall id :: id in ids ==> id !in s.minted && id !in s.tables.telemetry
    ensures Inv(DispatchAll(p, c, s, ids, events), t0)
    ensures DispatchAll(p, c, s, ids, events).minted == s.minted + IdSet(ids)
    ensures DispatchAll(p, c, s, ids, events).log == s.log && DispatchAll(p, c, s, ids, events).tables == s.tables
  {
    hide Inv, Dispatched, Emitted;
    if |ids| > 0 {
      var n := |ids| - 1;
      BatchKeepsInv(p, c, s, ids[..n], events[..n], t0);
      DispatchKeepsInv(p, c, DispatchAll(p, c, s, ids[..n], events[..n]), ids[n], events[n], t0);
      assert IdSet(ids) == IdSet(ids[..n]) + {ids[n]} by {
        assert ids == ids[..n] + [ids[n]];
      }
    }
  }

  /** No flag commit has failed so far. */
  predicate FlagCommitsHeld(log: seq<Attempt>) {
    forall k :: 0 <= k < |log| ==> log[k].fault != AtFlagCommit
  }

  /** As long as no flag commit fails, every item is committed: failures of the record's commit
      lose no flag. */
  lemma {:induction false} PersistNeverFails(
    p: Policy, c: DispatcherConfig, steps: seq<Step>, states: seq<State>, t0: Tables, i: nat)
    requires IsRun(p, c, t0, steps, states) && i <= |steps|
    requires FlagCommitsHeld(states[i].log)
    ensures |states[i].log| <= |states[i].outbox.sent|
    ensures AllCommitted(states[i].log)
    decreases i
  {
    hide Inv, After, Enabled, FlagCommitsHeld, AllCommitted, Start;
    RunKeepsInv(p, c, steps, states, t0, i);
    LogWithin(states[i], t0);
    if i == 0 {
      NothingLogged(t0);
    } else {
      var s, step := states[i - 1], steps[i - 1];
      RunKeepsInv(p, c, steps, states, t0, i - 1);
      LogGrows(p, c, s, step);
      HeldBefore(s.log, states[i].log);
      PersistNeverFails(p, c, steps, states, t0, i - 1);
      AllCommittedStep(p, c, s, step, t0);
    }
  }

  lemma {:induction false} LogWithin(s: State, t0: Tables)
    requires Inv(s, t0)
    ensures |s.log| <= |s.outbox.sent|
  {
  }

  lemma {:induction false} NothingLogged(t0: Tables)
    ensures AllCommitted(Start(t0).log)
  {
  }

  predicate AllCommitted(log: seq<Attempt>) {
    forall k :: 0 <= k < |log| ==> log[k].Committed()
  }

  lemma {:induction false} HeldBefore(log: seq<Attempt>, log': seq<Attempt>)
    requires log <= log' && FlagCommitsHeld(log')
    ensures FlagCommitsHeld(log)
  {
    assert forall k :: 0 <= k < |log| ==> log[k] == log'[k];
  }

  lemma {:induction false} AllCommittedStep(p: Policy, c: DispatcherConfig, s: State, step: Step, t0: Tables)
    requires Inv(s, t0) && Enabled(s, step) && AllCommitted(s.log)
    requires FlagCommitsHeld(After(p, c, s, step).log)
    ensures AllCommitted(After(p, c, s, step).log)
  {
    hide Inv, PersistItem, Available, DispatchStep;
    LogGrows(p, c, s, step);
    if step.Persist? {
      CommitsWhen(s, step.fault, t0);
      assert PersistStep(s, step.fault).log[|s.log|].fault == step.fault;
      assert forall id :: !LostWith(s.outbox.sent, s.log, id);
    }
  }

  lemma {:induction false} LogGrows(p: Policy, c: DispatcherConfig, s: State, step: Step)
    requires Enabled(s, step)
    ensures s.log <= After(p, c, s, step).log
    ensures step.Dispatch? ==> After(p, c, s, step).log == s.log
    ensures step.Persist? ==> |After(p, c, s, step).log| == |s.log| + 1
  {
    hide PersistItem, Dispatched, Emitted;
  }

  // -------------------------------------------------------------------------
  // Score conservation
  // -------------------------------------------------------------------------

  /** Persistence credits the sum of all deltas exactly when none of them is negative. */
  lemma {:induction false} CreditedIsTotal(ds: seq<FlagDecision>)
    ensures TotalDelta(ds) <= Credited(ds)
    ensures Credited(ds) == TotalDelta(ds) <==> forall d :: d in ds ==> 0.0 <= d.scoreDelta
  {
    if |ds| > 0 {
      var front, last := ds[..|ds| - 1], ds[|ds| - 1];
      CreditedIsTotal(front);
      assert ds == front + [last];
      assert last in ds;
    }
  }

  lemma {:induction false} DecisionsAt(items: seq<PersistedFlag>)
    ensures |Decisions(items)| == |items|
    ensures forall k :: 0 <= k < |items| ==> Decisions(items)[k] == items[k].decision
  {
    if |items| > 0 {
      DecisionsAt(items[..|items| - 1]);
    }
  }

  lemma {:induction false} DecisionsSplit(items: seq<PersistedFlag>, n: nat)
    requires n <= |items|
    ensures Decisions(items) == Decisions(items[..n]) + Decisions(items[n..])
  {
    hide Decisions;
    DecisionsAt(items);
    DecisionsAt(items[..n]);
    DecisionsAt(items[n..]);
  }

  lemma {:induction false} TotalOfOneMore(items: seq<PersistedFlag>, item: PersistedFlag)
    ensures TotalDelta(Decisions(items + [item])) == TotalDelta(Decisions(items)) + item.decision.scoreDelta
  {
    DecisionsStep(items, item);
    TotalDeltaConcat(Decisions(items), [item.decision]);
    assert [item.decision][..0] == [];
    assert TotalDelta([item.decision]) == TotalDelta([]) + item.decision.scoreDelta;
  }

  lemma {:induction false} TakeOneMore<T>(items: seq<T>, n: nat)
    requires n < |items|
    ensures items[..n + 1] == items[..n] + [items[n]]
  {
  }

  lemma {:induction false} FrontAndLast<T>(xs: seq<T>)
    requires |xs| > 0
    ensures xs[..|xs| - 1] + [xs[|xs| - 1]] == xs
  {
  }

  lemma {:induction false} NothingTaken(items: seq<PersistedFlag>, log: seq<Attempt>)
    requires |log| == 0
    ensures TotalDelta(Decisions(items[..|log|])) ==
      TotalDelta(Decisions(Kept(items, log))) + TotalDelta(Decisions(Lost(items, log)))
  {
  }

  lemma {:induction false} KeptAndLostStep(items: seq<PersistedFlag>, log: seq<Attempt>, a: Attempt)
    requires |log| < |items|
    requires TotalDelta(Decisions(items[..|log|])) ==
      TotalDelta(Decisions(Kept(items, log))) + TotalDelta(Decisions(Lost(items, log)))
    ensures TotalDelta(Decisions(items[..|log| + 1])) ==
      TotalDelta(Decisions(Kept(items, log + [a]))) + TotalDelta(Decisions(Lost(items, log + [a])))
  {
    hide TotalDelta, Decisions, Kept, Lost, Attempt.Committed;
    var kept, lost, item := Kept(items, log), Lost(items, log), items[|log|];
    KeptStep(items, log, a);
    TakeOneMore(items, |log|);
    TotalOfOneMore(items[..|log|], item);
    TotalOfOneMore(kept, item);
    TotalOfOneMore(lost, item);
    assert kept + [] == kept && lost + [] == lost;
  }

  /** Of the items taken, what was not kept was lost. */
  lemma {:induction false} KeptAndLost(items: seq<PersistedFlag>, log: seq<Attempt>)
    requires |log| <= |items|
    ensures TotalDelta(Decisions(items[..|log|])) ==
      TotalDelta(Decisions(Kept(items, log))) + TotalDelta(Decisions(Lost(items, log)))
  {
    if |log| == 0 {
      NothingTaken(items, log);
    } else {
      hide TotalDelta, Decisions, Kept, Lost;
      var front, a := log[..|log| - 1], log[|log| - 1];
      KeptAndLost(items, front);
      KeptAndLostStep(items, front, a);
      FrontAndLast(log);
    }
  }

  /** What the session's score has gained since the connection started. */
  function Gain(s: State, t0: Tables): real
    requires s.tables.session.Some? && t0.session.Some?
  {
    s.tables.session.value.accumulatedMediumScore - t0.session.value.accumulatedMediumScore
  }

  /** End to end, at any point of any run: the session has gained exactly the positive deltas of
      the items committed; and the aggregator's score is that gain plus the deltas lost with failed
      items plus those still queued, exactly when no committed delta was negative. */
  lemma {:induction false} ScoreConserved(
    p: Policy, c: DispatcherConfig, steps: seq<Step>, states: seq<State>, t0: Tables, i: nat)
    requires IsRun(p, c, t0, steps, states) && i <= |steps|
    ensures |states[i].log| <= |states[i].outbox.sent| && states[i].tables.session.Some?
    ensures var s, items := states[i], states[i].outbox.sent;
      var gain := Gain(s, t0);
      && gain == Credited(Decisions(Kept(items, s.log)))
      && (s.hist.Score() == gain + TotalDelta(Decisions(Lost(items, s.log))) + TotalDelta(Decisions(items[|s.log|..]))
          <==> forall d :: d in Decisions(Kept(items, s.log)) ==> 0.0 <= d.scoreDelta)
  {
    RunKeepsInv(p, c, steps, states, t0, i);
    hide Sound, Whole, TerminationHolds, Decisions, TotalDelta, Credited, Kept, Lost;
    KeptAndTaken(states[i].outbox.sent, states[i].log);
  }

  lemma {:induction false} KeptAndTaken(items: seq<PersistedFlag>, log: seq<Attempt>)
    requires |log| <= |items|
    ensures var total := TotalDelta(Decisions(items));
      var rest := TotalDelta(Decisions(Lost(items, log))) + TotalDelta(Decisions(items[|log|..]));
      total == Credited(Decisions(Kept(items, log))) + rest <==>
        forall d :: d in Decisions(Kept(items, log)) ==> 0.0 <= d.scoreDelta
  {
    hide Decisions, TotalDelta, Credited, Kept, Lost;
    DecisionsSplit(items, |log|);
    TotalDeltaConcat(Decisions(items[..|log|]), Decisions(items[|log|..]));
    KeptAndLost(items, log);
    CreditedIsTotal(Decisions(Kept(items, log)));
  }

  lemma {:induction false} RunAdds(
    p: Policy, c: DispatcherConfig, steps: seq<Step>, states: seq<State>, t0: Tables, i: nat)
    requires IsRun(p, c, t0, steps, states) && i <= |steps| && p.NonNegativeWeights()
    ensures NoneNegative(states[i].hist.emitted)
    decreases i
  {
    if i > 0 {
      RunAdds(p, c, steps, states, t0, i - 1);
      assert Enabled(states[i - 1], steps[i - 1]) && states[i] == After(p, c, states[i - 1], steps[i - 1]);
      hide Dispatched, NoneNegative, PersistItem, Emitted;
      match steps[i - 1]
      case Dispatch(id, event) => DispatchAdds(p, c, states[i - 1].hist, event.message, id);
      case Persist(_) =>
    }
  }

  lemma {:induction false} KeptWereSent(items: seq<PersistedFlag>, log: seq<Attempt>)
    requires |log| <= |items|
    ensures forall d :: d in Decisions(Kept(items, log)) ==> d in Decisions(items)
  {
    DecisionsAt(items);
    if |log| > 0 {
      hide Decisions;
      var front, n := log[..|log| - 1], |log| - 1;
      KeptWereSent(items, front);
      DecisionsStep(Kept(items, front), items[n]);
      assert Decisions(items)[n] in Decisions(items);
      assert Kept(items, front) + [] == Kept(items, front);
    }
  }

  /** With non-negative weights the score is conserved at every point of every run: it is the
      session's gain plus what was lost with failed items plus what is still queued. */
  lemma {:induction false} ScoreAlwaysConserved(
    p: Policy, c: DispatcherConfig, steps: seq<Step>, states: seq<State>, t0: Tables, i: nat)
    requires IsRun(p, c, t0, steps, states) && i <= |steps| && p.NonNegativeWeights()
    ensures |states[i].log| <= |states[i].outbox.sent| && states[i].tables.session.Some?
    ensures var s, items := states[i], states[i].outbox.sent;
      s.hist.Score() == Gain(s, t0)
        + TotalDelta(Decisions(Lost(items, s.log))) + TotalDelta(Decisions(items[|s.log|..]))
    ensures FlagCommitsHeld(states[i].log) ==> Lost(states[i].outbox.sent, states[i].log) == []
  {
    var s := states[i];
    RunKeepsInv(p, c, steps, states, t0, i);
    RunAdds(p, c, steps, states, t0, i);
    ScoreConserved(p, c, steps, states, t0, i);
    KeptWereSent(s.outbox.sent, s.log);
    if FlagCommitsHeld(s.log) {
      PersistNeverFails(p, c, steps, states, t0, i);
      NothingLost(s.outbox.sent, s.log);
    }
  }

  lemma {:induction false} NothingLost(items: seq<PersistedFlag>, log: seq<Attempt>)
    requires |log| <= |items| && AllCommitted(log)
    ensures Lost(items, log) == []
  {
    if |log| > 0 {
      NothingLost(items, log[..|log| - 1]);
    }
  }

  // -------------------------------------------------------------------------
  // The kill-switch callback
  // -------------------------------------------------------------------------

  /** In any run of a connection the kill-switch callback is invoked at most once. It is invoked
      exactly when no earlier connection has left a record, some item taken has its flag and record
      both committed, and for the first such item the record could be read back; then under the
      number of that item's flag. */
  lemma {:induction false} KillSwitchFiresOnce(
    p: Policy, c: DispatcherConfig, steps: seq<Step>, states: seq<State>, t0: Tables, i: nat)
    requires IsRun(p, c, t0, steps, states) && i <= |steps|
    ensures |states[i].log| <= |states[i].outbox.sent| && |states[i].fired| <= 1
    ensures states[i].fired != [] <==>
      && t0.termination == None
      && exists n :: 0 <= n < |states[i].log| && FirstRecorded(states[i].outbox.sent, states[i].log, n)
           && states[i].log[n].fault != AfterRecordCommit
    ensures states[i].fired != [] ==>
      exists n :: 0 <= n < |states[i].log| && FirstRecorded(states[i].outbox.sent, states[i].log, n)
        && states[i].fired[0] == |t0.flags| + |Kept(states[i].outbox.sent, states[i].log[..n])|
  {
    RunKeepsInv(p, c, steps, states, t0, i);
    hide IsRun, Sound, Whole, TablesHold, Kept, Recordable, Decisions;
    FiresWhen(states[i], t0);
  }

  lemma {:induction false} FiresWhen(s: State, t0: Tables)
    requires |s.log| <= |s.outbox.sent| && TerminationHolds(s.outbox.sent, s.log, s.tables, s.fired, t0)
    ensures s.fired != [] <==>
      && t0.termination == None
      && exists n :: 0 <= n < |s.log| && FirstRecorded(s.outbox.sent, s.log, n) && s.log[n].fault != AfterRecordCommit
  {
    hide Kept, Recordable;
    if t0.termination == None && s.tables.termination.Some? {
      var m :| 0 <= m < |s.log| && RecordedAt(s.outbox.sent, s.log, |t0.flags|, s.tables.termination.value, s.fired, m);
      forall n | 0 <= n < |s.log| && FirstRecorded(s.outbox.sent, s.log, n)
        ensures n == m
      {
      }
    }
  }

  /** There is a termination record exactly when an earlier connection left one or an item was
      recordable; once there, it stays and nothing fires after it. */
  lemma {:induction false} RecordStands(
    p: Policy, c: DispatcherConfig, steps: seq<Step>, states: seq<State>, t0: Tables, i: nat)
    requires IsRun(p, c, t0, steps, states) && i <= |steps|
    ensures |states[i].log| <= |states[i].outbox.sent|
    ensures states[i].tables.termination.Some? <==>
      || t0.termination.Some?
      || exists k :: 0 <= k < |states[i].log| && Recordable(states[i].outbox.sent[k], states[i].log[k])
    ensures t0.termination.Some? ==> states[i].tables.termination == t0.termination && states[i].fired == []
    ensures states[i].fired != [] ==> states[i].tables.termination.Some?
  {
    RunKeepsInv(p, c, steps, states, t0, i);
    hide IsRun, Sound, Whole, TablesHold, Kept, Recordable, Decisions;
  }

  /** A record commit that fails lets a later terminating flag fire: two terminating items, the
      first one's record failing. */
  lemma {:induction false} SecondFlagFires(t: Tables, first: PersistedFlag, second: PersistedFlag)
    requires t.session.Some? && t.termination == None
    requires first.decision.triggeredTermination && second.decision.triggeredTermination
    requires Linkable(first.decision.contributing, WithEvents(t.telemetry, first.events))
    requires Linkable(
      second.decision.contributing, WithEvents(WithEvents(t.telemetry, first.events), second.events))
    ensures var (t1, o1) := PersistItem(t, first, AtRecordCommit);
      o1 == RecordFailed && PersistItem(t1, second, NoFault).1 == Terminated
  {
    hide WithEvents, Linkable, Credit, LinkRows;
  }
}
