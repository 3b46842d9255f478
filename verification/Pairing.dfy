/** From buffered events to queued flags: what one dispatched message adds to the aggregator's
    history, and how each decision is paired with the events it cites. */
module Pairing {
  import opened FusionTypes
  import opened Runs
  import opened Trails
  import opened GazeEpisodes
  import opened Fusion
  import opened Histories
  import TelemetryBuffers

  // -------------------------------------------------------------------------
  // Messages and the results of the foreign runners
  // -------------------------------------------------------------------------

  /** What the scheduler and the inference runners answer for one decoded heavy frame. A runner
      that raises yields None (or no detections). faceBox: a face box could be cut out. */
  datatype FrameInference = FrameInference(
    runGaze: bool,
    runObjects: bool,
    runIdentity: bool,
    runLiveness: bool,
    landmarks: Option<HeadPoseGazeResult>,
    detections: seq<ObjectDetectionResult>,
    faceBox: bool,
    identity: Option<IdentityMatchResult>,
    liveness: Option<LivenessResult>
  )

  /** A client message together with what the foreign code makes of it: None when a frame does
      not decode, an audio chunk cannot be classified, or a browser event is not recognised. */
  datatype Message =
    | Light(faceCount: nat, confidence: UnitReal)
    | HeavyFrame(capturedAtMs: int, frame: Option<FrameInference>)
    | AudioChunk(audio: Option<AudioVadResult>)
    | BrowserMessage(browser: Option<BrowserEventResult>)
    | KillSwitchAcknowledge

  /** enrolled: an enrollment embedding is configured. livenessRunner: the backend was built. */
  datatype DispatcherConfig = DispatcherConfig(enrolled: bool, livenessRunner: bool)

  type BufferedEvent = TelemetryBuffers.BufferedEvent<Message>

  /** A buffered event with the synthetic id the dispatcher minted for it. */
  datatype TaggedEvent = TaggedEvent(id: EventId, event: BufferedEvent)

  /** The queue item: a decision and the source events taken out of the map for it. */
  datatype PersistedFlag = PersistedFlag(decision: FlagDecision, events: seq<TaggedEvent>)

  // -------------------------------------------------------------------------
  // What one message feeds to the aggregator
  // -------------------------------------------------------------------------

  ghost function ObjectsFed(p: Policy, h: History, ds: seq<ObjectDetectionResult>, id: EventId): History {
    if |ds| == 0 then h else ObjectFed(p, ObjectsFed(p, h, ds[..|ds| - 1], id), ds[|ds| - 1], id)
  }

  lemma {:induction false} NoObjectsFed(p: Policy, h: History, id: EventId)
    ensures ObjectsFed(p, h, [], id) == h
  {
  }

  lemma {:induction false} ObjectsStep(p: Policy, h: History, ds: seq<ObjectDetectionResult>, i: nat, id: EventId)
    requires i < |ds|
    ensures ObjectsFed(p, h, ds[..i + 1], id) == ObjectFed(p, ObjectsFed(p, h, ds[..i], id), ds[i], id)
  {
    assert ds[..i + 1][..i] == ds[..i];
  }

  /** The early returns of the identity branch, which also skip liveness. */
  predicate IdentitySkips(c: DispatcherConfig, f: FrameInference) {
    f.runIdentity && (f.landmarks == None || !c.enrolled || !f.faceBox || f.identity == None)
  }

  predicate LivenessRuns(c: DispatcherConfig, f: FrameInference) {
    && !IdentitySkips(c, f)
    && f.runLiveness && c.livenessRunner
    && f.landmarks.Some? && f.faceBox && f.liveness.Some?
  }

  ghost function FrameFed(p: Policy, c: DispatcherConfig, h: History, at: int, f: FrameInference, id: EventId): History {
    var h := if f.runGaze && f.landmarks.Some? then GazeFed(p, h, f.landmarks.value, id, at) else h;
    var h := if f.runObjects then ObjectsFed(p, h, f.detections, id) else h;
    var h := if f.runIdentity && !IdentitySkips(c, f) then IdentityFed(p, h, f.identity.value, id) else h;
    if LivenessRuns(c, f) then LivenessFed(p, h, f.liveness.value, id) else h
  }

  ghost function Dispatched(p: Policy, c: DispatcherConfig, h: History, m: Message, id: EventId): History {
    match m
    case Light(n, conf) => FaceFed(p, h, FacePresenceResult(n, PointInterval(conf)), id)
    case HeavyFrame(at, frame) => if frame.Some? then FrameFed(p, c, h, at, frame.value, id) else h
    case AudioChunk(audio) => if audio.Some? && !audio.value.isSilence then AudioFed(p, h, audio.value, id) else h
    case BrowserMessage(browser) => if browser.Some? then BrowserFed(p, h, browser.value, id) else h
    case KillSwitchAcknowledge => h
  }

  /** The id has not been fed to any windowed path. */
  predicate Unfed(h: History, id: EventId) {
    id !in Ids(h.face) && id !in FrameIds(h.gaze) && id !in Ids(h.liveness) && id !in Ids(h.identity)
  }

  lemma {:induction false} MintedUnfed(h: History, minted: set<EventId>, id: EventId)
    requires Sound(h, minted) && id !in minted
    ensures Unfed(h, id) && Sound(h, minted + {id})
  {
  }

  lemma {:induction false} ObjectsKeepSound(
    p: Policy, h: History, ds: seq<ObjectDetectionResult>, id: EventId, minted: set<EventId>)
    requires Sound(h, minted) && id in minted
    ensures Sound(ObjectsFed(p, h, ds, id), minted)
    ensures ObjectsFed(p, h, ds, id) == h.(emitted := ObjectsFed(p, h, ds, id).emitted)
    ensures h.emitted <= ObjectsFed(p, h, ds, id).emitted
  {
    hide Sound;
    if |ds| > 0 {
      ObjectsKeepSound(p, h, ds[..|ds| - 1], id, minted);
      SinglesKeepSound(
        p, ObjectsFed(p, h, ds[..|ds| - 1], id), ds[|ds| - 1], BrowserEventResult(false),
        AudioVadResult(true, CERTAIN), id, minted);
    }
  }

  lemma {:induction false} FrameKeepsSound(
    p: Policy, c: DispatcherConfig, h: History, at: int, f: FrameInference, id: EventId, minted: set<EventId>)
    requires Sound(h, minted) && id in minted && Unfed(h, id)
    ensures Sound(FrameFed(p, c, h, at, f, id), minted)
    ensures h.emitted <= FrameFed(p, c, h, at, f, id).emitted
  {
    hide Sound, ObjectsFed, GazeDecisions, IdentityDecisions, LivenessDecisions, Ids, FrameIds;
    var h0 := h;
    var h1 := if f.runGaze && f.landmarks.Some? then GazeFed(p, h0, f.landmarks.value, id, at) else h0;
    if f.runGaze && f.landmarks.Some? {
      GazeKeepsSound(p, h0, f.landmarks.value, id, at, minted);
    }
    var h2 := if f.runObjects then ObjectsFed(p, h1, f.detections, id) else h1;
    ObjectsKeepSound(p, h1, f.detections, id, minted);
    var h3 := if f.runIdentity && !IdentitySkips(c, f) then IdentityFed(p, h2, f.identity.value, id) else h2;
    if f.runIdentity && !IdentitySkips(c, f) {
      IdentityKeepsSound(p, h2, f.identity.value, id, minted);
    }
    if LivenessRuns(c, f) {
      LivenessKeepsSound(p, h3, f.liveness.value, id, minted);
    }
  }

  /** Dispatching a message under a freshly minted id keeps the history sound and only appends
      decisions. */
  lemma {:induction false} DispatchKeepsSound(
    p: Policy, c: DispatcherConfig, h: History, m: Message, id: EventId, minted: set<EventId>)
    requires Sound(h, minted) && id !in minted
    ensures Sound(Dispatched(p, c, h, m, id), minted + {id})
    ensures h.emitted <= Dispatched(p, c, h, m, id).emitted
  {
    MintedUnfed(h, minted, id);
    hide Sound, FrameFed;
    var minted' := minted + {id};
    match m
    case Light(n, conf) => FaceKeepsSound(p, h, FacePresenceResult(n, PointInterval(conf)), id, minted');
    case HeavyFrame(at, frame) =>
      if frame.Some? {
        FrameKeepsSound(p, c, h, at, frame.value, id, minted');
      }
    case AudioChunk(audio) =>
      if audio.Some? {
        SinglesKeepSound(
          p, h, ObjectDetectionResult(false, false, None, CERTAIN), BrowserEventResult(false), audio.value, id, minted');
      }
    case BrowserMessage(browser) =>
      if browser.Some? {
        SinglesKeepSound(
          p, h, ObjectDetectionResult(false, false, None, CERTAIN), browser.value, AudioVadResult(true, CERTAIN), id, minted');
      }
    case KillSwitchAcknowledge =>
  }

  lemma {:induction false} ObjectsAdd(p: Policy, h: History, ds: seq<ObjectDetectionResult>, id: EventId)
    requires p.NonNegativeWeights() && NoneNegative(h.emitted)
    ensures NoneNegative(ObjectsFed(p, h, ds, id).emitted)
  {
    hide ObjectDecisions;
    if |ds| > 0 {
      ObjectsAdd(p, h, ds[..|ds| - 1], id);
      SinglesAdd(p, ObjectsFed(p, h, ds[..|ds| - 1], id).Score(), ds[|ds| - 1], BrowserEventResult(false),
                 AudioVadResult(true, CERTAIN), id);
    }
  }

  lemma {:induction false} FrameAdds(p: Policy, c: DispatcherConfig, h: History, at: int, f: FrameInference, id: EventId)
    requires p.NonNegativeWeights() && NoneNegative(h.emitted)
    ensures NoneNegative(FrameFed(p, c, h, at, f, id).emitted)
  {
    hide ObjectsFed, GazeDecisions, LivenessDecisions, TotalDelta;
    var h1 := if f.runGaze && f.landmarks.Some? then GazeFed(p, h, f.landmarks.value, id, at) else h;
    if f.runGaze && f.landmarks.Some? {
      GazeAdds(p, h.Score(), h1.gaze, f.landmarks.value.confidence);
    }
    var h2 := if f.runObjects then ObjectsFed(p, h1, f.detections, id) else h1;
    ObjectsAdd(p, h1, f.detections, id);
    var h3 := if f.runIdentity && !IdentitySkips(c, f) then IdentityFed(p, h2, f.identity.value, id) else h2;
    if LivenessRuns(c, f) {
      LivenessAdds(p, h3.Score(), h3.liveness + [LivenessObs(f.liveness.value, id)]);
    }
  }

  /** With non-negative weights dispatching a message never adds a negative delta. */
  lemma {:induction false} DispatchAdds(p: Policy, c: DispatcherConfig, h: History, m: Message, id: EventId)
    requires p.NonNegativeWeights() && NoneNegative(h.emitted)
    ensures NoneNegative(Dispatched(p, c, h, m, id).emitted)
  {
    hide FrameFed, BrowserDecisions, AudioDecisions, TotalDelta;
    match m
    case Light(_, _) =>
    case HeavyFrame(at, frame) =>
      if frame.Some? {
        FrameAdds(p, c, h, at, frame.value, id);
      }
    case AudioChunk(audio) =>
      if audio.Some? {
        SinglesAdd(p, h.Score(), ObjectDetectionResult(false, false, None, CERTAIN), BrowserEventResult(false),
                   audio.value, id);
      }
    case BrowserMessage(browser) =>
      if browser.Some? {
        SinglesAdd(p, h.Score(), ObjectDetectionResult(false, false, None, CERTAIN), browser.value,
                   AudioVadResult(true, CERTAIN), id);
      }
    case KillSwitchAcknowledge =>
  }

  // -------------------------------------------------------------------------
  // Pairing decisions with the events they cite
  // -------------------------------------------------------------------------

  /** The events not yet taken, by id, and everything ever put on the queue. */
  datatype Outbox = Outbox(buffered: map<EventId, TaggedEvent>, sent: seq<PersistedFlag>)

  predicate Tagged(m: map<EventId, TaggedEvent>) {
    forall id :: id in m ==> m[id].id == id
  }

  /** Popping a list of ids from the map: the events found, each at its first occurrence. */
  function TakeEvents(ids: seq<EventId>, m: map<EventId, TaggedEvent>): seq<TaggedEvent> {
    if |ids| == 0 then []
    else
      var front, last := ids[..|ids| - 1], ids[|ids| - 1];
      TakeEvents(front, m) + (if last in m && last !in front then [m[last]] else [])
  }

  function IdSet(ids: seq<EventId>): set<EventId> {
    set id | id in ids
  }

  function CitedIds(ds: seq<FlagDecision>): set<EventId> {
    if |ds| == 0 then {} else CitedIds(ds[..|ds| - 1]) + IdSet(ds[|ds| - 1].contributing)
  }

  /** Emitting a decision takes the events it cites and finds, and queues it with them. */
  function EmittedOne(o: Outbox, d: FlagDecision): Outbox {
    Outbox(o.buffered - IdSet(d.contributing), o.sent + [PersistedFlag(d, TakeEvents(d.contributing, o.buffered))])
  }

  function Emitted(o: Outbox, ds: seq<FlagDecision>): Outbox {
    if |ds| == 0 then o else EmittedOne(Emitted(o, ds[..|ds| - 1]), ds[|ds| - 1])
  }

  lemma {:induction false} NothingEmitted(o: Outbox)
    ensures Emitted(o, []) == o
  {
  }

  lemma {:induction false} EmittedStep(o: Outbox, ds: seq<FlagDecision>, i: nat)
    requires i < |ds|
    ensures Emitted(o, ds[..i + 1]) == EmittedOne(Emitted(o, ds[..i]), ds[i])
  {
    assert ds[..i + 1][..i] == ds[..i];
  }

  /** Emitting the last decisions of a list completes the emission of the whole list. */
  lemma {:induction false} EmittedRest(o: Outbox, all: seq<FlagDecision>, n: nat, ds: seq<FlagDecision>)
    requires n + |ds| <= |all| && all[|all| - |ds|..] == ds
    ensures Emitted(o, all[n..]) == Emitted(Emitted(o, all[n..|all| - |ds|]), ds[..|ds|])
  {
    hide Emitted;
    EmittedConcat(o, all[n..|all| - |ds|], ds);
    assert all[n..] == all[n..|all| - |ds|] + ds && ds[..|ds|] == ds;
  }

  lemma {:induction false} EmittedConcat(o: Outbox, a: seq<FlagDecision>, b: seq<FlagDecision>)
    ensures Emitted(o, a + b) == Emitted(Emitted(o, a), b)
    decreases |b|
  {
    if |b| == 0 {
      assert a + b == a;
    } else {
      assert (a + b)[..|a + b| - 1] == a + b[..|b| - 1];
      EmittedConcat(o, a, b[..|b| - 1]);
    }
  }

  function EventIdsOf(es: seq<TaggedEvent>): (ids: seq<EventId>)
    ensures |ids| == |es|
    ensures forall i :: 0 <= i < |es| ==> ids[i] == es[i].id
  {
    seq(|es|, i requires 0 <= i < |es| => es[i].id)
  }

  /** The ids of all events paired with the items of a list, in order. */
  function PairedIds(items: seq<PersistedFlag>): seq<EventId> {
    if |items| == 0 then [] else PairedIds(items[..|items| - 1]) + EventIdsOf(items[|items| - 1].events)
  }

  function Decisions(items: seq<PersistedFlag>): seq<FlagDecision> {
    if |items| == 0 then [] else Decisions(items[..|items| - 1]) + [items[|items| - 1].decision]
  }

  /** Every id the item cites is paired with its event in this item or in an earlier one. */
  predicate Covered(items: seq<PersistedFlag>, k: nat)
    requires k < |items|
  {
    forall id :: id in items[k].decision.contributing ==> id in PairedIds(items[..k + 1])
  }

  /** Referential integrity of the queue: every minted event is either still buffered or paired
      with exactly one item, and no item cites an event that is paired later or never. */
  ghost predicate Whole(minted: set<EventId>, o: Outbox) {
    && Tagged(o.buffered)
    && Distinct(PairedIds(o.sent))
    && (forall id :: id in minted <==> id in o.buffered || id in PairedIds(o.sent))
    && (forall id :: id in o.buffered ==> id !in PairedIds(o.sent))
    && (forall k :: 0 <= k < |o.sent| ==> Covered(o.sent, k))
    && (forall k :: 0 <= k < |o.sent| ==> Distinct(o.sent[k].decision.contributing))
  }

  lemma {:induction false} TakenEvents(ids: seq<EventId>, m: map<EventId, TaggedEvent>)
    requires Tagged(m)
    ensures var t := EventIdsOf(TakeEvents(ids, m));
      && Distinct(t)
      && forall id :: id in t <==> id in ids && id in m
  {
    if |ids| > 0 {
      var front, last := ids[..|ids| - 1], ids[|ids| - 1];
      TakenEvents(front, m);
      var t0, t := EventIdsOf(TakeEvents(front, m)), EventIdsOf(TakeEvents(ids, m));
      assert ids == front + [last];
      assert t == t0 + (if last in m && last !in front then [last] else []);
    }
  }

  lemma {:induction false} MintKeepsWhole(minted: set<EventId>, o: Outbox, e: TaggedEvent)
    requires Whole(minted, o) && e.id !in minted
    ensures Whole(minted + {e.id}, o.(buffered := o.buffered[e.id := e]))
  {
  }

  lemma {:induction false} PairedStep(items: seq<PersistedFlag>, item: PersistedFlag)
    ensures PairedIds(items + [item]) == PairedIds(items) + EventIdsOf(item.events)
  {
    assert (items + [item])[..|items|] == items;
  }

  lemma {:induction false} EmitOne(o: Outbox, d: FlagDecision)
    ensures Emitted(o, [d]) == EmittedOne(o, d)
  {
    assert [d][..0] == [];
    assert Emitted(o, []) == o;
  }

  lemma {:induction false} CoveredStep(items: seq<PersistedFlag>, item: PersistedFlag)
    requires forall k :: 0 <= k < |items| ==> Covered(items, k)
    requires forall id :: id in item.decision.contributing ==> id in PairedIds(items) || id in EventIdsOf(item.events)
    ensures forall k :: 0 <= k <= |items| ==> Covered(items + [item], k)
  {
    PairedStep(items, item);
    var items' := items + [item];
    forall k | 0 <= k < |items|
      ensures Covered(items', k)
    {
      assert Covered(items, k) && items'[k] == items[k] && items'[..k + 1] == items[..k + 1];
    }
    assert Covered(items', |items|) by {
      assert items'[|items|] == item && items'[..|items| + 1] == items';
    }
  }

  /** Emitting one decision that cites distinct minted ids keeps the queue whole. */
  lemma {:induction false} EmitOneKeepsWhole(minted: set<EventId>, o: Outbox, d: FlagDecision)
    requires Whole(minted, o) && Fresh(d.contributing, minted)
    ensures Whole(minted, Emitted(o, [d]))
  {
    hide PairedIds, TakeEvents, Covered, Emitted, EventIdsOf;
    var item := PersistedFlag(d, TakeEvents(d.contributing, o.buffered));
    EmitOne(o, d);
    TakenEvents(d.contributing, o.buffered);
    PairedStep(o.sent, item);
    DistinctConcat(PairedIds(o.sent), EventIdsOf(item.events));
    CoveredStep(o.sent, item);
  }

  lemma {:induction false} EmitKeepsWhole(minted: set<EventId>, o: Outbox, ds: seq<FlagDecision>)
    requires Whole(minted, o) && forall d :: d in ds ==> Fresh(d.contributing, minted)
    ensures Whole(minted, Emitted(o, ds))
  {
    if |ds| > 0 {
      hide Whole, Fresh;
      var front, d := ds[..|ds| - 1], ds[|ds| - 1];
      EmitKeepsWhole(minted, o, front);
      EmitOneKeepsWhole(minted, Emitted(o, front), d);
      EmittedConcat(o, front, [d]);
      assert ds == front + [d];
    }
  }

  /** Emitting appends the decisions to the queue, in order. */
  lemma {:induction false} EmitAppends(o: Outbox, ds: seq<FlagDecision>)
    ensures Decisions(Emitted(o, ds).sent) == Decisions(o.sent) + ds
  {
    hide Decisions, TakeEvents;
    if |ds| == 0 {
      assert Decisions(o.sent) + ds == Decisions(o.sent);
    } else {
      var front, d := ds[..|ds| - 1], ds[|ds| - 1];
      var o' := Emitted(o, front);
      EmitAppends(o, front);
      DecisionsStep(o'.sent, PersistedFlag(d, TakeEvents(d.contributing, o'.buffered)));
      AppendLast(Decisions(o.sent), ds);
    }
  }

  lemma {:induction false} AppendLast<T>(a: seq<T>, b: seq<T>)
    requires |b| > 0
    ensures a + b[..|b| - 1] + [b[|b| - 1]] == a + b
  {
  }

  /** Emitting leaves the items already queued alone. */
  lemma {:induction false} EmitExtends(o: Outbox, ds: seq<FlagDecision>)
    ensures o.sent <= Emitted(o, ds).sent
  {
    hide TakeEvents;
    if |ds| > 0 {
      EmitExtends(o, ds[..|ds| - 1]);
    }
  }

  lemma {:induction false} DecisionsStep(items: seq<PersistedFlag>, item: PersistedFlag)
    ensures Decisions(items + [item]) == Decisions(items) + [item.decision]
  {
    assert (items + [item])[..|items|] == items;
  }
}
