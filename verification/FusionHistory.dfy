/** The aggregator as a function of its history: what one more input adds to the record of
    everything fed and everything returned, and what every such record satisfies. */
module Histories {
  import opened FusionTypes
  import opened Runs
  import opened Trails
  import opened GazeEpisodes
  import opened Fusion

  /** Everything the aggregator was fed, path by path, and everything it returned. */
  datatype History = History(
    face: seq<Obs<Confidence>>,
    gaze: seq<GazeFrame>,
    liveness: seq<Obs<UnitReal>>,
    identity: seq<Obs<UnitReal>>,
    emitted: seq<FlagDecision>
  ) {
    /** The running score: the sum of the deltas of every decision returned. */
    function Score(): real {
      TotalDelta(emitted)
    }
  }

  const NO_HISTORY := History([], [], [], [], [])

  function FaceObs(r: FacePresenceResult, id: EventId): Obs<Confidence> {
    Obs(r.faceCount >= 2, id, r.confidence)
  }

  function LivenessObs(r: LivenessResult, id: EventId): Obs<UnitReal> {
    Obs(!r.isReal, id, r.score)
  }

  function IdentityObs(p: Policy, r: IdentityMatchResult, id: EventId): Obs<UnitReal> {
    Obs(r.similarity < p.identitySimilarityThreshold, id, r.similarity)
  }

  // -------------------------------------------------------------------------
  // One more input
  // -------------------------------------------------------------------------

  ghost function FaceFed(p: Policy, h: History, r: FacePresenceResult, id: EventId): History {
    var face := h.face + [FaceObs(r, id)];
    h.(face := face, emitted := h.emitted + SecondPersonDecisions(p, face))
  }

  ghost function GazeFed(p: Policy, h: History, r: HeadPoseGazeResult, id: EventId, at: int): History {
    var gaze := h.gaze + [GazeFrame(r.offScreen, id, at)];
    h.(gaze := gaze, emitted := h.emitted + GazeDecisions(p, h.Score(), gaze, r.confidence))
  }

  ghost function LivenessFed(p: Policy, h: History, r: LivenessResult, id: EventId): History {
    var liveness := h.liveness + [LivenessObs(r, id)];
    h.(liveness := liveness, emitted := h.emitted + LivenessDecisions(p, h.Score(), liveness))
  }

  ghost function IdentityFed(p: Policy, h: History, r: IdentityMatchResult, id: EventId): History {
    var identity := h.identity + [IdentityObs(p, r, id)];
    h.(identity := identity, emitted := h.emitted + IdentityDecisions(p, identity))
  }

  ghost function ObjectFed(p: Policy, h: History, r: ObjectDetectionResult, id: EventId): History {
    h.(emitted := h.emitted + ObjectDecisions(p, h.Score(), r, id))
  }

  ghost function BrowserFed(p: Policy, h: History, r: BrowserEventResult, id: EventId): History {
    h.(emitted := h.emitted + BrowserDecisions(p, h.Score(), r, id))
  }

  ghost function AudioFed(p: Policy, h: History, r: AudioVadResult, id: EventId): History {
    h.(emitted := h.emitted + AudioDecisions(p, h.Score(), r, id))
  }

  // -------------------------------------------------------------------------
  // What every history satisfies when each path is fed distinct minted ids
  // -------------------------------------------------------------------------

  /** Distinct ids, all of them minted. */
  predicate Fresh(ids: seq<EventId>, minted: set<EventId>) {
    Distinct(ids) && forall id :: id in ids ==> id in minted
  }

  /** Each path was fed distinct minted ids, and every decision returned cites distinct minted ids. */
  predicate Sound(h: History, minted: set<EventId>) {
    && Fresh(Ids(h.face), minted)
    && Fresh(FrameIds(h.gaze), minted)
    && Fresh(Ids(h.liveness), minted)
    && Fresh(Ids(h.identity), minted)
    && forall d :: d in h.emitted ==> Fresh(d.contributing, minted)
  }

  lemma {:induction false} FreshStep(ids: seq<EventId>, id: EventId, minted: set<EventId>)
    requires Fresh(ids, minted) && id in minted && id !in ids
    ensures Fresh(ids + [id], minted)
  {
  }

  /** Decisions that cite a path's ids in feed order cite distinct minted ids. */
  lemma {:induction false} CitedFresh(ds: seq<FlagDecision>, fed: seq<EventId>, minted: set<EventId>)
    requires Cites(ds, fed) && Fresh(fed, minted)
    ensures forall d :: d in ds ==> Fresh(d.contributing, minted)
  {
    CitationsDistinct(ds, fed);
  }

  lemma {:induction false} FaceKeepsSound(p: Policy, h: History, r: FacePresenceResult, id: EventId, minted: set<EventId>)
    requires Sound(h, minted) && id in minted && id !in Ids(h.face)
    ensures Sound(FaceFed(p, h, r, id), minted)
  {
    hide Fresh, SecondPersonDecisions;
    var face := h.face + [FaceObs(r, id)];
    assert Ids(face) == Ids(h.face) + [id];
    FreshStep(Ids(h.face), id, minted);
    SecondPersonTrail(p, face);
    CitedFresh(SecondPersonDecisions(p, face), Ids(face), minted);
  }

  lemma {:induction false} GazeKeepsSound(
    p: Policy, h: History, r: HeadPoseGazeResult, id: EventId, at: int, minted: set<EventId>)
    requires Sound(h, minted) && id in minted && id !in FrameIds(h.gaze)
    ensures Sound(GazeFed(p, h, r, id, at), minted)
  {
    hide Fresh, GazeDecisions;
    var gaze := h.gaze + [GazeFrame(r.offScreen, id, at)];
    assert FrameIds(gaze) == FrameIds(h.gaze) + [id];
    FreshStep(FrameIds(h.gaze), id, minted);
    GazeTrail(p, h.Score(), gaze, r.confidence);
    CitedFresh(GazeDecisions(p, h.Score(), gaze, r.confidence), FrameIds(gaze), minted);
  }

  lemma {:induction false} LivenessKeepsSound(p: Policy, h: History, r: LivenessResult, id: EventId, minted: set<EventId>)
    requires Sound(h, minted) && id in minted && id !in Ids(h.liveness)
    ensures Sound(LivenessFed(p, h, r, id), minted)
  {
    hide Fresh, LivenessDecisions;
    var liveness := h.liveness + [LivenessObs(r, id)];
    assert Ids(liveness) == Ids(h.liveness) + [id];
    FreshStep(Ids(h.liveness), id, minted);
    LivenessTrail(p, h.Score(), liveness);
    CitedFresh(LivenessDecisions(p, h.Score(), liveness), Ids(liveness), minted);
  }

  lemma {:induction false} IdentityKeepsSound(
    p: Policy, h: History, r: IdentityMatchResult, id: EventId, minted: set<EventId>)
    requires Sound(h, minted) && id in minted && id !in Ids(h.identity)
    ensures Sound(IdentityFed(p, h, r, id), minted)
  {
    hide Fresh, IdentityDecisions;
    var identity := h.identity + [IdentityObs(p, r, id)];
    assert Ids(identity) == Ids(h.identity) + [id];
    FreshStep(Ids(h.identity), id, minted);
    IdentityTrail(p, identity);
    CitedFresh(IdentityDecisions(p, identity), Ids(identity), minted);
  }

  lemma {:induction false} SinglesKeepSound(
    p: Policy, h: History, det: ObjectDetectionResult, browser: BrowserEventResult, audio: AudioVadResult,
    id: EventId, minted: set<EventId>)
    requires Sound(h, minted) && id in minted
    ensures Sound(ObjectFed(p, h, det, id), minted)
    ensures Sound(BrowserFed(p, h, browser, id), minted)
    ensures Sound(AudioFed(p, h, audio, id), minted)
  {
    assert Fresh([id], minted);
    var s := h.Score();
    assert forall d :: d in ObjectDecisions(p, s, det, id) ==> d.contributing == [id];
    assert forall d :: d in BrowserDecisions(p, s, browser, id) ==> d.contributing == [id];
    assert forall d :: d in AudioDecisions(p, s, audio, id) ==> d.contributing == [id];
  }
}
