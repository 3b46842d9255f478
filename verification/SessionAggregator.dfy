/** The per-session fusion aggregator: incremental state per detection path, kept equal to
    functions of everything the path has been fed. */
module SessionAggregators {
  import opened FusionTypes
  import opened Runs
  import opened GazeEpisodes
  import opened Fusion
  import opened Histories
  import FirstTime
  import Statistics

  /** The bounded window of results after one more: append, then drop the front if too long. */
  function Slide<T>(window: seq<T>, r: T, size: nat): (w: seq<T>) {
    if |window| + 1 > size then (window + [r])[1..] else window + [r]
  }

  function LivenessSeen(window: seq<LivenessResult>, ids: seq<EventId>): (w: seq<Obs<UnitReal>>)
    requires |window| == |ids|
    ensures |w| == |window|
    ensures forall i :: 0 <= i < |w| ==> w[i] == LivenessObs(window[i], ids[i])
  {
    seq(|window|, i requires 0 <= i < |window| => LivenessObs(window[i], ids[i]))
  }

  function IdentitySeen(p: Policy, window: seq<IdentityMatchResult>, ids: seq<EventId>): (w: seq<Obs<UnitReal>>)
    requires |window| == |ids|
    ensures |w| == |window|
    ensures forall i :: 0 <= i < |w| ==> w[i] == IdentityObs(p, window[i], ids[i])
  {
    seq(|window|, i requires 0 <= i < |window| => IdentityObs(p, window[i], ids[i]))
  }

  predicate AllSpoof(window: seq<LivenessResult>) {
    forall i :: 0 <= i < |window| ==> !window[i].isReal
  }

  function LivenessScores(window: seq<LivenessResult>): (scores: seq<UnitReal>)
    ensures |scores| == |window|
    ensures forall i :: 0 <= i < |window| ==> scores[i] == window[i].score
  {
    seq(|window|, i requires 0 <= i < |window| => window[i].score)
  }

  function Similarities(window: seq<IdentityMatchResult>): (scores: seq<UnitReal>)
    ensures |scores| == |window|
    ensures forall i :: 0 <= i < |window| ==> scores[i] == window[i].similarity
  {
    seq(|window|, i requires 0 <= i < |window| => window[i].similarity)
  }

  // -------------------------------------------------------------------------
  // How each path's fields relate to its history
  // -------------------------------------------------------------------------

  ghost predicate FaceTied(p: Policy, h: seq<Obs<Confidence>>, count: nat, ids: seq<EventId>, fired: bool) {
    var k := p.secondFaceConfirmationFrames;
    p.terminateOnSecondFace ==>
      && fired == FirstTime.Happened(FullWindow(k), h)
      && (!fired ==> count == SuffixRun(h) && ids == Ids(Last(h, count)))
  }

  ghost predicate GazeTied(
    p: Policy, h: seq<GazeFrame>, start: Option<int>, ids: seq<EventId>, q: seq<GazeAwayEvent>, fired: bool)
  {
    && fired == FirstTime.Happened(GazeLimitReached(p), h)
    && (!fired ==> q == GazeWindow(p, h) && StreakTied(Seen(h), start, ids))
  }

  ghost predicate LivenessTied(
    p: Policy, h: seq<Obs<UnitReal>>, window: seq<LivenessResult>, ids: seq<EventId>, run: nat)
  {
    p.livenessCheckEnabled ==>
      && |window| == |ids|
      && Last(h, p.livenessConfirmationFrames) == LivenessSeen(window, ids)
      && run == SuffixRun(h)
  }

  ghost predicate IdentityTied(
    p: Policy, h: seq<Obs<UnitReal>>, window: seq<IdentityMatchResult>, ids: seq<EventId>, fired: bool)
  {
    && fired == FirstTime.Happened(FullWindow(p.identityConfirmationFrames), h)
    && (!fired ==>
          && |window| == |ids|
          && Last(h, p.identityConfirmationFrames) == IdentitySeen(p, window, ids))
  }

  // The streak after one more frame

  function StartAfter(start: Option<int>, f: GazeFrame): Option<int> {
    match f.offScreen
    case None => start
    case Some(off) => if !off then None else if start == None then Some(f.at) else start
  }

  function IdsAfter(ids: seq<EventId>, f: GazeFrame): seq<EventId> {
    match f.offScreen
    case None => ids
    case Some(off) => if off then ids + [f.id] else []
  }

  function ClosedAfter(start: Option<int>, ids: seq<EventId>, f: GazeFrame, minMs: int): seq<GazeAwayEvent> {
    if f.offScreen == Some(false) && start.Some? && f.at - start.value >= minMs then
      [GazeAwayEvent(start.value, f.at, ids)]
    else []
  }

  /** The open streak of the frames seen: when it started and the ids it holds. */
  predicate StreakTied(g: seq<Obs<int>>, start: Option<int>, ids: seq<EventId>) {
    var run := SuffixRun(g);
    && ids == Ids(Last(g, run))
    && start == if run > 0 then Some(g[|g| - run].reading) else None
  }

  class SessionAggregator {
    const policy: Policy

    // Path 1: second-person confirmation counter
    var consecutiveSecondPersonFrames: nat
    var secondPersonEventIds: seq<EventId>
    var secondPersonFired: bool

    // Path 2: gaze state machine
    var gazeOffStartMs: Option<int>
    var gazeOffEventIds: seq<EventId>
    var gazeAwayEvents: seq<GazeAwayEvent>
    var gazeTerminationFired: bool

    // Path 3: accumulated score
    var accumulatedScore: real

    // Path 4: liveness
    var livenessWindow: seq<LivenessResult>
    var livenessEventIdsWindow: seq<EventId>
    var livenessSpoofRunLength: nat

    // Path 5: identity match
    var identityWindow: seq<IdentityMatchResult>
    var identityEventIdsWindow: seq<EventId>
    var identityMismatchFired: bool

    ghost var hist: History

    /** Every field agrees with the history, and the score is the sum of all deltas returned. */
    ghost predicate Valid()
      reads this
    {
      && FaceTied(policy, hist.face, consecutiveSecondPersonFrames, secondPersonEventIds, secondPersonFired)
      && GazeTied(policy, hist.gaze, gazeOffStartMs, gazeOffEventIds, gazeAwayEvents, gazeTerminationFired)
      && LivenessTied(policy, hist.liveness, livenessWindow, livenessEventIdsWindow, livenessSpoofRunLength)
      && IdentityTied(policy, hist.identity, identityWindow, identityEventIdsWindow, identityMismatchFired)
      && accumulatedScore == TotalDelta(hist.emitted)
    }

    constructor (policy: Policy)
      ensures Valid()
      ensures this.policy == policy && hist == NO_HISTORY
    {
      this.policy := policy;
      consecutiveSecondPersonFrames, secondPersonEventIds, secondPersonFired := 0, [], false;
      gazeOffStartMs, gazeOffEventIds, gazeAwayEvents, gazeTerminationFired := None, [], [], false;
      accumulatedScore := 0.0;
      livenessWindow, livenessEventIdsWindow, livenessSpoofRunLength := [], [], 0;
      identityWindow, identityEventIdsWindow, identityMismatchFired := [], [], false;
      hist := NO_HISTORY;
      new;
      hide FaceTied, GazeTied, LivenessTied, IdentityTied;
      FaceStart(policy);
      GazeStart(policy);
      LivenessStart(policy);
      IdentityStart(policy);
    }

    // -- Accessors ------------------------------------------------------------

    function AccumulatedScore(): (score: real)
      requires Valid()
      reads this
      ensures score == TotalDelta(hist.emitted)
    {
      accumulatedScore
    }

    function GazeAwayCountInWindow(): (count: nat)
      requires Valid()
      reads this
      ensures !FirstTime.Happened(GazeLimitReached(policy), hist.gaze) ==> count == |GazeWindow(policy, hist.gaze)|
    {
      |gazeAwayEvents|
    }

    // -- Path 1 ---------------------------------------------------------------

    method ProcessFacePresence(result: FacePresenceResult, id: EventId) returns (ds: seq<FlagDecision>)
      requires Valid()
      modifies this
      ensures Valid()
      ensures hist == FaceFed(policy, old(hist), result, id)
      ensures hist.face == old(hist).face + [Obs(result.faceCount >= 2, id, result.confidence)]
      ensures hist.emitted == old(hist).emitted + ds
    {
      hide FaceTied, GazeTied, LivenessTied, IdentityTied, TotalDelta, SecondPersonDecisions;
      hide Ids, Last, SuffixRun, FullWindow, FirstTime.HappensNow;
      var k := policy.secondFaceConfirmationFrames;
      ghost var o := FaceObs(result, id);
      FaceStep(policy, hist.face, o, consecutiveSecondPersonFrames, secondPersonEventIds, secondPersonFired);
      ds := [];
      if !secondPersonFired && policy.terminateOnSecondFace {
        if result.faceCount >= 2 {
          consecutiveSecondPersonFrames := consecutiveSecondPersonFrames + 1;
          secondPersonEventIds := secondPersonEventIds + [id];
          if consecutiveSecondPersonFrames >= k {
            secondPersonFired := true;
            ds := [FlagDecision(SecondPerson, Critical, result.confidence, true, None, secondPersonEventIds, 0.0)];
          }
        } else {
          consecutiveSecondPersonFrames := 0;
          secondPersonEventIds := [];
        }
      }
      NoDelta(ds);
      TotalDeltaConcat(hist.emitted, ds);
      hist := hist.(face := hist.face + [o], emitted := hist.emitted + ds);
    }

    // -- Path 4 ---------------------------------------------------------------

    method ProcessLiveness(result: LivenessResult, id: EventId) returns (ds: seq<FlagDecision>)
      requires Valid()
      modifies this
      ensures Valid()
      ensures hist == LivenessFed(policy, old(hist), result, id)
      ensures hist.liveness == old(hist).liveness + [Obs(!result.isReal, id, result.score)]
      ensures hist.emitted == old(hist).emitted + ds
    {
      hide FaceTied, GazeTied, LivenessTied, IdentityTied;
      hide SuffixRun, Last, Ids, Readings, CompletesTile, MediumFlag, TotalDelta, Statistics.WindowInterval, AllSpoof, Slide;
      ghost var o := LivenessObs(result, id);
      ghost var h := hist.liveness + [o];
      ds := [];
      if policy.livenessCheckEnabled {
        var size := policy.livenessConfirmationFrames;
        LivenessStep(policy, hist.liveness, result, id, livenessWindow, livenessEventIdsWindow, livenessSpoofRunLength);
        SlideLiveness(result, id, size);
        LivenessConfirms(policy, h, livenessWindow, livenessEventIdsWindow, livenessSpoofRunLength);
        if |livenessWindow| >= size && !result.isReal && AllSpoof(livenessWindow) && livenessSpoofRunLength % size == 0 {
          LivenessReadings(policy, h, livenessWindow, livenessEventIdsWindow, livenessSpoofRunLength);
          var interval := Statistics.WindowInterval(LivenessScores(livenessWindow));
          if policy.livenessCheckAction == Some(CriticalTerminate) {
            ds := [FlagDecision(LivenessCheckFailed, Critical, interval, true, None, livenessEventIdsWindow, 0.0)];
          } else {
            ds := Accumulate(LivenessCheckFailed, interval, livenessEventIdsWindow);
          }
        }
      }
      if !policy.livenessCheckEnabled {
        LivenessOff(policy, h, livenessWindow, livenessEventIdsWindow, livenessSpoofRunLength);
      }
      NoDelta(ds);
      TotalDeltaConcat(hist.emitted, ds);
      hist := hist.(liveness := h, emitted := hist.emitted + ds);
    }

    /** Appends to the rolling window, drops its front if it is too long, and counts the run. */
    method SlideLiveness(result: LivenessResult, id: EventId, size: nat)
      requires |livenessWindow| == |livenessEventIdsWindow|
      modifies this`livenessWindow, this`livenessEventIdsWindow, this`livenessSpoofRunLength
      ensures livenessWindow == Slide(old(livenessWindow), result, size)
      ensures livenessEventIdsWindow == Slide(old(livenessEventIdsWindow), id, size)
      ensures livenessSpoofRunLength == if result.isReal then 0 else old(livenessSpoofRunLength) + 1
    {
      livenessWindow := livenessWindow + [result];
      livenessEventIdsWindow := livenessEventIdsWindow + [id];
      if |livenessWindow| > size {
        livenessWindow := livenessWindow[1..];
        livenessEventIdsWindow := livenessEventIdsWindow[1..];
      }
      if result.isReal {
        livenessSpoofRunLength := 0;
      } else {
        livenessSpoofRunLength := livenessSpoofRunLength + 1;
      }
    }

    /** Emits a MEDIUM flag, adds its weight to the score and checks the threshold. */
    method Accumulate(rule: RuleCode, c: Confidence, ids: seq<EventId>) returns (ds: seq<FlagDecision>)
      modifies this`accumulatedScore
      ensures ds == MediumFlag(policy, old(accumulatedScore), rule, c, ids)
      ensures accumulatedScore == old(accumulatedScore) + TotalDelta(ds)
    {
      var weight := policy.WeightFor(rule);
      ds := [FlagDecision(rule, Medium, c, false, None, ids, weight)];
      accumulatedScore := accumulatedScore + weight;
      var acc := CheckAccumulatedThreshold(ids);
      TotalDeltaConcat(ds, acc);
      assert ds[..0] == [] && (acc != [] ==> acc[..0] == []);
      ds := ds + acc;
    }

    function CheckAccumulatedThreshold(ids: seq<EventId>): (ds: seq<FlagDecision>)
      reads this
      ensures ds == AccumulatedFlag(policy, accumulatedScore, ids)
    {
      var threshold := policy.mediumScoreTerminationThreshold;
      if threshold <= 0.0 then []
      else if accumulatedScore < threshold then []
      else if policy.mediumScoreAction == AutoTerminate then
        [FlagDecision(RuleCode.AccumulatedScore, Critical, CERTAIN, true, None, ids, 0.0)]
      else
        [FlagDecision(RuleCode.AccumulatedScore, Critical, CERTAIN, false, None, ids, 0.0)]
    }

    // -- Path 2 ---------------------------------------------------------------

    method ProcessGaze(result: HeadPoseGazeResult, id: EventId, timestampMs: int) returns (ds: seq<FlagDecision>)
      requires Valid()
      modifies this
      ensures Valid()
      ensures hist == GazeFed(policy, old(hist), result, id, timestampMs)
      ensures hist.gaze == old(hist).gaze + [GazeFrame(result.offScreen, id, timestampMs)]
      ensures hist.emitted == old(hist).emitted + ds
    {
      hide FaceTied, GazeTied, LivenessTied, IdentityTied;
      hide GazeDecisions, MediumFlag, TotalDelta, PopExpired, AllIds, StartAfter, IdsAfter, ClosedAfter, GazeFlag;
      ghost var f, h := GazeFrame(result.offScreen, id, timestampMs), hist.gaze;
      ds := [];
      if gazeTerminationFired {
        GazeDone(policy, h, f, gazeOffStartMs, gazeOffEventIds, gazeAwayEvents, accumulatedScore, result.confidence);
      } else {
        AdvanceWindow(result, id, timestampMs);
        ds := EvaluateWindow(result.confidence);
      }
      NoDelta([]);
      TotalDeltaConcat(hist.emitted, ds);
      hist := hist.(gaze := h + [f], emitted := hist.emitted + ds);
    }

    /** Compares the window with the limits; termination takes priority over the warning. */
    method EvaluateWindow(c: Confidence) returns (ds: seq<FlagDecision>)
      requires !gazeTerminationFired
      modifies this`gazeTerminationFired, this`accumulatedScore
      ensures ds == GazeFlag(policy, old(accumulatedScore), gazeAwayEvents, c)
      ensures gazeTerminationFired == (|gazeAwayEvents| >= policy.gazeTerminationLimit)
      ensures accumulatedScore == old(accumulatedScore) + TotalDelta(ds)
    {
      ds := [];
      var count := |gazeAwayEvents|;
      if count >= policy.gazeTerminationLimit {
        gazeTerminationFired := true;
        var ids := CollectIds(gazeAwayEvents);
        ds := [FlagDecision(GazeAwayFrequency, Critical, c, true, None, ids, 0.0)];
      } else if count >= policy.gazeWarningLimit {
        var latest := if count > 0 then gazeAwayEvents[count - 1].contributing else [];
        ds := Accumulate(GazeAwayFrequency, c, latest);
      }
      NoDelta(ds);
    }

    /** Tracks the streak, appends an episode it closes, and expires old episodes: the fields
        become those of the history with this frame, and its flag depends on the deque alone. */
    method AdvanceWindow(result: HeadPoseGazeResult, id: EventId, timestampMs: int)
      requires GazeTied(policy, hist.gaze, gazeOffStartMs, gazeOffEventIds, gazeAwayEvents, false)
      modifies this`gazeOffStartMs, this`gazeOffEventIds, this`gazeAwayEvents
      ensures GazeTied(
        policy, hist.gaze + [GazeFrame(result.offScreen, id, timestampMs)],
        gazeOffStartMs, gazeOffEventIds, gazeAwayEvents, |gazeAwayEvents| >= policy.gazeTerminationLimit)
      ensures GazeDecisions(
        policy, accumulatedScore, hist.gaze + [GazeFrame(result.offScreen, id, timestampMs)], result.confidence) ==
          GazeFlag(policy, accumulatedScore, gazeAwayEvents, result.confidence)
    {
      hide GazeTied, GazeDecisions, GazeFlag, StartAfter, IdsAfter, ClosedAfter, PopExpired;
      ghost var f := GazeFrame(result.offScreen, id, timestampMs);
      ghost var h, start, ids, q := hist.gaze, gazeOffStartMs, gazeOffEventIds, gazeAwayEvents;
      StreakStarted(policy, h, start, ids, q);
      TrackStreak(result, id, timestampMs);
      assert gazeOffStartMs == StartAfter(start, f) && gazeOffEventIds == IdsAfter(ids, f);
      ExpireOldEvents(timestampMs - policy.gazeWindowSeconds * 1000);
      ghost var q' := gazeAwayEvents;
      GazeStep(policy, h, f, start, ids, q,
               gazeOffStartMs, gazeOffEventIds, q', accumulatedScore, result.confidence);
      assert h == hist.gaze;
    }

    /** Continues, starts or closes the off-screen streak; a closed one that is long enough is
        appended to the deque. */
    method TrackStreak(result: HeadPoseGazeResult, id: EventId, timestampMs: int)
      requires gazeOffStartMs == None ==> gazeOffEventIds == []
      modifies this`gazeOffStartMs, this`gazeOffEventIds, this`gazeAwayEvents
      ensures var f := GazeFrame(result.offScreen, id, timestampMs);
        && gazeOffStartMs == StartAfter(old(gazeOffStartMs), f)
        && gazeOffEventIds == IdsAfter(old(gazeOffEventIds), f)
        && gazeAwayEvents == old(gazeAwayEvents) +
             ClosedAfter(old(gazeOffStartMs), old(gazeOffEventIds), f, policy.gazeMinDurationMs)
    {
      if result.offScreen == Some(true) {
        if gazeOffStartMs == None {
          gazeOffStartMs := Some(timestampMs);
        }
        gazeOffEventIds := gazeOffEventIds + [id];
      } else if result.offScreen == Some(false) {
        if gazeOffStartMs.Some? {
          if timestampMs - gazeOffStartMs.value >= policy.gazeMinDurationMs {
            gazeAwayEvents := gazeAwayEvents + [GazeAwayEvent(gazeOffStartMs.value, timestampMs, gazeOffEventIds)];
          }
          gazeOffStartMs := None;
          gazeOffEventIds := [];
        }
      }
      assert old(gazeAwayEvents) + [] == old(gazeAwayEvents);
    }

    /** The popleft loop at the front of the deque. */
    method ExpireOldEvents(cutoff: int)
      modifies this`gazeAwayEvents
      ensures gazeAwayEvents == PopExpired(old(gazeAwayEvents), cutoff)
    {
      while |gazeAwayEvents| > 0 && gazeAwayEvents[0].endedAt < cutoff
        invariant PopExpired(gazeAwayEvents, cutoff) == PopExpired(old(gazeAwayEvents), cutoff)
        decreases |gazeAwayEvents|
      {
        gazeAwayEvents := gazeAwayEvents[1..];
      }
    }

    static method CollectIds(events: seq<GazeAwayEvent>) returns (ids: seq<EventId>)
      ensures ids == AllIds(events)
    {
      ids := [];
      for i := 0 to |events|
        invariant ids == AllIds(events[..i])
      {
        assert events[..i + 1][..i] == events[..i];
        ids := ids + events[i].contributing;
      }
      assert events[..|events|] == events;
    }

    // -- Path 5 ---------------------------------------------------------------

    method ProcessIdentityMatch(result: IdentityMatchResult, id: EventId) returns (ds: seq<FlagDecision>)
      requires Valid()
      modifies this
      ensures Valid()
      ensures hist == IdentityFed(policy, old(hist), result, id)
      ensures hist.identity == old(hist).identity + [
        Obs(result.similarity < policy.identitySimilarityThreshold, id, result.similarity)]
      ensures hist.emitted == old(hist).emitted + ds
    {
      hide FaceTied, GazeTied, LivenessTied, IdentityTied, Similarities, Slide;
      hide SuffixRun, Last, Ids, Readings, FullWindow, FirstTime.HappensNow, TotalDelta, Statistics.WindowInterval;
      var size, threshold := policy.identityConfirmationFrames, policy.identitySimilarityThreshold;
      ghost var h, h' := hist.identity, hist.identity + [IdentityObs(policy, result, id)];
      ds := [];
      if identityMismatchFired {
        IdentityDone(policy, h, IdentityObs(policy, result, id), identityWindow, identityEventIdsWindow);
      } else {
        IdentityStep(policy, h, result, id, identityWindow, identityEventIdsWindow);
        SlideIdentity(result, id, size);
        if |identityWindow| >= size {
          var anyMatch := exists i :: 0 <= i < |identityWindow| && identityWindow[i].similarity >= threshold;
          if !anyMatch {
            var scores := Similarities(identityWindow);
            assert scores == Readings(Last(h', size));
            var interval := Statistics.WindowInterval(scores);
            identityMismatchFired := true;
            ds := [FlagDecision(IdentityMismatch, Critical, interval, true, None, identityEventIdsWindow, 0.0)];
          }
        }
      }
      NoDelta(ds);
      TotalDeltaConcat(hist.emitted, ds);
      hist := hist.(identity := h', emitted := hist.emitted + ds);
    }

    method SlideIdentity(result: IdentityMatchResult, id: EventId, size: nat)
      requires |identityWindow| == |identityEventIdsWindow|
      modifies this`identityWindow, this`identityEventIdsWindow
      ensures identityWindow == Slide(old(identityWindow), result, size)
      ensures identityEventIdsWindow == Slide(old(identityEventIdsWindow), id, size)
    {
      identityWindow := identityWindow + [result];
      identityEventIdsWindow := identityEventIdsWindow + [id];
      if |identityWindow| > size {
        identityWindow := identityWindow[1..];
        identityEventIdsWindow := identityEventIdsWindow[1..];
      }
    }

    // -- Object detection, browser events, audio ----------------------------------

    method ProcessObjectDetection(result: ObjectDetectionResult, id: EventId) returns (ds: seq<FlagDecision>)
      requires Valid()
      modifies this
      ensures Valid()
      ensures hist == ObjectFed(policy, old(hist), result, id)
      ensures hist.emitted == old(hist).emitted + ds
    {
      hide FaceTied, GazeTied, LivenessTied, IdentityTied, TotalDelta;
      ds := [];
      if !(result.isBook && !result.bookFlagged) {
        var rule := if result.isBook then BookDetected else ObjectDetected;
        if result.exemption.Some? {
          ds := [FlagDecision(rule, Low, result.confidence, false, result.exemption, [id], 0.0)];
        } else {
          ds := Accumulate(rule, result.confidence, [id]);
        }
      }
      NoDelta(ds);
      TotalDeltaConcat(hist.emitted, ds);
      hist := hist.(emitted := hist.emitted + ds);
    }

    method ProcessBrowserEvent(result: BrowserEventResult, id: EventId) returns (ds: seq<FlagDecision>)
      requires Valid()
      modifies this
      ensures Valid()
      ensures hist == BrowserFed(policy, old(hist), result, id)
      ensures hist.emitted == old(hist).emitted + ds
    {
      hide FaceTied, GazeTied, LivenessTied, IdentityTied, TotalDelta;
      if result.accumulates {
        ds := Accumulate(BrowserEvent, CERTAIN, [id]);
      } else {
        ds := [FlagDecision(BrowserEvent, Medium, CERTAIN, false, None, [id], 0.0)];
      }
      NoDelta(ds);
      TotalDeltaConcat(hist.emitted, ds);
      hist := hist.(emitted := hist.emitted + ds);
    }

    method ProcessAudioVad(result: AudioVadResult, id: EventId) returns (ds: seq<FlagDecision>)
      requires Valid()
      modifies this
      ensures Valid()
      ensures hist == AudioFed(policy, old(hist), result, id)
      ensures hist.emitted == old(hist).emitted + ds
    {
      hide FaceTied, GazeTied, LivenessTied, IdentityTied, TotalDelta;
      ds := [];
      if !result.isSilence {
        ds := Accumulate(AudioAnomaly, result.confidence, [id]);
      }
      NoDelta(ds);
      TotalDeltaConcat(hist.emitted, ds);
      hist := hist.(emitted := hist.emitted + ds);
    }
  }

  // -------------------------------------------------------------------------
  // The first and the next call of each path
  // -------------------------------------------------------------------------

  lemma {:induction false} FaceStart(p: Policy)
    ensures FaceTied(p, [], 0, [], false)
  {
    FirstTime.NothingYet(FullWindow<Confidence>(p.secondFaceConfirmationFrames));
  }

  lemma {:induction false} GazeStart(p: Policy)
    ensures GazeTied(p, [], None, [], [], false)
  {
    FirstTime.NothingYet(GazeLimitReached(p));
  }

  lemma {:induction false} LivenessStart(p: Policy)
    ensures LivenessTied(p, [], [], [], 0)
  {
  }

  lemma {:induction false} IdentityStart(p: Policy)
    ensures IdentityTied(p, [], [], [], false)
  {
    FirstTime.NothingYet(FullWindow<UnitReal>(p.identityConfirmationFrames));
  }

  lemma {:induction false} NoDelta(ds: seq<FlagDecision>)
    ensures |ds| == 0 || (|ds| == 1 && ds[0].scoreDelta == 0.0) ==> TotalDelta(ds) == 0.0
  {
    assert |ds| == 1 ==> ds[..0] == [];
  }

  lemma {:induction false} RunStep<T>(h: seq<Obs<T>>, o: Obs<T>)
    ensures SuffixRun(h + [o]) == if o.hit then SuffixRun(h) + 1 else 0
    ensures Ids(Last(h + [o], SuffixRun(h + [o]))) == if o.hit then Ids(Last(h, SuffixRun(h))) + [o.id] else []
  {
    hide Ids, Last;
    assert (h + [o])[..|h|] == h;
  }

  /** A bounded window after one more frame: append, then drop the front if it is too long. */
  lemma {:induction false} WindowStep<T>(h: seq<T>, o: T, size: nat)
    requires size > 0
    ensures Last(h + [o], size) ==
              if |Last(h, size)| + 1 > size then (Last(h, size) + [o])[1..] else Last(h, size) + [o]
  {
  }

  lemma {:induction false} LastAllHits<T>(h: seq<Obs<T>>, k: nat)
    ensures AllLast(h, k) <==> |h| >= k && forall i :: 0 <= i < k ==> Last(h, k)[i].hit
  {
    if |h| >= k {
      assert forall i :: 0 <= i < k ==> Last(h, k)[i] == h[|h| - k + i];
      assert forall i :: |h| - k <= i < |h| ==> h[i] == Last(h, k)[i - (|h| - k)];
    }
  }

  lemma {:induction false} FaceStep(
    p: Policy, h: seq<Obs<Confidence>>, o: Obs<Confidence>, count: nat, ids: seq<EventId>, fired: bool)
    requires FaceTied(p, h, count, ids, fired)
    ensures !p.terminateOnSecondFace || fired ==>
      FaceTied(p, h + [o], count, ids, fired) && SecondPersonDecisions(p, h + [o]) == []
    ensures p.terminateOnSecondFace && !fired && !o.hit ==>
      FaceTied(p, h + [o], 0, [], false) && SecondPersonDecisions(p, h + [o]) == []
    ensures p.terminateOnSecondFace && !fired && o.hit ==>
      var fires := count + 1 >= p.secondFaceConfirmationFrames;
      && FaceTied(p, h + [o], count + 1, ids + [o.id], fires)
      && SecondPersonDecisions(p, h + [o]) ==
           if fires then TerminatingFlag(SecondPerson, o.reading, ids + [o.id]) else []
  {
    var k := p.secondFaceConfirmationFrames;
    FirstTime.Step(FullWindow(k), h, o);
    RunStep(h, o);
    RunReachesWindow(h + [o], k);
    if FirstTime.HappensNow(FullWindow(k), h + [o]) {
      ConfirmingRunIsWindow(h + [o], k);
    }
  }

  lemma {:induction false} LivenessOff(
    p: Policy, h: seq<Obs<UnitReal>>, window: seq<LivenessResult>, ids: seq<EventId>, run: nat)
    requires !p.livenessCheckEnabled
    ensures LivenessTied(p, h, window, ids, run)
  {
  }

  lemma {:induction false} LivenessStep(
    p: Policy, h: seq<Obs<UnitReal>>, r: LivenessResult, id: EventId,
    window: seq<LivenessResult>, ids: seq<EventId>, run: nat)
    requires p.livenessCheckEnabled && LivenessTied(p, h, window, ids, run)
    ensures |window| == |ids|
    ensures var size := p.livenessConfirmationFrames;
      LivenessTied(p, h + [LivenessObs(r, id)], Slide(window, r, size), Slide(ids, id, size), if r.isReal then 0 else run + 1)
  {
    var size, o := p.livenessConfirmationFrames, LivenessObs(r, id);
    assert Last(h + [o], size) == Slide(LivenessSeen(window, ids), o, size) by {
      hide SuffixRun;
      WindowStep(h, o, size);
    }
    assert LivenessSeen(Slide(window, r, size), Slide(ids, id, size)) == Slide(LivenessSeen(window, ids), o, size);
    RunStep(h, o);
  }

  /** The three conditions the program tests are the single one on the run length. */
  lemma {:induction false} LivenessConfirms(
    p: Policy, h: seq<Obs<UnitReal>>, window: seq<LivenessResult>, ids: seq<EventId>, run: nat)
    requires p.livenessCheckEnabled && LivenessTied(p, h, window, ids, run)
    ensures var size := p.livenessConfirmationFrames;
      CompletesTile(h, size) <==>
        run > 0 && |window| >= size && AllSpoof(window) && run % size == 0
  {
    var size := p.livenessConfirmationFrames;
    if CompletesTile(h, size) {
      TileFillsWindow(h, size);
      LastAllHits(h, size);
    }
  }

  lemma {:induction false} LivenessReadings(
    p: Policy, h: seq<Obs<UnitReal>>, window: seq<LivenessResult>, ids: seq<EventId>, run: nat)
    requires p.livenessCheckEnabled && LivenessTied(p, h, window, ids, run)
    ensures LivenessScores(window) == Readings(Last(h, p.livenessConfirmationFrames))
    ensures ids == Ids(Last(h, p.livenessConfirmationFrames))
  {
  }

  lemma {:induction false} IdentityStep(
    p: Policy, h: seq<Obs<UnitReal>>, r: IdentityMatchResult, id: EventId,
    window: seq<IdentityMatchResult>, ids: seq<EventId>)
    requires IdentityTied(p, h, window, ids, false)
    ensures |window| == |ids|
    ensures var size, h' := p.identityConfirmationFrames, h + [IdentityObs(p, r, id)];
      var window', ids' := Slide(window, r, size), Slide(ids, id, size);
      var fires := |window'| >= size &&
        forall i :: 0 <= i < |window'| ==> window'[i].similarity < p.identitySimilarityThreshold;
      && IdentityTied(p, h', window', ids', fires)
      && fires == FirstTime.HappensNow(FullWindow(size), h')
      && ids' == Ids(Last(h', size))
      && Similarities(window') == Readings(Last(h', size))
  {
    hide Ids, Last, Readings, Similarities, IdentitySeen, SuffixRun;
    var size, o := p.identityConfirmationFrames, IdentityObs(p, r, id);
    var window', ids' := Slide(window, r, size), Slide(ids, id, size);
    IdentityWindow(p, h, r, id, window, ids);
    assert Last(h + [o], size) == IdentitySeen(p, window', ids');
    LastAllHits(h + [o], size);
    FirstTime.Step(FullWindow(size), h, o);
  }

  lemma {:induction false} IdentityWindow(
    p: Policy, h: seq<Obs<UnitReal>>, r: IdentityMatchResult, id: EventId,
    window: seq<IdentityMatchResult>, ids: seq<EventId>)
    requires |window| == |ids| && Last(h, p.identityConfirmationFrames) == IdentitySeen(p, window, ids)
    ensures var size := p.identityConfirmationFrames;
      Last(h + [IdentityObs(p, r, id)], size) == IdentitySeen(p, Slide(window, r, size), Slide(ids, id, size))
  {
    var size, o := p.identityConfirmationFrames, IdentityObs(p, r, id);
    WindowStep(h, o, size);
    assert IdentitySeen(p, Slide(window, r, size), Slide(ids, id, size)) == Slide(IdentitySeen(p, window, ids), o, size);
  }

  lemma {:induction false} IdentityDone(
    p: Policy, h: seq<Obs<UnitReal>>, o: Obs<UnitReal>, window: seq<IdentityMatchResult>, ids: seq<EventId>)
    requires IdentityTied(p, h, window, ids, true)
    ensures IdentityTied(p, h + [o], window, ids, true) && IdentityDecisions(p, h + [o]) == []
  {
    FirstTime.Step(FullWindow(p.identityConfirmationFrames), h, o);
  }

  lemma {:induction false} GazeDone(
    p: Policy, h: seq<GazeFrame>, f: GazeFrame, start: Option<int>, ids: seq<EventId>, q: seq<GazeAwayEvent>,
    score: real, c: Confidence)
    requires GazeTied(p, h, start, ids, q, true)
    ensures GazeTied(p, h + [f], start, ids, q, true)
    ensures GazeDecisions(p, score, h + [f], c) == []
  {
    FirstTime.Step(GazeLimitReached(p), h, f);
    assert (h + [f])[..|h|] == h;
  }

  lemma {:induction false} StreakStep(g: seq<Obs<int>>, o: Obs<int>, start: Option<int>, ids: seq<EventId>)
    requires StreakTied(g, start, ids)
    ensures var f := GazeFrame(Some(o.hit), o.id, o.reading);
      StreakTied(g + [o], StartAfter(start, f), IdsAfter(ids, f))
  {
    hide Ids, Last, SuffixRun;
    RunStep(g, o);
    assert (g + [o])[..|g|] == g;
  }

  lemma {:induction false} SeenStep(h: seq<GazeFrame>, f: GazeFrame, start: Option<int>, ids: seq<EventId>)
    requires StreakTied(Seen(h), start, ids)
    ensures StreakTied(Seen(h + [f]), StartAfter(start, f), IdsAfter(ids, f))
  {
    hide StreakTied;
    assert (h + [f])[..|h|] == h;
    if f.offScreen.Some? {
      assert Seen(h + [f]) == Seen(h) + [Obs(f.offScreen.value, f.id, f.at)];
      StreakStep(Seen(h), Obs(f.offScreen.value, f.id, f.at), start, ids);
    } else {
      assert Seen(h + [f]) == Seen(h);
    }
  }

  lemma {:induction false} ClosedStep(h: seq<GazeFrame>, f: GazeFrame, start: Option<int>, ids: seq<EventId>, minMs: int)
    requires StreakTied(Seen(h), start, ids)
    ensures Closed(h + [f], minMs) == ClosedAfter(start, ids, f, minMs)
  {
    assert (h + [f])[..|h|] == h;
  }

  lemma {:induction false} DequeStep(p: Policy, h: seq<GazeFrame>, f: GazeFrame, start: Option<int>, ids: seq<EventId>)
    requires StreakTied(Seen(h), start, ids)
    ensures GazeWindow(p, h + [f]) == PopExpired(
      GazeWindow(p, h) + ClosedAfter(start, ids, f, p.gazeMinDurationMs), f.at - p.gazeWindowSeconds * 1000)
  {
    hide StreakTied, Closed;
    assert (h + [f])[..|h|] == h;
    ClosedStep(h, f, start, ids, p.gazeMinDurationMs);
  }

  /** One call of the gaze path before termination: the new streak, deque and latch are those of
      the longer history, and the flag depends on the new deque alone. */
  lemma {:induction false} GazeStep(
    p: Policy, h: seq<GazeFrame>, f: GazeFrame, start: Option<int>, ids: seq<EventId>, q: seq<GazeAwayEvent>,
    start': Option<int>, ids': seq<EventId>, q': seq<GazeAwayEvent>, score: real, c: Confidence)
    requires GazeTied(p, h, start, ids, q, false)
    requires start' == StartAfter(start, f) && ids' == IdsAfter(ids, f)
    requires q' ==
      PopExpired(q + ClosedAfter(start, ids, f, p.gazeMinDurationMs), f.at - p.gazeWindowSeconds * 1000)
    ensures GazeTied(p, h + [f], start', ids', q', |q'| >= p.gazeTerminationLimit)
    ensures GazeDecisions(p, score, h + [f], c) == GazeFlag(p, score, q', c)
  {
    hide StreakTied, PopExpired, ClosedAfter, GazeWindow, GazeFlag;
    SeenStep(h, f, start, ids);
    DequeStep(p, h, f, start, ids);
    FirstTime.Step(GazeLimitReached(p), h, f);
    assert (h + [f])[..|h|] == h;
  }

  lemma {:induction false} StreakStarted(
    p: Policy, h: seq<GazeFrame>, start: Option<int>, ids: seq<EventId>, q: seq<GazeAwayEvent>)
    requires GazeTied(p, h, start, ids, q, false)
    ensures start == None ==> ids == []
  {
  }
}
