/** Runs of the aggregator over inputs of all paths: when the accumulated-score flag is raised. */
module FusionRuns {
  import opened FusionTypes
  import opened Runs
  import opened GazeEpisodes
  import opened Fusion
  import opened Histories
  import FirstTime
  import Statistics

  datatype Input =
    | FaceInput(face: FacePresenceResult, id: EventId)
    | GazeInput(gaze: HeadPoseGazeResult, id: EventId, at: int)
    | LivenessInput(liveness: LivenessResult, id: EventId)
    | IdentityInput(identity: IdentityMatchResult, id: EventId)
    | ObjectInput(detection: ObjectDetectionResult, id: EventId)
    | BrowserInput(browser: BrowserEventResult, id: EventId)
    | AudioInput(audio: AudioVadResult, id: EventId)

  ghost function Fed(p: Policy, h: History, input: Input): History {
    match input
    case FaceInput(r, id) => FaceFed(p, h, r, id)
    case GazeInput(r, id, at) => GazeFed(p, h, r, id, at)
    case LivenessInput(r, id) => LivenessFed(p, h, r, id)
    case IdentityInput(r, id) => IdentityFed(p, h, r, id)
    case ObjectInput(r, id) => ObjectFed(p, h, r, id)
    case BrowserInput(r, id) => BrowserFed(p, h, r, id)
    case AudioInput(r, id) => AudioFed(p, h, r, id)
  }

  /** What the call returns. */
  ghost function Returned(p: Policy, h: History, input: Input): seq<FlagDecision> {
    match input
    case FaceInput(r, id) => SecondPersonDecisions(p, h.face + [FaceObs(r, id)])
    case GazeInput(r, id, at) => GazeDecisions(p, h.Score(), h.gaze + [GazeFrame(r.offScreen, id, at)], r.confidence)
    case LivenessInput(r, id) => LivenessDecisions(p, h.Score(), h.liveness + [LivenessObs(r, id)])
    case IdentityInput(r, id) => IdentityDecisions(p, h.identity + [IdentityObs(p, r, id)])
    case ObjectInput(r, id) => ObjectDecisions(p, h.Score(), r, id)
    case BrowserInput(r, id) => BrowserDecisions(p, h.Score(), r, id)
    case AudioInput(r, id) => AudioDecisions(p, h.Score(), r, id)
  }

  lemma {:induction false} FedAppends(p: Policy, h: History, input: Input)
    ensures Fed(p, h, input).emitted == h.emitted + Returned(p, h, input)
    ensures Fed(p, h, input).Score() == h.Score() + TotalDelta(Returned(p, h, input))
  {
    hide SecondPersonDecisions, GazeDecisions, LivenessDecisions, IdentityDecisions, ObjectDecisions, BrowserDecisions;
    hide AudioDecisions, TotalDelta;
    TotalDeltaConcat(h.emitted, Returned(p, h, input));
  }

  // -------------------------------------------------------------------------
  // What a call returns at most
  // -------------------------------------------------------------------------

  /** The rules of a path's own decisions. */
  function Rules(input: Input): set<RuleCode> {
    match input
    case FaceInput(_, _) => {SecondPerson}
    case GazeInput(_, _, _) => {GazeAwayFrequency}
    case LivenessInput(_, _) => {LivenessCheckFailed}
    case IdentityInput(_, _) => {IdentityMismatch}
    case ObjectInput(_, _) => {ObjectDetected, BookDetected}
    case BrowserInput(_, _) => {BrowserEvent}
    case AudioInput(_, _) => {AudioAnomaly}
  }

  /** Everything after the first decision of a call is the accumulated-score flag: CRITICAL and
      certain, citing the ids of the first, without a delta of its own, and terminating exactly if
      the policy says so. */
  predicate IsAccumulated(p: Policy, ds: seq<FlagDecision>) {
    && |ds| <= 1
    && forall d :: d in ds ==>
         && d.ruleCode == AccumulatedScore && d.severity == Critical
         && d.confidence == ConfidenceInterval(1.0, 1.0, 1.0)
         && (d.triggeredTermination <==> p.mediumScoreAction == AutoTerminate)
         && d.suppressedBy == None && d.scoreDelta == 0.0
  }

  lemma {:induction false} MediumShape(p: Policy, score: real, rule: RuleCode, c: Confidence, ids: seq<EventId>)
    ensures var ds := MediumFlag(p, score, rule, c, ids);
      && |ds| > 0
      && ds[0] == FlagDecision(
           rule, Medium, c, false, None, ids, if rule in p.scoreWeights then p.scoreWeights[rule] else 1.0)
      && IsAccumulated(p, ds[1..])
      && (forall d :: d in ds ==> d.contributing == ids)
      && (forall d :: d in ds ==> d.ruleCode == rule || d.ruleCode == AccumulatedScore)
  {
  }

  lemma {:induction false} TerminatingShape(p: Policy, rule: RuleCode, c: Confidence, ids: seq<EventId>)
    ensures var ds := TerminatingFlag(rule, c, ids);
      ds == [FlagDecision(rule, Critical, c, true, None, ids, 0.0)] && IsAccumulated(p, ds[1..])
  {
  }

  /** What every call returns: at most one decision of its own path, and after it at most the
      accumulated-score flag, for the same ids. */
  lemma {:induction false} ReturnsTwoAtMost(p: Policy, h: History, input: Input)
    ensures var ds := Returned(p, h, input);
      && |ds| <= 2 && (input.FaceInput? || input.IdentityInput? ==> |ds| <= 1)
      && (|ds| > 0 ==> ds[0].ruleCode in Rules(input) && IsAccumulated(p, ds[1..]))
      && (forall d :: d in ds ==> d.contributing == ds[0].contributing)
  {
    hide MediumFlag, TerminatingFlag, CompletesTile, Ids, Last, Readings, GazeWindow, AllIds, FirstTime.HappensNow;
    hide FirstTime.Happened, TotalDelta;
    match input
    case FaceInput(r, id) =>
      var face := h.face + [FaceObs(r, id)];
      TerminatingShape(p, SecondPerson, r.confidence, Ids(Last(face, p.secondFaceConfirmationFrames)));
    case IdentityInput(r, id) => IdentityShape(p, h.identity + [IdentityObs(p, r, id)]);
    case LivenessInput(r, id) => LivenessShape(p, h.Score(), h.liveness + [LivenessObs(r, id)]);
    case GazeInput(r, id, at) => GazeShape(p, h.Score(), h.gaze + [GazeFrame(r.offScreen, id, at)], r.confidence);
    case ObjectInput(r, id) =>
      MediumShape(p, h.Score(), if r.isBook then BookDetected else ObjectDetected, r.confidence, [id]);
    case BrowserInput(_, id) => MediumShape(p, h.Score(), BrowserEvent, CERTAIN, [id]);
    case AudioInput(r, id) => MediumShape(p, h.Score(), AudioAnomaly, r.confidence, [id]);
  }

  lemma {:induction false} IdentityShape(p: Policy, h: seq<Obs<UnitReal>>)
    requires |h| > 0
    ensures var ds := IdentityDecisions(p, h);
      |ds| <= 1 && (|ds| > 0 ==> ds[0].ruleCode == IdentityMismatch && IsAccumulated(p, ds[1..]))
  {
    hide Ids, Last, Readings, FirstTime.HappensNow;
  }

  lemma {:induction false} LivenessShape(p: Policy, score: real, h: seq<Obs<UnitReal>>)
    requires |h| > 0
    ensures var ds := LivenessDecisions(p, score, h);
      && |ds| <= 2 && (|ds| > 0 ==> ds[0].ruleCode == LivenessCheckFailed && IsAccumulated(p, ds[1..]))
      && (forall d :: d in ds ==> d.contributing == ds[0].contributing)
  {
    hide MediumFlag, Ids, Last, Readings, SuffixRun;
    var w := p.livenessConfirmationFrames;
    if CompletesTile(h, w) {
      MediumShape(p, score, LivenessCheckFailed, Statistics.WindowInterval(Readings(Last(h, w))), Ids(Last(h, w)));
    }
  }

  lemma {:induction false} GazeShape(p: Policy, score: real, h: seq<GazeFrame>, c: Confidence)
    requires |h| > 0
    ensures var ds := GazeDecisions(p, score, h, c);
      && |ds| <= 2 && (|ds| > 0 ==> ds[0].ruleCode == GazeAwayFrequency && IsAccumulated(p, ds[1..]))
      && (forall d :: d in ds ==> d.contributing == ds[0].contributing)
  {
    hide MediumFlag, GazeWindow, AllIds, FirstTime.Happened;
    var q := GazeWindow(p, h);
    MediumShape(p, score, GazeAwayFrequency, c, if |q| > 0 then q[|q| - 1].contributing else []);
  }

  /** Over all paths, an accumulated-score flag is CRITICAL and certain, cites what the decision it
      comes with cites, adds nothing to the score, and terminates if and only if the policy says
      so: under FLAG_FOR_REVIEW the session stays live. */
  lemma {:induction false} AccumulatedActs(p: Policy, h: History, input: Input)
    ensures var ds := Returned(p, h, input);
      forall d :: d in ds && d.ruleCode == AccumulatedScore ==>
        && ds[0].ruleCode != AccumulatedScore
        && d == FlagDecision(
             AccumulatedScore, Critical, ConfidenceInterval(1.0, 1.0, 1.0), p.mediumScoreAction == AutoTerminate, None,
             ds[0].contributing, 0.0)
  {
    hide Returned;
    ReturnsTwoAtMost(p, h, input);
    var ds := Returned(p, h, input);
    forall d | d in ds && d.ruleCode == AccumulatedScore
      ensures d in ds[1..]
    {
      var i :| 0 <= i < |ds| && ds[i] == d;
      assert i > 0 ==> ds[1..][i - 1] == d;
    }
  }

  // -------------------------------------------------------------------------
  // When the accumulated-score flag is raised
  // -------------------------------------------------------------------------

  /** The call adds the weight of a MEDIUM flag to the score. */
  ghost predicate Scored(p: Policy, h: History, input: Input) {
    match input
    case FaceInput(_, _) => false
    case GazeInput(_, _, _) => Warns(Returned(p, h, input))
    case LivenessInput(r, id) =>
      && p.livenessCheckEnabled && p.livenessCheckAction == Some(MediumAccumulate)
      && CompletesTile(h.liveness + [LivenessObs(r, id)], p.livenessConfirmationFrames)
    case IdentityInput(_, _) => false
    case ObjectInput(r, _) => (r.isBook ==> r.bookFlagged) && r.exemption == None
    case BrowserInput(r, _) => r.accumulates
    case AudioInput(r, _) => !r.isSilence
  }

  /** The call returns the accumulated-score flag. */
  predicate Raises(ds: seq<FlagDecision>) {
    exists d :: d in ds && d.ruleCode == AccumulatedScore
  }

  lemma {:induction false} OneDelta(d: FlagDecision, ds: seq<FlagDecision>)
    requires |ds| <= 1 && forall x :: x in ds ==> x.scoreDelta == 0.0
    ensures TotalDelta([d] + ds) == d.scoreDelta
    ensures TotalDelta([d]) == d.scoreDelta
  {
    assert [d][..0] == [];
    TotalDeltaConcat([d], ds);
    if |ds| == 1 {
      assert ds[..0] == [] && ds[0] in ds;
    }
  }

  /** A scored MEDIUM flag brings the accumulated flag along exactly when the score, its own weight
      included, is at or above a positive threshold. */
  lemma {:induction false} MediumRaisesWhen(p: Policy, score: real, rule: RuleCode, c: Confidence, ids: seq<EventId>)
    requires rule != AccumulatedScore
    ensures var ds := MediumFlag(p, score, rule, c, ids);
      && TotalDelta(ds) == p.WeightFor(rule)
      && (Raises(ds) <==> 0.0 < p.mediumScoreTerminationThreshold <= score + p.WeightFor(rule))
  {
    hide TotalDelta;
    var a := AccumulatedFlag(p, score + p.WeightFor(rule), ids);
    var d := FlagDecision(rule, Medium, c, false, None, ids, p.WeightFor(rule));
    OneDelta(d, a);
    assert forall x :: x in [d] + a <==> x == d || x in a;
    assert |a| > 0 ==> a[0] in a && a[0].ruleCode == AccumulatedScore;
  }

  lemma {:induction false} GazeRaisesWhen(p: Policy, score: real, h: seq<GazeFrame>, c: Confidence)
    requires |h| > 0
    ensures var ds := GazeDecisions(p, score, h, c);
      Raises(ds) <==> Warns(ds) && 0.0 < p.mediumScoreTerminationThreshold <= score + TotalDelta(ds)
  {
    hide GazeWindow, MediumFlag, TotalDelta, Warns;
    var q := GazeWindow(p, h);
    MediumRaisesWhen(p, score, GazeAwayFrequency, c, if |q| > 0 then q[|q| - 1].contributing else []);
    GazeFlagWarns(p, score, q, c);
    NothingWarns();
  }

  lemma {:induction false} NothingWarns()
    ensures !Warns([])
  {
  }

  lemma {:induction false} LivenessRaisesWhen(p: Policy, score: real, h: seq<Obs<UnitReal>>)
    requires |h| > 0
    ensures var ds := LivenessDecisions(p, score, h);
      Raises(ds) <==>
        && p.livenessCheckEnabled && p.livenessCheckAction == Some(MediumAccumulate)
        && CompletesTile(h, p.livenessConfirmationFrames)
        && 0.0 < p.mediumScoreTerminationThreshold <= score + TotalDelta(ds)
  {
    hide MediumFlag, TerminatingFlag, Raises, TotalDelta, Ids, Last, Readings, SuffixRun;
    var w := p.livenessConfirmationFrames;
    NothingRaised();
    if p.livenessCheckEnabled {
      OneOfTwoActions(p);
    }
    if CompletesTile(h, w) {
      var interval := Statistics.WindowInterval(Readings(Last(h, w)));
      MediumRaisesWhen(p, score, LivenessCheckFailed, interval, Ids(Last(h, w)));
      TerminatingRaisesNone(LivenessCheckFailed, interval, Ids(Last(h, w)));
    }
  }

  lemma {:induction false} OneOfTwoActions(p: Policy)
    requires p.livenessCheckEnabled
    ensures p.livenessCheckAction == Some(CriticalTerminate) || p.livenessCheckAction == Some(MediumAccumulate)
  {
    match p.livenessCheckAction.value
    case CriticalTerminate =>
    case MediumAccumulate =>
  }

  lemma {:induction false} NothingRaised()
    ensures !Raises([])
  {
  }

  lemma {:induction false} TerminatingRaisesNone(rule: RuleCode, c: Confidence, ids: seq<EventId>)
    requires rule != AccumulatedScore
    ensures !Raises(TerminatingFlag(rule, c, ids))
  {
  }

  lemma {:induction false} SinglesRaiseWhen(
    p: Policy, score: real, det: ObjectDetectionResult, browser: BrowserEventResult, audio: AudioVadResult, id: EventId)
    ensures var ds := ObjectDecisions(p, score, det, id);
      Raises(ds) <==>
        && (det.isBook ==> det.bookFlagged) && det.exemption == None
        && 0.0 < p.mediumScoreTerminationThreshold <= score + TotalDelta(ds)
    ensures var ds := BrowserDecisions(p, score, browser, id);
      Raises(ds) <==> browser.accumulates && 0.0 < p.mediumScoreTerminationThreshold <= score + TotalDelta(ds)
    ensures var ds := AudioDecisions(p, score, audio, id);
      Raises(ds) <==> !audio.isSilence && 0.0 < p.mediumScoreTerminationThreshold <= score + TotalDelta(ds)
  {
    hide MediumFlag, TotalDelta;
    MediumRaisesWhen(p, score, if det.isBook then BookDetected else ObjectDetected, det.confidence, [id]);
    MediumRaisesWhen(p, score, BrowserEvent, CERTAIN, [id]);
    MediumRaisesWhen(p, score, AudioAnomaly, audio.confidence, [id]);
  }

  /** Over all paths: a call returns the accumulated-score flag exactly when it is a scored one and
      the sum of all deltas returned so far, its own included, is at or above a positive threshold. */
  lemma {:induction false} AccumulatedRaisedWhen(p: Policy, h: History, input: Input)
    ensures Raises(Returned(p, h, input)) <==>
      Scored(p, h, input) && 0.0 < p.mediumScoreTerminationThreshold <= TotalDelta(Fed(p, h, input).emitted)
    ensures forall d :: d in Returned(p, h, input) && d.ruleCode == AccumulatedScore ==>
      (d.triggeredTermination <==> p.mediumScoreAction == AutoTerminate)
  {
    AccumulatedActs(p, h, input);
    hide TotalDelta, GazeDecisions, LivenessDecisions, ObjectDecisions, BrowserDecisions, AudioDecisions, Warns, Fed;
    hide CompletesTile, Ids, Last, Readings;
    FedAppends(p, h, input);
    match input
    case GazeInput(r, id, at) => GazeRaisesWhen(p, h.Score(), h.gaze + [GazeFrame(r.offScreen, id, at)], r.confidence);
    case LivenessInput(r, id) => LivenessRaisesWhen(p, h.Score(), h.liveness + [LivenessObs(r, id)]);
    case ObjectInput(r, id) => SinglesRaiseWhen(p, h.Score(), r, BrowserEventResult(false), AudioVadResult(true, CERTAIN), id);
    case BrowserInput(r, id) =>
      SinglesRaiseWhen(
        p, h.Score(), ObjectDetectionResult(false, false, None, CERTAIN), r, AudioVadResult(true, CERTAIN), id);
    case AudioInput(r, id) =>
      SinglesRaiseWhen(p, h.Score(), ObjectDetectionResult(false, false, None, CERTAIN), BrowserEventResult(false), r, id);
    case _ =>
  }

  // -------------------------------------------------------------------------
  // Over a run
  // -------------------------------------------------------------------------

  ghost function AfterInputs(p: Policy, inputs: seq<Input>): History {
    if |inputs| == 0 then NO_HISTORY else Fed(p, AfterInputs(p, inputs[..|inputs| - 1]), inputs[|inputs| - 1])
  }

  lemma {:induction false} AddsNothingNegative(ds: seq<FlagDecision>)
    requires NoneNegative(ds)
    ensures TotalDelta(ds) >= 0.0
  {
    if |ds| > 0 {
      assert ds[|ds| - 1] in ds && forall d :: d in ds[..|ds| - 1] ==> d in ds;
      AddsNothingNegative(ds[..|ds| - 1]);
    }
  }

  lemma {:induction false} ReturnedAdds(p: Policy, h: History, input: Input)
    requires p.NonNegativeWeights()
    ensures NoneNegative(Returned(p, h, input))
  {
    hide GazeDecisions, LivenessDecisions, ObjectDecisions, BrowserDecisions, AudioDecisions, TotalDelta;
    match input
    case GazeInput(r, id, at) => GazeAdds(p, h.Score(), h.gaze + [GazeFrame(r.offScreen, id, at)], r.confidence);
    case LivenessInput(r, id) => LivenessAdds(p, h.Score(), h.liveness + [LivenessObs(r, id)]);
    case ObjectInput(r, id) => SinglesAdd(p, h.Score(), r, BrowserEventResult(false), AudioVadResult(true, CERTAIN), id);
    case BrowserInput(r, id) =>
      SinglesAdd(p, h.Score(), ObjectDetectionResult(false, false, None, CERTAIN), r, AudioVadResult(true, CERTAIN), id);
    case AudioInput(r, id) =>
      SinglesAdd(p, h.Score(), ObjectDetectionResult(false, false, None, CERTAIN), BrowserEventResult(false), r, id);
    case _ =>
  }

  lemma {:induction false} ScoreNeverFalls(p: Policy, inputs: seq<Input>, i: nat)
    requires p.NonNegativeWeights() && i <= |inputs|
    ensures AfterInputs(p, inputs[..i]).Score() <= AfterInputs(p, inputs).Score()
    decreases |inputs|
  {
    hide Fed, Returned, TotalDelta;
    if i == |inputs| {
      assert inputs[..i] == inputs;
    } else {
      var front, last := inputs[..|inputs| - 1], inputs[|inputs| - 1];
      assert front[..i] == inputs[..i];
      ScoreNeverFalls(p, front, i);
      FedAppends(p, AfterInputs(p, front), last);
      ReturnedAdds(p, AfterInputs(p, front), last);
      AddsNothingNegative(Returned(p, AfterInputs(p, front), last));
    }
  }

  /** With non-negative weights: once the accumulated-score flag has been raised, every later
      scored call of the run raises it again. */
  lemma {:induction false} AccumulatedRaisedAgain(p: Policy, inputs: seq<Input>, i: nat, j: nat)
    requires p.NonNegativeWeights() && i < j < |inputs|
    requires Raises(Returned(p, AfterInputs(p, inputs[..i]), inputs[i]))
    requires Scored(p, AfterInputs(p, inputs[..j]), inputs[j])
    ensures Raises(Returned(p, AfterInputs(p, inputs[..j]), inputs[j]))
  {
    hide Fed, Returned, Scored, Raises, TotalDelta;
    AccumulatedRaisedWhen(p, AfterInputs(p, inputs[..i]), inputs[i]);
    AccumulatedRaisedWhen(p, AfterInputs(p, inputs[..j]), inputs[j]);
    OneMoreInput(p, inputs, i);
    OneMoreInput(p, inputs, j);
    assert inputs[..j + 1][..i + 1] == inputs[..i + 1];
    ScoreNeverFalls(p, inputs[..j + 1], i + 1);
  }

  lemma {:induction false} OneMoreInput(p: Policy, inputs: seq<Input>, i: nat)
    requires i < |inputs|
    ensures AfterInputs(p, inputs[..i + 1]) == Fed(p, AfterInputs(p, inputs[..i]), inputs[i])
  {
    hide Fed;
    assert inputs[..i + 1][..i] == inputs[..i];
  }
}
