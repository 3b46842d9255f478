/** What one message adds to the aggregator and to the queue, read off the message. */
module DispatchLaws {
  import opened FusionTypes
  import opened Runs
  import opened GazeEpisodes
  import opened Fusion
  import opened Histories
  import opened FusionRuns
  import opened Pairing
  import opened AggregatorLaws

  /** Feeding some inputs one after another. */
  ghost function FedAll(p: Policy, h: History, inputs: seq<Input>): History {
    if |inputs| == 0 then h else Fed(p, FedAll(p, h, inputs[..|inputs| - 1]), inputs[|inputs| - 1])
  }

  lemma {:induction false} FedNone(p: Policy, h: History)
    ensures FedAll(p, h, []) == h
  {
  }

  lemma {:induction false} FedOne(p: Policy, h: History, inputs: seq<Input>, input: Input)
    ensures FedAll(p, h, inputs + [input]) == Fed(p, FedAll(p, h, inputs), input)
  {
    hide Fed;
    assert (inputs + [input])[..|inputs|] == inputs;
  }

  lemma {:induction false} FedSingle(p: Policy, h: History, input: Input)
    ensures FedAll(p, h, [input]) == Fed(p, h, input)
  {
    hide Fed;
    FedNone(p, h);
    FedOne(p, h, [], input);
    assert [] + [input] == [input];
  }

  /** The detections of a frame as inputs, in order. */
  function Detected(ds: seq<ObjectDetectionResult>, id: EventId): (inputs: seq<Input>)
    ensures |inputs| == |ds| && forall i :: 0 <= i < |ds| ==> inputs[i] == ObjectInput(ds[i], id)
  {
    seq(|ds|, i requires 0 <= i < |ds| => ObjectInput(ds[i], id))
  }

  lemma {:induction false} DetectionsFed(
    p: Policy, h0: History, before: seq<Input>, ds: seq<ObjectDetectionResult>, id: EventId)
    ensures FedAll(p, h0, before + Detected(ds, id)) == ObjectsFed(p, FedAll(p, h0, before), ds, id)
    decreases |ds|
  {
    hide Fed, ObjectFed;
    if |ds| == 0 {
      assert before + Detected(ds, id) == before;
    } else {
      var front, last := ds[..|ds| - 1], ds[|ds| - 1];
      DetectionsFed(p, h0, before, front, id);
      FedOne(p, h0, before + Detected(front, id), ObjectInput(last, id));
      assert before + Detected(ds, id) == before + Detected(front, id) + [ObjectInput(last, id)];
      FedIsObject(p, FedAll(p, h0, before + Detected(front, id)), last, id);
    }
  }

  lemma {:induction false} FedIsObject(p: Policy, h: History, d: ObjectDetectionResult, id: EventId)
    ensures Fed(p, h, ObjectInput(d, id)) == ObjectFed(p, h, d, id)
  {
  }

  /** What one message feeds to the aggregator, in this order: a light message its face count with
      a point interval; a decoded frame its gaze result if gaze is scheduled and there are
      landmarks, then every detection if objects are scheduled, then the identity and the liveness
      result, each if scheduled and possible; but when identity is scheduled and not possible the
      frame ends there. Audio is fed unless silent, a browser event if it is recognised. */
  lemma {:induction false} MessageFeeds(p: Policy, c: DispatcherConfig, h: History, m: Message, id: EventId)
    ensures m.Light? ==> Dispatched(p, c, h, m, id) == FedAll(p, h, [FaceInput(
      FacePresenceResult(m.faceCount, ConfidenceInterval(m.confidence, m.confidence, m.confidence)), id)])
    ensures m.HeavyFrame? ==> Dispatched(p, c, h, m, id) == FedAll(p, h,
      if m.frame == None then []
      else
        var f := m.frame.value;
        var cropped := f.landmarks.Some? && f.faceBox;
        (if f.runGaze && f.landmarks.Some? then [GazeInput(f.landmarks.value, id, m.capturedAtMs)] else []) +
        (if f.runObjects then Detected(f.detections, id) else []) +
        (if f.runIdentity && cropped && c.enrolled && f.identity.Some? then [IdentityInput(f.identity.value, id)]
         else []) +
        (if (f.runIdentity ==> cropped && c.enrolled && f.identity.Some?)
            && f.runLiveness && c.livenessRunner && cropped && f.liveness.Some? then
           [LivenessInput(f.liveness.value, id)]
         else []))
    ensures m.AudioChunk? ==> Dispatched(p, c, h, m, id) == FedAll(p, h,
      if m.audio.Some? && !m.audio.value.isSilence then [AudioInput(m.audio.value, id)] else [])
    ensures m.BrowserMessage? ==> Dispatched(p, c, h, m, id) == FedAll(p, h,
      if m.browser.Some? then [BrowserInput(m.browser.value, id)] else [])
    ensures m.KillSwitchAcknowledge? ==> Dispatched(p, c, h, m, id) == h
  {
    hide FaceFed, GazeFed, IdentityFed, LivenessFed, AudioFed, BrowserFed, FrameFed, FedAll;
    FedNone(p, h);
    match m
    case Light(n, conf) => FedSingle(p, h, FaceInput(FacePresenceResult(n, PointInterval(conf)), id));
    case HeavyFrame(at, frame) =>
      if frame.Some? {
        FrameFeeds(p, c, h, at, frame.value, id);
      }
    case AudioChunk(audio) =>
      if audio.Some? {
        FedSingle(p, h, AudioInput(audio.value, id));
      }
    case BrowserMessage(browser) =>
      if browser.Some? {
        FedSingle(p, h, BrowserInput(browser.value, id));
      }
    case KillSwitchAcknowledge =>
  }

  lemma {:induction false} FrameFeeds(
    p: Policy, c: DispatcherConfig, h: History, at: int, f: FrameInference, id: EventId)
    ensures var cropped := f.landmarks.Some? && f.faceBox;
      FrameFed(p, c, h, at, f, id) == FedAll(p, h,
        (if f.runGaze && f.landmarks.Some? then [GazeInput(f.landmarks.value, id, at)] else []) +
        (if f.runObjects then Detected(f.detections, id) else []) +
        (if f.runIdentity && cropped && c.enrolled && f.identity.Some? then [IdentityInput(f.identity.value, id)]
         else []) +
        (if (f.runIdentity ==> cropped && c.enrolled && f.identity.Some?)
            && f.runLiveness && c.livenessRunner && cropped && f.liveness.Some? then
           [LivenessInput(f.liveness.value, id)]
         else []))
  {
    hide GazeFed, ObjectsFed, IdentityFed, LivenessFed, FedAll, Detected;
    var cropped := f.landmarks.Some? && f.faceBox;
    var g := if f.runGaze && f.landmarks.Some? then [GazeInput(f.landmarks.value, id, at)] else [];
    var o := if f.runObjects then Detected(f.detections, id) else [];
    var i := if f.runIdentity && cropped && c.enrolled && f.identity.Some? then [IdentityInput(f.identity.value, id)]
      else [];
    FedNone(p, h);
    if g != [] {
      FedSingle(p, h, g[0]);
    }
    assert g + [] == g && g + o + [] == g + o && g + o + i + [] == g + o + i;
    if f.runObjects {
      DetectionsFed(p, h, g, f.detections, id);
    }
    if i != [] {
      FedOne(p, h, g + o, i[0]);
    }
    if LivenessRuns(c, f) {
      FedOne(p, h, g + o + i, LivenessInput(f.liveness.value, id));
    }
  }

  // -------------------------------------------------------------------------
  // What this means for the paths and for the queue
  // -------------------------------------------------------------------------

  /** The observations of the four windowed paths grow by one with this id exactly under the guards
      of the message's own kind, and by none otherwise. */
  lemma {:induction false} MessageObserved(p: Policy, c: DispatcherConfig, h: History, m: Message, id: EventId)
    ensures var h' := Dispatched(p, c, h, m, id);
      if m.Light? then
        var point: Confidence := ConfidenceInterval(m.confidence, m.confidence, m.confidence);
        h'.face == h.face + [Obs(m.faceCount >= 2, id, point)]
      else h'.face == h.face
    ensures var h' := Dispatched(p, c, h, m, id);
      h'.gaze == h.gaze + (
        if m.HeavyFrame? && m.frame.Some? && m.frame.value.runGaze && m.frame.value.landmarks.Some? then
          [GazeFrame(m.frame.value.landmarks.value.offScreen, id, m.capturedAtMs)]
        else [])
    ensures var h' := Dispatched(p, c, h, m, id);
      h'.identity == h.identity + (
        if m.HeavyFrame? && m.frame.Some? && m.frame.value.runIdentity
           && m.frame.value.landmarks.Some? && m.frame.value.faceBox && c.enrolled && m.frame.value.identity.Some? then
          var similarity := m.frame.value.identity.value.similarity;
          [Obs(similarity < p.identitySimilarityThreshold, id, similarity)]
        else [])
    ensures var h' := Dispatched(p, c, h, m, id);
      h'.liveness == h.liveness + (
        if m.HeavyFrame? && m.frame.Some? && m.frame.value.runLiveness && c.livenessRunner
           && m.frame.value.landmarks.Some? && m.frame.value.faceBox && m.frame.value.liveness.Some?
           && (m.frame.value.runIdentity ==> c.enrolled && m.frame.value.identity.Some?) then
          [Obs(!m.frame.value.liveness.value.isReal, id, m.frame.value.liveness.value.score)]
        else [])
  {
    hide SecondPersonDecisions, GazeDecisions, IdentityDecisions, LivenessDecisions;
    hide BrowserDecisions, AudioDecisions, ObjectsFed, TotalDelta;
    if m.HeavyFrame? && m.frame.Some? {
      ObjectsObserveNothing(p, h, m.frame.value.detections, id);
      ObjectsObserveNothing(
        p, if m.frame.value.runGaze && m.frame.value.landmarks.Some? then
             GazeFed(p, h, m.frame.value.landmarks.value, id, m.capturedAtMs)
           else h,
        m.frame.value.detections, id);
    }
  }

  lemma {:induction false} ObjectsObserveNothing(p: Policy, h: History, ds: seq<ObjectDetectionResult>, id: EventId)
    ensures ObjectsFed(p, h, ds, id) == h.(emitted := ObjectsFed(p, h, ds, id).emitted)
  {
    hide ObjectDecisions, TotalDelta;
    if |ds| > 0 {
      ObjectsObserveNothing(p, h, ds[..|ds| - 1], id);
    }
  }

  /** The detections that are reported: all but the books that are allowed. */
  function Reported(ds: seq<ObjectDetectionResult>): seq<ObjectDetectionResult> {
    if |ds| == 0 then []
    else (if ds[0].isBook && !ds[0].bookFlagged then [] else [ds[0]]) + Reported(ds[1..])
  }

  /** One decision for each reported detection, in order. */
  predicate OnePerDetection(p: Policy, rs: seq<ObjectDetectionResult>, own: seq<FlagDecision>, id: EventId) {
    && |own| == |rs|
    && forall k :: 0 <= k < |rs| ==>
         var rule := if rs[k].isBook then BookDetected else ObjectDetected;
         own[k] == FlagDecision(
           rule, if rs[k].exemption.Some? then Low else Medium, rs[k].confidence, false, rs[k].exemption, [id],
           if rs[k].exemption.Some? then 0.0 else if rule in p.scoreWeights then p.scoreWeights[rule] else 1.0)
  }

  lemma {:induction false} ReportedLast(ds: seq<ObjectDetectionResult>, d: ObjectDetectionResult)
    ensures Reported(ds + [d]) == Reported(ds) + (if d.isBook && !d.bookFlagged then [] else [d])
  {
    if |ds| == 0 {
      assert ds + [d] == [d] && [d][1..] == [];
    } else {
      ReportedLast(ds[1..], d);
      assert (ds + [d])[1..] == ds[1..] + [d] && (ds + [d])[0] == ds[0];
    }
  }

  /** What feeding some inputs returns, put together. */
  ghost function AllReturned(p: Policy, h: History, inputs: seq<Input>): seq<FlagDecision> {
    if |inputs| == 0 then []
    else
      var front := inputs[..|inputs| - 1];
      AllReturned(p, h, front) + Returned(p, FedAll(p, h, front), inputs[|inputs| - 1])
  }

  lemma {:induction false} FedAllAppends(p: Policy, h: History, inputs: seq<Input>)
    ensures FedAll(p, h, inputs).emitted == h.emitted + AllReturned(p, h, inputs)
  {
    hide Fed, Returned;
    if |inputs| > 0 {
      var front := inputs[..|inputs| - 1];
      FedAllAppends(p, h, front);
      FedAppends(p, FedAll(p, h, front), inputs[|inputs| - 1]);
    }
  }

  function DetectionsOf(inputs: seq<Input>): seq<ObjectDetectionResult> {
    if |inputs| == 0 then []
    else
      var last := inputs[|inputs| - 1];
      DetectionsOf(inputs[..|inputs| - 1]) + (if last.ObjectInput? then [last.detection] else [])
  }

  lemma {:induction false} DetectionsConcat(a: seq<Input>, b: seq<Input>)
    ensures DetectionsOf(a + b) == DetectionsOf(a) + DetectionsOf(b)
    decreases |b|
  {
    if |b| == 0 {
      assert a + b == a;
    } else {
      assert (a + b)[..|a + b| - 1] == a + b[..|b| - 1];
      DetectionsConcat(a, b[..|b| - 1]);
    }
  }

  lemma {:induction false} DetectionsOfDetected(ds: seq<ObjectDetectionResult>, id: EventId)
    ensures DetectionsOf(Detected(ds, id)) == ds
  {
    if |ds| > 0 {
      var front, all := ds[..|ds| - 1], Detected(ds, id);
      DetectionsOfDetected(front, id);
      assert all[..|all| - 1] == Detected(front, id);
    }
  }

  lemma {:induction false} NoDetections(inputs: seq<Input>)
    requires forall input :: input in inputs ==> !input.ObjectInput?
    ensures DetectionsOf(inputs) == []
  {
    if |inputs| > 0 {
      assert inputs[|inputs| - 1] in inputs;
      NoDetections(inputs[..|inputs| - 1]);
    }
  }

  lemma {:induction false} OneMoreDetection(
    p: Policy, h: History, rs: seq<ObjectDetectionResult>, own: seq<FlagDecision>, input: Input, id: EventId)
    requires OnePerDetection(p, Reported(rs), own, id) && (input.ObjectInput? ==> input.id == id)
    ensures var ds := Of(Returned(p, h, input), {ObjectDetected, BookDetected});
      OnePerDetection(p, Reported(if input.ObjectInput? then rs + [input.detection] else rs), own + ds, id)
  {
    hide Of, Returned, Reported;
    if input.ObjectInput? {
      SinglesReturn(p, h, input);
      ReportedLast(rs, input.detection);
    } else {
      ReturnsTwoAtMost(p, h, input);
      NoObjects(p, Returned(p, h, input), Rules(input));
    }
  }

  lemma {:induction false} NoObjects(p: Policy, ds: seq<FlagDecision>, rules: set<RuleCode>)
    requires |ds| <= 2 && (|ds| > 0 ==> ds[0].ruleCode in rules && IsAccumulated(p, ds[1..]))
    requires ObjectDetected !in rules && BookDetected !in rules
    ensures Of(ds, {ObjectDetected, BookDetected}) == []
  {
    forall d | d in ds
      ensures d.ruleCode !in {ObjectDetected, BookDetected}
    {
      var i :| 0 <= i < |ds| && ds[i] == d;
      assert i > 0 ==> ds[1..][i - 1] == d;
    }
    OfNone(ds, {ObjectDetected, BookDetected});
  }

  lemma {:induction false} InputsFlagged(p: Policy, h: History, inputs: seq<Input>, id: EventId)
    requires forall input :: input in inputs && input.ObjectInput? ==> input.id == id
    ensures OnePerDetection(
      p, Reported(DetectionsOf(inputs)), Of(AllReturned(p, h, inputs), {ObjectDetected, BookDetected}), id)
  {
    hide Returned, FedAll, Reported, OnePerDetection, Of;
    if |inputs| == 0 {
      NothingFlagged(p, id);
    } else {
      var front, last := inputs[..|inputs| - 1], inputs[|inputs| - 1];
      var before := FedAll(p, h, front);
      assert last in inputs;
      InputsFlagged(p, h, front, id);
      var own := Of(AllReturned(p, h, front), {ObjectDetected, BookDetected});
      OneMoreDetection(p, before, DetectionsOf(front), own, last, id);
      OfConcat(AllReturned(p, h, front), Returned(p, before, last), {ObjectDetected, BookDetected});
      assert DetectionsOf(front) + [] == DetectionsOf(front);
    }
  }

  lemma {:induction false} NothingFlagged(p: Policy, id: EventId)
    ensures OnePerDetection(p, Reported([]), Of([], {ObjectDetected, BookDetected}), id)
  {
  }

  /** The inputs of a message: of these the detections and the face counts matter here. */
  lemma {:induction false} MessageInputs(p: Policy, c: DispatcherConfig, h: History, m: Message, id: EventId)
    returns (inputs: seq<Input>)
    ensures Dispatched(p, c, h, m, id) == FedAll(p, h, inputs)
    ensures forall input :: input in inputs && input.ObjectInput? ==> input.id == id
    ensures DetectionsOf(inputs) ==
      if m.HeavyFrame? && m.frame.Some? && m.frame.value.runObjects then m.frame.value.detections else []
    ensures FaceCalls(inputs) ==
      if m.Light? then
        [Call(FacePresenceResult(m.faceCount, ConfidenceInterval(m.confidence, m.confidence, m.confidence)), id)]
      else []
  {
    hide Dispatched, FedAll, DetectionsOf;
    MessageFeeds(p, c, h, m, id);
    FedNone(p, h);
    if m.HeavyFrame? && m.frame.Some? {
      inputs := FrameInputs(p, c, h, m.capturedAtMs, m.frame.value, id);
      FrameFeeds(p, c, h, m.capturedAtMs, m.frame.value, id);
    } else {
      inputs := [];
      if m.Light? {
        inputs := [FaceInput(FacePresenceResult(m.faceCount, PointInterval(m.confidence)), id)];
        assert inputs[..0] == [];
      } else if m.AudioChunk? && m.audio.Some? && !m.audio.value.isSilence {
        inputs := [AudioInput(m.audio.value, id)];
      } else if m.BrowserMessage? && m.browser.Some? {
        inputs := [BrowserInput(m.browser.value, id)];
      }
      NoDetections(inputs);
      if !m.Light? {
        NoFaces(inputs);
      }
    }
  }

  lemma {:induction false} NoFaces(inputs: seq<Input>)
    requires forall input :: input in inputs ==> !input.FaceInput?
    ensures FaceCalls(inputs) == []
  {
    if |inputs| > 0 {
      assert inputs[|inputs| - 1] in inputs;
      NoFaces(inputs[..|inputs| - 1]);
    }
  }

  lemma {:induction false} FrameInputs(
    p: Policy, c: DispatcherConfig, h: History, at: int, f: FrameInference, id: EventId) returns (inputs: seq<Input>)
    ensures FrameFed(p, c, h, at, f, id) == FedAll(p, h, inputs)
    ensures forall input :: input in inputs && input.ObjectInput? ==> input.id == id
    ensures DetectionsOf(inputs) == (if f.runObjects then f.detections else []) && FaceCalls(inputs) == []
  {
    hide FrameFed, FedAll, DetectionsOf, FaceCalls;
    var cropped := f.landmarks.Some? && f.faceBox;
    var g := if f.runGaze && f.landmarks.Some? then [GazeInput(f.landmarks.value, id, at)] else [];
    var o := if f.runObjects then Detected(f.detections, id) else [];
    var i := if f.runIdentity && cropped && c.enrolled && f.identity.Some? then [IdentityInput(f.identity.value, id)]
      else [];
    var l := if (f.runIdentity ==> cropped && c.enrolled && f.identity.Some?)
        && f.runLiveness && c.livenessRunner && cropped && f.liveness.Some? then [LivenessInput(f.liveness.value, id)]
      else [];
    FrameFeeds(p, c, h, at, f, id);
    inputs := g + o + i + l;
    FourParts(g, if f.runObjects then f.detections else [], i, l, id);
    assert Detected([], id) == [];
  }

  lemma {:induction false} FourParts(
    g: seq<Input>, ds: seq<ObjectDetectionResult>, i: seq<Input>, l: seq<Input>, id: EventId)
    requires forall input :: input in g + i + l ==> !input.ObjectInput? && !input.FaceInput?
    ensures var inputs := g + Detected(ds, id) + i + l;
      && DetectionsOf(inputs) == ds && FaceCalls(inputs) == []
      && forall input :: input in inputs && input.ObjectInput? ==> input.id == id
  {
    hide DetectionsOf, FaceCalls;
    var o := Detected(ds, id);
    DetectionsConcat(g + o + i, l);
    DetectionsConcat(g + o, i);
    DetectionsConcat(g, o);
    assert forall input :: input in g || input in i || input in l ==> input in g + i + l;
    NoDetections(g);
    NoDetections(i);
    NoDetections(l);
    DetectionsOfDetected(ds, id);
    assert [] + ds + [] + [] == ds;
    NoFaces(g + o + i + l);
  }

  /** A message adds an object or book decision for every detection of a frame that is scheduled for
      object detection and is no allowed book, in order, with its confidence and exemption; and
      none otherwise. */
  lemma {:induction false} DetectionsFlagged(p: Policy, c: DispatcherConfig, h: History, m: Message, id: EventId)
    ensures h.emitted <= Dispatched(p, c, h, m, id).emitted
    ensures OnePerDetection(
      p, if m.HeavyFrame? && m.frame.Some? && m.frame.value.runObjects then Reported(m.frame.value.detections) else [],
      Of(Dispatched(p, c, h, m, id).emitted[|h.emitted|..], {ObjectDetected, BookDetected}), id)
  {
    hide Dispatched, FedAll, DetectionsOf, OnePerDetection, Of, AllReturned;
    var inputs := MessageInputs(p, c, h, m, id);
    FedAllAppends(p, h, inputs);
    InputsFlagged(p, h, inputs, id);
    assert Dispatched(p, c, h, m, id).emitted[|h.emitted|..] == AllReturned(p, h, inputs);
  }

  /** A browser message that is recognised adds its own decision, and audio unless silent. */
  lemma {:induction false} SinglesFlagged(p: Policy, c: DispatcherConfig, h: History, m: Message, id: EventId)
    ensures h.emitted <= Dispatched(p, c, h, m, id).emitted
    ensures m.BrowserMessage? ==>
      Of(Dispatched(p, c, h, m, id).emitted[|h.emitted|..], {BrowserEvent}) ==
        if m.browser == None then []
        else
          [FlagDecision(BrowserEvent, Medium, ConfidenceInterval(1.0, 1.0, 1.0), false, None, [id],
                        if !m.browser.value.accumulates then 0.0
                        else if BrowserEvent in p.scoreWeights then p.scoreWeights[BrowserEvent] else 1.0)]
    ensures m.AudioChunk? ==>
      Of(Dispatched(p, c, h, m, id).emitted[|h.emitted|..], {AudioAnomaly}) ==
        if m.audio == None || m.audio.value.isSilence then []
        else
          [FlagDecision(AudioAnomaly, Medium, m.audio.value.confidence, false, None, [id],
                        if AudioAnomaly in p.scoreWeights then p.scoreWeights[AudioAnomaly] else 1.0)]
  {
    hide Dispatched, FedAll, Of, Returned, AllReturned, Fed;
    MessageFeeds(p, c, h, m, id);
    FedNone(p, h);
    DetectionsFlagged(p, c, h, m, id);
    if m.BrowserMessage? && m.browser.Some? {
      OneInputReturns(p, h, BrowserInput(m.browser.value, id));
      SinglesReturn(p, h, BrowserInput(m.browser.value, id));
    } else if m.AudioChunk? && m.audio.Some? && !m.audio.value.isSilence {
      OneInputReturns(p, h, AudioInput(m.audio.value, id));
      SinglesReturn(p, h, AudioInput(m.audio.value, id));
    }
    assert h.emitted[|h.emitted|..] == [];
    OfNone([], {BrowserEvent});
    OfNone([], {AudioAnomaly});
  }

  lemma {:induction false} OneInputReturns(p: Policy, h: History, input: Input)
    ensures FedAll(p, h, [input]).emitted == h.emitted + Returned(p, h, input)
  {
    hide Fed, Returned;
    FedSingle(p, h, input);
    FedAppends(p, h, input);
  }
}
