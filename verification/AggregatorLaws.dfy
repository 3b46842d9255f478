/** What the aggregator returns over a run, read off the results it was fed on all paths. */
module AggregatorLaws {
  import opened FusionTypes
  import opened Runs
  import opened GazeEpisodes
  import opened Fusion
  import opened Histories
  import opened FusionRuns
  import FirstTime
  import Statistics

  /** The decisions of some rules, in order. */
  function Of(ds: seq<FlagDecision>, rules: set<RuleCode>): seq<FlagDecision> {
    if |ds| == 0 then []
    else Of(ds[..|ds| - 1], rules) + (if ds[|ds| - 1].ruleCode in rules then [ds[|ds| - 1]] else [])
  }

  lemma {:induction false} OfConcat(a: seq<FlagDecision>, b: seq<FlagDecision>, rules: set<RuleCode>)
    ensures Of(a + b, rules) == Of(a, rules) + Of(b, rules)
    decreases |b|
  {
    if |b| == 0 {
      assert a + b == a;
    } else {
      assert (a + b)[..|a + b| - 1] == a + b[..|b| - 1];
      OfConcat(a, b[..|b| - 1], rules);
    }
  }

  lemma {:induction false} OfNone(ds: seq<FlagDecision>, rules: set<RuleCode>)
    requires forall d :: d in ds ==> d.ruleCode !in rules
    ensures Of(ds, rules) == []
  {
    if |ds| > 0 {
      assert ds[|ds| - 1] in ds;
      OfNone(ds[..|ds| - 1], rules);
    }
  }

  lemma {:induction false} OfAll(ds: seq<FlagDecision>, rules: set<RuleCode>)
    requires forall d :: d in ds ==> d.ruleCode in rules
    ensures Of(ds, rules) == ds
  {
    if |ds| > 0 {
      var front, last := ds[..|ds| - 1], ds[|ds| - 1];
      assert ds == front + [last] && last in ds;
      OfAll(front, rules);
    }
  }

  // -------------------------------------------------------------------------
  // Single calls
  // -------------------------------------------------------------------------

  /** What a call of each single-event path returns first: a detection is reported unless it is a
      book that is allowed, downgraded to LOW and not scored if exempt; every browser event is
      reported, and scored if it accumulates; audio is reported and scored unless silent. */
  lemma {:induction false} SinglesReturn(p: Policy, h: History, input: Input)
    ensures input.ObjectInput? ==>
      var r := input.detection;
      var rule := if r.isBook then BookDetected else ObjectDetected;
      var own := Of(Returned(p, h, input), {ObjectDetected, BookDetected});
      if r.isBook && !r.bookFlagged then own == []
      else if r.exemption.Some? then
        own == [FlagDecision(rule, Low, r.confidence, false, r.exemption, [input.id], 0.0)]
      else
        own == [FlagDecision(rule, Medium, r.confidence, false, None, [input.id],
                             if rule in p.scoreWeights then p.scoreWeights[rule] else 1.0)]
    ensures input.BrowserInput? ==>
      Of(Returned(p, h, input), {BrowserEvent}) ==
        [FlagDecision(BrowserEvent, Medium, ConfidenceInterval(1.0, 1.0, 1.0), false, None, [input.id],
                      if !input.browser.accumulates then 0.0
                      else if BrowserEvent in p.scoreWeights then p.scoreWeights[BrowserEvent] else 1.0)]
    ensures input.AudioInput? ==>
      Of(Returned(p, h, input), {AudioAnomaly}) ==
        if input.audio.isSilence then []
        else
          [FlagDecision(AudioAnomaly, Medium, input.audio.confidence, false, None, [input.id],
                        if AudioAnomaly in p.scoreWeights then p.scoreWeights[AudioAnomaly] else 1.0)]
  {
    hide MediumFlag, TotalDelta, Of;
    match input
    case ObjectInput(r, id) =>
      var rule := if r.isBook then BookDetected else ObjectDetected;
      MediumShape(p, h.Score(), rule, r.confidence, [id]);
      OwnFirst(p, Returned(p, h, input), {ObjectDetected, BookDetected});
    case BrowserInput(r, id) =>
      MediumShape(p, h.Score(), BrowserEvent, CERTAIN, [id]);
      OwnFirst(p, Returned(p, h, input), {BrowserEvent});
    case AudioInput(r, id) =>
      MediumShape(p, h.Score(), AudioAnomaly, r.confidence, [id]);
      OwnFirst(p, Returned(p, h, input), {AudioAnomaly});
    case _ =>
  }

  /** Of a call's decisions the first is the path's own and the rest is the accumulated flag. */
  lemma {:induction false} OwnFirst(p: Policy, ds: seq<FlagDecision>, rules: set<RuleCode>)
    requires AccumulatedScore !in rules
    requires |ds| > 0 ==> ds[0].ruleCode in rules && IsAccumulated(p, ds[1..])
    ensures Of(ds, rules) == ds[..if |ds| > 0 then 1 else 0]
  {
    if |ds| > 0 {
      assert ds == ds[..1] + ds[1..];
      OfConcat(ds[..1], ds[1..], rules);
      OfAll(ds[..1], rules);
      OfNone(ds[1..], rules);
    } else {
      assert ds == [];
    }
  }

  // -------------------------------------------------------------------------
  // The decisions of one path in a run over all paths
  // -------------------------------------------------------------------------

  /** What the calls h[..1], h[..2], ..., h of a path return, put together. */
  ghost function Collected<T>(decide: seq<T> -> seq<FlagDecision>, h: seq<T>): seq<FlagDecision> {
    if |h| == 0 then [] else Collected(decide, h[..|h| - 1]) + decide(h)
  }

  lemma {:induction false} CollectedStep<T>(decide: seq<T> -> seq<FlagDecision>, h: seq<T>, o: T)
    ensures Collected(decide, h + [o]) == Collected(decide, h) + decide(h + [o])
  {
    assert (h + [o])[..|h|] == h;
  }

  /** A result as it was fed, with its id. */
  datatype Call<R> = Call(result: R, id: EventId)

  function CallIds<R>(calls: seq<Call<R>>): (ids: seq<EventId>)
    ensures |ids| == |calls| && forall i :: 0 <= i < |calls| ==> ids[i] == calls[i].id
  {
    seq(|calls|, i requires 0 <= i < |calls| => calls[i].id)
  }

  function FaceCalls(inputs: seq<Input>): seq<Call<FacePresenceResult>> {
    if |inputs| == 0 then []
    else
      var last := inputs[|inputs| - 1];
      FaceCalls(inputs[..|inputs| - 1]) + (if last.FaceInput? then [Call(last.face, last.id)] else [])
  }

  function IdentityCalls(inputs: seq<Input>): seq<Call<IdentityMatchResult>> {
    if |inputs| == 0 then []
    else
      var last := inputs[|inputs| - 1];
      IdentityCalls(inputs[..|inputs| - 1]) + (if last.IdentityInput? then [Call(last.identity, last.id)] else [])
  }

  function LivenessCalls(inputs: seq<Input>): seq<Call<LivenessResult>> {
    if |inputs| == 0 then []
    else
      var last := inputs[|inputs| - 1];
      LivenessCalls(inputs[..|inputs| - 1]) + (if last.LivenessInput? then [Call(last.liveness, last.id)] else [])
  }

  /** What the three windowed paths have seen is what they were fed. */
  lemma {:induction false} Observed(p: Policy, inputs: seq<Input>)
    ensures var h, faces := AfterInputs(p, inputs), FaceCalls(inputs);
      |h.face| == |faces| && forall i :: 0 <= i < |faces| ==>
        h.face[i] == Obs(faces[i].result.faceCount >= 2, faces[i].id, faces[i].result.confidence)
    ensures var h, calls := AfterInputs(p, inputs), IdentityCalls(inputs);
      |h.identity| == |calls| && forall i :: 0 <= i < |calls| ==>
        h.identity[i] == Obs(
          calls[i].result.similarity < p.identitySimilarityThreshold, calls[i].id, calls[i].result.similarity)
    ensures var h, calls := AfterInputs(p, inputs), LivenessCalls(inputs);
      |h.liveness| == |calls| && forall i :: 0 <= i < |calls| ==>
        h.liveness[i] == Obs(!calls[i].result.isReal, calls[i].id, calls[i].result.score)
  {
    if |inputs| > 0 {
      Observed(p, inputs[..|inputs| - 1]);
      hide AfterInputs;
      ObservedStep(p, inputs);
    }
  }

  lemma {:induction false} ObservedStep(p: Policy, inputs: seq<Input>)
    requires |inputs| > 0
    ensures var h, h' := AfterInputs(p, inputs[..|inputs| - 1]), AfterInputs(p, inputs);
      var last := inputs[|inputs| - 1];
      && h'.face == h.face + (
           if last.FaceInput? then [Obs(last.face.faceCount >= 2, last.id, last.face.confidence)] else [])
      && h'.identity == h.identity + (
           if last.IdentityInput? then
             [Obs(last.identity.similarity < p.identitySimilarityThreshold, last.id, last.identity.similarity)]
           else [])
      && h'.liveness == h.liveness + (
           if last.LivenessInput? then [Obs(!last.liveness.isReal, last.id, last.liveness.score)] else [])
  {
    hide SecondPersonDecisions, IdentityDecisions, LivenessDecisions, GazeDecisions;
    hide ObjectDecisions, BrowserDecisions, AudioDecisions, TotalDelta;
  }

  ghost function DecideFace(p: Policy): seq<Obs<Confidence>> -> seq<FlagDecision> {
    h => if |h| > 0 then SecondPersonDecisions(p, h) else []
  }

  ghost function DecideIdentity(p: Policy): seq<Obs<UnitReal>> -> seq<FlagDecision> {
    h => if |h| > 0 then IdentityDecisions(p, h) else []
  }

  /** The own decisions of the second-person and the identity path are what their calls return,
      whatever happens on the other paths. */
  lemma {:induction false} EmittedByPath(p: Policy, inputs: seq<Input>)
    ensures var h := AfterInputs(p, inputs);
      && Of(h.emitted, {SecondPerson}) == Collected(DecideFace(p), h.face)
      && Of(h.emitted, {IdentityMismatch}) == Collected(DecideIdentity(p), h.identity)
  {
    if |inputs| > 0 {
      hide Of, Collected, Fed, Returned, DecideFace, DecideIdentity;
      var front, input := inputs[..|inputs| - 1], inputs[|inputs| - 1];
      var h := AfterInputs(p, front);
      EmittedByPath(p, front);
      FedAppends(p, h, input);
      OfConcat(h.emitted, Returned(p, h, input), {SecondPerson});
      OfConcat(h.emitted, Returned(p, h, input), {IdentityMismatch});
      PathStep(p, h, input);
    } else {
      assert AfterInputs(p, inputs) == NO_HISTORY;
    }
  }

  lemma {:induction false} PathStep(p: Policy, h: History, input: Input)
    ensures var h', ds := Fed(p, h, input), Returned(p, h, input);
      && Collected(DecideFace(p), h'.face) == Collected(DecideFace(p), h.face) + Of(ds, {SecondPerson})
      && Collected(DecideIdentity(p), h'.identity) == Collected(DecideIdentity(p), h.identity) + Of(ds, {IdentityMismatch})
  {
    hide Of, Collected, SecondPersonDecisions, IdentityDecisions, LivenessDecisions, GazeDecisions;
    hide ObjectDecisions, BrowserDecisions, AudioDecisions, TotalDelta;
    var ds := Returned(p, h, input);
    ReturnsTwoAtMost(p, h, input);
    OneRule(p, ds, Rules(input), SecondPerson);
    OneRule(p, ds, Rules(input), IdentityMismatch);
    match input
    case FaceInput(r, id) =>
      CollectedStep(DecideFace(p), h.face, FaceObs(r, id));
      assert ds[..|ds|] == ds;
    case IdentityInput(r, id) =>
      CollectedStep(DecideIdentity(p), h.identity, IdentityObs(p, r, id));
      assert ds[..|ds|] == ds;
    case _ =>
  }

  /** Of one call's decisions, those of one rule. */
  lemma {:induction false} OneRule(p: Policy, ds: seq<FlagDecision>, rules: set<RuleCode>, rule: RuleCode)
    requires rule != AccumulatedScore && |ds| <= 2
    requires |ds| > 0 ==> ds[0].ruleCode in rules && IsAccumulated(p, ds[1..])
    ensures rule !in rules ==> Of(ds, {rule}) == []
    ensures rules == {rule} ==> Of(ds, {rule}) == ds[..if |ds| > 0 then 1 else 0]
  {
    hide Of;
    if rule !in rules {
      forall d | d in ds
        ensures d.ruleCode != rule
      {
        var i :| 0 <= i < |ds| && ds[i] == d;
        assert i > 0 ==> ds[1..][i - 1] == d;
      }
      OfNone(ds, {rule});
    }
    if rules == {rule} {
      OwnFirst(p, ds, {rule});
    }
  }

  // -------------------------------------------------------------------------
  // Second person and identity: once, at the first window of hits
  // -------------------------------------------------------------------------

  /** The first n frames end with the first window of k hits. */
  predicate FirstFull<T>(h: seq<Obs<T>>, k: nat, n: nat) {
    && k <= n <= |h| && AllLast(h[..n], k)
    && forall m :: k <= m < n ==> !AllLast(h[..m], k)
  }

  predicate NeverFull<T>(h: seq<Obs<T>>, k: nat) {
    forall m :: k <= m <= |h| ==> !AllLast(h[..m], k)
  }

  /** A path that returns nothing except at the first window of k hits. */
  ghost predicate OnlyAtFirst<T(!new)>(decide: seq<Obs<T>> -> seq<FlagDecision>, k: nat) {
    forall g :: decide(g) != [] ==> FirstTime.HappensNow(FullWindow(k), g)
  }

  lemma {:induction false} NowIsFirst<T>(h: seq<Obs<T>>, k: nat)
    requires 0 < k
    ensures FirstTime.HappensNow(FullWindow(k), h) <==> FirstFull(h, k, |h|)
  {
    assert h[..|h|] == h;
    if FirstFull(h, k, |h|) {
      forall n | 0 <= n < |h|
        ensures !FullWindow<T>(k)(h[..n])
      {
        assert n < k ==> !AllLast(h[..n], k);
      }
    }
    if FirstTime.HappensNow(FullWindow(k), h) {
      assert FullWindow<T>(k)(h);
      forall m | k <= m < |h|
        ensures !AllLast(h[..m], k)
      {
        assert !FullWindow<T>(k)(h[..m]);
      }
    }
  }

  lemma {:induction false} NeverConfirmed<T(!new)>(decide: seq<Obs<T>> -> seq<FlagDecision>, k: nat, h: seq<Obs<T>>)
    requires 0 < k && OnlyAtFirst(decide, k) && NeverFull(h, k)
    ensures Collected(decide, h) == []
  {
    hide AllLast, FirstTime.HappensNow;
    if |h| > 0 {
      var front := h[..|h| - 1];
      assert forall m :: 0 <= m <= |front| ==> front[..m] == h[..m];
      assert h[..|h|] == h;
      NeverConfirmed(decide, k, front);
      NowIsFirst(h, k);
    }
  }

  lemma {:induction false} ConfirmedOnce<T(!new)>(
    decide: seq<Obs<T>> -> seq<FlagDecision>, k: nat, h: seq<Obs<T>>, n: nat)
    requires 0 < k && OnlyAtFirst(decide, k) && FirstFull(h, k, n)
    ensures Collected(decide, h) == decide(h[..n])
  {
    hide AllLast, FirstTime.HappensNow;
    var front := h[..|h| - 1];
    assert forall m :: 0 <= m <= |front| ==> front[..m] == h[..m];
    assert h[..|h|] == h;
    NowIsFirst(h, k);
    if n < |h| {
      ConfirmedOnce(decide, k, front, n);
    } else {
      NeverConfirmed(decide, k, front);
    }
  }

  lemma {:induction false} FirstIsNow<T>(h: seq<Obs<T>>, k: nat, n: nat)
    requires 0 < k && FirstFull(h, k, n)
    ensures FirstTime.HappensNow(FullWindow(k), h[..n])
  {
    hide AllLast, FirstTime.HappensNow;
    var first := h[..n];
    assert forall m :: 0 <= m <= n ==> first[..m] == h[..m];
    NowIsFirst(first, k);
  }

  /** The first n results end with k of several faces each. */
  predicate SeveralFaces(calls: seq<Call<FacePresenceResult>>, k: nat, n: nat) {
    k <= n <= |calls| && forall i :: n - k <= i < n ==> calls[i].result.faceCount >= 2
  }

  lemma {:induction false} FaceDecides(p: Policy)
    ensures OnlyAtFirst(DecideFace(p), p.secondFaceConfirmationFrames)
    ensures !p.terminateOnSecondFace ==> forall g :: DecideFace(p)(g) == []
  {
    hide FirstTime.HappensNow, Ids, Last;
  }

  lemma {:induction false} NothingCollected<T>(decide: seq<T> -> seq<FlagDecision>, h: seq<T>)
    requires forall g :: decide(g) == []
    ensures Collected(decide, h) == []
  {
    if |h| > 0 {
      NothingCollected(decide, h[..|h| - 1]);
    }
  }

  /** The frames of the second-person path are the results it was fed. */
  predicate SeesFaces(h: seq<Obs<Confidence>>, calls: seq<Call<FacePresenceResult>>) {
    && |h| == |calls|
    && forall i :: 0 <= i < |h| ==> h[i] == Obs(calls[i].result.faceCount >= 2, calls[i].id, calls[i].result.confidence)
  }

  lemma {:induction false} SeveralFacesSeen(
    h: seq<Obs<Confidence>>, calls: seq<Call<FacePresenceResult>>, k: nat, n: nat)
    requires 0 < k && SeesFaces(h, calls)
    ensures SeveralFaces(calls, k, n) <==> k <= n <= |h| && AllLast(h[..n], k)
  {
    if k <= n <= |h| {
      assert forall i :: n - k <= i < n ==> h[..n][i] == h[i];
    }
  }

  lemma {:induction false} FirstSeveral(p: Policy, h: seq<Obs<Confidence>>, calls: seq<Call<FacePresenceResult>>, n: nat)
    requires SeesFaces(h, calls) && p.terminateOnSecondFace
    requires SeveralFaces(calls, p.secondFaceConfirmationFrames, n)
    requires forall m: nat :: m < n ==> !SeveralFaces(calls, p.secondFaceConfirmationFrames, m)
    ensures n > 0 && Collected(DecideFace(p), h) == [FlagDecision(
      SecondPerson, Critical, calls[n - 1].result.confidence, true, None,
      CallIds(calls[n - p.secondFaceConfirmationFrames..n]), 0.0)]
  {
    hide Collected, SeveralFaces, SeesFaces, FirstFull, OnlyAtFirst, SecondPersonDecisions;
    var k := p.secondFaceConfirmationFrames;
    FirstSeen(h, calls, k, n);
    FaceDecides(p);
    ConfirmedOnce(DecideFace(p), k, h, n);
    FirstIsNow(h, k, n);
    FaceFlagAt(p, h, calls, n);
  }

  lemma {:induction false} FirstSeen(
    h: seq<Obs<Confidence>>, calls: seq<Call<FacePresenceResult>>, k: nat, n: nat)
    requires 0 < k && SeesFaces(h, calls) && SeveralFaces(calls, k, n)
    requires forall m: nat :: m < n ==> !SeveralFaces(calls, k, m)
    ensures FirstFull(h, k, n) && k <= n <= |calls| == |h|
  {
    hide AllLast, SeveralFaces;
    SeveralFacesSeen(h, calls, k, n);
    forall m: nat | k <= m < n
      ensures !AllLast(h[..m], k)
    {
      SeveralFacesSeen(h, calls, k, m);
    }
  }

  lemma {:induction false} FaceFlagAt(p: Policy, h: seq<Obs<Confidence>>, calls: seq<Call<FacePresenceResult>>, n: nat)
    requires SeesFaces(h, calls) && p.terminateOnSecondFace && p.secondFaceConfirmationFrames <= n <= |calls|
    requires FirstTime.HappensNow(FullWindow(p.secondFaceConfirmationFrames), h[..n])
    ensures SecondPersonDecisions(p, h[..n]) == [FlagDecision(
      SecondPerson, Critical, calls[n - 1].result.confidence, true, None,
      CallIds(calls[n - p.secondFaceConfirmationFrames..n]), 0.0)]
  {
    hide FirstTime.HappensNow, Ids, Last, CallIds;
    LastIds(h, calls, p.secondFaceConfirmationFrames, n);
    assert h[..n][n - 1] == h[n - 1];
  }

  lemma {:induction false} LastIds<T, R>(h: seq<Obs<T>>, calls: seq<Call<R>>, k: nat, n: nat)
    requires k <= n <= |calls| == |h| && forall i :: 0 <= i < |h| ==> h[i].id == calls[i].id
    ensures Ids(Last(h[..n], k)) == CallIds(calls[n - k..n])
  {
    var last, window := Last(h[..n], k), calls[n - k..n];
    forall i | 0 <= i < k
      ensures last[i].id == window[i].id
    {
      assert last[i] == h[..n][n - k + i] && window[i] == calls[n - k + i];
    }
    hide Last;
  }

  lemma {:induction false} NeverSeveral(p: Policy, h: seq<Obs<Confidence>>, calls: seq<Call<FacePresenceResult>>)
    requires SeesFaces(h, calls)
    requires p.terminateOnSecondFace ==>
      forall m: nat :: m <= |calls| ==> !SeveralFaces(calls, p.secondFaceConfirmationFrames, m)
    ensures Collected(DecideFace(p), h) == []
  {
    hide Collected, AllLast, SeveralFaces, FirstTime.HappensNow, Ids, Last;
    var k := p.secondFaceConfirmationFrames;
    FaceDecides(p);
    if p.terminateOnSecondFace {
      forall m: nat | k <= m <= |h|
        ensures !AllLast(h[..m], k)
      {
        SeveralFacesSeen(h, calls, k, m);
      }
      NeverConfirmed(DecideFace(p), k, h);
    } else {
      NothingCollected(DecideFace(p), h);
    }
  }

  /** Second person, over any run on all paths: if the policy asks for it and some k consecutive
      face results count two faces or more, there is exactly one second-person flag, raised at the
      first such k results, CRITICAL and terminating, with the confidence of the last of them and
      citing exactly them. Otherwise there is none. */
  lemma {:induction false} SecondPersonLaw(p: Policy, inputs: seq<Input>, n: nat)
    ensures var calls, k := FaceCalls(inputs), p.secondFaceConfirmationFrames;
      p.terminateOnSecondFace && SeveralFaces(calls, k, n) && (forall m: nat :: m < n ==> !SeveralFaces(calls, k, m)) ==>
        Of(AfterInputs(p, inputs).emitted, {SecondPerson}) == [FlagDecision(
          SecondPerson, Critical, calls[n - 1].result.confidence, true, None, CallIds(calls[n - k..n]), 0.0)]
    ensures var calls, k := FaceCalls(inputs), p.secondFaceConfirmationFrames;
      !p.terminateOnSecondFace || (forall m: nat :: m <= |calls| ==> !SeveralFaces(calls, k, m)) ==>
        Of(AfterInputs(p, inputs).emitted, {SecondPerson}) == []
  {
    hide AfterInputs, FaceCalls, Of, Collected, DecideFace, SeveralFaces, SeesFaces;
    var calls, k, h := FaceCalls(inputs), p.secondFaceConfirmationFrames, AfterInputs(p, inputs).face;
    EmittedByPath(p, inputs);
    FacesSeen(p, inputs);
    if p.terminateOnSecondFace && SeveralFaces(calls, k, n) && forall m: nat :: m < n ==> !SeveralFaces(calls, k, m) {
      FirstSeveral(p, h, calls, n);
    }
    if !p.terminateOnSecondFace || forall m: nat :: m <= |calls| ==> !SeveralFaces(calls, k, m) {
      NeverSeveral(p, h, calls);
    }
  }

  lemma {:induction false} FacesSeen(p: Policy, inputs: seq<Input>)
    ensures SeesFaces(AfterInputs(p, inputs).face, FaceCalls(inputs))
  {
    hide AfterInputs, FaceCalls;
    Observed(p, inputs);
  }

  /** A candidate alone is never terminated: without results of two faces or more there is no
      second-person flag. */
  lemma {:induction false} AloneIsSafe(p: Policy, inputs: seq<Input>)
    requires forall input :: input in inputs && input.FaceInput? ==> input.face.faceCount <= 1
    ensures Of(AfterInputs(p, inputs).emitted, {SecondPerson}) == []
  {
    hide AfterInputs, Of;
    var calls, k := FaceCalls(inputs), p.secondFaceConfirmationFrames;
    FaceCallsFrom(inputs);
    SecondPersonLaw(p, inputs, 0);
    forall n: nat | k <= n <= |calls|
      ensures !SeveralFaces(calls, k, n)
    {
      assert calls[n - 1] in calls;
    }
  }

  lemma {:induction false} FaceCallsFrom(inputs: seq<Input>)
    ensures forall call :: call in FaceCalls(inputs) ==> FaceInput(call.result, call.id) in inputs
  {
    if |inputs| > 0 {
      FaceCallsFrom(inputs[..|inputs| - 1]);
      assert inputs == inputs[..|inputs| - 1] + [inputs[|inputs| - 1]];
    }
  }

  // -------------------------------------------------------------------------
  // Identity
  // -------------------------------------------------------------------------

  function Added(xs: seq<UnitReal>): real {
    if |xs| == 0 then 0.0 else xs[0] + Added(xs[1..])
  }

  /** Least reading, mean and greatest reading of a window. */
  predicate IsSpread(c: Confidence, xs: seq<UnitReal>)
    requires |xs| > 0
  {
    && c.lower in xs && c.upper in xs
    && (forall x :: x in xs ==> c.lower <= x <= c.upper)
    && c.score == Added(xs) / (|xs| as real)
  }

  lemma {:induction false} AddedIsSum(xs: seq<UnitReal>)
    ensures Added(xs) == Statistics.Sum(xs)
  {
    if |xs| > 0 {
      var x, rest := xs[0], xs[1..];
      AddedIsSum(rest);
      SumFirst(x, rest);
      assert xs == [x] + rest;
    }
  }

  lemma {:induction false} SumFirst(x: UnitReal, rest: seq<UnitReal>)
    ensures Statistics.Sum([x] + rest) == x + Statistics.Sum(rest)
    decreases |rest|
  {
    var all := [x] + rest;
    if |rest| == 0 {
      assert all[..0] == [];
      assert Statistics.Sum(all) == Statistics.Sum([]) + x;
    } else {
      assert all[..|all| - 1] == [x] + rest[..|rest| - 1];
      SumFirst(x, rest[..|rest| - 1]);
    }
  }

  lemma {:induction false} IntervalIsSpread(xs: seq<UnitReal>)
    requires |xs| > 0
    ensures IsSpread(Statistics.WindowInterval(xs), xs)
  {
    AddedIsSum(xs);
  }

  function Similarities(calls: seq<Call<IdentityMatchResult>>): (xs: seq<UnitReal>)
    ensures |xs| == |calls| && forall i :: 0 <= i < |calls| ==> xs[i] == calls[i].result.similarity
  {
    seq(|calls|, i requires 0 <= i < |calls| => calls[i].result.similarity)
  }

  /** The first n results end with w similarities below the threshold. */
  predicate Mismatches(calls: seq<Call<IdentityMatchResult>>, threshold: real, w: nat, n: nat) {
    w <= n <= |calls| && forall i :: n - w <= i < n ==> calls[i].result.similarity < threshold
  }

  predicate SeesIdentities(p: Policy, h: seq<Obs<UnitReal>>, calls: seq<Call<IdentityMatchResult>>) {
    && |h| == |calls|
    && forall i :: 0 <= i < |h| ==>
         h[i] == Obs(calls[i].result.similarity < p.identitySimilarityThreshold, calls[i].id, calls[i].result.similarity)
  }

  lemma {:induction false} IdentitiesSeen(p: Policy, inputs: seq<Input>)
    ensures SeesIdentities(p, AfterInputs(p, inputs).identity, IdentityCalls(inputs))
  {
    hide AfterInputs, IdentityCalls;
    Observed(p, inputs);
  }

  lemma {:induction false} MismatchesSeen(p: Policy, h: seq<Obs<UnitReal>>, calls: seq<Call<IdentityMatchResult>>, n: nat)
    requires SeesIdentities(p, h, calls)
    ensures var w := p.identityConfirmationFrames;
      |h| == |calls| && (Mismatches(calls, p.identitySimilarityThreshold, w, n) <==> w <= n <= |h| && AllLast(h[..n], w))
  {
    if p.identityConfirmationFrames <= n <= |h| {
      assert forall i :: n - p.identityConfirmationFrames <= i < n ==> h[..n][i] == h[i];
    }
  }

  lemma {:induction false} IdentityDecides(p: Policy)
    ensures OnlyAtFirst(DecideIdentity(p), p.identityConfirmationFrames)
  {
    hide FirstTime.HappensNow, Ids, Last, Readings, Statistics.WindowInterval;
  }

  /** Identity, over any run on all paths: if some w consecutive similarities are below the
      threshold, there is exactly one mismatch flag, raised at the first such w results, CRITICAL
      and terminating, with their least, mean and greatest similarity and citing exactly them.
      Otherwise there is none. */
  lemma {:induction false} IdentityLaw(p: Policy, inputs: seq<Input>, n: nat)
    ensures var calls, w := IdentityCalls(inputs), p.identityConfirmationFrames;
      var ds := Of(AfterInputs(p, inputs).emitted, {IdentityMismatch});
      Mismatches(calls, p.identitySimilarityThreshold, w, n)
      && (forall m: nat :: m < n ==> !Mismatches(calls, p.identitySimilarityThreshold, w, m)) ==>
        && |ds| == 1 && IsSpread(ds[0].confidence, Similarities(calls[n - w..n]))
        && ds[0] == FlagDecision(
             IdentityMismatch, Critical, ds[0].confidence, true, None, CallIds(calls[n - w..n]), 0.0)
    ensures var calls, w := IdentityCalls(inputs), p.identityConfirmationFrames;
      (forall m: nat :: m <= |calls| ==> !Mismatches(calls, p.identitySimilarityThreshold, w, m)) ==>
        Of(AfterInputs(p, inputs).emitted, {IdentityMismatch}) == []
  {
    hide AfterInputs, IdentityCalls, Of, Collected, DecideIdentity, Mismatches, SeesIdentities, IsSpread;
    var calls, w, t := IdentityCalls(inputs), p.identityConfirmationFrames, p.identitySimilarityThreshold;
    var h := AfterInputs(p, inputs).identity;
    EmittedByPath(p, inputs);
    IdentitiesSeen(p, inputs);
    if Mismatches(calls, t, w, n) && forall m: nat :: m < n ==> !Mismatches(calls, t, w, m) {
      FirstMismatches(p, h, calls, n);
    }
    if forall m: nat :: m <= |calls| ==> !Mismatches(calls, t, w, m) {
      NeverMismatches(p, h, calls);
    }
  }

  lemma {:induction false} FirstMismatches(
    p: Policy, h: seq<Obs<UnitReal>>, calls: seq<Call<IdentityMatchResult>>, n: nat)
    requires SeesIdentities(p, h, calls)
    requires Mismatches(calls, p.identitySimilarityThreshold, p.identityConfirmationFrames, n)
    requires forall m: nat :: m < n ==>
      !Mismatches(calls, p.identitySimilarityThreshold, p.identityConfirmationFrames, m)
    ensures var ds, w := Collected(DecideIdentity(p), h), p.identityConfirmationFrames;
      && w <= n <= |calls| && |ds| == 1 && IsSpread(ds[0].confidence, Similarities(calls[n - w..n]))
      && ds[0] == FlagDecision(
           IdentityMismatch, Critical, ds[0].confidence, true, None, CallIds(calls[n - w..n]), 0.0)
  {
    hide Collected, AllLast, Mismatches, OnlyAtFirst, IdentityDecisions, SeesIdentities, IsSpread;
    var w := p.identityConfirmationFrames;
    forall m: nat | m <= n
      ensures Mismatches(calls, p.identitySimilarityThreshold, w, m) <==> w <= m <= |calls| == |h| && AllLast(h[..m], w)
    {
      MismatchesSeen(p, h, calls, m);
    }
    IdentityDecides(p);
    ConfirmedOnce(DecideIdentity(p), w, h, n);
    FirstIsNow(h, w, n);
    IdentityFlagAt(p, h, calls, n);
  }

  lemma {:induction false} NeverMismatches(p: Policy, h: seq<Obs<UnitReal>>, calls: seq<Call<IdentityMatchResult>>)
    requires SeesIdentities(p, h, calls)
    requires forall m: nat :: m <= |calls| ==>
      !Mismatches(calls, p.identitySimilarityThreshold, p.identityConfirmationFrames, m)
    ensures Collected(DecideIdentity(p), h) == []
  {
    hide Collected, AllLast, Mismatches, OnlyAtFirst, DecideIdentity;
    var w := p.identityConfirmationFrames;
    forall m: nat | w <= m <= |h|
      ensures !AllLast(h[..m], w)
    {
      MismatchesSeen(p, h, calls, m);
    }
    IdentityDecides(p);
    NeverConfirmed(DecideIdentity(p), w, h);
  }

  lemma {:induction false} IdentityFlagAt(
    p: Policy, h: seq<Obs<UnitReal>>, calls: seq<Call<IdentityMatchResult>>, n: nat)
    requires SeesIdentities(p, h, calls) && p.identityConfirmationFrames <= n <= |calls|
    requires FirstTime.HappensNow(FullWindow(p.identityConfirmationFrames), h[..n])
    ensures var ds, w := IdentityDecisions(p, h[..n]), p.identityConfirmationFrames;
      && |ds| == 1 && IsSpread(ds[0].confidence, Similarities(calls[n - w..n]))
      && ds[0] == FlagDecision(
           IdentityMismatch, Critical, ds[0].confidence, true, None, CallIds(calls[n - w..n]), 0.0)
  {
    hide FirstTime.HappensNow, Ids, Last, CallIds, Readings, IsSpread;
    var w := p.identityConfirmationFrames;
    LastIds(h, calls, w, n);
    LastSimilarities(p, h, calls, w, n);
    IntervalIsSpread(Similarities(calls[n - w..n]));
  }

  lemma {:induction false} LastSimilarities(
    p: Policy, h: seq<Obs<UnitReal>>, calls: seq<Call<IdentityMatchResult>>, k: nat, n: nat)
    requires k <= n <= |calls| && SeesIdentities(p, h, calls)
    ensures Readings(Last(h[..n], k)) == Similarities(calls[n - k..n])
  {
    var xs := Similarities(calls[n - k..n]);
    forall i | 0 <= i < k
      ensures h[n - k + i].reading == xs[i]
    {
      assert calls[n - k..n][i] == calls[n - k + i];
    }
    LastReadings(h, xs, k, n);
  }

  lemma {:induction false} LastReadings(h: seq<Obs<UnitReal>>, xs: seq<UnitReal>, k: nat, n: nat)
    requires k <= n <= |h| && |xs| == k && forall i :: 0 <= i < k ==> h[n - k + i].reading == xs[i]
    ensures Readings(Last(h[..n], k)) == xs
  {
    var last := Last(h[..n], k);
    forall i | 0 <= i < k
      ensures last[i].reading == xs[i]
    {
      assert last[i] == h[..n][n - k + i];
    }
    hide Last;
  }

  // -------------------------------------------------------------------------
  // Liveness
  // -------------------------------------------------------------------------

  /** The last length results are all spoofs, and no longer suffix is. */
  predicate SpoofRun(calls: seq<Call<LivenessResult>>, length: nat) {
    && length <= |calls|
    && (forall i :: |calls| - length <= i < |calls| ==> !calls[i].result.isReal)
    && (length < |calls| ==> calls[|calls| - length - 1].result.isReal)
  }

  function Scores(calls: seq<Call<LivenessResult>>): (xs: seq<UnitReal>)
    ensures |xs| == |calls| && forall i :: 0 <= i < |calls| ==> xs[i] == calls[i].result.score
  {
    seq(|calls|, i requires 0 <= i < |calls| => calls[i].result.score)
  }

  /** Liveness, after any run on all paths: with the check enabled a call returns a liveness flag
      if and only if the spoofs since the last real frame, this one included, number a positive
      multiple of the window. The flag cites exactly the last window of frames and spans their
      scores; it is CRITICAL and terminates, or is MEDIUM and scored, as the policy says. */
  lemma {:induction false} LivenessLaw(p: Policy, inputs: seq<Input>, r: LivenessResult, id: EventId, length: nat)
    requires SpoofRun(LivenessCalls(inputs) + [Call(r, id)], length)
    ensures var calls, w := LivenessCalls(inputs) + [Call(r, id)], p.livenessConfirmationFrames;
      var ds := Of(Returned(p, AfterInputs(p, inputs), LivenessInput(r, id)), {LivenessCheckFailed});
      var critical := p.livenessCheckAction == Some(CriticalTerminate);
      if p.livenessCheckEnabled && length > 0 && length % w == 0 then
        && w <= |calls| && |ds| == 1 && IsSpread(ds[0].confidence, Scores(calls[|calls| - w..]))
        && ds[0] == FlagDecision(
             LivenessCheckFailed, if critical then Critical else Medium, ds[0].confidence, critical, None,
             CallIds(calls[|calls| - w..]),
             if critical then 0.0
             else if LivenessCheckFailed in p.scoreWeights then p.scoreWeights[LivenessCheckFailed] else 1.0)
      else ds == []
  {
    hide AfterInputs, LivenessCalls, Of, LivenessDecisions, IsSpread;
    var h, calls := AfterInputs(p, inputs), LivenessCalls(inputs) + [Call(r, id)];
    Observed(p, inputs);
    var seen := h.liveness + [LivenessObs(r, id)];
    LivenessAt(p, h.Score(), seen, calls, length);
    ReturnsTwoAtMost(p, h, LivenessInput(r, id));
    OneRule(p, LivenessDecisions(p, h.Score(), seen), {LivenessCheckFailed}, LivenessCheckFailed);
  }

  lemma {:induction false} LivenessAt(
    p: Policy, score: real, h: seq<Obs<UnitReal>>, calls: seq<Call<LivenessResult>>, length: nat)
    requires 0 < |h| == |calls| && SpoofRun(calls, length)
    requires forall i :: 0 <= i < |h| ==>
      h[i] == Obs(!calls[i].result.isReal, calls[i].id, calls[i].result.score)
    ensures var ds, w := LivenessDecisions(p, score, h), p.livenessConfirmationFrames;
      var critical := p.livenessCheckAction == Some(CriticalTerminate);
      if p.livenessCheckEnabled && length > 0 && length % w == 0 then
        && w <= |calls| && |ds| > 0 && IsSpread(ds[0].confidence, Scores(calls[|calls| - w..]))
        && ds[0] == FlagDecision(
             LivenessCheckFailed, if critical then Critical else Medium, ds[0].confidence, critical, None,
             CallIds(calls[|calls| - w..]),
             if critical then 0.0
             else if LivenessCheckFailed in p.scoreWeights then p.scoreWeights[LivenessCheckFailed] else 1.0)
      else ds == []
  {
    hide Ids, Last, Readings, CallIds, IsSpread, MediumFlag, SuffixRun, Scores, Statistics.WindowInterval;
    var w := p.livenessConfirmationFrames;
    RunLength(h, length);
    if length > 0 && length % w == 0 {
      TileFillsWindow(h, w);
      LivenessWindow(h, calls, w);
      var interval := Statistics.WindowInterval(Readings(Last(h, w)));
      MediumShape(p, score, LivenessCheckFailed, interval, Ids(Last(h, w)));
    }
  }

  lemma {:induction false} LivenessWindow(h: seq<Obs<UnitReal>>, calls: seq<Call<LivenessResult>>, w: nat)
    requires 0 < w <= |h| == |calls|
    requires forall i :: 0 <= i < |h| ==>
      h[i] == Obs(!calls[i].result.isReal, calls[i].id, calls[i].result.score)
    ensures Ids(Last(h, w)) == CallIds(calls[|calls| - w..])
    ensures IsSpread(Statistics.WindowInterval(Readings(Last(h, w))), Scores(calls[|calls| - w..]))
  {
    hide Ids, Last, Readings, CallIds, IsSpread, Statistics.WindowInterval;
    var n := |h|;
    assert h[..n] == h && calls[n - w..n] == calls[n - w..];
    LastIds(h, calls, w, n);
    var xs := Scores(calls[n - w..]);
    forall i | 0 <= i < w
      ensures h[n - w + i].reading == xs[i]
    {
      assert calls[n - w..][i] == calls[n - w + i];
    }
    LastReadings(h, xs, w, n);
    IntervalIsSpread(xs);
  }

  lemma {:induction false} RunLength<T>(h: seq<Obs<T>>, length: nat)
    requires length <= |h| && (forall i :: |h| - length <= i < |h| ==> h[i].hit)
    requires length < |h| ==> !h[|h| - length - 1].hit
    ensures SuffixRun(h) == length
  {
    RunReachesWindow(h, length);
    RunReachesWindow(h, length + 1);
  }
}
