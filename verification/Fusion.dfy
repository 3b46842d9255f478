/** What each detection path must return, as a function of the path's whole history.

    The aggregator computes these results from counters, deques and latches; the functions
    here only look at the frames that were fed. */
module Fusion {
  import opened FusionTypes
  import opened Runs
  import opened Trails
  import opened GazeEpisodes
  import FirstTime
  import Statistics

  /** The accumulated-score flag, raised whenever the score is at or above a positive threshold. */
  function AccumulatedFlag(p: Policy, score: real, ids: seq<EventId>): seq<FlagDecision> {
    if p.mediumScoreTerminationThreshold <= 0.0 || score < p.mediumScoreTerminationThreshold then []
    else
      [FlagDecision(AccumulatedScore, Critical, CERTAIN, p.mediumScoreAction == AutoTerminate, None, ids, 0.0)]
  }

  /** A MEDIUM flag that adds its rule's weight to the score, and the flag this may cause. */
  function MediumFlag(p: Policy, score: real, rule: RuleCode, c: Confidence, ids: seq<EventId>)
    : seq<FlagDecision>
  {
    var weight := p.WeightFor(rule);
    [FlagDecision(rule, Medium, c, false, None, ids, weight)] + AccumulatedFlag(p, score + weight, ids)
  }

  function TerminatingFlag(rule: RuleCode, c: Confidence, ids: seq<EventId>): seq<FlagDecision> {
    [FlagDecision(rule, Critical, c, true, None, ids, 0.0)]
  }

  // -------------------------------------------------------------------------
  // The six paths
  // -------------------------------------------------------------------------

  /** Second person: at the first k consecutive multi-face frames, citing exactly those. */
  ghost function SecondPersonDecisions(p: Policy, h: seq<Obs<Confidence>>): seq<FlagDecision>
    requires |h| > 0
  {
    var k := p.secondFaceConfirmationFrames;
    if p.terminateOnSecondFace && FirstTime.HappensNow(FullWindow(k), h) then
      TerminatingFlag(SecondPerson, h[|h| - 1].reading, Ids(Last(h, k)))
    else []
  }

  /** Identity: at the first w consecutive frames below the threshold, citing exactly those. */
  ghost function IdentityDecisions(p: Policy, h: seq<Obs<UnitReal>>): seq<FlagDecision>
    requires |h| > 0
  {
    var w := p.identityConfirmationFrames;
    if FirstTime.HappensNow(FullWindow(w), h) then
      TerminatingFlag(
        IdentityMismatch, Statistics.WindowInterval(Readings(Last(h, w))), Ids(Last(h, w)))
    else []
  }

  /** Liveness: whenever a run of spoof frames reaches a multiple of w, citing its last w frames. */
  function LivenessDecisions(p: Policy, score: real, h: seq<Obs<UnitReal>>): seq<FlagDecision>
    requires |h| > 0
  {
    var w := p.livenessConfirmationFrames;
    if p.livenessCheckEnabled && CompletesTile(h, w) then
      var interval := Statistics.WindowInterval(Readings(Last(h, w)));
      var ids := Ids(Last(h, w));
      if p.livenessCheckAction == Some(CriticalTerminate) then
        TerminatingFlag(LivenessCheckFailed, interval, ids)
      else
        MediumFlag(p, score, LivenessCheckFailed, interval, ids)
    else []
  }

  function GazeWindow(p: Policy, h: seq<GazeFrame>): seq<GazeAwayEvent> {
    Window(h, p.gazeMinDurationMs, p.gazeWindowSeconds * 1000)
  }

  /** The condition "the rolling window holds at least the termination limit of episodes". */
  ghost function GazeLimitReached(p: Policy): seq<GazeFrame> -> bool {
    h => p.gazeTerminationLimit <= |GazeWindow(p, h)|
  }

  /** The flag for a rolling window that has not terminated before. */
  function GazeFlag(p: Policy, score: real, q: seq<GazeAwayEvent>, c: Confidence): seq<FlagDecision> {
    if p.gazeTerminationLimit <= |q| then TerminatingFlag(GazeAwayFrequency, c, AllIds(q))
    else if p.gazeWarningLimit <= |q| then
      MediumFlag(p, score, GazeAwayFrequency, c, if |q| > 0 then q[|q| - 1].contributing else [])
    else []
  }

  /** Gaze: terminate at the first call whose window reaches the termination limit; before that,
      warn on every call whose window holds at least the warning limit. */
  ghost function GazeDecisions(p: Policy, score: real, h: seq<GazeFrame>, c: Confidence): seq<FlagDecision>
    requires |h| > 0
  {
    if FirstTime.Happened(GazeLimitReached(p), h[..|h| - 1]) then []
    else GazeFlag(p, score, GazeWindow(p, h), c)
  }

  function ObjectDecisions(p: Policy, score: real, r: ObjectDetectionResult, id: EventId): seq<FlagDecision> {
    var rule := if r.isBook then BookDetected else ObjectDetected;
    if r.isBook && !r.bookFlagged then []
    else if r.exemption.Some? then
      [FlagDecision(rule, Low, r.confidence, false, r.exemption, [id], 0.0)]
    else MediumFlag(p, score, rule, r.confidence, [id])
  }

  function BrowserDecisions(p: Policy, score: real, r: BrowserEventResult, id: EventId): seq<FlagDecision> {
    if r.accumulates then MediumFlag(p, score, BrowserEvent, CERTAIN, [id])
    else [FlagDecision(BrowserEvent, Medium, CERTAIN, false, None, [id], 0.0)]
  }

  function AudioDecisions(p: Policy, score: real, r: AudioVadResult, id: EventId): seq<FlagDecision> {
    if r.isSilence then [] else MediumFlag(p, score, AudioAnomaly, r.confidence, [id])
  }

  // -------------------------------------------------------------------------
  // The paths that confirm over consecutive frames, over a whole run
  // -------------------------------------------------------------------------

  /** At how many of the calls h[..1], h[..2], ..., h a path returns a flag. */
  ghost function TimesRaised<T>(decide: seq<T> -> seq<FlagDecision>, h: seq<T>): nat {
    if |h| == 0 then 0 else TimesRaised(decide, h[..|h| - 1]) + (if decide(h) != [] then 1 else 0)
  }

  lemma {:induction false} RaisedAsOften<T>(decide: seq<T> -> seq<FlagDecision>, p: seq<T> -> bool, h: seq<T>)
    requires forall g :: |g| > 0 ==> (decide(g) != [] <==> FirstTime.HappensNow(p, g))
    ensures TimesRaised(decide, h) == FirstTime.Occurrences(p, h)
  {
    hide FirstTime.HappensNow;
    if |h| > 0 {
      RaisedAsOften(decide, p, h[..|h| - 1]);
    }
  }

  /** Over any run of calls the second-person flag is raised exactly once if the policy asks for
      it and some k consecutive frames show several faces, and never otherwise. */
  lemma {:induction false} SecondPersonOnce(p: Policy, h: seq<Obs<Confidence>>)
    ensures TimesRaised(g => if |g| > 0 then SecondPersonDecisions(p, g) else [], h) ==
      if p.terminateOnSecondFace
        && exists n :: p.secondFaceConfirmationFrames <= n <= |h| && AllLast(h[..n], p.secondFaceConfirmationFrames)
      then 1 else 0
  {
    hide FirstTime.HappensNow, AllLast;
    var k := p.secondFaceConfirmationFrames;
    var decide: seq<Obs<Confidence>> -> seq<FlagDecision> := g => if |g| > 0 then SecondPersonDecisions(p, g) else [];
    if p.terminateOnSecondFace {
      RaisedAsOften(decide, FullWindow(k), h);
      ConfirmsExactlyOnce(h, k);
    } else {
      NeverRaised(decide, h);
    }
  }

  lemma {:induction false} NeverRaised<T>(decide: seq<T> -> seq<FlagDecision>, h: seq<T>)
    requires forall g :: decide(g) == []
    ensures TimesRaised(decide, h) == 0
  {
    if |h| > 0 {
      NeverRaised(decide, h[..|h| - 1]);
    }
  }

  /** The same for the identity mismatch: once, at the first w consecutive frames below the
      threshold. */
  lemma {:induction false} IdentityOnce(p: Policy, h: seq<Obs<UnitReal>>)
    ensures TimesRaised(g => if |g| > 0 then IdentityDecisions(p, g) else [], h) ==
      if exists n :: p.identityConfirmationFrames <= n <= |h| && AllLast(h[..n], p.identityConfirmationFrames)
      then 1 else 0
  {
    hide FirstTime.HappensNow, AllLast, Ids, Last, Readings;
    var w := p.identityConfirmationFrames;
    var decide: seq<Obs<UnitReal>> -> seq<FlagDecision> := g => if |g| > 0 then IdentityDecisions(p, g) else [];
    forall g | |g| > 0
      ensures decide(g) != [] <==> FirstTime.HappensNow(FullWindow<UnitReal>(w), g)
    {
    }
    RaisedAsOften(decide, FullWindow(w), h);
    ConfirmsExactlyOnce(h, w);
  }

  /** A second-person or identity flag cites exactly the confirming frames: they are the whole run
      of hits, and nothing else. */
  lemma {:induction false} ConfirmedFramesCited(p: Policy, face: seq<Obs<Confidence>>, identity: seq<Obs<UnitReal>>)
    requires |face| > 0 && |identity| > 0
    ensures SecondPersonDecisions(p, face) != [] ==>
      && SuffixRun(face) == p.secondFaceConfirmationFrames
      && SecondPersonDecisions(p, face)[0].contributing == Ids(Last(face, SuffixRun(face)))
    ensures IdentityDecisions(p, identity) != [] ==>
      && SuffixRun(identity) == p.identityConfirmationFrames
      && IdentityDecisions(p, identity)[0].contributing == Ids(Last(identity, SuffixRun(identity)))
  {
    hide FirstTime.HappensNow, Ids, Last, Readings;
    if SecondPersonDecisions(p, face) != [] {
      ConfirmingRunIsWindow(face, p.secondFaceConfirmationFrames);
    }
    if IdentityDecisions(p, identity) != [] {
      ConfirmingRunIsWindow(identity, p.identityConfirmationFrames);
    }
  }

  /** The liveness path confirms at the tiles of the spoof run and cites each of them; every flag
      of one call cites the same tile. */
  lemma {:induction false} LivenessFollowsTiles(p: Policy, score: real, h: seq<Obs<UnitReal>>)
    requires |h| > 0 && p.livenessCheckEnabled
    ensures var ds := LivenessDecisions(p, score, h);
      && TileAt(h, p.livenessConfirmationFrames) == (if |ds| > 0 then [ds[0].contributing] else [])
      && (forall d :: d in ds ==> d.contributing == ds[0].contributing)
      && (|ds| > 0 ==> ds[0].ruleCode == LivenessCheckFailed)
      && (|ds| > 0 ==> ds[0].triggeredTermination == (p.livenessCheckAction == Some(CriticalTerminate)))
  {
    hide Ids, Last, Readings, SuffixRun;
    var w := p.livenessConfirmationFrames;
    if CompletesTile(h, w) {
      var interval := Statistics.WindowInterval(Readings(Last(h, w)));
      SameCitation(p, score, LivenessCheckFailed, interval, Ids(Last(h, w)));
    }
  }

  lemma {:induction false} SameCitation(p: Policy, score: real, rule: RuleCode, c: Confidence, ids: seq<EventId>)
    ensures forall d :: d in MediumFlag(p, score, rule, c, ids) ==> d.contributing == ids
    ensures forall d :: d in TerminatingFlag(rule, c, ids) ==> d.contributing == ids
  {
  }

  // -------------------------------------------------------------------------
  // Gaze termination over a whole run
  // -------------------------------------------------------------------------

  predicate Terminates(ds: seq<FlagDecision>, rule: RuleCode) {
    exists d :: d in ds && d.ruleCode == rule && d.triggeredTermination
  }

  lemma {:induction false} MediumFlagContinues(p: Policy, score: real, rule: RuleCode, c: Confidence, ids: seq<EventId>)
    requires rule != AccumulatedScore
    ensures !Terminates(MediumFlag(p, score, rule, c, ids), rule)
  {
    var a := AccumulatedFlag(p, score + p.WeightFor(rule), ids);
    assert forall d :: d in a ==> d.ruleCode == AccumulatedScore;
  }

  lemma {:induction false} GazeFlagTerminates(p: Policy, score: real, q: seq<GazeAwayEvent>, c: Confidence)
    ensures Terminates(GazeFlag(p, score, q, c), GazeAwayFrequency) <==> p.gazeTerminationLimit <= |q|
  {
    var ids := if |q| > 0 then q[|q| - 1].contributing else [];
    MediumFlagContinues(p, score, GazeAwayFrequency, c, ids);
    assert TerminatingFlag(GazeAwayFrequency, c, AllIds(q))[0] in TerminatingFlag(GazeAwayFrequency, c, AllIds(q));
  }

  /** The closed episodes of the whole history that ended no earlier than the window before
      its latest frame. */
  function EpisodesInWindow(p: Policy, h: seq<GazeFrame>): seq<GazeAwayEvent>
    requires |h| > 0
  {
    Recent(Episodes(Seen(h), p.gazeMinDurationMs), Cutoff(h, p.gazeWindowSeconds * 1000))
  }

  /** The condition "the episodes of the history within the window reach the termination limit". */
  ghost function EpisodesReachLimit(p: Policy): seq<GazeFrame> -> bool {
    h => |h| > 0 && p.gazeTerminationLimit <= |EpisodesInWindow(p, h)|
  }

  lemma {:induction false} LimitMeansEpisodes(p: Policy, h: seq<GazeFrame>)
    requires Monotone(h)
    ensures GazeLimitReached(p)(h) == EpisodesReachLimit(p)(h)
  {
    if |h| > 0 {
      WindowIsRecentEpisodes(h, p.gazeMinDurationMs, p.gazeWindowSeconds * 1000);
    }
  }

  /** Gaze termination: with non-decreasing timestamps a call terminates exactly when it is the
      first one at which the episodes of the whole history that ended within the window before
      it reach the limit. */
  lemma {:induction false} GazeTerminatesAtLimit(p: Policy, score: real, h: seq<GazeFrame>, c: Confidence)
    requires |h| > 0 && Monotone(h)
    ensures Terminates(GazeDecisions(p, score, h, c), GazeAwayFrequency) <==>
              FirstTime.HappensNow(EpisodesReachLimit(p), h)
  {
    var limit, h' := GazeLimitReached(p), h[..|h| - 1];
    GazeFlagTerminates(p, score, GazeWindow(p, h), c);
    assert h == h' + [h[|h| - 1]];
    FirstTime.Step(limit, h', h[|h| - 1]);
    forall n | 0 <= n <= |h|
      ensures limit(h[..n]) == EpisodesReachLimit(p)(h[..n])
    {
      LimitMeansEpisodes(p, h[..n]);
    }
    FirstTime.SameCalls(limit, EpisodesReachLimit(p), h);
  }

  lemma {:induction false} LimitReachedOnce(p: Policy, h: seq<GazeFrame>)
    ensures FirstTime.Occurrences(EpisodesReachLimit(p), h) ==
              if exists n :: 0 < n <= |h| && p.gazeTerminationLimit <= |EpisodesInWindow(p, h[..n])| then 1 else 0
  {
    var limit := EpisodesReachLimit(p);
    FirstTime.ExactlyOnce(limit, h);
    if n :| 0 <= n <= |h| && limit(h[..n]) {
      assert 0 < n && p.gazeTerminationLimit <= |EpisodesInWindow(p, h[..n])|;
    }
    if n :| 0 < n <= |h| && p.gazeTerminationLimit <= |EpisodesInWindow(p, h[..n])| {
      assert limit(h[..n]);
    }
  }

  /** One call of the gaze path: its frame, the score at that moment and the frame's confidence. */
  datatype GazeCall = GazeCall(frame: GazeFrame, score: real, confidence: Confidence)

  function Frames(calls: seq<GazeCall>): (h: seq<GazeFrame>)
    ensures |h| == |calls| && forall i :: 0 <= i < |calls| ==> h[i] == calls[i].frame
  {
    seq(|calls|, i requires 0 <= i < |calls| => calls[i].frame)
  }

  /** The last of some calls returns a terminating gaze flag. */
  ghost predicate CallTerminates(p: Policy, calls: seq<GazeCall>)
    requires |calls| > 0
  {
    var last := calls[|calls| - 1];
    Terminates(GazeDecisions(p, last.score, Frames(calls), last.confidence), GazeAwayFrequency)
  }

  /** How many of the calls return a terminating gaze flag. */
  ghost function GazeTerminations(p: Policy, calls: seq<GazeCall>): nat {
    if |calls| == 0 then 0
    else GazeTerminations(p, calls[..|calls| - 1]) + (if CallTerminates(p, calls) then 1 else 0)
  }

  lemma {:induction false} TerminationsAreOccurrences(p: Policy, calls: seq<GazeCall>)
    requires Monotone(Frames(calls))
    ensures GazeTerminations(p, calls) == FirstTime.Occurrences(EpisodesReachLimit(p), Frames(calls))
  {
    hide GazeDecisions, FirstTime.HappensNow, Terminates;
    if |calls| > 0 {
      var front, last := calls[..|calls| - 1], calls[|calls| - 1];
      assert Frames(front) == Frames(calls)[..|calls| - 1];
      TerminationsAreOccurrences(p, front);
      GazeTerminatesAtLimit(p, last.score, Frames(calls), last.confidence);
    }
  }

  /** In any run of calls with non-decreasing timestamps the gaze path returns a terminating flag
      exactly once if the episodes within the window ever reach the limit, and never otherwise. */
  lemma {:induction false} GazeTerminatesOnce(p: Policy, calls: seq<GazeCall>)
    requires Monotone(Frames(calls))
    ensures GazeTerminations(p, calls) ==
      if exists n :: 0 < n <= |calls| && p.gazeTerminationLimit <= |EpisodesInWindow(p, Frames(calls)[..n])| then 1 else 0
  {
    hide GazeTerminations, FirstTime.Occurrences, Frames, EpisodesInWindow;
    TerminationsAreOccurrences(p, calls);
    LimitReachedOnce(p, Frames(calls));
  }

  predicate Warns(ds: seq<FlagDecision>) {
    exists d :: d in ds && d.ruleCode == GazeAwayFrequency && !d.triggeredTermination && d.severity == Medium
  }

  lemma {:induction false} GazeFlagWarns(p: Policy, score: real, q: seq<GazeAwayEvent>, c: Confidence)
    ensures Warns(GazeFlag(p, score, q, c)) <==> p.gazeWarningLimit <= |q| < p.gazeTerminationLimit
  {
    var ids := if |q| > 0 then q[|q| - 1].contributing else [];
    var ds := MediumFlag(p, score, GazeAwayFrequency, c, ids);
    assert ds[0] in ds && ds[0].ruleCode == GazeAwayFrequency && !ds[0].triggeredTermination && ds[0].severity == Medium;
  }

  /** The warning is not given once only: until termination, every call at which the episodes
      within the window number at least the warning limit raises it again. */
  lemma {:induction false} GazeWarnsEveryCall(p: Policy, score: real, h: seq<GazeFrame>, c: Confidence)
    requires |h| > 0 && Monotone(h)
    ensures Warns(GazeDecisions(p, score, h, c)) <==>
      && !FirstTime.Happened(EpisodesReachLimit(p), h)
      && p.gazeWarningLimit <= |EpisodesInWindow(p, h)|
  {
    var limit, h' := GazeLimitReached(p), h[..|h| - 1];
    assert h == h' + [h[|h| - 1]];
    FirstTime.Step(limit, h', h[|h| - 1]);
    forall n | 0 <= n <= |h|
      ensures limit(h[..n]) == EpisodesReachLimit(p)(h[..n])
    {
      LimitMeansEpisodes(p, h[..n]);
    }
    FirstTime.SameCalls(limit, EpisodesReachLimit(p), h);
    WindowIsRecentEpisodes(h, p.gazeMinDurationMs, p.gazeWindowSeconds * 1000);
    GazeFlagWarns(p, score, GazeWindow(p, h), c);
  }

  // -------------------------------------------------------------------------
  // Deltas
  // -------------------------------------------------------------------------

  /** No decision takes anything off the score. */
  predicate NoneNegative(ds: seq<FlagDecision>) {
    forall d :: d in ds ==> 0.0 <= d.scoreDelta
  }

  lemma {:induction false} MediumFlagAdds(p: Policy, score: real, rule: RuleCode, c: Confidence, ids: seq<EventId>)
    requires p.NonNegativeWeights()
    ensures NoneNegative(MediumFlag(p, score, rule, c, ids))
  {
  }

  /** With non-negative weights no path ever takes anything off the score. */
  lemma {:induction false} GazeAdds(p: Policy, score: real, h: seq<GazeFrame>, c: Confidence)
    requires p.NonNegativeWeights() && |h| > 0
    ensures NoneNegative(GazeDecisions(p, score, h, c))
  {
    hide GazeWindow, MediumFlag;
    var q := GazeWindow(p, h);
    MediumFlagAdds(p, score, GazeAwayFrequency, c, if |q| > 0 then q[|q| - 1].contributing else []);
  }

  lemma {:induction false} LivenessAdds(p: Policy, score: real, h: seq<Obs<UnitReal>>)
    requires p.NonNegativeWeights() && |h| > 0
    ensures NoneNegative(LivenessDecisions(p, score, h))
  {
    hide MediumFlag, Ids, Last, Readings, SuffixRun;
    var w := p.livenessConfirmationFrames;
    if CompletesTile(h, w) {
      var interval := Statistics.WindowInterval(Readings(Last(h, w)));
      MediumFlagAdds(p, score, LivenessCheckFailed, interval, Ids(Last(h, w)));
    }
  }

  lemma {:induction false} SinglesAdd(
    p: Policy, score: real, det: ObjectDetectionResult, browser: BrowserEventResult, audio: AudioVadResult, id: EventId)
    requires p.NonNegativeWeights()
    ensures NoneNegative(ObjectDecisions(p, score, det, id))
    ensures NoneNegative(BrowserDecisions(p, score, browser, id))
    ensures NoneNegative(AudioDecisions(p, score, audio, id))
  {
    hide MediumFlag;
    MediumFlagAdds(p, score, if det.isBook then BookDetected else ObjectDetected, det.confidence, [id]);
    MediumFlagAdds(p, score, BrowserEvent, CERTAIN, [id]);
    MediumFlagAdds(p, score, AudioAnomaly, audio.confidence, [id]);
  }

  // -------------------------------------------------------------------------
  // Evidence trails
  // -------------------------------------------------------------------------

  /** Every decision cites ids that were fed, in feed order. */
  ghost predicate Cites(ds: seq<FlagDecision>, fed: seq<EventId>) {
    forall d :: d in ds ==> InOrder(d.contributing, fed)
  }

  /** If the path is fed distinct ids, no decision cites an id twice. */
  lemma {:induction false} CitationsDistinct(ds: seq<FlagDecision>, fed: seq<EventId>)
    requires Cites(ds, fed) && Distinct(fed)
    ensures forall d :: d in ds ==> Distinct(d.contributing) && forall id :: id in d.contributing ==> id in fed
  {
    forall d | d in ds
      ensures Distinct(d.contributing) && forall id :: id in d.contributing ==> id in fed
    {
      InOrderDistinct(d.contributing, fed);
    }
  }

  lemma {:induction false} MediumFlagCites(
    p: Policy, score: real, rule: RuleCode, c: Confidence, ids: seq<EventId>, fed: seq<EventId>)
    requires InOrder(ids, fed)
    ensures Cites(MediumFlag(p, score, rule, c, ids), fed)
    ensures Cites(TerminatingFlag(rule, c, ids), fed)
  {
    assert forall d :: d in MediumFlag(p, score, rule, c, ids) ==> d.contributing == ids;
    assert forall d :: d in TerminatingFlag(rule, c, ids) ==> d.contributing == ids;
  }

  lemma {:induction false} LastInOrder<T>(h: seq<Obs<T>>, k: nat)
    ensures InOrder(Ids(Last(h, k)), Ids(h))
  {
    var lo := if |h| < k then 0 else |h| - k;
    SliceInOrder(Ids(h), lo, |h|);
    assert Ids(Last(h, k)) == Ids(h)[lo..|h|];
  }

  lemma {:induction false} SecondPersonTrail(p: Policy, h: seq<Obs<Confidence>>)
    requires |h| > 0
    ensures Cites(SecondPersonDecisions(p, h), Ids(h))
  {
    LastInOrder(h, p.secondFaceConfirmationFrames);
  }

  lemma {:induction false} IdentityTrail(p: Policy, h: seq<Obs<UnitReal>>)
    requires |h| > 0
    ensures Cites(IdentityDecisions(p, h), Ids(h))
  {
    LastInOrder(h, p.identityConfirmationFrames);
  }

  lemma {:induction false} LivenessTrail(p: Policy, score: real, h: seq<Obs<UnitReal>>)
    requires |h| > 0
    ensures Cites(LivenessDecisions(p, score, h), Ids(h))
  {
    var w := p.livenessConfirmationFrames;
    LastInOrder(h, w);
    if CompletesTile(h, w) {
      TileFillsWindow(h, w);
      var interval := Statistics.WindowInterval(Readings(Last(h, w)));
      MediumFlagCites(p, score, LivenessCheckFailed, interval, Ids(Last(h, w)), Ids(h));
    }
  }

  lemma {:induction false} GazeFlagCites(
    p: Policy, score: real, q: seq<GazeAwayEvent>, c: Confidence, fed: seq<EventId>)
    requires InOrder(AllIds(q), fed)
    requires |q| > 0 ==> InOrder(q[|q| - 1].contributing, fed)
    ensures Cites(GazeFlag(p, score, q, c), fed)
  {
    EmptyInOrder(fed);
    var ids := if |q| > 0 then q[|q| - 1].contributing else [];
    MediumFlagCites(p, score, GazeAwayFrequency, c, ids, fed);
    MediumFlagCites(p, score, GazeAwayFrequency, c, AllIds(q), fed);
  }

  lemma {:induction false} GazeTrail(p: Policy, score: real, h: seq<GazeFrame>, c: Confidence)
    requires |h| > 0
    ensures Cites(GazeDecisions(p, score, h, c), FrameIds(h))
  {
    var minMs, windowMs := p.gazeMinDurationMs, p.gazeWindowSeconds * 1000;
    WindowTrail(h, minMs, windowMs);
    if |GazeWindow(p, h)| > 0 {
      LatestTrail(h, minMs, windowMs);
    }
    GazeFlagCites(p, score, GazeWindow(p, h), c, FrameIds(h));
  }
}
