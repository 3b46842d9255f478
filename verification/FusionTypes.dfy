/** Values shared by the fusion aggregator, the dispatcher and the persistence worker. */
module FusionTypes {

  datatype Option<+T> = None | Some(value: T)

  /** A telemetry event's UUID. Only equality of ids matters to the fusion pipeline. */
  type EventId = nat

  /** The (lower, score, upper) triple; construction outside these bounds raises in the program. */
  datatype ConfidenceInterval = ConfidenceInterval(lower: real, score: real, upper: real) {
    predicate Valid() {
      0.0 <= lower <= score <= upper <= 1.0
    }
  }

  type Confidence = c: ConfidenceInterval | c.Valid() witness ConfidenceInterval(0.0, 0.0, 0.0)

  /** A score or similarity in the unit interval. */
  type UnitReal = r: real | 0.0 <= r <= 1.0 witness 0.0

  const CERTAIN: Confidence := ConfidenceInterval(1.0, 1.0, 1.0)

  function PointInterval(score: UnitReal): Confidence {
    ConfidenceInterval(score, score, score)
  }

  datatype Severity = Critical | Medium | Low

  datatype RuleCode =
    | SecondPerson
    | GazeAwayFrequency
    | AccumulatedScore
    | ObjectDetected
    | BookDetected
    | BrowserEvent
    | LivenessCheckFailed
    | IdentityMismatch
    | AudioAnomaly

  datatype MediumScoreAction = AutoTerminate | FlagForReview

  datatype LivenessAction = CriticalTerminate | MediumAccumulate

  /** The policy thresholds of one session. The schema's check constraints make up Valid. */
  datatype PolicySnapshot = PolicySnapshot(
    terminateOnSecondFace: bool,
    secondFaceConfirmationFrames: int,
    gazeMinDurationMs: int,
    gazeWindowSeconds: int,
    gazeWarningLimit: int,
    gazeTerminationLimit: int,
    mediumScoreTerminationThreshold: real,
    mediumScoreAction: MediumScoreAction,
    livenessCheckEnabled: bool,
    livenessCheckAction: Option<LivenessAction>,
    livenessConfirmationFrames: int,
    identitySimilarityThreshold: real,
    identityConfirmationFrames: int,
    scoreWeights: map<RuleCode, real>
  ) {
    predicate Valid() {
      && 0 < secondFaceConfirmationFrames
      && 0 <= gazeMinDurationMs <= gazeWindowSeconds * 1000
      && 0 < gazeWindowSeconds
      && 0 <= gazeWarningLimit <= gazeTerminationLimit
      && 0 < gazeTerminationLimit
      && 0.0 <= mediumScoreTerminationThreshold
      && (livenessCheckEnabled ==> livenessCheckAction.Some?)
      && 0 < livenessConfirmationFrames
      && 0.0 <= identitySimilarityThreshold <= 1.0
      && 0 < identityConfirmationFrames
    }

    /** The weight a MEDIUM flag of this rule adds to the score; 1.0 when none is configured. */
    function WeightFor(rule: RuleCode): real {
      if rule in scoreWeights then scoreWeights[rule] else 1.0
    }

    /** No configured weight is negative. */
    predicate NonNegativeWeights() {
      forall rule :: rule in scoreWeights ==> 0.0 <= scoreWeights[rule]
    }
  }

  type Policy = p: PolicySnapshot | p.Valid()
    witness PolicySnapshot(true, 3, 800, 300, 3, 8, 10.0, AutoTerminate, false, None, 3, 0.6, 3, map[])

  /** What the aggregator returns. Its informational detail dictionary is not modelled. */
  datatype FlagDecision = FlagDecision(
    ruleCode: RuleCode,
    severity: Severity,
    confidence: Confidence,
    triggeredTermination: bool,
    suppressedBy: Option<nat>,
    contributing: seq<EventId>,
    scoreDelta: real
  )

  /** The sum of the score deltas of a list of decisions. */
  function TotalDelta(ds: seq<FlagDecision>): real {
    if |ds| == 0 then 0.0 else TotalDelta(ds[..|ds| - 1]) + ds[|ds| - 1].scoreDelta
  }

  lemma {:induction false} TotalDeltaConcat(a: seq<FlagDecision>, b: seq<FlagDecision>)
    ensures TotalDelta(a + b) == TotalDelta(a) + TotalDelta(b)
    decreases |b|
  {
    if |b| == 0 {
      assert a + b == a;
    } else {
      var front := b[..|b| - 1];
      assert (a + b)[..|a + b| - 1] == a + front;
      TotalDeltaConcat(a, front);
    }
  }

  // -------------------------------------------------------------------------
  // Typed inference results, the aggregator's inputs
  // -------------------------------------------------------------------------

  datatype FacePresenceResult = FacePresenceResult(faceCount: nat, confidence: Confidence)

  /** offScreen is None for a frame without landmarks. */
  datatype HeadPoseGazeResult = HeadPoseGazeResult(offScreen: Option<bool>, confidence: Confidence)

  datatype LivenessResult = LivenessResult(isReal: bool, score: UnitReal)

  datatype IdentityMatchResult = IdentityMatchResult(similarity: UnitReal)

  /** A denylist detection, with the outcome of the book policy and of the exemption lookup. */
  datatype ObjectDetectionResult = ObjectDetectionResult(
    isBook: bool,
    bookFlagged: bool,
    exemption: Option<nat>,
    confidence: Confidence
  )

  /** accumulates: the event type is visibilitychange or blur. */
  datatype BrowserEventResult = BrowserEventResult(accumulates: bool)

  datatype AudioVadResult = AudioVadResult(isSilence: bool, confidence: Confidence)
}
