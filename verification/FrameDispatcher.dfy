/** The dispatcher: feeds each buffered event to the aggregator, pairs the decisions it gets
    back with their source events, and queues them for the persistence worker. */
module FrameDispatchers {
  import opened FusionTypes
  import opened Histories
  import opened Pairing
  import opened SessionAggregators
  import opened FlagPersistence
  import opened Trails
  import opened FusionRuns
  import opened DispatchLaws
  import Pipeline
  import TelemetryBuffers

  class FrameDispatcher {
    const config: DispatcherConfig
    const aggregator: SessionAggregator

    /** Events not yet paired with a decision, by their synthetic id. */
    var eventIdToBuffered: map<EventId, TaggedEvent>

    /** The FIFO queue the persistence worker takes from. */
    var flagDecisions: seq<PersistedFlag>

    ghost var minted: set<EventId>
    ghost var sent: seq<PersistedFlag>
    ghost var taken: nat

    ghost predicate Valid()
      reads this, aggregator
    {
      aggregator.Valid() && Queued()
    }

    /** The queue is what was put on it and not taken yet. */
    ghost predicate Queued()
      reads this
    {
      taken <= |sent| && flagDecisions == sent[taken..]
    }

    ghost function Box(): Outbox
      reads this
    {
      Outbox(eventIdToBuffered, sent)
    }

    /** The outbox is what emitting every decision since the n-th leads to. */
    ghost predicate Synced(o: Outbox, n: nat)
      reads this, aggregator
    {
      n <= |aggregator.hist.emitted| && Box() == Emitted(o, aggregator.hist.emitted[n..])
    }

    constructor (config: DispatcherConfig, policy: Policy)
      ensures Valid() && fresh(aggregator)
      ensures this.config == config && aggregator.policy == policy && aggregator.hist == NO_HISTORY
      ensures Box() == Outbox(map[], []) && minted == {} && taken == 0
    {
      this.config := config;
      aggregator := new SessionAggregator(policy);
      eventIdToBuffered, flagDecisions := map[], [];
      minted, sent, taken := {}, [], 0;
    }

    /** Feeds one event to the aggregator and queues every decision that comes back: the
        history, the event map and the queue take exactly the pipeline's dispatch step. */
    method DispatchEvent(event: BufferedEvent, id: EventId)
      requires Valid()
      modifies this, aggregator
      ensures Valid()
      ensures taken == old(taken) && minted == old(minted) + {id}
      ensures aggregator.hist == Dispatched(aggregator.policy, config, old(aggregator.hist), event.message, id)
      ensures |old(aggregator.hist).emitted| <= |aggregator.hist.emitted|
      ensures Box() == Emitted(
        old(Box()).(buffered := old(eventIdToBuffered)[id := TaggedEvent(id, event)]),
        aggregator.hist.emitted[|old(aggregator.hist).emitted|..])
    {
      hide Dispatched, Emitted;
      minted := minted + {id};
      eventIdToBuffered := eventIdToBuffered[id := TaggedEvent(id, event)];
      ghost var o, n := Box(), |aggregator.hist.emitted|;
      assert aggregator.hist.emitted[n..] == [];
      NothingEmitted(o);
      Feed(event.message, id, o, n);
    }

    /** Routes a message to the path it belongs to. */
    method Feed(message: Message, id: EventId, ghost o: Outbox, ghost n: nat)
      requires Valid() && Synced(o, n)
      modifies this, aggregator
      ensures Valid() && Synced(o, n) && taken == old(taken) && minted == old(minted)
      ensures aggregator.hist == Dispatched(aggregator.policy, config, old(aggregator.hist), message, id)
    {
      hide Valid, Synced, FaceFed, AudioFed, BrowserFed, FrameFed;
      match message
      case Light(count, confidence) => DispatchLight(count, confidence, id, o, n);
      case HeavyFrame(at, frame) =>
        if frame.Some? {
          DispatchHeavyFrame(at, frame.value, id, o, n);
        }
      case AudioChunk(audio) =>
        if audio.Some? && !audio.value.isSilence {
          DispatchAudio(audio.value, id, o, n);
        }
      case BrowserMessage(browser) =>
        if browser.Some? {
          DispatchBrowser(browser.value, id, o, n);
        }
      case KillSwitchAcknowledge =>
    }

    method DispatchAudio(r: AudioVadResult, id: EventId, ghost o: Outbox, ghost n: nat)
      requires Valid() && Synced(o, n)
      modifies this, aggregator
      ensures Valid() && Synced(o, n) && taken == old(taken) && minted == old(minted)
      ensures aggregator.hist == AudioFed(aggregator.policy, old(aggregator.hist), r, id)
    {
      hide AudioFed, Emitted;
      var ds := aggregator.ProcessAudioVad(r, id);
      Emit(ds, o, n);
    }

    method DispatchBrowser(r: BrowserEventResult, id: EventId, ghost o: Outbox, ghost n: nat)
      requires Valid() && Synced(o, n)
      modifies this, aggregator
      ensures Valid() && Synced(o, n) && taken == old(taken) && minted == old(minted)
      ensures aggregator.hist == BrowserFed(aggregator.policy, old(aggregator.hist), r, id)
    {
      hide BrowserFed, Emitted;
      var ds := aggregator.ProcessBrowserEvent(r, id);
      Emit(ds, o, n);
    }

    method DispatchLight(count: nat, confidence: UnitReal, id: EventId, ghost o: Outbox, ghost n: nat)
      requires Valid() && Synced(o, n)
      modifies this, aggregator
      ensures Valid() && Synced(o, n) && taken == old(taken) && minted == old(minted)
      ensures aggregator.hist == FaceFed(
        aggregator.policy, old(aggregator.hist), FacePresenceResult(count, PointInterval(confidence)), id)
    {
      hide FaceFed, Emitted;
      var ds := aggregator.ProcessFacePresence(FacePresenceResult(count, PointInterval(confidence)), id);
      Emit(ds, o, n);
    }

    /** Runs the scheduled modalities in order; the identity branch returns early when it cannot
        crop a face, which also skips liveness. */
    method DispatchHeavyFrame(at: int, f: FrameInference, id: EventId, ghost o: Outbox, ghost n: nat)
      requires Valid() && Synced(o, n)
      modifies this, aggregator
      ensures Valid() && Synced(o, n) && taken == old(taken) && minted == old(minted)
      ensures aggregator.hist == FrameFed(aggregator.policy, config, old(aggregator.hist), at, f, id)
      ensures var cropped := f.landmarks.Some? && f.faceBox;
        aggregator.hist == FedAll(aggregator.policy, old(aggregator.hist),
          (if f.runGaze && f.landmarks.Some? then [GazeInput(f.landmarks.value, id, at)] else []) +
          (if f.runObjects then Detected(f.detections, id) else []) +
          (if f.runIdentity && cropped && config.enrolled && f.identity.Some? then [IdentityInput(f.identity.value, id)]
           else []) +
          (if (f.runIdentity ==> cropped && config.enrolled && f.identity.Some?)
              && f.runLiveness && config.livenessRunner && cropped && f.liveness.Some? then
             [LivenessInput(f.liveness.value, id)]
           else []))
    {
      FrameFeeds(aggregator.policy, config, aggregator.hist, at, f, id);
      hide FedAll, Detected;
      hide GazeFed, ObjectsFed, IdentityFed, LivenessFed, Synced, Valid;
      if f.runGaze && f.landmarks.Some? {
        DispatchGaze(f.landmarks.value, at, id, o, n);
      }
      if f.runObjects {
        DispatchDetections(f.detections, id, o, n);
      }
      if f.runIdentity {
        if f.landmarks == None || !config.enrolled || !f.faceBox || f.identity == None {
          return;
        }
        DispatchIdentity(f.identity.value, id, o, n);
      }
      if f.runLiveness && config.livenessRunner {
        if f.landmarks == None || !f.faceBox || f.liveness == None {
          return;
        }
        DispatchLiveness(f.liveness.value, id, o, n);
      }
    }

    method DispatchGaze(r: HeadPoseGazeResult, at: int, id: EventId, ghost o: Outbox, ghost n: nat)
      requires Valid() && Synced(o, n)
      modifies this, aggregator
      ensures Valid() && Synced(o, n) && taken == old(taken) && minted == old(minted)
      ensures aggregator.hist == GazeFed(aggregator.policy, old(aggregator.hist), r, id, at)
    {
      hide GazeFed, Emitted;
      var ds := aggregator.ProcessGaze(r, id, at);
      Emit(ds, o, n);
    }

    method DispatchIdentity(r: IdentityMatchResult, id: EventId, ghost o: Outbox, ghost n: nat)
      requires Valid() && Synced(o, n)
      modifies this, aggregator
      ensures Valid() && Synced(o, n) && taken == old(taken) && minted == old(minted)
      ensures aggregator.hist == IdentityFed(aggregator.policy, old(aggregator.hist), r, id)
    {
      hide IdentityFed, Emitted;
      var ds := aggregator.ProcessIdentityMatch(r, id);
      Emit(ds, o, n);
    }

    method DispatchLiveness(r: LivenessResult, id: EventId, ghost o: Outbox, ghost n: nat)
      requires Valid() && Synced(o, n)
      modifies this, aggregator
      ensures Valid() && Synced(o, n) && taken == old(taken) && minted == old(minted)
      ensures aggregator.hist == LivenessFed(aggregator.policy, old(aggregator.hist), r, id)
    {
      hide LivenessFed, Emitted;
      var ds := aggregator.ProcessLiveness(r, id);
      Emit(ds, o, n);
    }

    method DispatchDetections(ds: seq<ObjectDetectionResult>, id: EventId, ghost o: Outbox, ghost n: nat)
      requires Valid() && Synced(o, n)
      modifies this, aggregator
      ensures Valid() && Synced(o, n) && taken == old(taken) && minted == old(minted)
      ensures aggregator.hist == ObjectsFed(aggregator.policy, old(aggregator.hist), ds, id)
    {
      hide Valid, Synced, ObjectsFed, ObjectFed;
      ghost var h := aggregator.hist;
      NoObjectsFed(aggregator.policy, h, id);
      for i := 0 to |ds|
        invariant Valid() && Synced(o, n) && taken == old(taken) && minted == old(minted)
        invariant aggregator.hist == ObjectsFed(aggregator.policy, h, ds[..i], id)
      {
        ObjectsStep(aggregator.policy, h, ds, i, id);
        DispatchDetection(ds[i], id, o, n);
      }
      assert ds[..|ds|] == ds;
    }

    method DispatchDetection(r: ObjectDetectionResult, id: EventId, ghost o: Outbox, ghost n: nat)
      requires Valid() && Synced(o, n)
      modifies this, aggregator
      ensures Valid() && Synced(o, n) && taken == old(taken) && minted == old(minted)
      ensures aggregator.hist == ObjectFed(aggregator.policy, old(aggregator.hist), r, id)
    {
      hide ObjectFed, Emitted;
      var ds := aggregator.ProcessObjectDetection(r, id);
      Emit(ds, o, n);
    }

    /** Queues each decision in turn: the outbox catches up with the aggregator. */
    method Emit(ds: seq<FlagDecision>, ghost o: Outbox, ghost n: nat)
      requires Queued()
      requires n + |ds| <= |aggregator.hist.emitted|
      requires aggregator.hist.emitted[|aggregator.hist.emitted| - |ds|..] == ds
      requires Box() == Emitted(o, aggregator.hist.emitted[n..|aggregator.hist.emitted| - |ds|])
      modifies this`eventIdToBuffered, this`flagDecisions, this`sent
      ensures Queued() && Synced(o, n)
    {
      hide Queued, Emitted, IdSet, TakeEvents;
      ghost var o0, all := Box(), aggregator.hist.emitted;
      NothingEmitted(o0);
      for i := 0 to |ds|
        invariant Queued()
        invariant Box() == Emitted(o0, ds[..i])
      {
        EmittedStep(o0, ds, i);
        EmitOne(ds[i]);
      }
      EmittedRest(o, all, n, ds);
    }

    /** Pairs a decision with the events it cites that are still in the map, and queues it. */
    method EmitOne(d: FlagDecision)
      requires Queued()
      modifies this`eventIdToBuffered, this`flagDecisions, this`sent
      ensures Queued()
      ensures Box() == EmittedOne(old(Box()), d)
    {
      hide TakeEvents, IdSet;
      var events := TakeBuffered(d.contributing);
      flagDecisions := flagDecisions + [PersistedFlag(d, events)];
      sent := sent + [PersistedFlag(d, events)];
    }

    /** Pops each id from the map and returns the events found. */
    method TakeBuffered(ids: seq<EventId>) returns (events: seq<TaggedEvent>)
      modifies this`eventIdToBuffered
      ensures events == TakeEvents(ids, old(eventIdToBuffered))
      ensures eventIdToBuffered == old(eventIdToBuffered) - IdSet(ids)
    {
      events := [];
      for i := 0 to |ids|
        invariant events == TakeEvents(ids[..i], old(eventIdToBuffered))
        invariant eventIdToBuffered == old(eventIdToBuffered) - IdSet(ids[..i])
      {
        assert ids[..i + 1][..i] == ids[..i];
        assert IdSet(ids[..i + 1]) == IdSet(ids[..i]) + {ids[i]};
        if ids[i] in eventIdToBuffered {
          events := events + [eventIdToBuffered[ids[i]]];
          eventIdToBuffered := eventIdToBuffered - {ids[i]};
        }
      }
      assert ids[..|ids|] == ids;
    }

    /** The worker's end of the queue. */
    method Take() returns (item: Option<PersistedFlag>)
      requires Valid()
      modifies this`flagDecisions, this`taken
      ensures Valid() && taken <= |sent|
      ensures item == None <==> old(taken) == |sent|
      ensures item.Some? ==> item.value == sent[old(taken)] && taken == old(taken) + 1
      ensures item == None ==> taken == old(taken)
    {
      if flagDecisions == [] {
        item := None;
      } else {
        item := Some(flagDecisions[0]);
        flagDecisions := flagDecisions[1..];
        taken := taken + 1;
      }
    }
  }

  function Flags(calls: seq<(nat, RuleCode)>): seq<nat> {
    seq(|calls|, i requires 0 <= i < |calls| => calls[i].0)
  }

  lemma {:induction false} FlagsStep(calls: seq<(nat, RuleCode)>, calls': seq<(nat, RuleCode)>)
    requires calls <= calls' && |calls'| <= |calls| + 1
    ensures Flags(calls') == Flags(calls) + if |calls'| == |calls| then [] else [calls'[|calls|].0]
  {
  }

  /** One connection: the dispatcher thread and the persistence thread over one database. Any
      sequence of the two methods is a run of the pipeline. */
  class ExamPipeline {
    const dispatcher: FrameDispatcher
    const worker: FlagPersistenceWorker
    const db: Database
    ghost var fired: seq<nat>
    ghost var log: seq<Pipeline.Attempt>

    ghost predicate Valid()
      reads this, dispatcher, dispatcher.aggregator, worker, db
    {
      && |log| == dispatcher.taken
      && worker.db == db
      && dispatcher.Valid()
      && db.working == db.committed
      && fired == Flags(worker.killSwitches)
    }

    ghost function View(): Pipeline.State
      reads this, dispatcher, dispatcher.aggregator, db
    {
      Pipeline.State(
        dispatcher.aggregator.hist, dispatcher.minted, dispatcher.Box(), log, db.committed, fired)
    }

    constructor (config: DispatcherConfig, policy: Policy, tables: Tables)
      ensures Valid()
      ensures fresh(dispatcher) && fresh(dispatcher.aggregator) && fresh(worker) && fresh(db)
      ensures dispatcher.config == config && dispatcher.aggregator.policy == policy
      ensures View() == Pipeline.Start(tables)
    {
      dispatcher := new FrameDispatcher(config, policy);
      var d := new Database(tables);
      db := d;
      worker := new FlagPersistenceWorker(d);
      fired, log := [], [];
    }

    method DispatchNext(event: BufferedEvent, id: EventId)
      requires Valid() && id !in dispatcher.minted && id !in db.committed.telemetry
      modifies dispatcher, dispatcher.aggregator
      ensures Valid() && dispatcher.minted == old(dispatcher.minted) + {id} && db.committed == old(db.committed)
      ensures View() == Pipeline.After(
        dispatcher.aggregator.policy, dispatcher.config, old(View()), Pipeline.Dispatch(id, event))
    {
      hide Dispatched, Emitted;
      dispatcher.DispatchEvent(event, id);
    }

    /** One round of the dispatcher's loop: drains the telemetry buffer and dispatches what it held,
        in order, each event under a freshly minted id. */
    method DispatchBatch(buffer: TelemetryBuffers.TelemetryEventBuffer<Message>, ids: seq<EventId>)
      requires Valid() && buffer.Valid()
      requires |ids| == |TelemetryBuffers.Held(buffer.ops, buffer.maxlen)|
      requires Distinct(ids)
      requires forall id :: id in ids ==> id !in dispatcher.minted && id !in db.committed.telemetry
      modifies buffer, dispatcher, dispatcher.aggregator
      ensures Valid() && buffer.Valid()
      ensures buffer.ops == old(buffer.ops) + [TelemetryBuffers.Op<Message>.Drain]
      ensures View() == Pipeline.DispatchAll(
        dispatcher.aggregator.policy, dispatcher.config, old(View()), ids,
        TelemetryBuffers.Held(old(buffer.ops), buffer.maxlen))
    {
      hide TelemetryBuffers.Held, Pipeline.DispatchStep, Valid;
      ghost var start, p, c := View(), dispatcher.aggregator.policy, dispatcher.config;
      ghost var ops := buffer.ops;
      var batch := buffer.Drain();
      Pipeline.NothingDispatched(p, c, start);
      for n := 0 to |batch|
        invariant Valid() && buffer.Valid() && buffer.ops == ops + [TelemetryBuffers.Op<Message>.Drain]
        invariant View() == Pipeline.DispatchAll(p, c, start, ids[..n], batch[..n])
        invariant dispatcher.minted == old(dispatcher.minted) + IdSet(ids[..n]) && db.committed == old(db.committed)
      {
        assert ids[n] !in IdSet(ids[..n]);
        Pipeline.DispatchOneMore(p, c, start, ids, batch, n);
        DispatchNext(batch[n], ids[n]);
        assert IdSet(ids[..n + 1]) == IdSet(ids[..n]) + {ids[n]};
      }
      assert ids[..|ids|] == ids && batch[..|batch|] == batch;
    }

    /** Persists the oldest queued item, if there is one; its commits may fail. */
    method PersistNext(fault: Fault) returns (outcome: Option<Outcome>)
      requires Valid()
      modifies this, dispatcher, worker, db
      ensures Valid()
      ensures outcome == None <==> old(dispatcher.taken) == |old(dispatcher.sent)|
      ensures outcome == None ==> View() == old(View())
      ensures outcome.Some? ==>
        && Pipeline.Enabled(old(View()), Pipeline.Persist(fault))
        && View() == Pipeline.PersistStep(old(View()), fault)
        && log == old(log) + [Pipeline.Attempt(fault, outcome.value)]
    {
      hide PersistItem, FrameDispatcher.Valid, FrameDispatcher.Queued, SessionAggregator.Valid, Flags;
      var item := dispatcher.Take();
      if item == None {
        return None;
      }
      ghost var calls := worker.killSwitches;
      var o := worker.PersistOne(item.value, fault);
      FlagsStep(calls, worker.killSwitches);
      fired := Flags(worker.killSwitches);
      log := log + [Pipeline.Attempt(fault, o)];
      outcome := Some(o);
    }
  }
}
