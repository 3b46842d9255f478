/** The tables behind the flag persistence worker, and what persisting one queue item does. */
module FlagPersistence {
  import opened FusionTypes
  import opened Trails
  import opened Pairing

  /** The columns of the session row that persistence touches. */
  datatype SessionRow = SessionRow(accumulatedMediumScore: real)

  datatype FlagRow = FlagRow(
    ruleCode: RuleCode,
    severity: Severity,
    confidence: Confidence,
    triggeredTermination: bool,
    suppressedBy: Option<nat>
  )

  /** A row of the flag-to-telemetry join table. A flag is named by its insertion number. */
  datatype Link = Link(flag: nat, event: EventId, position: nat)

  datatype TerminationRow = TerminationRow(triggeringFlag: nat, reason: RuleCode)

  datatype Tables = Tables(
    session: Option<SessionRow>,
    telemetry: map<EventId, TaggedEvent>,
    flags: seq<FlagRow>,
    links: seq<Link>,
    termination: Option<TerminationRow>
  )

  /** Where the database refuses to go on, if anywhere: up to the flag's commit, from there up to
      the termination record's, or between that one and the callback, when the record is read back. */
  datatype Fault = NoFault | AtFlagCommit | AtRecordCommit | AfterRecordCommit

  datatype Outcome =
    | Dropped          // no session row: the decision is logged and dropped
    | Failed           // rolled back, nothing written
    | Stored           // flag committed, not a terminating one
    | Terminated       // flag and termination record committed, kill-switch callback fired
    | RecordRejected   // flag committed, but a termination record exists and may not be updated
    | RecordFailed     // flag committed, the record's own commit failed
    | Unfired          // flag and record committed, the callback never reached

  /** Telemetry rows after inserting events; an id that is already there keeps its row. */
  function WithEvents(t: map<EventId, TaggedEvent>, es: seq<TaggedEvent>): map<EventId, TaggedEvent> {
    if |es| == 0 then t
    else
      var t' := WithEvents(t, es[..|es| - 1]);
      var e := es[|es| - 1];
      if e.id in t' then t' else t'[e.id := e]
  }

  function LinkRows(flag: nat, ids: seq<EventId>): (links: seq<Link>)
    ensures |links| == |ids|
    ensures forall i :: 0 <= i < |ids| ==> links[i] == Link(flag, ids[i], i)
  {
    seq(|ids|, i requires 0 <= i < |ids| => Link(flag, ids[i], i))
  }

  /** The links meet the foreign key and the composite primary key. */
  predicate Linkable(ids: seq<EventId>, telemetry: map<EventId, TaggedEvent>) {
    Distinct(ids) && forall id :: id in ids ==> id in telemetry
  }

  function FlagRowOf(d: FlagDecision): FlagRow {
    FlagRow(d.ruleCode, d.severity, d.confidence, d.triggeredTermination, d.suppressedBy)
  }

  function Credit(s: SessionRow, delta: real): SessionRow {
    if delta > 0.0 then SessionRow(s.accumulatedMediumScore + delta) else s
  }

  /** The committed tables and the outcome of persisting one item. */
  function PersistItem(t: Tables, item: PersistedFlag, fault: Fault): (Tables, Outcome) {
    var d := item.decision;
    var telemetry := WithEvents(t.telemetry, item.events);
    if t.session == None then (t, Dropped)
    else if fault == AtFlagCommit || !Linkable(d.contributing, telemetry) then (t, Failed)
    else
      var t' := Tables(
        Some(Credit(t.session.value, d.scoreDelta)), telemetry, t.flags + [FlagRowOf(d)],
        t.links + LinkRows(|t.flags|, d.contributing), t.termination);
      if !d.triggeredTermination then (t', Stored)
      else if t.termination.Some? then (t', RecordRejected)
      else if fault == AtRecordCommit then (t', RecordFailed)
      else
        (t'.(termination := Some(TerminationRow(|t.flags|, d.ruleCode))),
         if fault == AfterRecordCommit then Unfired else Terminated)
  }

  // -------------------------------------------------------------------------
  // The worker, over a database with one open transaction
  // -------------------------------------------------------------------------

  class Database {
    var committed: Tables
    var working: Tables

    constructor (t: Tables)
      ensures committed == working == t
    {
      committed, working := t, t;
    }

    method Commit()
      modifies this`committed
      ensures committed == working
    {
      committed := working;
    }

    method Rollback()
      modifies this`working
      ensures working == committed
    {
      working := committed;
    }
  }

  class FlagPersistenceWorker {
    const db: Database

    /** The flags for which the kill-switch callback was invoked, in order. */
    var killSwitches: seq<(nat, RuleCode)>

    constructor (db: Database)
      ensures this.db == db && killSwitches == []
    {
      this.db := db;
      killSwitches := [];
    }

    /** Inserts the telemetry rows and the flag row of one item, then handles termination. On
        every path the open transaction is left equal to what is committed. */
    method PersistOne(item: PersistedFlag, fault: Fault) returns (outcome: Outcome)
      requires db.working == db.committed
      modifies this, db
      ensures (db.committed, outcome) == PersistItem(old(db.committed), item, fault)
      ensures db.working == db.committed
      ensures killSwitches == old(killSwitches) +
        if outcome == Terminated then [(|old(db.committed.flags)|, item.decision.ruleCode)] else []
    {
      if db.working.session == None {
        return Dropped;
      }
      for i := 0 to |item.events|
        invariant db.working == db.committed.(telemetry := WithEvents(db.committed.telemetry, item.events[..i]))
        invariant db.committed == old(db.committed) && killSwitches == old(killSwitches)
      {
        assert item.events[..i + 1][..i] == item.events[..i];
        InsertTelemetryEvent(item.events[i]);
      }
      assert item.events[..|item.events|] == item.events;
      var flag := |db.working.flags|;
      var stored := PersistFlagDecision(item.decision, fault);
      if !stored {
        db.Rollback();
        return Failed;
      }
      if !item.decision.triggeredTermination {
        return Stored;
      }
      outcome := HandleKillSwitch(flag, item.decision, fault);
      if outcome != Terminated {
        db.Rollback();
      }
    }

    /** A savepoint around one insert: a duplicate id leaves the existing row alone. */
    method InsertTelemetryEvent(e: TaggedEvent)
      modifies db`working
      ensures db.working == old(db.working).(telemetry :=
        if e.id in old(db.working).telemetry then old(db.working).telemetry
        else old(db.working).telemetry[e.id := e])
    {
      if e.id !in db.working.telemetry {
        db.working := db.working.(telemetry := db.working.telemetry[e.id := e]);
      }
    }

    /** Flag row, ordered links, score increment, commit; false when a constraint or the commit
        refuses, with nothing committed. */
    method PersistFlagDecision(d: FlagDecision, fault: Fault) returns (ok: bool)
      requires db.working.session.Some?
      modifies db
      ensures ok == (fault != AtFlagCommit && Linkable(d.contributing, old(db.working).telemetry))
      ensures !ok ==> db.committed == old(db.committed)
      ensures ok ==> db.committed == db.working == old(db.working).(
        session := Some(SessionRow(
          old(db.working).session.value.accumulatedMediumScore + if d.scoreDelta > 0.0 then d.scoreDelta else 0.0)),
        flags := old(db.working).flags + [
          FlagRow(d.ruleCode, d.severity, d.confidence, d.triggeredTermination, d.suppressedBy)],
        links := old(db.working).links + LinkRows(|old(db.working).flags|, d.contributing))
    {
      var flag := |db.working.flags|;
      db.working := db.working.(flags := db.working.flags + [FlagRowOf(d)]);
      ok := true;
      var added: seq<Link> := [];
      for position := 0 to |d.contributing|
        invariant added == LinkRows(flag, d.contributing[..position])
        invariant ok == Linkable(d.contributing[..position], db.working.telemetry)
      {
        var id := d.contributing[position];
        assert d.contributing[..position + 1] == d.contributing[..position] + [id];
        ok := ok && id in db.working.telemetry && id !in d.contributing[..position];
        added := added + [Link(flag, id, position)];
      }
      assert d.contributing[..|d.contributing|] == d.contributing;
      if !ok || fault == AtFlagCommit {
        ok := false;
        return;
      }
      db.working := db.working.(links := db.working.links + added);
      if d.scoreDelta > 0.0 {
        db.working := db.working.(session :=
          Some(SessionRow(db.working.session.value.accumulatedMediumScore + d.scoreDelta)));
      }
      db.Commit();
    }

    /** Inserts the termination record and fires the callback; an existing record may not be
        updated, so the update is refused by the append-only guard. */
    method HandleKillSwitch(flag: nat, d: FlagDecision, fault: Fault) returns (outcome: Outcome)
      modifies this, db
      ensures outcome ==
        if old(db.working).termination.Some? then RecordRejected
        else if fault == AtRecordCommit then RecordFailed
        else if fault == AfterRecordCommit then Unfired else Terminated
      ensures outcome == RecordRejected || outcome == RecordFailed ==> db.committed == old(db.committed)
      ensures outcome == Unfired || outcome == Terminated ==>
        db.committed == db.working == old(db.working).(termination := Some(TerminationRow(flag, d.ruleCode)))
      ensures killSwitches == old(killSwitches) + if outcome == Terminated then [(flag, d.ruleCode)] else []
    {
      if db.working.termination.Some? {
        return RecordRejected;
      }
      db.working := db.working.(termination := Some(TerminationRow(flag, d.ruleCode)));
      if fault == AtRecordCommit {
        return RecordFailed;
      }
      db.Commit();
      if fault == AfterRecordCommit {
        return Unfired;
      }
      killSwitches := killSwitches + [(flag, d.ruleCode)];
      outcome := Terminated;
    }
  }

  // -------------------------------------------------------------------------
  // What persisting means
  // -------------------------------------------------------------------------

  lemma {:induction false} WithEventsKeys(t: map<EventId, TaggedEvent>, es: seq<TaggedEvent>)
    ensures forall id :: id in WithEvents(t, es) <==> id in t || id in EventIdsOf(es)
    ensures forall id :: id in t ==> WithEvents(t, es)[id] == t[id]
    ensures Tagged(t) ==> Tagged(WithEvents(t, es))
  {
    if |es| > 0 {
      var front := es[..|es| - 1];
      WithEventsKeys(t, front);
      assert EventIdsOf(es) == EventIdsOf(front) + [es[|es| - 1].id];
    }
  }

  /** An item is committed exactly when there is a session, the database accepts the commit, and
      its decision cites distinct events that have a row already or bring one along. */
  lemma {:induction false} CommittedWhen(t: Tables, item: PersistedFlag, fault: Fault)
    ensures PersistItem(t, item, fault).1 !in {Dropped, Failed} <==>
              && t.session.Some? && fault != AtFlagCommit
              && Distinct(item.decision.contributing)
              && forall id :: id in item.decision.contributing ==> id in t.telemetry || id in EventIdsOf(item.events)
  {
    WithEventsKeys(t.telemetry, item.events);
  }
}
