/** The lifecycle of an exam session: the transition table and everything that writes the
    status. */
module Lifecycle {
  import opened FusionTypes

  datatype Status = Pending | Active | Completed | Terminated | Reinstated | UnderReview

  function Allowed(s: Status): set<Status> {
    match s
    case Pending => {Active, Terminated}
    case Active => {Completed, Terminated, UnderReview}
    case Completed => {UnderReview}
    case Terminated => {UnderReview, Reinstated}
    case Reinstated => {UnderReview}
    case UnderReview => {}
  }

  predicate CanTransition(current: Status, target: Status) {
    target in Allowed(current)
  }

  predicate Connectable(s: Status) {
    s in {Pending, Active}
  }

  /** A rank that every allowed transition raises. */
  function Rank(s: Status): (r: nat)
    ensures r <= 4
  {
    match s
    case Pending => 0
    case Active => 1
    case Completed => 2
    case Terminated => 2
    case Reinstated => 3
    case UnderReview => 4
  }

  datatype Decision = Upheld | Overturned | Annotated | NeedsMoreInfo

  /** Where a termination record comes from. */
  datatype Record = NoOverride | ByRoute(flag: nat) | ByWorker(flag: nat)

  /** The session row, its termination record (at most one, by a unique constraint) and the
      reviews of its flags. */
  datatype Session = Session(status: Status, record: Option<Record>, reviews: seq<Decision>)

  const CREATED := Session(Pending, None, [])

  datatype Outcome =
    | Connected | NotConnectable | ClosedNoOverride
    | TerminatedOk | FlagNotFound | InvalidTransition
    | Reviewed | ReviewTransitionError
    | RecordWritten
    | IntegrityError      // the unique constraint refuses a second termination record

  /** What can happen to a session. The worker's step is the persistence of a terminating flag,
      which writes a record and leaves the status alone. */
  datatype Step =
    | Handshake(backendAvailable: bool, overrideExists: bool)
    | PostTerminate(flag: nat, flagPresent: bool)
    | Review(decision: Decision, flagPresent: bool)
    | WorkerRecord(flag: nat)

  function After(s: Session, step: Step): (Session, Outcome) {
    match step
    case Handshake(available, override') =>
      if !Connectable(s.status) then (s, NotConnectable)
      else if available || override' then (if s.status == Pending then s.(status := Active) else s, Connected)
      else if s.record.Some? then (s, IntegrityError)
      else (s.(status := Terminated, record := Some(NoOverride)), ClosedNoOverride)
    case PostTerminate(flag, present) =>
      if !present then (s, FlagNotFound)
      else if !CanTransition(s.status, Terminated) then (s, InvalidTransition)
      else if s.record.Some? then (s, IntegrityError)
      else (s.(status := Terminated, record := Some(ByRoute(flag))), TerminatedOk)
    case Review(decision, present) =>
      if !present then (s, FlagNotFound)
      else
        var target :=
          if decision == Upheld && s.status in {Active, Terminated, Completed} then Some(UnderReview)
          else if decision == Overturned && s.status == Terminated then Some(Reinstated)
          else None;
        if target.Some? && !CanTransition(s.status, target.value) then (s, ReviewTransitionError)
        else (
          s.(status := if target.Some? then target.value else s.status, reviews := s.reviews + [decision]), Reviewed)
    case WorkerRecord(flag) =>
      if s.record.Some? then (s, IntegrityError) else (s.(record := Some(ByWorker(flag))), RecordWritten)
  }

  // -------------------------------------------------------------------------
  // The code that writes the row
  // -------------------------------------------------------------------------

  class ExamSession {
    var status: Status
    var record: Option<Record>
    var reviews: seq<Decision>

    function View(): Session
      reads this
    {
      Session(status, record, reviews)
    }

    constructor ()
      ensures View() == CREATED
    {
      status, record, reviews := Pending, None, [];
    }

    /** Inserts the termination record; false when the unique constraint refuses it. */
    method AddRecord(r: Record) returns (ok: bool)
      modifies this`record
      ensures ok == (old(record) == None)
      ensures record == if ok then Some(r) else old(record)
    {
      ok := record == None;
      if ok {
        record := Some(r);
      }
    }

    method Connect(backendAvailable: bool, overrideExists: bool) returns (outcome: Outcome)
      modifies this
      ensures (View(), outcome) == After(old(View()), Handshake(backendAvailable, overrideExists))
    {
      if !Connectable(status) {
        return NotConnectable;
      }
      if backendAvailable {
        Activate();
        return Connected;
      }
      if overrideExists {
        Activate();
        return Connected;
      }
      var before := status;
      status := Terminated;
      var ok := AddRecord(NoOverride);
      if !ok {
        status := before;
        return IntegrityError;
      }
      outcome := ClosedNoOverride;
    }

    method Activate()
      modifies this`status
      ensures status == if old(status) == Pending then Active else old(status)
    {
      if status == Pending {
        status := Active;
      }
    }

    method Terminate(flag: nat, flagPresent: bool) returns (outcome: Outcome)
      modifies this
      ensures (View(), outcome) == After(old(View()), PostTerminate(flag, flagPresent))
    {
      if !flagPresent {
        return FlagNotFound;
      }
      if !CanTransition(status, Terminated) {
        return InvalidTransition;
      }
      var before := status;
      status := Terminated;
      var ok := AddRecord(ByRoute(flag));
      if !ok {
        status := before;
        return IntegrityError;
      }
      outcome := TerminatedOk;
    }

    method RecordProctorReview(decision: Decision, flagPresent: bool) returns (outcome: Outcome)
      modifies this
      ensures (View(), outcome) == After(old(View()), Review(decision, flagPresent))
    {
      if !flagPresent {
        return FlagNotFound;
      }
      if decision == Upheld && status in {Active, Terminated, Completed} {
        if !CanTransition(status, UnderReview) {
          return ReviewTransitionError;
        }
        status := UnderReview;
      } else if decision == Overturned && status == Terminated {
        if !CanTransition(status, Reinstated) {
          return ReviewTransitionError;
        }
        status := Reinstated;
      }
      reviews := reviews + [decision];
      outcome := Reviewed;
    }

    /** Asserts the transition before writing the field: a refused move leaves the row alone. */
    method ApplyTransition(target: Status) returns (ok: bool)
      modifies this`status
      ensures ok == CanTransition(old(status), target)
      ensures status == if ok then target else old(status)
      ensures ok ==> Rank(old(status)) < Rank(status)
    {
      if !CanTransition(status, target) {
        return false;
      }
      status := target;
      ok := true;
    }
  }

  // -------------------------------------------------------------------------
  // The table and every write
  // -------------------------------------------------------------------------

  /** The table has no cycle. */
  lemma {:induction false} TransitionsRaiseRank(current: Status, target: Status)
    requires CanTransition(current, target)
    ensures Rank(current) < Rank(target)
    ensures Connectable(target) ==> Connectable(current)
    ensures target == Terminated ==> Connectable(current)
  {
  }

  /** Every status write of the handshake, the terminate route and the proctor review is an edge
      of the table, and the review's own transition error cannot occur. */
  lemma {:induction false} WritesAreAllowed(s: Session, step: Step)
    ensures var (s', outcome) := After(s, step);
      && (s'.status != s.status ==> CanTransition(s.status, s'.status))
      && outcome != ReviewTransitionError
      && (outcome in {NotConnectable, FlagNotFound, InvalidTransition, IntegrityError} ==> s' == s)
      && s.reviews <= s'.reviews
      && (s.record.Some? ==> s'.record == s.record)
  {
  }

  /** The table, edge by edge. */
  lemma {:induction false} Edges(current: Status, target: Status)
    ensures CanTransition(current, target) <==>
      || (current == Pending && (target == Active || target == Status.Terminated))
      || (current == Active && (target == Completed || target == Status.Terminated || target == UnderReview))
      || (current == Completed && target == UnderReview)
      || (current == Status.Terminated && (target == UnderReview || target == Reinstated))
      || (current == Reinstated && target == UnderReview)
  {
  }

  /** Where a review moves a session: an upheld flag of an ACTIVE, COMPLETED or TERMINATED one to
      UNDER_REVIEW, an overturned flag of a TERMINATED one to REINSTATED, and nothing else anywhere.
      The review of an existing flag is always recorded. */
  lemma {:induction false} ReviewMoves(s: Session, decision: Decision, present: bool)
    ensures var (s', outcome) := After(s, Review(decision, present));
      && (outcome == Reviewed <==> present)
      && (!present ==> outcome == FlagNotFound && s' == s)
      && (present ==> s'.reviews == s.reviews + [decision] && s'.record == s.record)
      && (s'.status == UnderReview <==>
            || s.status == UnderReview
            || (present && decision == Upheld && s.status != Pending && s.status != Reinstated))
      && (s'.status == Reinstated <==>
            || s.status == Reinstated
            || (present && decision == Overturned && s.status == Status.Terminated))
      && (s'.status != UnderReview && s'.status != Reinstated ==> s'.status == s.status)
  {
  }

  /** What the handshake does: a session that is not PENDING or ACTIVE is refused; with a backend or
      an override it is ACTIVE afterwards; without either it is terminated with a record, unless
      there is one already. */
  lemma {:induction false} HandshakeMoves(s: Session, available: bool, overridden: bool)
    ensures var (s', outcome) := After(s, Handshake(available, overridden));
      && (outcome == NotConnectable <==> s.status != Pending && s.status != Active)
      && (outcome == Connected <==> (s.status == Pending || s.status == Active) && (available || overridden))
      && (outcome == Connected ==> s' == s.(status := Active))
      && (outcome == ClosedNoOverride <==>
            (s.status == Pending || s.status == Active) && !available && !overridden && s.record == None)
      && (outcome == ClosedNoOverride ==> s' == s.(status := Status.Terminated, record := Some(NoOverride)))
      && (outcome != Connected && outcome != ClosedNoOverride ==> s' == s)
  {
  }

  /** The terminate route succeeds exactly for an existing flag, a connectable session, and no
      termination record. */
  lemma {:induction false} TerminateSucceedsWhen(s: Session, flag: nat, present: bool)
    ensures var (s', outcome) := After(s, PostTerminate(flag, present));
      && (outcome == TerminatedOk <==> present && Connectable(s.status) && s.record == None)
      && (outcome == TerminatedOk ==> s'.status == Terminated && s'.record == Some(ByRoute(flag)))
      && (outcome == FlagNotFound <==> !present)
      && (outcome == InvalidTransition <==> present && !Connectable(s.status))
      && s'.reviews == s.reviews && (outcome != TerminatedOk ==> s' == s)
    ensures Connectable(s.status) <==> s.status == Pending || s.status == Active
  {
  }

  // -------------------------------------------------------------------------
  // Every run
  // -------------------------------------------------------------------------

  function Run(s: Session, steps: seq<Step>): Session {
    if |steps| == 0 then s else After(Run(s, steps[..|steps| - 1]), steps[|steps| - 1]).0
  }

  /** How often the status changes, and how often it becomes TERMINATED. */
  function Changes(s: Session, steps: seq<Step>): nat {
    if |steps| == 0 then 0
    else
      var front := steps[..|steps| - 1];
      Changes(s, front) + (if Run(s, front).status != Run(s, steps).status then 1 else 0)
  }

  function Terminations(s: Session, steps: seq<Step>): nat {
    if |steps| == 0 then 0
    else
      var front := steps[..|steps| - 1];
      Terminations(s, front) +
      (if Run(s, front).status != Terminated && Run(s, steps).status == Terminated then 1 else 0)
  }

  /** Any run makes at most four status changes, enters TERMINATED at most once, and once it has
      left PENDING and ACTIVE is never connectable again. */
  lemma {:induction false} RunsAreShort(s: Session, steps: seq<Step>)
    ensures Rank(s.status) + Changes(s, steps) <= Rank(Run(s, steps).status) <= 4
    ensures Terminations(s, steps) <= 1
    ensures !Connectable(s.status) ==> !Connectable(Run(s, steps).status) && Terminations(s, steps) == 0
    ensures Terminations(s, steps) == 1 ==> !Connectable(Run(s, steps).status)
  {
    if |steps| > 0 {
      var front := steps[..|steps| - 1];
      RunsAreShort(s, front);
      var t, t' := Run(s, front), Run(s, steps);
      WritesAreAllowed(t, steps[|steps| - 1]);
      if t'.status != t.status {
        TransitionsRaiseRank(t.status, t'.status);
      }
    }
  }

  /** From any point of a run on: a session that is not connectable stays so. */
  lemma {:induction false} NeverConnectableAgain(s: Session, before: seq<Step>, after: seq<Step>)
    requires !Connectable(Run(s, before).status)
    ensures !Connectable(Run(s, before + after).status)
  {
    RunConcat(s, before, after);
    RunsAreShort(Run(s, before), after);
  }

  lemma {:induction false} RunConcat(s: Session, a: seq<Step>, b: seq<Step>)
    ensures Run(s, a + b) == Run(Run(s, a), b)
    decreases |b|
  {
    hide After;
    if |b| == 0 {
      assert a + b == a;
    } else {
      assert (a + b)[..|a + b| - 1] == a + b[..|b| - 1];
      RunConcat(s, a, b[..|b| - 1]);
    }
  }

  /** A TERMINATED session has a termination record, in every run from creation. But a record the
      worker wrote first blocks both ways of terminating: from then on, whatever happens, the
      session never becomes TERMINATED. */
  lemma {:induction false} WorkerRecordBlocksTermination(steps: seq<Step>)
    ensures Run(CREATED, steps).status in {Terminated, Reinstated} ==>
      Run(CREATED, steps).record.Some? && !Run(CREATED, steps).record.value.ByWorker?
    ensures Run(CREATED, steps).record.Some? && Run(CREATED, steps).record.value.ByWorker? ==>
      Terminations(CREATED, steps) == 0
  {
    if |steps| > 0 {
      WorkerRecordBlocksTermination(steps[..|steps| - 1]);
      WorkerAfterTermination(steps[..|steps| - 1]);
    }
  }

  lemma {:induction false} WorkerAfterTermination(steps: seq<Step>)
    ensures Terminations(CREATED, steps) > 0 ==>
      Run(CREATED, steps).record.Some? && !Run(CREATED, steps).record.value.ByWorker?
  {
    if |steps| > 0 {
      WorkerAfterTermination(steps[..|steps| - 1]);
    }
  }

  /** The situation is reachable: connect, then a terminating flag; the terminate route is then
      refused and the session stays ACTIVE and connectable. */
  lemma {:induction false} WorkerRecordExample() returns (steps: seq<Step>)
    ensures var s := Run(CREATED, steps);
      && s.status == Active && s.record == Some(ByWorker(7))
      && After(s, PostTerminate(7, true)) == (s, IntegrityError)
  {
    var first := [Handshake(true, false)];
    steps := first + [WorkerRecord(7)];
    assert steps[..1] == first && first[..0] == [];
    assert Run(CREATED, first) == Session(Active, None, []);
  }
}
