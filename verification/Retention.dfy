/** The retention run: expired artifacts are deleted in batches, blob first, row second. */
module Retention {
  import opened FusionTypes
  import opened Strings
  import opened StorageKeys
  import opened Evidence

  type Rows = map<RowId, ArtifactRow>

  function Expired(rows: Rows, now: int): (ids: set<RowId>)
    ensures ids <= rows.Keys
    ensures forall id :: id in ids <==> id in rows && rows[id].retentionExpiresAt < now
  {
    set id | id in rows && rows[id].retentionExpiresAt < now
  }

  predicate Ascending(ids: seq<RowId>) {
    forall i, j :: 0 <= i < j < |ids| ==> ids[i] < ids[j]
  }

  function IdsOf(ids: seq<RowId>): set<RowId> {
    set id | id in ids
  }

  // -------------------------------------------------------------------------
  // The query: ORDER BY id LIMIT n
  // -------------------------------------------------------------------------

  lemma {:induction false} MinOf(s: set<RowId>) returns (m: RowId)
    requires s != {}
    ensures m in s && forall x :: x in s ==> m <= x
    decreases s
  {
    var x :| x in s;
    var below := set y | y in s && y < x;
    assert forall y :: y in s ==> y in below || x <= y;
    if below == {} {
      m := x;
    } else {
      assert x in s && x !in below;
      m := MinOf(below);
    }
  }

  /** The lowest ids of a pool, in order, at most limit of them. */
  predicate IsBatch(batch: seq<RowId>, pool: set<RowId>, limit: nat) {
    && Ascending(batch)
    && IdsOf(batch) <= pool
    && |batch| <= limit
    && (|batch| < limit ==> IdsOf(batch) == pool)
    && (forall b, p :: b in batch && p in pool - IdsOf(batch) ==> b < p)
  }

  /** The batch so far: lowest ids of the pool, in order. */
  predicate Lowest(batch: seq<RowId>, pool: set<RowId>) {
    && Ascending(batch)
    && IdsOf(batch) <= pool
    && (forall b, p :: b in batch && p in pool - IdsOf(batch) ==> b < p)
  }

  lemma {:induction false} AppendLeast(batch: seq<RowId>, pool: set<RowId>, least: RowId)
    requires Lowest(batch, pool) && least in pool - IdsOf(batch)
    requires forall x :: x in pool - IdsOf(batch) ==> least <= x
    ensures Lowest(batch + [least], pool) && IdsOf(batch + [least]) == IdsOf(batch) + {least}
  {
    forall i | 0 <= i < |batch|
      ensures batch[i] < least
    {
      assert batch[i] in batch && least in pool - IdsOf(batch);
    }
    assert IdsOf(batch + [least]) == IdsOf(batch) + {least};
    forall p | p in pool - IdsOf(batch + [least])
      ensures p in pool - IdsOf(batch) && least < p
    {
      assert p !in IdsOf(batch) + {least};
    }
  }

  lemma {:induction false} LowestIsBatch(batch: seq<RowId>, pool: set<RowId>, limit: nat)
    requires Lowest(batch, pool) && |batch| <= limit
    requires |batch| < limit ==> pool - IdsOf(batch) == {}
    ensures IsBatch(batch, pool, limit)
    ensures batch == [] <==> pool == {} || limit == 0
  {
    hide Ascending;
    assert |batch| < limit ==> IdsOf(batch) == pool by {
      assert forall p :: p in pool && p !in IdsOf(batch) ==> p in pool - IdsOf(batch);
    }
    assert batch != [] ==> batch[0] in IdsOf(batch);
    assert batch == [] ==> IdsOf(batch) == {};
  }

  method SelectBatch(pool: set<RowId>, limit: nat) returns (batch: seq<RowId>)
    ensures IsBatch(batch, pool, limit)
    ensures batch == [] <==> pool == {} || limit == 0
  {
    hide Lowest, IdsOf, IsBatch;
    batch := [];
    NothingAscends(pool);
    var rest := pool;
    while |batch| < limit && rest != {}
      invariant Lowest(batch, pool) && |batch| <= limit && rest == pool - IdsOf(batch)
      decreases |rest|
    {
      ghost var m := MinOf(rest);
      var least :| least in rest && forall x :: x in rest ==> least <= x;
      AppendLeast(batch, pool, least);
      batch := batch + [least];
      rest := rest - {least};
    }
    LowestIsBatch(batch, pool, limit);
  }

  lemma {:induction false} NothingAscends(pool: set<RowId>)
    ensures Lowest([], pool) && pool == pool - IdsOf([])
  {
    assert IdsOf([]) == {};
  }

  // -------------------------------------------------------------------------
  // One batch
  // -------------------------------------------------------------------------

  /** Removed: blob and row deleted. BlobFailed: the URI has no key or the store raises. RowFailed:
      the blob is deleted, the row's flush raises, and the open transaction is rolled back. */
  datatype Outcome = Removed | BlobFailed | RowFailed

  datatype Try = Try(id: RowId, outcome: Outcome)

  function TriedIds(ts: seq<Try>): (ids: seq<RowId>)
    ensures |ids| == |ts| && forall i :: 0 <= i < |ts| ==> ids[i] == ts[i].id
  {
    seq(|ts|, i requires 0 <= i < |ts| => ts[i].id)
  }

  /** The row deletes that still stand after some artifacts of a batch. */
  function Standing(ts: seq<Try>): set<RowId> {
    if |ts| == 0 then {}
    else
      var front, t := Standing(ts[..|ts| - 1]), ts[|ts| - 1];
      match t.outcome
      case Removed => front + {t.id}
      case BlobFailed => front
      case RowFailed => {}
  }

  /** How many row deletes were counted. */
  function Counted(ts: seq<Try>): nat {
    if |ts| == 0 then 0 else Counted(ts[..|ts| - 1]) + (if ts[|ts| - 1].outcome == Removed then 1 else 0)
  }

  function BlobErrors(ts: seq<Try>): nat {
    if |ts| == 0 then 0 else BlobErrors(ts[..|ts| - 1]) + (if ts[|ts| - 1].outcome == BlobFailed then 1 else 0)
  }

  /** The artifacts whose blob was deleted, and those that join the failed set. */
  function BlobsDeleted(ts: seq<Try>): set<RowId> {
    set t | t in ts && t.outcome != BlobFailed :: t.id
  }

  function NotRemoved(ts: seq<Try>): set<RowId> {
    set t | t in ts && t.outcome != Removed :: t.id
  }

  lemma {:induction false} TryStep(ts: seq<Try>, t: Try)
    ensures Standing(ts + [t]) == match t.outcome
      case Removed => Standing(ts) + {t.id}
      case BlobFailed => Standing(ts)
      case RowFailed => {}
    ensures Counted(ts + [t]) == Counted(ts) + (if t.outcome == Removed then 1 else 0)
    ensures BlobErrors(ts + [t]) == BlobErrors(ts) + (if t.outcome == BlobFailed then 1 else 0)
    ensures BlobsDeleted(ts + [t]) == BlobsDeleted(ts) + (if t.outcome == BlobFailed then {} else {t.id})
    ensures NotRemoved(ts + [t]) == NotRemoved(ts) + (if t.outcome == Removed then {} else {t.id})
    ensures TriedIds(ts + [t]) == TriedIds(ts) + [t.id]
  {
    assert (ts + [t])[..|ts|] == ts;
    assert t in ts + [t] && forall x :: x in ts + [t] <==> x in ts || x == t;
  }

  /** The artifact was removed and no row flush failed after. */
  predicate StandsIn(ts: seq<Try>, id: RowId) {
    exists i :: 0 <= i < |ts| && ts[i] == Try(id, Removed) && forall j :: i < j < |ts| ==> ts[j].outcome != RowFailed
  }

  lemma {:induction false} StandsStep(ts: seq<Try>, t: Try, id: RowId)
    ensures StandsIn(ts + [t], id) <==> t == Try(id, Removed) || (t.outcome != RowFailed && StandsIn(ts, id))
  {
    var ts', n := ts + [t], |ts|;
    assert ts'[n] == t && forall i :: 0 <= i < n ==> ts'[i] == ts[i];
    if i :| 0 <= i < n && ts[i] == Try(id, Removed) && forall j :: i < j < n ==> ts[j].outcome != RowFailed {
      assert ts'[i] == Try(id, Removed);
    }
  }

  /** A row delete stands exactly when the artifact was removed and no row flush failed after. */
  lemma {:induction false} StandsWhen(ts: seq<Try>, id: RowId)
    ensures id in Standing(ts) <==> StandsIn(ts, id)
  {
    if |ts| > 0 {
      hide StandsIn;
      var front, last := ts[..|ts| - 1], ts[|ts| - 1];
      StandsWhen(front, id);
      StandsStep(front, last, id);
      assert ts == front + [last];
    }
  }

  function Positions(ts: seq<Try>, outcome: Outcome): (ps: set<int>)
    ensures forall i :: i in ps <==> 0 <= i < |ts| && ts[i].outcome == outcome
  {
    set i | 0 <= i < |ts| && ts[i].outcome == outcome
  }

  lemma {:induction false} PositionsStep(ts: seq<Try>, t: Try, outcome: Outcome)
    ensures |Positions(ts + [t], outcome)| == |Positions(ts, outcome)| + if t.outcome == outcome then 1 else 0
  {
    var ps, ps' := Positions(ts, outcome), Positions(ts + [t], outcome);
    if t.outcome == outcome {
      assert ps' == ps + {|ts|};
    } else {
      assert ps' == ps;
    }
  }

  /** The two counters of a batch count the removals and the failed blob deletes. */
  lemma {:induction false} CountersCount(ts: seq<Try>)
    ensures Counted(ts) == |Positions(ts, Removed)| && BlobErrors(ts) == |Positions(ts, BlobFailed)|
  {
    if |ts| > 0 {
      hide Positions;
      var front, last := ts[..|ts| - 1], ts[|ts| - 1];
      CountersCount(front);
      PositionsStep(front, last, Removed);
      PositionsStep(front, last, BlobFailed);
      assert ts == front + [last];
    } else {
      assert Positions(ts, Removed) == {} && Positions(ts, BlobFailed) == {};
    }
  }

  /** Storage errors are counted whether or not the batch is committed, removals only if it is. */
  lemma {:induction false} BatchCounts(start: World, h: seq<Batch>, b: Batch)
    ensures var p, p' := Replay(start, h), Replay(start, h + [b]);
      && p'.errors == p.errors + |Positions(b.tries, BlobFailed)|
      && p'.count == p.count + if b.committed then |Positions(b.tries, Removed)| else 0
  {
    hide Counted, BlobErrors, Standing, BlobsDeleted, KeysOf, NotRemoved;
    assert (h + [b])[..|h|] == h;
    CountersCount(b.tries);
  }

  lemma {:induction false} NoneCounted(ts: seq<Try>)
    ensures Counted(ts) == 0 <==> forall i :: 0 <= i < |ts| ==> ts[i].outcome != Removed
  {
    if |ts| > 0 {
      NoneCounted(ts[..|ts| - 1]);
    }
  }

  /** A row flush that failed after a counted row delete. */
  predicate TookBack(ts: seq<Try>) {
    exists i, j :: 0 <= i < j < |ts| && ts[i].outcome == Removed && ts[j].outcome == RowFailed
  }

  lemma {:induction false} StandingTried(ts: seq<Try>)
    ensures Standing(ts) <= IdsOf(TriedIds(ts))
  {
    forall id | id in Standing(ts)
      ensures id in IdsOf(TriedIds(ts))
    {
      StandsWhen(ts, id);
      var i :| 0 <= i < |ts| && ts[i] == Try(id, Removed);
      assert TriedIds(ts)[i] == id;
    }
  }

  /** The rollback takes deletes back that the counter keeps: the two agree exactly when no row
      flush failed after a row delete. */
  lemma {:induction false} CountedStands(ts: seq<Try>)
    requires Ascending(TriedIds(ts))
    ensures |Standing(ts)| <= Counted(ts)
    ensures |Standing(ts)| == Counted(ts) <==> !TookBack(ts)
  {
    if |ts| > 0 {
      var front, n := ts[..|ts| - 1], |ts| - 1;
      assert ts == front + [ts[n]];
      TryStep(front, ts[n]);
      AscendingFront(TriedIds(front), ts[n].id);
      CountedStands(front);
      StandingTried(front);
      NoneCounted(front);
      TookBackStep(front, ts[n]);
    }
  }

  lemma {:induction false} AscendingFront(ids: seq<RowId>, id: RowId)
    requires Ascending(ids + [id])
    ensures Ascending(ids) && id !in IdsOf(ids)
  {
    assert forall i :: 0 <= i < |ids| ==> (ids + [id])[i] == ids[i];
    assert (ids + [id])[|ids|] == id;
  }

  lemma {:induction false} TookBackStep(ts: seq<Try>, t: Try)
    ensures TookBack(ts + [t]) <==>
      TookBack(ts) || (t.outcome == RowFailed && exists i :: 0 <= i < |ts| && ts[i].outcome == Removed)
  {
    var ts' := ts + [t];
    assert ts'[|ts|] == t && forall i :: 0 <= i < |ts| ==> ts'[i] == ts[i];
    if TookBack(ts) {
      var i, j :| 0 <= i < j < |ts| && ts[i].outcome == Removed && ts[j].outcome == RowFailed;
      assert ts'[i].outcome == Removed && ts'[j].outcome == RowFailed;
    }
    if i :| 0 <= i < |ts| && t.outcome == RowFailed && ts[i].outcome == Removed {
      assert ts'[i].outcome == Removed && ts'[|ts|].outcome == RowFailed;
    }
  }

  // -------------------------------------------------------------------------
  // A run, batch by batch
  // -------------------------------------------------------------------------

  /** committed: the batch's transaction was committed, or there was nothing to commit. */
  datatype Batch = Batch(tries: seq<Try>, committed: bool)

  datatype Progress = Progress(world: World, failed: set<RowId>, count: int, errors: nat)

  /** The keys that retention takes for the rows of some ids. */
  function KeysOf(rows: Rows, ids: set<RowId>): set<string> {
    set id | id in ids && id in rows && ExtractStorageKey(rows[id].storageUri).Some? ::
      ExtractStorageKey(rows[id].storageUri).value
  }

  function AfterBatch(p: Progress, b: Batch): Progress {
    var w := p.world;
    Progress(
      World(w.blobs - KeysOf(w.rows, BlobsDeleted(b.tries)), if b.committed then w.rows - Standing(b.tries) else w.rows),
      p.failed + NotRemoved(b.tries),
      p.count + (if b.committed then Counted(b.tries) else 0),
      p.errors + BlobErrors(b.tries))
  }

  function Replay(start: World, h: seq<Batch>): Progress {
    if |h| == 0 then Progress(start, {}, 0, 0) else AfterBatch(Replay(start, h[..|h| - 1]), h[|h| - 1])
  }

  /** What is left to do. */
  function Pool(p: Progress, now: int): set<RowId> {
    Expired(p.world.rows, now) - p.failed
  }

  /** The batch is the one the query selects, a blob is deleted only under a key, and a commit is
      attempted only if a row delete was counted. */
  predicate Possible(p: Progress, b: Batch, now: int, limit: nat) {
    && |b.tries| > 0
    && IsBatch(TriedIds(b.tries), Pool(p, now), limit)
    && (forall id :: id in BlobsDeleted(b.tries) && id in p.world.rows ==>
          ExtractStorageKey(p.world.rows[id].storageUri).Some?)
    && (!b.committed ==> Counted(b.tries) > 0)
  }

  /** Batches follow one another until a commit fails. */
  predicate IsHistory(start: World, now: int, limit: nat, h: seq<Batch>) {
    forall i :: 0 <= i < |h| ==> Possible(Replay(start, h[..i]), h[i], now, limit) && (i < |h| - 1 ==> h[i].committed)
  }

  predicate CommitFailed(h: seq<Batch>) {
    |h| > 0 && !h[|h| - 1].committed
  }

  /** The run ends when the query finds nothing or a commit fails. */
  predicate Finished(start: World, now: int, limit: nat, h: seq<Batch>) {
    CommitFailed(h) || limit == 0 || Pool(Replay(start, h), now) == {}
  }

  lemma {:induction false} HistoryFront(start: World, now: int, limit: nat, h: seq<Batch>)
    requires IsHistory(start, now, limit, h) && |h| > 0
    ensures var front := h[..|h| - 1];
      && IsHistory(start, now, limit, front) && !CommitFailed(front)
      && Possible(Replay(start, front), h[|h| - 1], now, limit)
  {
    hide Possible, Replay;
    var front := h[..|h| - 1];
    forall i | 0 <= i < |front|
      ensures Possible(Replay(start, front[..i]), front[i], now, limit) && front[i].committed
    {
      assert front[..i] == h[..i] && front[i] == h[i];
      assert Possible(Replay(start, h[..i]), h[i], now, limit);
    }
  }

  lemma {:induction false} HistoryNext(start: World, now: int, limit: nat, h: seq<Batch>, b: Batch)
    requires IsHistory(start, now, limit, h) && !CommitFailed(h) && Possible(Replay(start, h), b, now, limit)
    ensures IsHistory(start, now, limit, h + [b])
    ensures Replay(start, h + [b]) == AfterBatch(Replay(start, h), b)
  {
    hide Possible;
    var h' := h + [b];
    assert h'[..|h|] == h;
    hide Replay;
    forall i | 0 <= i < |h'|
      ensures Possible(Replay(start, h'[..i]), h'[i], now, limit) && (i < |h'| - 1 ==> h'[i].committed)
    {
      if i < |h| {
        assert h'[..i] == h[..i] && h'[i] == h[i];
        assert Possible(Replay(start, h[..i]), h[i], now, limit);
      }
    }
  }

  // -------------------------------------------------------------------------
  // The code
  // -------------------------------------------------------------------------

  /** Deletes one artifact: its blob, then its row. A failed row flush rolls the whole open
      transaction back, taking earlier deletes of the batch with it. */
  method DeleteArtifact(db: ArtifactDatabase, store: InMemoryEvidenceStore, id: RowId) returns (outcome: Outcome)
    requires id in db.working
    modifies db`working, store
    ensures outcome == Removed ==> db.working == old(db.working) - {id}
    ensures outcome == BlobFailed ==> db.working == old(db.working)
    ensures outcome == RowFailed ==> db.working == db.committed
    ensures outcome == BlobFailed ==> store.blobs == old(store.blobs)
    ensures outcome != BlobFailed ==>
      var key := ExtractStorageKey(old(db.working)[id].storageUri);
      key.Some? && store.blobs == old(store.blobs) - {key.value}
  {
    var key := ExtractStorageKey(db.working[id].storageUri);
    if key == None {
      return BlobFailed;
    }
    var storeRaises: bool := *;
    if storeRaises {
      return BlobFailed;
    }
    store.Delete(key.value);
    var flushRaises: bool := *;
    if flushRaises {
      db.Rollback();
      return RowFailed;
    }
    db.Delete(id);
    outcome := Removed;
  }

  /** Whoever is next in a batch has not been touched yet. */
  lemma {:induction false} NextUntouched(batch: seq<RowId>, ts: seq<Try>)
    requires Ascending(batch) && |ts| < |batch| && TriedIds(ts) == batch[..|ts|]
    ensures batch[|ts|] !in Standing(ts)
    ensures forall t :: TriedIds(ts + [Try(batch[|ts|], t)]) == batch[..|ts| + 1]
  {
    var id := batch[|ts|];
    StandingTried(ts);
    assert forall i :: 0 <= i < |ts| ==> TriedIds(ts)[i] == batch[i];
  }

  lemma {:induction false} OneMoreKey(rows: Rows, ids: set<RowId>, id: RowId)
    requires id in rows && ExtractStorageKey(rows[id].storageUri).Some?
    ensures KeysOf(rows, ids + {id}) == KeysOf(rows, ids) + {ExtractStorageKey(rows[id].storageUri).value}
  {
    hide ExtractStorageKey;
  }

  /** Where a batch stands: working rows and blobs as functions of what was tried. */
  predicate BatchState(rows: Rows, working: Rows, blobs0: map<string, Blob>, blobs: map<string, Blob>, ts: seq<Try>) {
    && working == rows - Standing(ts)
    && blobs == blobs0 - KeysOf(rows, BlobsDeleted(ts))
    && forall id :: id in BlobsDeleted(ts) ==> id in rows && ExtractStorageKey(rows[id].storageUri).Some?
  }

  lemma {:induction false} BatchStart(rows: Rows, blobs0: map<string, Blob>)
    ensures BatchState(rows, rows, blobs0, blobs0, [])
  {
    assert KeysOf(rows, {}) == {};
  }

  lemma {:induction false} BatchNext(
    rows: Rows, working: Rows, blobs0: map<string, Blob>, blobs: map<string, Blob>, ts: seq<Try>, id: RowId)
    requires BatchState(rows, working, blobs0, blobs, ts) && id in rows && id !in Standing(ts)
    ensures id in working && working[id] == rows[id]
    ensures BatchState(rows, working, blobs0, blobs, ts + [Try(id, BlobFailed)])
    ensures var key := ExtractStorageKey(rows[id].storageUri);
      key.Some? ==>
        && BatchState(rows, working - {id}, blobs0, blobs - {key.value}, ts + [Try(id, Removed)])
        && BatchState(rows, rows, blobs0, blobs - {key.value}, ts + [Try(id, RowFailed)])
  {
    hide ExtractStorageKey, Standing, BlobsDeleted, KeysOf;
    TryStep(ts, Try(id, BlobFailed));
    assert BlobsDeleted(ts) + {} == BlobsDeleted(ts);
    if ExtractStorageKey(rows[id].storageUri).Some? {
      BatchRemoves(rows, working, blobs0, blobs, ts, id);
      BatchRollsBack(rows, working, blobs0, blobs, ts, id);
    }
  }

  lemma {:induction false} BatchRemoves(
    rows: Rows, working: Rows, blobs0: map<string, Blob>, blobs: map<string, Blob>, ts: seq<Try>, id: RowId)
    requires BatchState(rows, working, blobs0, blobs, ts) && id in rows
    requires ExtractStorageKey(rows[id].storageUri).Some?
    ensures BatchState(
      rows, working - {id}, blobs0, blobs - {ExtractStorageKey(rows[id].storageUri).value}, ts + [Try(id, Removed)])
  {
    hide ExtractStorageKey, Standing, BlobsDeleted, KeysOf;
    TryStep(ts, Try(id, Removed));
    OneMoreKey(rows, BlobsDeleted(ts), id);
    var key := ExtractStorageKey(rows[id].storageUri).value;
    assert blobs0 - (KeysOf(rows, BlobsDeleted(ts)) + {key}) == blobs - {key};
    assert rows - (Standing(ts) + {id}) == working - {id};
  }

  lemma {:induction false} BatchRollsBack(
    rows: Rows, working: Rows, blobs0: map<string, Blob>, blobs: map<string, Blob>, ts: seq<Try>, id: RowId)
    requires BatchState(rows, working, blobs0, blobs, ts) && id in rows
    requires ExtractStorageKey(rows[id].storageUri).Some?
    ensures BatchState(
      rows, rows, blobs0, blobs - {ExtractStorageKey(rows[id].storageUri).value}, ts + [Try(id, RowFailed)])
  {
    hide ExtractStorageKey, Standing, BlobsDeleted, KeysOf;
    TryStep(ts, Try(id, RowFailed));
    OneMoreKey(rows, BlobsDeleted(ts), id);
    var key := ExtractStorageKey(rows[id].storageUri).value;
    assert blobs0 - (KeysOf(rows, BlobsDeleted(ts)) + {key}) == blobs - {key};
    assert rows - {} == rows;
  }

  method RunBatch(db: ArtifactDatabase, store: InMemoryEvidenceStore, batch: seq<RowId>)
    returns (batchDeleted: nat, blobErrors: nat, failedNow: set<RowId>, ghost tries: seq<Try>)
    requires db.working == db.committed && Ascending(batch) && IdsOf(batch) <= db.committed.Keys
    modifies db`working, store
    ensures TriedIds(tries) == batch
    ensures BatchState(db.committed, db.working, old(store.blobs), store.blobs, tries)
    ensures batchDeleted == Counted(tries) && blobErrors == BlobErrors(tries) && failedNow == NotRemoved(tries)
  {
    hide ExtractStorageKey, BatchState, Ascending, Counted, BlobErrors, NotRemoved, Standing, TriedIds;
    batchDeleted, blobErrors, failedNow, tries := 0, 0, {}, [];
    ghost var rows, blobs0 := db.committed, store.blobs;
    NothingTried(batch);
    BatchStart(rows, blobs0);
    for n := 0 to |batch|
      invariant db.committed == rows && |tries| == n && TriedIds(tries) == batch[..n]
      invariant BatchState(rows, db.working, blobs0, store.blobs, tries)
      invariant batchDeleted == Counted(tries) && blobErrors == BlobErrors(tries) && failedNow == NotRemoved(tries)
    {
      var id := batch[n];
      assert id in IdsOf(batch);
      NextUntouched(batch, tries);
      BatchNext(rows, db.working, blobs0, store.blobs, tries, id);
      var outcome := DeleteArtifact(db, store, id);
      TryStep(tries, Try(id, outcome));
      tries := tries + [Try(id, outcome)];
      match outcome {
        case Removed => batchDeleted := batchDeleted + 1;
        case BlobFailed => blobErrors, failedNow := blobErrors + 1, failedNow + {id};
        case RowFailed => failedNow := failedNow + {id};
      }
    }
    assert batch[..|batch|] == batch;
  }

  lemma {:induction false} NothingTried(batch: seq<RowId>)
    ensures TriedIds([]) == batch[..0] && Counted([]) == 0 && BlobErrors([]) == 0 && NotRemoved([]) == {}
  {
  }

  /** Deletes expired artifacts until none is left that has not failed, or a commit fails. The
      loop terminates under every pattern of failures: each batch that is committed shrinks the
      expired rows not yet in the failed set, by a row gone for good or by one more failure. */
  method RunRetentionDeletion(db: ArtifactDatabase, store: InMemoryEvidenceStore, now: int, batchSize: nat)
    returns (artifactsDeleted: int, storageErrors: nat, ghost failed: set<RowId>, ghost history: seq<Batch>)
    requires db.working == db.committed
    modifies db, store
    ensures db.working == db.committed
    ensures var start := World(old(store.blobs), old(db.committed));
      && IsHistory(start, now, batchSize, history) && Finished(start, now, batchSize, history)
      && Replay(start, history) == Progress(World(store.blobs, db.committed), failed, artifactsDeleted, storageErrors)
  {
    hide IsHistory, Possible, Replay, AfterBatch, Expired, BatchState, IsBatch, Ascending, IdsOf, TriedIds;
    artifactsDeleted, storageErrors, history := 0, 0, [];
    ghost var start := World(store.blobs, db.committed);
    var failedArtifactIds: set<RowId> := {};
    HistoryStart(start, now, batchSize);
    while true
      invariant db.working == db.committed
      invariant IsHistory(start, now, batchSize, history) && !CommitFailed(history)
      invariant Replay(start, history) ==
        Progress(World(store.blobs, db.committed), failedArtifactIds, artifactsDeleted, storageErrors)
      decreases Expired(db.committed, now) - failedArtifactIds
    {
      var pool := Expired(db.committed, now) - failedArtifactIds;
      var batch := SelectBatch(pool, batchSize);
      if batch == [] {
        break;
      }
      BatchOf(batch, pool, batchSize);
      ghost var p := Replay(start, history);
      var batchDeleted, blobErrors, failedNow, tries := RunBatch(db, store, batch);
      storageErrors, failedArtifactIds := storageErrors + blobErrors, failedArtifactIds + failedNow;
      artifactsDeleted := artifactsDeleted + batchDeleted;
      BatchPossible(p, tries, batch, now, batchSize, db.working, store.blobs);
      if batchDeleted > 0 {
        var commitRaises: bool := *;
        if commitRaises {
          db.Rollback();
          artifactsDeleted := artifactsDeleted - batchDeleted;
          HistoryNext(start, now, batchSize, history, Batch(tries, false));
          history := history + [Batch(tries, false)];
          break;
        }
        db.Commit();
      }
      HistoryNext(start, now, batchSize, history, Batch(tries, true));
      history := history + [Batch(tries, true)];
    }
    failed := failedArtifactIds;
  }

  lemma {:induction false} HistoryStart(start: World, now: int, limit: nat)
    ensures IsHistory(start, now, limit, []) && Replay(start, []) == Progress(start, {}, 0, 0)
  {
  }

  lemma {:induction false} BatchOf(batch: seq<RowId>, pool: set<RowId>, limit: nat)
    requires IsBatch(batch, pool, limit) && batch != []
    ensures Ascending(batch) && IdsOf(batch) <= pool && IdsOf(batch) != {}
  {
    assert batch[0] in IdsOf(batch);
  }

  /** What the worked-off batch means for the history, committed or not. */
  lemma {:induction false} BatchPossible(
    p: Progress, ts: seq<Try>, batch: seq<RowId>, now: int, limit: nat, working: Rows, blobs: map<string, Blob>)
    requires TriedIds(ts) == batch && batch != [] && IsBatch(batch, Pool(p, now), limit)
    requires BatchState(p.world.rows, working, p.world.blobs, blobs, ts)
    ensures Possible(p, Batch(ts, true), now, limit)
    ensures Counted(ts) > 0 ==> Possible(p, Batch(ts, false), now, limit)
    ensures AfterBatch(p, Batch(ts, true)) ==
      Progress(World(blobs, working), p.failed + NotRemoved(ts), p.count + Counted(ts), p.errors + BlobErrors(ts))
    ensures AfterBatch(p, Batch(ts, false)) ==
      Progress(World(blobs, p.world.rows), p.failed + NotRemoved(ts), p.count, p.errors + BlobErrors(ts))
    ensures Counted(ts) == 0 ==> working == p.world.rows
    ensures Expired(working, now) - (p.failed + NotRemoved(ts)) < Expired(p.world.rows, now) - p.failed
  {
    hide ExtractStorageKey, KeysOf, IsBatch, BlobsDeleted, Ascending;
    BatchOf(batch, Pool(p, now), limit);
    CountedStands(ts);
    BatchShrinks(p, ts, batch, now);
    assert Counted(ts) == 0 ==> Standing(ts) == {} && p.world.rows - {} == p.world.rows;
  }

  lemma {:induction false} BatchShrinks(p: Progress, ts: seq<Try>, batch: seq<RowId>, now: int)
    requires TriedIds(ts) == batch && batch != [] && IdsOf(batch) <= Pool(p, now)
    ensures Expired(p.world.rows - Standing(ts), now) - (p.failed + NotRemoved(ts)) < Expired(p.world.rows, now) - p.failed
  {
    hide Standing, NotRemoved, Expired;
    var last := ts[|ts| - 1];
    assert last.id == TriedIds(ts)[|ts| - 1] && last.id in IdsOf(batch);
    LastIsDone(ts);
    assert last.id !in Expired(p.world.rows - Standing(ts), now) - (p.failed + NotRemoved(ts));
    assert last.id in Expired(p.world.rows, now) - p.failed;
  }

  /** The last artifact of a batch is gone for now or has failed. */
  lemma {:induction false} LastIsDone(ts: seq<Try>)
    requires |ts| > 0
    ensures ts[|ts| - 1].id in Standing(ts) || ts[|ts| - 1].id in NotRemoved(ts)
  {
  }

  // -------------------------------------------------------------------------
  // What a run amounts to
  // -------------------------------------------------------------------------

  /** A run removed some expired rows, each only after its blob, and no blob of a row that is not
      expired. deleted: the keys deleted from the store. */
  predicate Retained(before: World, after: World, now: int, deleted: set<string>) {
    && after.rows.Keys <= before.rows.Keys
    && (forall id :: id in after.rows ==> after.rows[id] == before.rows[id])
    && (forall id :: id in before.rows && id !in after.rows ==>
          && before.rows[id].retentionExpiresAt < now
          && ExtractStorageKey(before.rows[id].storageUri).Some?
          && ExtractStorageKey(before.rows[id].storageUri).value in deleted)
    && after.blobs == before.blobs - deleted
    && deleted <= KeysOf(before.rows, Expired(before.rows, now))
  }

  /** Every artifact whose blob some batch deleted. */
  function AllBlobsDeleted(h: seq<Batch>): set<RowId> {
    if |h| == 0 then {} else AllBlobsDeleted(h[..|h| - 1]) + BlobsDeleted(h[|h| - 1].tries)
  }

  lemma {:induction false} TriedDistinctly(p: Progress, b: Batch, now: int, limit: nat)
    requires Possible(p, b, now, limit)
    ensures Ascending(TriedIds(b.tries)) && Standing(b.tries) <= BlobsDeleted(b.tries)
    ensures BlobsDeleted(b.tries) <= Pool(p, now) && NotRemoved(b.tries) <= Pool(p, now)
    ensures forall id :: id in BlobsDeleted(b.tries) ==> ExtractStorageKey(p.world.rows[id].storageUri).Some?
  {
    hide Standing, Ascending, Expired, ExtractStorageKey;
    forall t | t in b.tries
      ensures t.id in Pool(p, now)
    {
      var i :| 0 <= i < |b.tries| && b.tries[i] == t;
      assert TriedIds(b.tries)[i] == t.id && t.id in IdsOf(TriedIds(b.tries));
    }
    forall id | id in Standing(b.tries)
      ensures id in BlobsDeleted(b.tries)
    {
      StandsWhen(b.tries, id);
      assert Try(id, Removed) in b.tries;
    }
  }

  lemma {:induction false} BatchRetains(start: World, p: Progress, b: Batch, now: int, limit: nat, ids: set<RowId>)
    requires Possible(p, b, now, limit) && ids <= Expired(start.rows, now)
    requires Retained(start, p.world, now, KeysOf(start.rows, ids))
    ensures ids + BlobsDeleted(b.tries) <= Expired(start.rows, now)
    ensures Retained(start, AfterBatch(p, b).world, now, KeysOf(start.rows, ids + BlobsDeleted(b.tries)))
  {
    hide Standing, BlobsDeleted, NotRemoved, ExtractStorageKey, Possible, Counted, BlobErrors, TriedIds;
    TriedDistinctly(p, b, now, limit);
    var more := BlobsDeleted(b.tries);
    assert forall id :: id in more ==> id in p.world.rows && p.world.rows[id] == start.rows[id];
    SameKeys(start.rows, p.world.rows, more);
    KeysOfUnion(start.rows, ids, more);
    var keys, moreKeys := KeysOf(start.rows, ids), KeysOf(start.rows, more);
    assert start.blobs - keys - moreKeys == start.blobs - (keys + moreKeys);
    KeysOfMore(start.rows, ids + more, Expired(start.rows, now));
    forall id | id in start.rows && id !in AfterBatch(p, b).world.rows
      ensures start.rows[id].retentionExpiresAt < now && ExtractStorageKey(start.rows[id].storageUri).Some?
      ensures ExtractStorageKey(start.rows[id].storageUri).value in keys + moreKeys
    {
      if id in p.world.rows {
        assert id in more && id in Expired(start.rows, now);
        KeyIn(start.rows, more, id);
      }
    }
  }

  lemma {:induction false} KeyIn(rows: Rows, ids: set<RowId>, id: RowId)
    requires id in ids && id in rows && ExtractStorageKey(rows[id].storageUri).Some?
    ensures ExtractStorageKey(rows[id].storageUri).value in KeysOf(rows, ids)
  {
    hide ExtractStorageKey;
  }

  lemma {:induction false} SameKeys(a: Rows, b: Rows, ids: set<RowId>)
    requires forall id :: id in ids ==> id in a && id in b && a[id] == b[id]
    ensures KeysOf(a, ids) == KeysOf(b, ids)
  {
    hide ExtractStorageKey;
  }

  lemma {:induction false} KeysOfUnion(rows: Rows, a: set<RowId>, b: set<RowId>)
    ensures KeysOf(rows, a + b) == KeysOf(rows, a) + KeysOf(rows, b)
  {
    hide ExtractStorageKey;
  }

  lemma {:induction false} KeysOfMore(rows: Rows, a: set<RowId>, b: set<RowId>)
    requires a <= b
    ensures KeysOf(rows, a) <= KeysOf(rows, b)
  {
    hide ExtractStorageKey;
  }

  /** In every run, whatever fails: rows go only after their blobs, rows and blobs that are not
      expired stay, and only expired artifacts join the failed set. */
  lemma {:induction false} HistoryRetains(start: World, now: int, limit: nat, h: seq<Batch>)
    requires IsHistory(start, now, limit, h)
    ensures AllBlobsDeleted(h) <= Expired(start.rows, now)
    ensures Retained(start, Replay(start, h).world, now, KeysOf(start.rows, AllBlobsDeleted(h)))
    ensures Replay(start, h).failed <= Expired(start.rows, now)
  {
    if |h| == 0 {
      assert KeysOf(start.rows, {}) == {} && start.blobs - {} == start.blobs;
    } else {
      hide IsHistory, Possible, Retained, Expired, KeysOf, BlobsDeleted, NotRemoved;
      var front, b := h[..|h| - 1], h[|h| - 1];
      HistoryFront(start, now, limit, h);
      HistoryRetains(start, now, limit, front);
      BatchRetains(start, Replay(start, front), b, now, limit, AllBlobsDeleted(front));
      FailedGrows(start, Replay(start, front), b, now, limit, KeysOf(start.rows, AllBlobsDeleted(front)));
    }
  }

  lemma {:induction false} FailedGrows(start: World, p: Progress, b: Batch, now: int, limit: nat, deleted: set<string>)
    requires Possible(p, b, now, limit) && Retained(start, p.world, now, deleted) && p.failed <= Expired(start.rows, now)
    ensures AfterBatch(p, b).failed <= Expired(start.rows, now)
  {
    hide Possible, Standing, KeysOf, BlobsDeleted, NotRemoved, ExtractStorageKey;
    TriedDistinctly(p, b, now, limit);
  }

  /** Without a commit failure every expired row is gone or failed at the end of a run. */
  lemma {:induction false} GoneOrFailed(start: World, now: int, limit: nat, h: seq<Batch>)
    requires Finished(start, now, limit, h) && !CommitFailed(h) && limit > 0
    ensures Expired(Replay(start, h).world.rows, now) <= Replay(start, h).failed
  {
    hide Replay, Expired;
    var p := Replay(start, h);
    assert forall id :: id in Expired(p.world.rows, now) ==> id in Pool(p, now) || id in p.failed;
  }

  /** A run has at most as many batches as there were expired rows. */
  lemma {:induction false} RunIsBounded(start: World, now: int, limit: nat, h: seq<Batch>)
    requires IsHistory(start, now, limit, h)
    ensures |h| <= |Expired(start.rows, now)|
    ensures !CommitFailed(h) ==> |h| + |Pool(Replay(start, h), now)| <= |Expired(start.rows, now)|
  {
    hide IsHistory, Possible, AfterBatch, Expired, Standing, NotRemoved;
    if |h| == 0 {
      assert Pool(Replay(start, h), now) <= Expired(start.rows, now);
      SmallerSet(Pool(Replay(start, h), now), Expired(start.rows, now));
    } else {
      var front, b := h[..|h| - 1], h[|h| - 1];
      HistoryFront(start, now, limit, h);
      RunIsBounded(start, now, limit, front);
      PoolShrinks(Replay(start, front), b, now, limit);
    }
  }

  lemma {:induction false} SmallerSet(a: set<RowId>, b: set<RowId>)
    requires a <= b
    ensures |a| <= |b|
    ensures a < b ==> |a| < |b|
  {
    assert b == a + (b - a);
    assert a < b ==> b - a != {};
  }

  lemma {:induction false} PoolShrinks(p: Progress, b: Batch, now: int, limit: nat)
    requires Possible(p, b, now, limit)
    ensures |Pool(p, now)| > 0
    ensures b.committed ==> |Pool(AfterBatch(p, b), now)| < |Pool(p, now)|
  {
    hide Standing, NotRemoved, Expired, ExtractStorageKey, KeysOf, BlobsDeleted, Ascending;
    var batch := TriedIds(b.tries);
    BatchShrinks(p, b.tries, batch, now);
    assert batch[0] in IdsOf(batch);
    if b.committed {
      SmallerSet(Pool(AfterBatch(p, b), now), Pool(p, now));
    }
  }

  // -------------------------------------------------------------------------
  // The reported count
  // -------------------------------------------------------------------------

  /** The row deletes that committed batches counted although they had been rolled back. */
  function Undone(h: seq<Batch>): int {
    if |h| == 0 then 0
    else
      var b := h[|h| - 1];
      Undone(h[..|h| - 1]) + (if b.committed then Counted(b.tries) - |Standing(b.tries)| else 0)
  }

  predicate NoneTakenBack(h: seq<Batch>) {
    forall i :: 0 <= i < |h| ==> h[i].committed ==> !TookBack(h[i].tries)
  }

  lemma {:induction false} UndoneWhen(start: World, now: int, limit: nat, h: seq<Batch>)
    requires IsHistory(start, now, limit, h)
    ensures Undone(h) >= 0
    ensures Undone(h) == 0 <==> NoneTakenBack(h)
  {
    hide IsHistory, Possible, TookBack, Counted, Standing;
    if |h| > 0 {
      var front, b := h[..|h| - 1], h[|h| - 1];
      HistoryFront(start, now, limit, h);
      UndoneWhen(start, now, limit, front);
      TriedDistinctly(Replay(start, front), b, now, limit);
      CountedStands(b.tries);
      assert NoneTakenBack(h) <==> NoneTakenBack(front) && (b.committed ==> !TookBack(b.tries)) by {
        assert forall i :: 0 <= i < |front| ==> front[i] == h[i];
      }
    }
  }

  lemma {:induction false} CountGone(before: set<RowId>, keys: set<RowId>, gone: set<RowId>)
    requires gone <= keys <= before
    ensures |before - (keys - gone)| == |before - keys| + |gone|
  {
    assert before - (keys - gone) == (before - keys) + gone;
  }

  /** The number a run reports is the rows gone plus the deletes that committed batches took back;
      it is exact exactly when no committed batch had a row flush fail after a row delete. */
  lemma {:induction false} CountIsExactWhen(start: World, now: int, limit: nat, h: seq<Batch>)
    requires IsHistory(start, now, limit, h)
    ensures var p := Replay(start, h);
      var gone := |start.rows.Keys - p.world.rows.Keys|;
      && p.count == gone + Undone(h)
      && gone <= p.count
      && (p.count == gone <==> NoneTakenBack(h))
  {
    UndoneWhen(start, now, limit, h);
    GoneAndUndone(start, now, limit, h);
  }

  lemma {:induction false} GoneAndUndone(start: World, now: int, limit: nat, h: seq<Batch>)
    requires IsHistory(start, now, limit, h)
    ensures Replay(start, h).count == |start.rows.Keys - Replay(start, h).world.rows.Keys| + Undone(h)
  {
    hide IsHistory, Possible, Counted, Standing, BlobsDeleted, NotRemoved, KeysOf, Retained;
    if |h| == 0 {
      assert start.rows.Keys - start.rows.Keys == {};
    } else {
      var front, b := h[..|h| - 1], h[|h| - 1];
      HistoryFront(start, now, limit, h);
      GoneAndUndone(start, now, limit, front);
      var p := Replay(start, front);
      TriedDistinctly(p, b, now, limit);
      RowsSubset(start, now, limit, front);
      assert (p.world.rows - Standing(b.tries)).Keys == p.world.rows.Keys - Standing(b.tries);
      CountGone(start.rows.Keys, p.world.rows.Keys, Standing(b.tries));
    }
  }

  lemma {:induction false} RowsSubset(start: World, now: int, limit: nat, h: seq<Batch>)
    requires IsHistory(start, now, limit, h)
    ensures Replay(start, h).world.rows.Keys <= start.rows.Keys
    ensures forall id :: id in Replay(start, h).world.rows ==> Replay(start, h).world.rows[id] == start.rows[id]
  {
    hide Replay, IsHistory, KeysOf;
    HistoryRetains(start, now, limit, h);
  }

  // -------------------------------------------------------------------------
  // Rows that outlive their blob
  // -------------------------------------------------------------------------

  /** A try that deleted the blob and not the row: the row's flush failed, or its delete was
      rolled back by a later failed flush or by a failed commit. */
  predicate LeftRow(b: Batch, i: nat)
    requires i < |b.tries|
  {
    b.tries[i].outcome == RowFailed ||
    (b.tries[i].outcome == Removed &&
      (!b.committed || exists j :: i < j < |b.tries| && b.tries[j].outcome == RowFailed))
  }

  /** Somewhere in the run a try for the artifact left the row behind. */
  predicate LeftBehind(h: seq<Batch>, id: RowId) {
    exists k, i :: 0 <= k < |h| && 0 <= i < |h[k].tries| && h[k].tries[i].id == id && LeftRow(h[k], i)
  }

  lemma {:induction false} BlobDeletedWhen(h: seq<Batch>, id: RowId)
    ensures id in AllBlobsDeleted(h) <==>
      exists k, i :: 0 <= k < |h| && 0 <= i < |h[k].tries| && h[k].tries[i].id == id && h[k].tries[i].outcome != BlobFailed
  {
    if |h| > 0 {
      var front, n := h[..|h| - 1], |h| - 1;
      BlobDeletedWhen(front, id);
      if k, i :|
        0 <= k < n && 0 <= i < |front[k].tries| && front[k].tries[i].id == id && front[k].tries[i].outcome != BlobFailed
      {
        assert h[k].tries[i].id == id && h[k].tries[i].outcome != BlobFailed;
      }
      if t :| t in h[n].tries && t.outcome != BlobFailed && t.id == id {
        var i :| 0 <= i < |h[n].tries| && h[n].tries[i] == t;
        assert h[n].tries[i].id == id && h[n].tries[i].outcome != BlobFailed;
      }
      if k, i :| 0 <= k < |h| && 0 <= i < |h[k].tries| && h[k].tries[i].id == id && h[k].tries[i].outcome != BlobFailed {
        assert h[k].tries[i] in h[k].tries;
        assert k < n ==> front[k] == h[k];
      }
    }
  }

  /** A row that survives was never removed by a committed batch. */
  lemma {:induction false} SurvivorNotRemoved(start: World, now: int, limit: nat, h: seq<Batch>, k: nat, id: RowId)
    requires IsHistory(start, now, limit, h) && k < |h|
    requires id in Replay(start, h).world.rows
    ensures h[k].committed ==> id !in Standing(h[k].tries)
    decreases |h|
  {
    hide IsHistory, Possible, Standing, BlobsDeleted, KeysOf, NotRemoved;
    HistoryFront(start, now, limit, h);
    if k < |h| - 1 {
      SurvivorNotRemoved(start, now, limit, h[..|h| - 1], k, id);
    }
  }

  /** A surviving row has lost its blob exactly when some try for it left the row behind: its own
      flush failed, or its delete was rolled back by a later failed flush or a failed commit. */
  lemma {:induction false} SurvivorLostBlobWhen(start: World, now: int, limit: nat, h: seq<Batch>, id: RowId)
    requires SealedRows(start.rows) && IsHistory(start, now, limit, h) && id in Replay(start, h).world.rows
    requires id in start.rows && ExtractStorageKey(start.rows[id].storageUri).Some?
    requires ExtractStorageKey(start.rows[id].storageUri).value in start.blobs
    ensures ExtractStorageKey(start.rows[id].storageUri).value !in Replay(start, h).world.blobs <==> LeftBehind(h, id)
  {
    hide IsHistory, Replay, ExtractStorageKey, LeftRow, AllBlobsDeleted, SealedRows;
    HistoryRetains(start, now, limit, h);
    KeyDeletedWhen(start.rows, AllBlobsDeleted(h), id);
    BlobDeletedWhen(h, id);
    forall k, i | 0 <= k < |h| && 0 <= i < |h[k].tries| && h[k].tries[i].id == id
      ensures h[k].tries[i].outcome != BlobFailed <==> LeftRow(h[k], i)
    {
      SurvivorNotRemoved(start, now, limit, h, k, id);
      TryLeftRow(h[k], i);
    }
  }

  /** Among sealed rows a key is deleted only with its own row's artifact. */
  lemma {:induction false} KeyDeletedWhen(rows: Rows, ids: set<RowId>, id: RowId)
    requires SealedRows(rows) && id in rows && ExtractStorageKey(rows[id].storageUri).Some?
    ensures ExtractStorageKey(rows[id].storageUri).value in KeysOf(rows, ids) <==> id in ids
  {
    hide ExtractStorageKey, StartsWith;
    var key := ExtractStorageKey(rows[id].storageUri).value;
    if j :| j in ids && j in rows && ExtractStorageKey(rows[j].storageUri) == Some(key) {
      UriKeys(rows[id].storageUri, key);
      UriKeys(rows[j].storageUri, key);
      assert j == id;
    }
  }

  lemma {:induction false} TryLeftRow(b: Batch, i: nat)
    requires i < |b.tries| && (b.committed ==> b.tries[i].id !in Standing(b.tries))
    ensures b.tries[i].outcome != BlobFailed <==> LeftRow(b, i)
  {
    hide Standing;
    StandsWhen(b.tries, b.tries[i].id);
    assert b.tries[i].outcome == Removed ==> b.tries[i] == Try(b.tries[i].id, Removed);
  }

  // -------------------------------------------------------------------------
  // Runs in which this happens
  // -------------------------------------------------------------------------

  /** Two expired artifacts with their blobs. */
  predicate TwoExpired(w: World, now: int) {
    && w.rows.Keys == {1, 2} && Expired(w.rows, now) == {1, 2}
    && w.rows[1].storageUri == "s3://a" && w.rows[2].storageUri == "s3://b"
    && w.blobs.Keys == {"a", "b"}
  }

  lemma {:induction false} KeysAB(w: World, now: int)
    requires TwoExpired(w, now)
    ensures ExtractStorageKey(w.rows[1].storageUri) == Some("a") && ExtractStorageKey(w.rows[2].storageUri) == Some("b")
  {
    assert "s3://a"[5..] == "a" && "s3://b"[5..] == "b";
  }

  lemma {:induction false} TwoTries(o1: Outcome, o2: Outcome)
    ensures var ts := [Try(1, o1), Try(2, o2)];
      && Standing([Try(1, o1)]) == (if o1 == Removed then {1} else {})
      && Counted([Try(1, o1)]) == (if o1 == Removed then 1 else 0)
      && BlobErrors([Try(1, o1)]) == (if o1 == BlobFailed then 1 else 0)
      && Standing(ts) == (
           match o2 case Removed => Standing([Try(1, o1)]) + {2} case BlobFailed => Standing([Try(1, o1)]) case RowFailed => {})
      && Counted(ts) == Counted([Try(1, o1)]) + (if o2 == Removed then 1 else 0)
      && BlobErrors(ts) == BlobErrors([Try(1, o1)]) + (if o2 == BlobFailed then 1 else 0)
  {
    TryStep([], Try(1, o1));
    TryStep([Try(1, o1)], Try(2, o2));
    assert [] + [Try(1, o1)] == [Try(1, o1)] && [Try(1, o1)] + [Try(2, o2)] == [Try(1, o1), Try(2, o2)];
  }

  lemma {:induction false} KeysGone(w: World, now: int)
    requires TwoExpired(w, now)
    ensures KeysOf(w.rows, {1, 2}) == {"a", "b"} && w.blobs - {"a", "b"} == map[]
    ensures KeysOf(w.rows, {1}) == {"a"}
  {
    KeysAB(w, now);
    hide ExtractStorageKey;
    OneKey(w.rows, {}, 1);
    OneKey(w.rows, {1}, 2);
    assert KeysOf(w.rows, {}) == {} && {} + {1} == {1} && {1} + {2} == {1, 2} && {} + {"a"} == {"a"};
    assert {"a"} + {"b"} == {"a", "b"};
  }

  lemma {:induction false} OneKey(rows: Rows, ids: set<RowId>, id: RowId)
    requires id in rows && ExtractStorageKey(rows[id].storageUri).Some?
    ensures KeysOf(rows, ids + {id}) == KeysOf(rows, ids) + {ExtractStorageKey(rows[id].storageUri).value}
  {
    OneMoreKey(rows, ids, id);
  }

  /** A first batch that takes both artifacts and deletes both blobs. */
  lemma {:induction false} FirstBatch(w: World, now: int, o2: Outcome, committed: bool)
    requires TwoExpired(w, now) && o2 != BlobFailed
    ensures var p, ts := Progress(w, {}, 0, 0), [Try(1, Removed), Try(2, o2)];
      && Possible(p, Batch(ts, committed), now, 100)
      && AfterBatch(p, Batch(ts, committed)) == Progress(
           World(map[], if committed && o2 == Removed then w.rows - {1, 2} else w.rows),
           if o2 == Removed then {} else {2}, if !committed then 0 else if o2 == Removed then 2 else 1, 0)
  {
    hide Standing, Counted, BlobErrors, ExtractStorageKey, Expired, KeysOf, BlobsDeleted, NotRemoved, IsBatch;
    TwoTries(Removed, o2);
    TwoDeleted(o2);
    KeysAB(w, now);
    KeysGone(w, now);
    FirstTwo();
    assert TriedIds([Try(1, Removed), Try(2, o2)]) == [1, 2] && {1, 2} - {} == {1, 2};
    assert {1} + {2} == {1, 2} && {} + {2} == {2} && w.rows - {} == w.rows;
  }

  lemma {:induction false} TwoDeleted(o2: Outcome)
    requires o2 != BlobFailed
    ensures var ts := [Try(1, Removed), Try(2, o2)];
      BlobsDeleted(ts) == {1, 2} && NotRemoved(ts) == if o2 == Removed then {} else {2}
  {
    var ts := [Try(1, Removed), Try(2, o2)];
    assert ts[0] in ts && ts[1] in ts;
  }

  lemma {:induction false} FirstTwo()
    ensures IsBatch([1, 2], {1, 2}, 100)
  {
    assert IdsOf([1, 2]) == {1, 2};
  }

  /** A second batch after the second row's flush failed: only the first row is selected again. */
  lemma {:induction false} SecondBatch(w: World, now: int, o: Outcome)
    requires TwoExpired(w, now) && o != RowFailed
    ensures var p, ts := Progress(World(map[], w.rows), {2}, 1, 0), [Try(1, o)];
      && Possible(p, Batch(ts, true), now, 100)
      && AfterBatch(p, Batch(ts, true)) == Progress(
           World(map[], if o == Removed then w.rows - {1} else w.rows),
           if o == Removed then {2} else {1, 2}, if o == Removed then 2 else 1, if o == Removed then 0 else 1)
  {
    hide Standing, Counted, BlobErrors, ExtractStorageKey, Expired, KeysOf;
    var ts := [Try(1, o)];
    TwoTries(o, Removed);
    KeysAB(w, now);
    assert NotRemoved(ts) == if o == Removed then {} else {1} by {
      assert ts[0] in ts;
    }
    assert TriedIds(ts) == [1] && IdsOf([1]) == {1} && {1, 2} - {2} == {1};
    assert {2} + {1} == {1, 2} && w.rows - {} == w.rows;
    var none: map<string, Blob> := map[];
    assert none - KeysOf(w.rows, BlobsDeleted(ts)) == none;
  }

  lemma {:induction false} PoolOf(p: Progress, now: int, gone: set<RowId>, w: World)
    requires TwoExpired(w, now) && p.world.rows == w.rows - gone && {1, 2} - gone <= p.failed
    ensures Pool(p, now) == {}
  {
    assert forall id :: id in Expired(p.world.rows, now) ==> id in {1, 2} - gone;
  }

  /** The second flush fails after the first delete, and the next batch removes the first row
      again: the run reports two, one row is gone, and the other has lost its blob. */
  lemma {:induction false} OvercountingRun(w: World, now: int) returns (h: seq<Batch>)
    requires TwoExpired(w, now)
    ensures IsHistory(w, now, 100, h) && Finished(w, now, 100, h) && !CommitFailed(h)
    ensures var p := Replay(w, h);
      p.count == 2 && p.world.rows == w.rows - {1} && p.world.blobs == map[]
  {
    hide IsHistory, Possible, AfterBatch, Replay, Pool, TwoExpired;
    var both, again := Batch([Try(1, Removed), Try(2, RowFailed)], true), Batch([Try(1, Removed)], true);
    HistoryStart(w, now, 100);
    FirstBatch(w, now, RowFailed, true);
    HistoryNext(w, now, 100, [], both);
    SecondBatch(w, now, Removed);
    HistoryNext(w, now, 100, [] + [both], again);
    h := [] + [both] + [again];
    PoolOf(Replay(w, h), now, {1}, w);
  }

  /** The same first batch, and the store raises when the first artifact is tried again: both rows
      survive without their blobs, one through its own flush and one through the rollback. */
  lemma {:induction false} RowsLeftRun(w: World, now: int) returns (h: seq<Batch>)
    requires TwoExpired(w, now)
    ensures IsHistory(w, now, 100, h) && Finished(w, now, 100, h) && !CommitFailed(h)
    ensures Replay(w, h).world == World(map[], w.rows)
  {
    hide IsHistory, Possible, AfterBatch, Replay, Pool, TwoExpired;
    var both, again := Batch([Try(1, Removed), Try(2, RowFailed)], true), Batch([Try(1, BlobFailed)], true);
    HistoryStart(w, now, 100);
    FirstBatch(w, now, RowFailed, true);
    HistoryNext(w, now, 100, [], both);
    SecondBatch(w, now, BlobFailed);
    HistoryNext(w, now, 100, [] + [both], again);
    h := [] + [both] + [again];
    assert w.rows - {} == w.rows;
    PoolOf(Replay(w, h), now, {}, w);
  }

  /** A failed commit: both rows survive without their blobs, and none is counted. */
  lemma {:induction false} FailedCommitRun(w: World, now: int) returns (h: seq<Batch>)
    requires TwoExpired(w, now)
    ensures IsHistory(w, now, 100, h) && Finished(w, now, 100, h) && CommitFailed(h)
    ensures Replay(w, h).world == World(map[], w.rows) && Replay(w, h).count == 0
  {
    hide IsHistory, Possible, AfterBatch, Replay;
    var both := Batch([Try(1, Removed), Try(2, Removed)], false);
    HistoryStart(w, now, 100);
    FirstBatch(w, now, Removed, false);
    HistoryNext(w, now, 100, [], both);
    h := [] + [both];
  }

  // -------------------------------------------------------------------------
  // What a run leaves alone
  // -------------------------------------------------------------------------

  /** Deleting an artifact touches only its own blob: among sealed rows, one that survives with
      its blob deleted is itself expired. */
  lemma {:induction false} OnlyExpiredLoseBlobs(
    sha: Blob -> Digest, before: World, after: World, now: int, deleted: set<string>, id: RowId)
    requires SealedRows(before.rows) && Retained(before, after, now, deleted) && id in before.rows
    ensures before.rows[id].retentionExpiresAt >= now ==>
      id in after.rows && (Intact(sha, before.blobs, before.rows[id]) ==> Intact(sha, after.blobs, after.rows[id]))
    ensures id in after.rows && Intact(sha, before.blobs, before.rows[id]) && !Intact(sha, after.blobs, after.rows[id]) ==>
      ExtractStorageKey(before.rows[id].storageUri).value in deleted && before.rows[id].retentionExpiresAt < now
  {
    hide ExtractStorageKey;
    var key := ExtractStorageKey(before.rows[id].storageUri);
    UriKeys(before.rows[id].storageUri, "");
    if key.value in deleted {
      var j :| j in Expired(before.rows, now) && ExtractStorageKey(before.rows[j].storageUri) == key;
      UriKeys(before.rows[id].storageUri, key.value);
      UriKeys(before.rows[j].storageUri, key.value);
      assert j == id;
    }
  }
}
