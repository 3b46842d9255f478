/** Seals and retention runs one after the other, over one store and one artifact table. */
module EvidenceRuns {
  import opened FusionTypes
  import opened Strings
  import opened StorageKeys
  import opened Evidence
  import opened Retention

  /** uploaded: every key written to so far. purged: every key a retention run deleted, with the
      time the latest such run was given. */
  datatype State = State(world: World, uploaded: set<string>, purged: map<string, int>)

  const EMPTY := State(World(map[], map[]), {}, map[])

  /** A retention run is given by what it tried, batch by batch, and what came of it. */
  datatype Step =
    | Seal(request: SealRequest, id: RowId, now: int, faults: SealFaults)
    | Retain(history: seq<Batch>, batchSize: nat, now: int)

  datatype Deployment = Deployment(flags: set<Uuid>, defaultRetention: int)

  predicate Enabled(d: Deployment, s: State, step: Step) {
    match step
    case Seal(r, id, _, f) => id !in s.world.rows && (Writes(d.flags, r, f) ==> KeyOf(r).value !in s.uploaded)
    case Retain(h, limit, now) => IsHistory(s.world, now, limit, h) && Finished(s.world, now, limit, h)
  }

  /** The keys a retention run deletes. */
  function Deleted(w: World, h: seq<Batch>): set<string> {
    KeysOf(w.rows, AllBlobsDeleted(h))
  }

  function After(sha: Blob -> Digest, d: Deployment, s: State, step: Step): State {
    match step
    case Seal(r, id, now, f) =>
      s.(world := SealStep(sha, s.world, d.flags, r, id, now, d.defaultRetention, f).0,
         uploaded := if Writes(d.flags, r, f) then s.uploaded + {KeyOf(r).value} else s.uploaded)
    case Retain(h, _, now) =>
      s.(world := Replay(s.world, h).world, purged := s.purged + map key | key in Deleted(s.world, h) :: now)
  }

  ghost predicate IsRun(sha: Blob -> Digest, d: Deployment, steps: seq<Step>, states: seq<State>) {
    && |states| == |steps| + 1
    && forall i :: 0 <= i < |steps| ==> Enabled(d, states[i], steps[i]) && states[i + 1] == After(sha, d, states[i], steps[i])
  }

  /** The row's blob is intact, or a retention run deleted it when the row had expired. */
  predicate Accounted(sha: Blob -> Digest, s: State, row: ArtifactRow) {
    var key := ExtractStorageKey(row.storageUri);
    Intact(sha, s.world.blobs, row) || (key.Some? && key.value in s.purged && row.retentionExpiresAt < s.purged[key.value])
  }

  predicate Inv(sha: Blob -> Digest, s: State) {
    && SealedRows(s.world.rows)
    && (forall id :: id in s.world.rows ==>
          var key := ExtractStorageKey(s.world.rows[id].storageUri);
          key.Some? && key.value in s.uploaded)
    && (forall id :: id in s.world.rows ==> Accounted(sha, s, s.world.rows[id]))
  }

  lemma {:induction false} SealKeepsInv(
    sha: Blob -> Digest, d: Deployment, s: State, r: SealRequest, id: RowId, now: int, f: SealFaults)
    requires Inv(sha, s) && Enabled(d, s, Seal(r, id, now, f))
    ensures Inv(sha, After(sha, d, s, Seal(r, id, now, f)))
  {
    hide SealStep, ExtractStorageKey, SealedRows, BuildStorageKey;
    var (w', outcome) := SealStep(sha, s.world, d.flags, r, id, now, d.defaultRetention, f);
    var s' := After(sha, d, s, Seal(r, id, now, f));
    SealKeepsRows(sha, s.world, d.flags, r, id, now, d.defaultRetention, f);
    SealTouchesOwnKey(sha, s.world, d.flags, r, id, now, d.defaultRetention, f);
    SealRows(sha, s.world, d.flags, r, id, now, d.defaultRetention, f);
    if outcome.Sealed? {
      NewRowIntact(sha, s.world, d.flags, r, id, now, d.defaultRetention, f);
      NewRowKey(sha, s.world, d.flags, r, id, now, d.defaultRetention, f);
    }
    forall i | i in s.world.rows
      ensures i in w'.rows && w'.rows[i] == s.world.rows[i] && Accounted(sha, s', w'.rows[i])
      ensures ExtractStorageKey(w'.rows[i].storageUri).value in s'.uploaded
    {
      var key := ExtractStorageKey(s.world.rows[i].storageUri).value;
      assert Accounted(sha, s, s.world.rows[i]);
      assert Writes(d.flags, r, f) ==> Some(key) != KeyOf(r);
      assert w' != s.world ==> Some(key) != KeyOf(r);
    }
  }

  lemma {:induction false} NewRowKey(
    sha: Blob -> Digest, w: World, flags: set<Uuid>, r: SealRequest, id: RowId, now: int, keep: int, f: SealFaults)
    requires SealStep(sha, w, flags, r, id, now, keep, f).1.Sealed?
    ensures Writes(flags, r, f)
    ensures id in SealStep(sha, w, flags, r, id, now, keep, f).0.rows
    ensures ExtractStorageKey(SealStep(sha, w, flags, r, id, now, keep, f).0.rows[id].storageUri) == KeyOf(r)
  {
    hide BuildStorageKey, Insertable;
    assert StorageUri(KeyOf(r).value)[5..] == KeyOf(r).value;
  }

  lemma {:induction false} RetainKeepsInv(
    sha: Blob -> Digest, d: Deployment, s: State, h: seq<Batch>, limit: nat, now: int)
    requires Inv(sha, s) && Enabled(d, s, Retain(h, limit, now))
    ensures Inv(sha, After(sha, d, s, Retain(h, limit, now)))
  {
    hide ExtractStorageKey, Intact, SealedRows, Accounted, IsHistory, Finished, Replay, KeysOf, AllBlobsDeleted, Retained;
    HistoryRetains(s.world, now, limit, h);
    var s', deleted := After(sha, d, s, Retain(h, limit, now)), Deleted(s.world, h);
    RetainedRows(s.world, s'.world, now, deleted);
    forall id | id in s'.world.rows
      ensures Accounted(sha, s', s'.world.rows[id])
    {
      RowAccounted(sha, s, s', now, deleted, id);
    }
  }

  lemma {:induction false} RetainedRows(before: World, after: World, now: int, deleted: set<string>)
    requires Retained(before, after, now, deleted)
    ensures after.rows.Keys <= before.rows.Keys && forall id :: id in after.rows ==> after.rows[id] == before.rows[id]
    ensures SealedRows(before.rows) ==> SealedRows(after.rows)
  {
    hide ExtractStorageKey, StartsWith, KeysOf;
  }

  lemma {:induction false} RowAccounted(sha: Blob -> Digest, s: State, s': State, now: int, deleted: set<string>, id: RowId)
    requires SealedRows(s.world.rows) && Retained(s.world, s'.world, now, deleted) && id in s'.world.rows
    requires id in s.world.rows && Accounted(sha, s, s.world.rows[id])
    requires s'.purged == s.purged + map key | key in deleted :: now
    requires ExtractStorageKey(s.world.rows[id].storageUri).Some?
    ensures Accounted(sha, s', s'.world.rows[id])
  {
    hide ExtractStorageKey, Intact, SealedRows, KeysOf;
    OnlyExpiredLoseBlobs(sha, s.world, s'.world, now, deleted, id);
    PurgedNow(sha, s.world, now, deleted, id);
  }

  /** A sealed row whose key is deleted had expired. */
  lemma {:induction false} PurgedNow(sha: Blob -> Digest, w: World, now: int, deleted: set<string>, id: RowId)
    requires SealedRows(w.rows) && id in w.rows && ExtractStorageKey(w.rows[id].storageUri).Some?
    requires deleted <= KeysOf(w.rows, Expired(w.rows, now))
    ensures ExtractStorageKey(w.rows[id].storageUri).value in deleted ==> w.rows[id].retentionExpiresAt < now
  {
    hide ExtractStorageKey, KeysOf, SealedRows;
    KeyDeletedWhen(w.rows, Expired(w.rows, now), id);
  }

  lemma {:induction false} RunKeepsInv(sha: Blob -> Digest, d: Deployment, steps: seq<Step>, states: seq<State>, i: nat)
    requires IsRun(sha, d, steps, states) && states[0] == EMPTY && i <= |steps|
    ensures Inv(sha, states[i])
    decreases i
  {
    if i > 0 {
      RunKeepsInv(sha, d, steps, states, i - 1);
      hide Inv;
      match steps[i - 1]
      case Seal(r, id, now, f) => SealKeepsInv(sha, d, states[i - 1], r, id, now, f);
      case Retain(h, limit, now) => RetainKeepsInv(sha, d, states[i - 1], h, limit, now);
    }
  }

  /** In any run of seals, with any faults, and of retention runs, that writes each key at most
      once: every committed row has its blob with the recorded digest, unless a retention run
      deleted that very blob, at a time at which the row had expired. */
  lemma {:induction false} RowsKeepTheirBlobs(
    sha: Blob -> Digest, d: Deployment, steps: seq<Step>, states: seq<State>, i: nat, id: RowId)
    requires IsRun(sha, d, steps, states) && states[0] == EMPTY && i <= |steps| && id in states[i].world.rows
    ensures var s, row := states[i], states[i].world.rows[id];
      var key := ExtractStorageKey(row.storageUri);
      && key.Some?
      && (Intact(sha, s.world.blobs, row) ||
            (key.value in s.purged && row.retentionExpiresAt < s.purged[key.value]))
      && (forall j :: j in s.world.rows && s.world.rows[j].storageUri == row.storageUri ==> j == id)
  {
    RunKeepsInv(sha, d, steps, states, i);
  }
}
