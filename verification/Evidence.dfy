/** Sealing evidence: the blob goes into the object store first, the row second. */
module Evidence {
  import opened FusionTypes
  import opened Strings
  import opened StorageKeys

  type Byte = b: nat | b < 256

  type Blob = seq<Byte>

  /** SHA-256 in hexadecimal; only equality of digests is ever used. */
  type Digest = string

  const MAX_BLOB_BYTES := 52428800

  datatype SealRequest = SealRequest(
    flagId: Uuid,
    examSessionId: Uuid,
    artifactType: string,
    mediaType: string,
    blob: Blob,
    captureStartedAt: int,
    captureEndedAt: Option<int>,
    retentionExpiresAt: Option<int>
  )

  datatype ArtifactRow = ArtifactRow(
    flagId: Uuid,
    kind: string,
    storageUri: string,
    contentSha256: Digest,
    mediaType: string,
    byteSize: nat,
    captureStartedAt: int,
    captureEndedAt: Option<int>,
    retentionExpiresAt: int
  )

  type RowId = nat

  /** What can go wrong along the way. arrives: the bytes the store really keeps, or None when
      the upload raises. */
  datatype SealFaults = SealFaults(arrives: Option<Blob>, checksumFails: bool, deleteFails: bool, commitFails: bool)

  datatype SealOutcome =
    | TooLarge
    | NoSuchFlag
    | UnknownArtifactType
    | UploadFailed
    | VerifyFailed
    | ChecksumMismatch
    | AlreadySealed
    | CommitFailed
    | Sealed(id: RowId)

  /** The object store and the artifact table next to each other. */
  datatype World = World(blobs: map<string, Blob>, rows: map<RowId, ArtifactRow>)

  // -------------------------------------------------------------------------
  // Sealing as a function
  // -------------------------------------------------------------------------

  function RowOf(sha: Blob -> Digest, r: SealRequest, key: string, now: int, defaultRetention: int): ArtifactRow {
    ArtifactRow(
      r.flagId, r.artifactType, StorageUri(key), sha(r.blob), r.mediaType, |r.blob|, r.captureStartedAt,
      r.captureEndedAt,
      if r.retentionExpiresAt.Some? then r.retentionExpiresAt.value else now + defaultRetention)
  }

  /** The unique constraints and the checks of the artifact table. */
  predicate Insertable(rows: map<RowId, ArtifactRow>, row: ArtifactRow) {
    && (forall id :: id in rows ==> rows[id].flagId != row.flagId && rows[id].storageUri != row.storageUri)
    && (row.captureEndedAt.Some? ==> row.captureStartedAt <= row.captureEndedAt.value)
    && row.captureStartedAt <= row.retentionExpiresAt
  }

  function KeyOf(r: SealRequest): Option<string> {
    BuildStorageKey(r.examSessionId, r.flagId, r.artifactType)
  }

  /** Upload and verification: the store afterwards, and why it stopped, if it did. */
  function Uploaded(
    sha: Blob -> Digest, blobs: map<string, Blob>, key: string, blob: Blob, f: SealFaults)
    : (map<string, Blob>, Option<SealOutcome>)
  {
    if f.arrives == None then (blobs, Some(UploadFailed))
    else
      var stored := blobs[key := f.arrives.value];
      if f.checksumFails then (stored, Some(VerifyFailed))
      else if sha(f.arrives.value) != sha(blob) then
        (if f.deleteFails then stored else stored - {key}, Some(ChecksumMismatch))
      else (stored, None)
  }

  function SealStep(
    sha: Blob -> Digest, w: World, flags: set<Uuid>, r: SealRequest, id: RowId, now: int, defaultRetention: int,
    f: SealFaults): (World, SealOutcome)
  {
    if |r.blob| > MAX_BLOB_BYTES then (w, TooLarge)
    else if r.flagId !in flags then (w, NoSuchFlag)
    else if KeyOf(r) == None then (w, UnknownArtifactType)
    else
      var key := KeyOf(r).value;
      var (blobs, stopped) := Uploaded(sha, w.blobs, key, r.blob, f);
      var row := RowOf(sha, r, key, now, defaultRetention);
      if stopped.Some? then (World(blobs, w.rows), stopped.value)
      else if !Insertable(w.rows, row) then (World(blobs, w.rows), AlreadySealed)
      else if f.commitFails then (World(blobs, w.rows), CommitFailed)
      else (World(blobs, w.rows[id := row]), Sealed(id))
  }

  // -------------------------------------------------------------------------
  // The store and the service
  // -------------------------------------------------------------------------

  class InMemoryEvidenceStore {
    var blobs: map<string, Blob>

    constructor ()
      ensures blobs == map[]
    {
      blobs := map[];
    }

    method Upload(key: string, data: Blob)
      modifies this
      ensures blobs == old(blobs)[key := data]
    {
      blobs := blobs[key := data];
    }

    /** None: no object at that key. */
    method Download(key: string) returns (data: Option<Blob>)
      ensures data.Some? <==> key in blobs
      ensures data.Some? ==> data.value == blobs[key]
    {
      data := if key in blobs then Some(blobs[key]) else None;
    }

    /** Deleting what is not there is no error. */
    method Delete(key: string)
      modifies this
      ensures blobs == old(blobs) - {key}
    {
      blobs := blobs - {key};
    }

    method ComputeChecksum(sha: Blob -> Digest, key: string) returns (digest: Option<Digest>)
      ensures digest == if key in blobs then Some(sha(blobs[key])) else None
    {
      var data := Download(key);
      digest := if data == None then None else Some(sha(data.value));
    }
  }

  class ArtifactDatabase {
    const flags: set<Uuid>
    var committed: map<RowId, ArtifactRow>
    var working: map<RowId, ArtifactRow>

    constructor (flags: set<Uuid>)
      ensures this.flags == flags && committed == working == map[]
    {
      this.flags := flags;
      committed, working := map[], map[];
    }

    method Commit()
      modifies this`committed
      ensures committed == working
    {
      committed := working;
    }

    method Rollback()
      modifies this`working
      ensures working == committed
    {
      working := committed;
    }

    method Delete(id: RowId)
      modifies this`working
      ensures working == old(working) - {id}
    {
      working := working - {id};
    }
  }

  /** Upload, verify, and on a mismatch delete again. */
  method SealEvidence(
    sha: Blob -> Digest, store: InMemoryEvidenceStore, key: string, blob: Blob, f: SealFaults)
    returns (stopped: Option<SealOutcome>)
    modifies store
    ensures (store.blobs, stopped) == Uploaded(sha, old(store.blobs), key, blob, f)
  {
    var contentSha256 := sha(blob);
    if f.arrives == None {
      return Some(UploadFailed);
    }
    store.Upload(key, f.arrives.value);
    if f.checksumFails {
      return Some(VerifyFailed);
    }
    var remote := store.ComputeChecksum(sha, key);
    if remote != Some(contentSha256) {
      if !f.deleteFails {
        store.Delete(key);
      }
      return Some(ChecksumMismatch);
    }
    stopped := None;
  }

  method SealEvidenceForFlag(
    sha: Blob -> Digest, db: ArtifactDatabase, store: InMemoryEvidenceStore, r: SealRequest, id: RowId,
    defaultRetention: int, now: int, f: SealFaults)
    returns (outcome: SealOutcome)
    requires db.working == db.committed && id !in db.committed
    modifies db, store
    ensures db.working == db.committed
    ensures (World(store.blobs, db.committed), outcome) == SealStep(
      sha, World(old(store.blobs), old(db.committed)), db.flags, r, id, now, defaultRetention, f)
  {
    hide Uploaded, RowOf, Insertable, BuildStorageKey;
    if |r.blob| > MAX_BLOB_BYTES {
      return TooLarge;
    }
    if r.flagId !in db.flags {
      return NoSuchFlag;
    }
    var built := KeyOf(r);
    if built == None {
      return UnknownArtifactType;
    }
    var key := built.value;
    var stopped := SealEvidence(sha, store, key, r.blob, f);
    if stopped.Some? {
      return stopped.value;
    }
    var row := RowOf(sha, r, key, now, defaultRetention);
    if !Insertable(db.working, row) {
      return AlreadySealed;
    }
    db.working := db.working[id := row];
    if f.commitFails {
      db.Rollback();
      return CommitFailed;
    }
    db.Commit();
    outcome := Sealed(id);
  }

  // -------------------------------------------------------------------------
  // Rows and their blobs
  // -------------------------------------------------------------------------

  /** The row's blob is there and has the digest recorded in the row. */
  predicate Intact(sha: Blob -> Digest, blobs: map<string, Blob>, row: ArtifactRow) {
    var key := ExtractStorageKey(row.storageUri);
    key.Some? && key.value in blobs && sha(blobs[key.value]) == row.contentSha256
  }

  predicate AllIntact(sha: Blob -> Digest, w: World) {
    forall id :: id in w.rows ==> Intact(sha, w.blobs, w.rows[id])
  }

  /** Every row was sealed: its URI names a key, and no two rows share one. */
  predicate SealedRows(rows: map<RowId, ArtifactRow>) {
    && (forall id :: id in rows ==> StartsWith(rows[id].storageUri, "s3://"))
    && (forall i, j :: i in rows && j in rows && rows[i].storageUri == rows[j].storageUri ==> i == j)
  }

  /** The call gets as far as writing to the store. */
  predicate Writes(flags: set<Uuid>, r: SealRequest, f: SealFaults) {
    |r.blob| <= MAX_BLOB_BYTES && r.flagId in flags && KeyOf(r).Some? && f.arrives.Some?
  }

  /** What the call leaves at its key has the digest of the row that is already there. */
  predicate KeepsDigest(sha: Blob -> Digest, r: SealRequest, f: SealFaults, row: ArtifactRow)
    requires f.arrives.Some?
  {
    && sha(f.arrives.value) == row.contentSha256
    && (sha(f.arrives.value) == sha(r.blob) || f.checksumFails || f.deleteFails)
  }

  lemma {:induction false} SealKeepsRows(
    sha: Blob -> Digest, w: World, flags: set<Uuid>, r: SealRequest, id: RowId, now: int, keep: int, f: SealFaults)
    requires SealedRows(w.rows) && id !in w.rows
    ensures SealedRows(SealStep(sha, w, flags, r, id, now, keep, f).0.rows)
  {
    hide BuildStorageKey, Uploaded;
  }

  lemma {:induction false} UriKeys(a: string, b: string)
    requires StartsWith(a, "s3://")
    ensures ExtractStorageKey(a).Some?
    ensures a == StorageUri(b) <==> ExtractStorageKey(a) == Some(b)
  {
    assert a == "s3://" + a[5..];
  }

  /** What a seal does to the store: only its own key changes. */
  lemma {:induction false} SealTouchesOwnKey(
    sha: Blob -> Digest, w: World, flags: set<Uuid>, r: SealRequest, id: RowId, now: int, keep: int, f: SealFaults)
    ensures var w' := SealStep(sha, w, flags, r, id, now, keep, f).0;
      && (!Writes(flags, r, f) ==> w' == w)
      && (forall k :: Some(k) != KeyOf(r) ==> (k in w'.blobs <==> k in w.blobs) && (k in w.blobs ==> w'.blobs[k] == w.blobs[k]))
      && (forall i :: i in w.rows && i != id ==> i in w'.rows && w'.rows[i] == w.rows[i])
  {
    hide BuildStorageKey, Insertable, RowOf;
  }

  /** Blob first, row second: exactly when a seal keeps every committed row intact. It does so
      unless it writes over the key of a committed row and leaves there a different digest or
      nothing. */
  lemma {:induction false} SealKeepsIntactWhen(
    sha: Blob -> Digest, w: World, flags: set<Uuid>, r: SealRequest, id: RowId, now: int, keep: int, f: SealFaults)
    requires SealedRows(w.rows) && AllIntact(sha, w) && id !in w.rows
    ensures AllIntact(sha, SealStep(sha, w, flags, r, id, now, keep, f).0) <==>
      forall i :: i in w.rows && Writes(flags, r, f) && w.rows[i].storageUri == StorageUri(KeyOf(r).value) ==>
        KeepsDigest(sha, r, f, w.rows[i])
  {
    var (w', outcome) := SealStep(sha, w, flags, r, id, now, keep, f);
    SealTouchesOwnKey(sha, w, flags, r, id, now, keep, f);
    forall i | i in w.rows
      ensures i in w'.rows && w'.rows[i] == w.rows[i]
      ensures Intact(sha, w'.blobs, w.rows[i]) <==>
        !(Writes(flags, r, f) && w.rows[i].storageUri == StorageUri(KeyOf(r).value) && !KeepsDigest(sha, r, f, w.rows[i]))
    {
      OldRowIntactWhen(sha, w, flags, r, id, now, keep, f, i);
    }
    if outcome.Sealed? {
      NewRowIntact(sha, w, flags, r, id, now, keep, f);
    }
    SealRows(sha, w, flags, r, id, now, keep, f);
  }

  lemma {:induction false} SealRows(
    sha: Blob -> Digest, w: World, flags: set<Uuid>, r: SealRequest, id: RowId, now: int, keep: int, f: SealFaults)
    ensures var (w', outcome) := SealStep(sha, w, flags, r, id, now, keep, f);
      && (!outcome.Sealed? ==> w'.rows == w.rows)
      && (outcome.Sealed? ==> w'.rows.Keys == w.rows.Keys + {id})
  {
    hide BuildStorageKey, Insertable, RowOf;
  }

  lemma {:induction false} OldRowIntactWhen(
    sha: Blob -> Digest, w: World, flags: set<Uuid>, r: SealRequest, id: RowId, now: int, keep: int, f: SealFaults, i: RowId)
    requires SealedRows(w.rows) && i in w.rows && Intact(sha, w.blobs, w.rows[i]) && id !in w.rows
    ensures Intact(sha, SealStep(sha, w, flags, r, id, now, keep, f).0.blobs, w.rows[i]) <==>
      !(Writes(flags, r, f) && w.rows[i].storageUri == StorageUri(KeyOf(r).value) && !KeepsDigest(sha, r, f, w.rows[i]))
  {
    hide BuildStorageKey, Insertable, RowOf, ExtractStorageKey, StorageUri, StartsWith;
    SealTouchesOwnKey(sha, w, flags, r, id, now, keep, f);
    if KeyOf(r).Some? {
      UriKeys(w.rows[i].storageUri, KeyOf(r).value);
    }
  }

  lemma {:induction false} NewRowIntact(
    sha: Blob -> Digest, w: World, flags: set<Uuid>, r: SealRequest, id: RowId, now: int, keep: int, f: SealFaults)
    requires SealStep(sha, w, flags, r, id, now, keep, f).1.Sealed?
    ensures var w' := SealStep(sha, w, flags, r, id, now, keep, f).0;
      && id in w'.rows && Intact(sha, w'.blobs, w'.rows[id])
      && w'.rows[id].contentSha256 == sha(r.blob) && w'.rows[id].byteSize == |r.blob|
  {
    hide BuildStorageKey, Insertable;
    assert StorageUri(KeyOf(r).value)[5..] == KeyOf(r).value;
  }

  /** Sealing a flag again with other content, nothing failing: the call is refused, but the blob
      of the committed row has been overwritten and its checksum no longer matches. */
  lemma {:induction false} ResealCorruptsRow(
    sha: Blob -> Digest, w: World, flags: set<Uuid>, r: SealRequest, id: RowId, i: RowId, now: int, keep: int)
    requires SealedRows(w.rows) && AllIntact(sha, w) && id !in w.rows && i in w.rows
    requires |r.blob| <= MAX_BLOB_BYTES && r.flagId in flags && KeyOf(r).Some?
    requires w.rows[i].storageUri == StorageUri(KeyOf(r).value) && w.rows[i].contentSha256 != sha(r.blob)
    ensures var (w', outcome) := SealStep(sha, w, flags, r, id, now, keep, SealFaults(Some(r.blob), false, false, false));
      && outcome == AlreadySealed && w'.rows == w.rows && !Intact(sha, w'.blobs, w'.rows[i])
  {
    hide BuildStorageKey, ExtractStorageKey, StorageUri, StartsWith;
    UriKeys(w.rows[i].storageUri, KeyOf(r).value);
    var (w', outcome) := SealStep(sha, w, flags, r, id, now, keep, SealFaults(Some(r.blob), false, false, false));
    assert w.rows[i].storageUri == RowOf(sha, r, KeyOf(r).value, now, keep).storageUri;
    assert outcome == AlreadySealed;
    assert w'.rows == w.rows;
    assert w'.blobs[KeyOf(r).value] == r.blob;
  }

  // -------------------------------------------------------------------------
  // Outcomes and columns
  // -------------------------------------------------------------------------

  /** What a committed row says: everything about the blob that was sealed, the times of its capture,
      and when it expires, as requested or else the default period from now. */
  lemma {:induction false} SealedColumns(
    sha: Blob -> Digest, w: World, flags: set<Uuid>, r: SealRequest, id: RowId, now: int, keep: int, f: SealFaults)
    requires SealStep(sha, w, flags, r, id, now, keep, f).1.Sealed?
    ensures var w' := SealStep(sha, w, flags, r, id, now, keep, f).0;
      && SealStep(sha, w, flags, r, id, now, keep, f).1 == Sealed(id) && id in w'.rows
      && w'.rows[id].flagId == r.flagId && w'.rows[id].kind == r.artifactType && w'.rows[id].mediaType == r.mediaType
      && w'.rows[id].contentSha256 == sha(r.blob) && w'.rows[id].byteSize == |r.blob|
      && w'.rows[id].captureStartedAt == r.captureStartedAt && w'.rows[id].captureEndedAt == r.captureEndedAt
      && w'.rows[id].retentionExpiresAt ==
           (if r.retentionExpiresAt.Some? then r.retentionExpiresAt.value else now + keep)
      && Extension(r.artifactType).Some?
      && w'.rows[id].storageUri == KeyText("s3://evidence/", r.examSessionId, r.flagId, r.artifactType)
  {
    hide Insertable, UuidText, BuildStorageKey, KeyText;
    KeyIsText(r.examSessionId, r.flagId, r.artifactType);
  }

  /** prefix{session}/{flag}/{type}.{extension}. */
  function KeyText(prefix: string, session: Uuid, flag: Uuid, artifactType: string): string
    requires Extension(artifactType).Some?
  {
    prefix + (UuidText(session) + "/" + (UuidText(flag) + "/" + (artifactType + "." + Extension(artifactType).value)))
  }

  lemma {:induction false} KeyIsText(session: Uuid, flag: Uuid, artifactType: string)
    ensures BuildStorageKey(session, flag, artifactType).Some? <==> Extension(artifactType).Some?
    ensures Extension(artifactType).Some? ==>
      StorageUri(BuildStorageKey(session, flag, artifactType).value) ==
        KeyText("s3://evidence/", session, flag, artifactType)
  {
    if Extension(artifactType).Some? {
      var file := artifactType + "." + Extension(artifactType).value;
      var rest := UuidText(session) + "/" + (UuidText(flag) + "/" + file);
      hide UuidText;
      assert "s3://" + ("evidence" + ['/'] + rest) == "s3://evidence/" + rest;
    }
  }

  /** The file types that can be sealed. */
  lemma {:induction false} Extensions(artifactType: string)
    ensures Extension("frame") == Some("jpg") && Extension("clip") == Some("webm")
    ensures Extension("audio") == Some("webm") && Extension("event_export") == Some("json")
    ensures artifactType !in {"frame", "clip", "audio", "event_export"} ==> Extension(artifactType) == None
  {
  }

  /** Nothing in the table stands in the way of a row: the flag has no artifact and the key no row
      yet, and the times of the request are in order. */
  predicate Free(w: World, r: SealRequest, expires: int) {
    && Extension(r.artifactType).Some?
    && (forall i :: i in w.rows ==>
          && w.rows[i].flagId != r.flagId
          && w.rows[i].storageUri != KeyText("s3://evidence/", r.examSessionId, r.flagId, r.artifactType))
    && (r.captureEndedAt.Some? ==> r.captureStartedAt <= r.captureEndedAt.value)
    && r.captureStartedAt <= expires
  }

  /** Why a seal stops before it gets to the table: the blob is over 50 MiB, the flag does not exist,
      the type is not known, the upload raises, or the verification fails or finds another digest. */
  lemma {:induction false} StopsWhen(
    sha: Blob -> Digest, w: World, flags: set<Uuid>, r: SealRequest, id: RowId, now: int, keep: int, f: SealFaults)
    ensures var outcome := SealStep(sha, w, flags, r, id, now, keep, f).1;
      var sent := |r.blob| <= 52428800 && r.flagId in flags && Extension(r.artifactType).Some?;
      && (outcome == TooLarge <==> |r.blob| > 52428800)
      && (outcome == NoSuchFlag <==> |r.blob| <= 52428800 && r.flagId !in flags)
      && (outcome == UnknownArtifactType <==>
            |r.blob| <= 52428800 && r.flagId in flags && Extension(r.artifactType) == None)
      && (outcome == UploadFailed <==> sent && f.arrives == None)
      && (outcome == VerifyFailed <==> sent && f.arrives.Some? && f.checksumFails)
      && (outcome == ChecksumMismatch <==>
            sent && f.arrives.Some? && !f.checksumFails && sha(f.arrives.value) != sha(r.blob))
  {
    hide BuildStorageKey, Insertable, RowOf, Extension;
    KeyIsText(r.examSessionId, r.flagId, r.artifactType);
  }

  /** When sealing succeeds once the blob is stored and verified: nothing in the table stands in the
      way and the commit goes through. */
  lemma {:induction false} SealsWhen(
    sha: Blob -> Digest, w: World, flags: set<Uuid>, r: SealRequest, id: RowId, now: int, keep: int, f: SealFaults)
    ensures var outcome := SealStep(sha, w, flags, r, id, now, keep, f).1;
      var free := Free(w, r, if r.retentionExpiresAt.Some? then r.retentionExpiresAt.value else now + keep);
      if |r.blob| <= 52428800 && r.flagId in flags && Extension(r.artifactType).Some?
        && f.arrives.Some? && !f.checksumFails && sha(f.arrives.value) == sha(r.blob) then
        outcome == if !free then AlreadySealed else if f.commitFails then CommitFailed else Sealed(id)
      else outcome != AlreadySealed && outcome != CommitFailed && !outcome.Sealed?
  {
    hide BuildStorageKey, Extension, KeyText, StorageUri;
    KeyIsText(r.examSessionId, r.flagId, r.artifactType);
  }
}
