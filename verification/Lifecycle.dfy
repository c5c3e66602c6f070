/** The other transactions on the conversion tables: uploads, worker events and the retention sweep
    (apps/conversion-api/src/app/admission/upload-completion.service.ts,
    apps/conversion-api/src/app/events/worker-event-processor.service.ts and
    apps/conversion-api/src/app/lifecycle/retention.service.ts). */
module Lifecycle {
  import opened Prelude
  import opened Conversions
  import opened BatchRollup
  import opened Admission

  function UpdateWhere(files: Files, p: FileRow -> bool, u: FileRow -> FileRow): Files {
    seq(|files|, i requires 0 <= i < |files| => if p(files[i]) then u(files[i]) else files[i])
  }

  function RollUp(files: Files, batches: Batches, batchId: nat): Batches {
    if batchId in batches
    then batches[batchId := batches[batchId].(status := Rolled(files, batchId, batches[batchId].status))]
    else batches
  }

  // ----- creation -----

  /** A request for a new batch. */
  datatype NewBatch = NewBatch(subject: nat, tokenHash: Option<nat>, idempotencyKey: nat, fileCount: int, options: nat)

  predicate HasKey(batch: BatchRow, subject: nat, idempotencyKey: nat) {
    batch.subject == subject && batch.idempotencyKey == idempotencyKey
  }

  function NewFile(batchId: nat, id: nat, expiresAt: int): FileRow {
    FileRow(id, batchId, Uploading, None, None, None, 0, expiresAt)
  }

  function NewFiles(batchId: nat, ids: seq<nat>, expiresAt: int): Files {
    seq(|ids|, i requires 0 <= i < |ids| => NewFile(batchId, ids[i], expiresAt))
  }

  datatype CreateReply = Created(batchId: nat) | Replayed(batchId: nat) | Refused(error: AdmissionError)

  predicate FreshIds(files: Files, ids: seq<nat>) {
    && (forall i, j :: 0 <= i < j < |ids| ==> ids[i] != ids[j])
    && (forall i, f :: 0 <= i < |ids| && f in files ==> f.id != ids[i])
  }

  function ReplayOf(batch: BatchRow, batchId: nat, input: NewBatch, ownership: Ownership): CreateReply {
    match CheckOwnership(batch, ownership, BatchTokenMismatch)
    case Some(error) => Refused(error)
    case None =>
      if batch.fileCount != input.fileCount || batch.options != input.options then Refused(IdempotencyConflict)
      else Replayed(batchId)
  }

  /** Creates the batch and its files, or answers for the batch that already has the key.  `ownership`
      is the token presented with the request; the identifiers are fresh. */
  ghost predicate CreateBatch(db: Db, input: NewBatch, ownership: Ownership, snapshot: Snapshot, batchId: nat, ids: seq<nat>, now: int,
                              db': Db, reply: CreateReply)
  {
    if input.fileCount < 1 || input.fileCount > snapshot.maxBatchFiles then
      reply == Refused(BatchSizeInvalid) && db' == db
    else if exists b :: b in db.batches && HasKey(db.batches[b], input.subject, input.idempotencyKey) then
      exists b :: b in db.batches && HasKey(db.batches[b], input.subject, input.idempotencyKey)
        && db' == db && reply == ReplayOf(db.batches[b], b, input, ownership)
    else
      && batchId !in db.batches && |ids| == input.fileCount && FreshIds(db.files, ids)
      && reply == Created(batchId)
      && db' == db.(
           files := db.files + NewFiles(batchId, ids, now + UPLOAD_WINDOW_MS),
           batches := db.batches[batchId := BatchRow(input.subject, input.tokenHash, input.idempotencyKey, input.fileCount,
                                                     input.options, BatchUploading, now + UPLOAD_WINDOW_MS)])
  }

  // ----- uploads and worker events -----

  predicate AwaitsUpload(f: FileRow, fileId: nat) {
    f.id == fileId && f.status == Uploading
  }

  function Uploaded(f: FileRow, bytes: nat, etag: nat): FileRow {
    f.(status := Ready, inputBytes := Some(bytes), inputEtag := Some(etag))
  }

  function ReceiveUpload(db: Db, fileId: nat, bytes: nat, etag: nat): Db {
    db.(files := UpdateWhere(db.files, (f: FileRow) => AwaitsUpload(f, fileId), (f: FileRow) => Uploaded(f, bytes, etag)))
  }

  predicate AcceptsEvents(f: FileRow, fileId: nat, batchId: nat) {
    f.id == fileId && f.batchId == batchId && (f.status == Queued || f.status == Processing)
  }

  predicate MayStart(f: FileRow, fileId: nat, batchId: nat, attempt: int) {
    AcceptsEvents(f, fileId, batchId) && f.attempt < attempt
  }

  predicate MayFinish(f: FileRow, fileId: nat, batchId: nat, attempt: int) {
    AcceptsEvents(f, fileId, batchId) && f.attempt <= attempt
  }

  function Started(f: FileRow, attempt: int): FileRow {
    f.(status := Processing, attempt := attempt)
  }

  function StartFile(db: Db, fileId: nat, batchId: nat, attempt: int): Db {
    db.(files := UpdateWhere(db.files, (f: FileRow) => MayStart(f, fileId, batchId, attempt), (f: FileRow) => Started(f, attempt)))
  }

  /** The second statement of a start, with its own guard. */
  function StartBatch(db: Db, batchId: nat): Db {
    if batchId in db.batches && db.batches[batchId].status == BatchQueued
    then db.(batches := db.batches[batchId := db.batches[batchId].(status := BatchProcessing)])
    else db
  }

  datatype WorkerResult = Succeeded(outputBytes: nat) | GaveUp

  function Finished(f: FileRow, result: WorkerResult): FileRow {
    match result
    case Succeeded(bytes) => f.(status := Completed, outputBytes := Some(bytes))
    case GaveUp => f.(status := Failed)
  }

  predicate SomeMayFinish(files: Files, fileId: nat, batchId: nat, attempt: int) {
    exists i :: 0 <= i < |files| && MayFinish(files[i], fileId, batchId, attempt)
  }

  function FinishFile(db: Db, fileId: nat, batchId: nat, attempt: int, result: WorkerResult): Db {
    if !SomeMayFinish(db.files, fileId, batchId, attempt) then db
    else
      var files := UpdateWhere(db.files, (f: FileRow) => MayFinish(f, fileId, batchId, attempt), (f: FileRow) => Finished(f, result));
      db.(files := files, batches := RollUp(files, db.batches, batchId))
  }

  // ----- the sweep -----

  predicate Overdue(f: FileRow, batchId: nat, cutoff: int) {
    f.batchId == batchId && IsLive(f.status) && f.expiresAt <= cutoff
  }

  function SweepBatch(db: Db, batchId: nat, cutoff: int): Db {
    var files := UpdateWhere(db.files, (f: FileRow) => Overdue(f, batchId, cutoff), (f: FileRow) => f.(status := Expired));
    db.(files := files, batches := RollUp(files, db.batches, batchId))
  }

  /** The sweep of several batches, one transaction after the other. */
  function SweepAll(db: Db, batchIds: seq<nat>, cutoff: int): Db {
    if batchIds == [] then db else SweepBatch(SweepAll(db, batchIds[..|batchIds| - 1], cutoff), batchIds[|batchIds| - 1], cutoff)
  }
}
