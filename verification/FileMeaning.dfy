/** What every transaction does to every file and batch, spelled out on the rows
    (apps/conversion-api/src/app/admission/admission.service.ts and upload-completion.service.ts,
    apps/conversion-api/src/app/events/worker-event-processor.service.ts and
    apps/conversion-api/src/app/lifecycle/retention.service.ts). */
module FileMeaning {
  import opened Prelude
  import opened Conversions
  import opened BatchRollup
  import opened Admission
  import opened Eviction
  import opened Lifecycle
  import opened ConversionRuns
  import opened AdmissionEffect
  import opened BatchAgreement
  import opened AdmissionLedger
  import M = AdmissionMeaning

  /** The file is with the worker, in this batch. */
  predicate Converts(f: FileRow, fileId: nat, batchId: nat) {
    f.id == fileId && f.batchId == batchId && (f.status == Queued || f.status == Processing)
  }

  predicate Stored(f: FileRow) {
    f.status == Uploading || f.status == Ready || f.status == Queued || f.status == Processing || f.status == Completed
  }

  /** The row after a step that is no admission. */
  function AfterStep(f: FileRow, step: Step): FileRow {
    match step
    case Upload(fileId, bytes, etag) =>
      if f.id == fileId && f.status == Uploading
      then FileRow(f.id, f.batchId, Ready, Some(bytes), Some(etag), f.outputBytes, f.attempt, f.expiresAt) else f
    case Start(fileId, batchId, attempt) =>
      if Converts(f, fileId, batchId) && f.attempt < attempt
      then FileRow(f.id, f.batchId, Processing, f.inputBytes, f.inputEtag, f.outputBytes, attempt, f.expiresAt) else f
    case Finish(fileId, batchId, attempt, Succeeded(bytes)) =>
      if Converts(f, fileId, batchId) && f.attempt <= attempt
      then FileRow(f.id, f.batchId, Completed, f.inputBytes, f.inputEtag, Some(bytes), f.attempt, f.expiresAt) else f
    case Finish(fileId, batchId, attempt, GaveUp) =>
      if Converts(f, fileId, batchId) && f.attempt <= attempt
      then FileRow(f.id, f.batchId, Failed, f.inputBytes, f.inputEtag, f.outputBytes, f.attempt, f.expiresAt) else f
    case Sweep(batchId, cutoff) =>
      if f.batchId == batchId && Stored(f) && f.expiresAt <= cutoff
      then FileRow(f.id, f.batchId, Expired, f.inputBytes, f.inputEtag, f.outputBytes, f.attempt, f.expiresAt) else f
    case _ => f
  }

  /** Every step but an admission, file by file: an upload makes an awaited file ready with its size and
      tag, a start moves a file that the worker has to a later attempt, a result of its attempt or a later
      one ends it, the sweep expires what is stored and overdue, and nothing else changes a file. */
  lemma FilesMoveExactly(w: World, step: Step, w': World, k: nat)
    requires RowsSound(w.db) && Next(w, step, w') && !step.Admit? && k < |w.db.files|
    ensures k < |w'.db.files| && w'.db.files[k] == AfterStep(w.db.files[k], step)
  {
    hide Rolled;
    if step.Finish? && !SomeMayFinish(w.db.files, step.fileId, step.batchId, step.attempt) {
      assert !MayFinish(w.db.files[k], step.fileId, step.batchId, step.attempt);
    }
  }

  /** The admission queues. */
  ghost predicate Admits(w: World, step: Step) {
    && step.Admit? && step.batchId in w.db.batches
    && M.SomethingReady(w.db.files, step.batchId) && M.Succeeds(w.db, step.batchId, step.snapshot, w.clock)
  }

  /** The row after an admission that queues: a ready file of the batch is queued until the end of the
      retention, a completed file of the subject may have been evicted, any other file stays. */
  predicate AdmittedRow(w: World, step: Step, f: FileRow, f': FileRow)
    requires step.Admit? && step.batchId in w.db.batches
  {
    if f.batchId == step.batchId && f.status == Ready then
      f' == FileRow(f.id, f.batchId, Queued, f.inputBytes, f.inputEtag, f.outputBytes, f.attempt,
                    w.clock + 3_600_000 * step.snapshot.outputRetentionHours)
    else
      || f' == f
      || (&& f' == FileRow(f.id, f.batchId, Expired, f.inputBytes, f.inputEtag, f.outputBytes, f.attempt, w.clock)
          && f.status == Completed && w.clock < f.expiresAt
          && M.OwnedFile(f, w.db.batches, w.db.batches[step.batchId].subject))
  }

  lemma AdmissionMovesFiles(w: World, step: Step, w': World, k: nat)
    requires RowsSound(w.db) && Next(w, step, w') && step.Admit? && k < |w.db.files|
    ensures k < |w'.db.files|
    ensures if Admits(w, step) then AdmittedRow(w, step, w.db.files[k], w'.db.files[k]) else w'.db == w.db
  {
    M.TransactionExactly(w.db, step.batchId, step.snapshot, step.largeQueueBytes, w.clock);
    if Admits(w, step) {
      hide AdmitTransaction, M.SomethingReady, M.Succeeds, Admits;
      var evicted := AdmissionEffects(w.db, step.batchId, step.snapshot, step.largeQueueBytes, w.clock);
      hide RollTouched, RowsSound;
      assert AdmitsRow(w.db.files[k], w'.db.files[k], step.batchId, OwnedBy(w.db.batches, w.db.batches[step.batchId].subject),
                       evicted, RetentionEnd(step.snapshot, w.clock), w.clock);
    } else {
      hide M.Succeeds, M.Fails, M.SomethingReady;
    }
  }

  // ----- batches -----

  predicate TakesFiles(status: BatchStatus) {
    status == BatchUploading || status == BatchQueued || status == BatchProcessing
  }

  /** What identifies a batch and its parameters. */
  predicate SameOrder(batch: BatchRow, batch': BatchRow) {
    && batch'.subject == batch.subject && batch'.tokenHash == batch.tokenHash && batch'.idempotencyKey == batch.idempotencyKey
    && batch'.fileCount == batch.fileCount && batch'.options == batch.options
  }

  /** A batch that keeps taking files is queued by its admission and processing after a start; nothing
      else moves it, and only its admission sets when it expires. */
  predicate BatchMoves(w: World, step: Step, admits: bool, b: nat, batch: BatchRow, batch': BatchRow) {
    && SameOrder(batch, batch')
    && (if admits && step.Admit? && step.batchId == b
        then batch'.status == BatchQueued && batch'.expiresAt == w.clock + 3_600_000 * step.snapshot.outputRetentionHours
        else batch'.expiresAt == batch.expiresAt
             && (TakesFiles(batch'.status) ==>
                  batch'.status == if step == StartedBatch(b) && batch.status == BatchQueued then BatchProcessing else batch.status))
  }

  lemma RolledMeans(files: Files, b: nat, status: BatchStatus)
    ensures TakesFiles(Rolled(files, b, status)) ==> Rolled(files, b, status) == status
  {
  }

  lemma OtherStepsMoveBatches(w: World, step: Step, w': World, b: nat)
    requires Next(w, step, w') && !step.Admit? && b in w.db.batches
    ensures b in w'.db.batches && BatchMoves(w, step, false, b, w.db.batches[b], w'.db.batches[b])
  {
    RolledMeans(w'.db.files, b, w.db.batches[b].status);
    hide Rolled;
  }

  lemma AdmissionMovesBatch(db: Db, db': Db, batchId: nat, snapshot: Snapshot, now: int, evicted: Files, b: nat)
    requires batchId in db.batches && AdmissionOf(db, db', batchId, snapshot, now, evicted) && b in db.batches
    ensures b in db'.batches && SameOrder(db.batches[b], db'.batches[b])
    ensures if b == batchId
            then db'.batches[b].status == BatchQueued && db'.batches[b].expiresAt == now + 3_600_000 * snapshot.outputRetentionHours
            else db'.batches[b].expiresAt == db.batches[b].expiresAt
                 && (TakesFiles(db'.batches[b].status) ==> db'.batches[b].status == db.batches[b].status)
  {
    hide Rolled, ExpireRows, AdmitsRow;
    RolledMeans(ExpireRows(db.files, evicted, now), b, db.batches[b].status);
  }

  lemma AdmissionMovesBatches(w: World, step: Step, w': World, b: nat)
    requires RowsSound(w.db) && Next(w, step, w') && step.Admit? && b in w.db.batches
    ensures b in w'.db.batches && BatchMoves(w, step, Admits(w, step), b, w.db.batches[b], w'.db.batches[b])
  {
    M.TransactionExactly(w.db, step.batchId, step.snapshot, step.largeQueueBytes, w.clock);
    if Admits(w, step) {
      hide AdmitTransaction, M.SomethingReady, M.Succeeds, Admits;
      var evicted := AdmissionEffects(w.db, step.batchId, step.snapshot, step.largeQueueBytes, w.clock);
      assert w'.db == AdmitTransaction(w.db, step.batchId, step.snapshot, step.largeQueueBytes, w.clock).value.db;
      hide Next, RowsSound;
      AdmissionMovesBatch(w.db, w'.db, step.batchId, step.snapshot, w.clock, evicted, b);
    } else {
      hide M.Succeeds, M.Fails, M.SomethingReady;
    }
  }

  /** Every step, batch by batch. */
  lemma BatchesMoveExactly(w: World, step: Step, w': World, b: nat)
    requires RowsSound(w.db) && Next(w, step, w') && b in w.db.batches
    ensures b in w'.db.batches && BatchMoves(w, step, Admits(w, step), b, w.db.batches[b], w'.db.batches[b])
  {
    if step.Admit? {
      hide *;
      AdmissionMovesBatches(w, step, w', b);
    } else {
      OtherStepsMoveBatches(w, step, w', b);
      hide Next, RowsSound;
    }
  }

  // ----- creation -----

  /** A new batch of the subject waits for its files for a day, and so does each of its files. */
  predicate IsNew(db: Db, db': Db, input: NewBatch, batchId: nat, ids: seq<nat>, now: int) {
    && batchId !in db.batches && |ids| == input.fileCount
    && db'.batches == db.batches[batchId := BatchRow(input.subject, input.tokenHash, input.idempotencyKey, input.fileCount,
                                                     input.options, BatchUploading, now + 86_400_000)]
    && |db'.files| == |db.files| + |ids|
    && (forall k :: 0 <= k < |db.files| ==> db'.files[k] == db.files[k])
    && (forall i :: 0 <= i < |ids| ==>
         db'.files[|db.files| + i] == FileRow(ids[i], batchId, Uploading, None, None, None, 0, now + 86_400_000))
    && db'.usage == db.usage && db'.outbox == db.outbox && db'.nextOutboxId == db.nextOutboxId
  }

  /** The key of a subject names one batch; a request for it is answered by that batch or refused, any
      other request of an allowed size creates a batch. */
  lemma CreationExactly(db: Db, input: NewBatch, ownership: Ownership, plan: Snapshot, batchId: nat, ids: seq<nat>, now: int,
                        db': Db, reply: CreateReply)
    requires CreateBatch(db, input, ownership, plan, batchId, ids, now, db', reply)
    ensures if !(1 <= input.fileCount <= plan.maxBatchFiles) then reply == Refused(BatchSizeInvalid) && db' == db
            else if reply == Created(batchId) then
              && IsNew(db, db', input, batchId, ids, now)
              && forall b :: b in db.batches ==> !(db.batches[b].subject == input.subject && db.batches[b].idempotencyKey == input.idempotencyKey)
            else
              && db' == db
              && exists b :: b in db.batches && db.batches[b].subject == input.subject
                             && db.batches[b].idempotencyKey == input.idempotencyKey
                             && reply == ReplayOf(db.batches[b], b, input, ownership)
  {
  }

  // ----- the requests to the worker -----

  /** Row i of the requests: for the i-th ready file by identifier, due at once, in the queue of the tier,
      or in the queue for large files if the tier is paid and the file is large. */
  predicate IsRequest(row: OutboxRow, f: FileRow, id: nat, snapshot: Snapshot, largeQueueBytes: int, now: int) {
    && row.id == id && row.fileId == f.id && row.batchId == f.batchId && f.inputEtag == Some(row.inputEtag)
    && row.attempts == 0 && row.nextAttemptAt == now
    && row.queue == if snapshot.queueTier >= 2 && f.inputBytes.Some? && f.inputBytes.value > largeQueueBytes
                    then PaidLargeQueue else TierQueue(snapshot.queueTier)
  }

  lemma RequestsMean(claimed: Files, firstId: nat, snapshot: Snapshot, largeQueueBytes: int, now: int, i: nat)
    requires i < |claimed| && claimed[i].inputEtag.Some? && claimed[i].inputBytes.Some?
    ensures |Requests(claimed, firstId, snapshot, largeQueueBytes, now)| == |claimed|
    ensures IsRequest(Requests(claimed, firstId, snapshot, largeQueueBytes, now)[i], claimed[i], firstId + i, snapshot, largeQueueBytes, now)
  {
  }

  lemma RequestsExactly(w: World, step: Step, w': World) returns (claimed: Files)
    requires RowsSound(w.db) && Next(w, step, w') && Admits(w, step)
    ensures forall f :: f in claimed <==> f in w.db.files && M.IsReady(f, step.batchId)
    ensures forall i, j :: 0 <= i < j < |claimed| ==> claimed[i].id < claimed[j].id
    ensures |w'.db.outbox| == |w.db.outbox| + |claimed| && w'.db.nextOutboxId == w.db.nextOutboxId + |claimed|
    ensures forall i :: 0 <= i < |w.db.outbox| ==> w'.db.outbox[i] == w.db.outbox[i]
    ensures forall i :: 0 <= i < |claimed| ==>
      IsRequest(w'.db.outbox[|w.db.outbox| + i], claimed[i], w.db.nextOutboxId + i, step.snapshot, step.largeQueueBytes, w.clock)
  {
    M.TransactionExactly(w.db, step.batchId, step.snapshot, step.largeQueueBytes, w.clock);
    claimed := Claimed(w.db.files, step.batchId);
    ClaimedRows(w.db.files, step.batchId);
    M.ClaimedById(w.db.files, step.batchId);
    hide M.Succeeds, M.SomethingReady, RowsSound, Claimed;
    QueueingEffects(w.db, step.batchId, step.snapshot, step.largeQueueBytes, w.clock);
    AdmittedAreMeasured(w.db, step.batchId, step.snapshot, step.largeQueueBytes, w.clock);
    hide AdmitTransaction, ReserveDaily, Requests;
    forall i: nat | i < |claimed|
      ensures IsRequest(w'.db.outbox[|w.db.outbox| + i], claimed[i], w.db.nextOutboxId + i, step.snapshot, step.largeQueueBytes, w.clock)
    {
      assert claimed[i] in claimed;
      RequestsMean(claimed, w.db.nextOutboxId, step.snapshot, step.largeQueueBytes, w.clock, i);
    }
  }

  /** Every creation is possible: with fresh identifiers, a request of an allowed size gets an answer, and
      a new batch if the subject has none with the key. */
  lemma CreationPossible(db: Db, input: NewBatch, ownership: Ownership, plan: Snapshot, batchId: nat, ids: seq<nat>, now: int)
    returns (db': Db, reply: CreateReply)
    requires 1 <= input.fileCount <= plan.maxBatchFiles
    requires batchId !in db.batches && |ids| == input.fileCount && FreshIds(db.files, ids)
    ensures CreateBatch(db, input, ownership, plan, batchId, ids, now, db', reply)
    ensures reply == Created(batchId) <==> forall b :: b in db.batches ==>
      !(db.batches[b].subject == input.subject && db.batches[b].idempotencyKey == input.idempotencyKey)
  {
    if b :| b in db.batches && HasKey(db.batches[b], input.subject, input.idempotencyKey) {
      db', reply := db, ReplayOf(db.batches[b], b, input, ownership);
    } else {
      reply := Created(batchId);
      db' := db.(
        files := db.files + NewFiles(batchId, ids, now + UPLOAD_WINDOW_MS),
        batches := db.batches[batchId := BatchRow(input.subject, input.tokenHash, input.idempotencyKey, input.fileCount,
                                                  input.options, BatchUploading, now + UPLOAD_WINDOW_MS)]);
    }
  }
}
