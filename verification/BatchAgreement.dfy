/** In every reachable state each batch status agrees with the statuses of its files
    (apps/conversion-api/src/app/lifecycle/batch-rollup.ts and its callers). */
module BatchAgreement {
  import opened Prelude
  import opened Conversions
  import opened BatchRollup
  import opened Admission
  import opened Eviction
  import opened Lifecycle
  import opened ConversionRuns
  import opened AdmissionEffect

  ghost predicate Agreement(db: Db) {
    forall b :: b in db.batches ==> Agrees(db.files, b, db.batches[b].status)
  }

  /** Every batch keeps or raises its rank. */
  ghost predicate Forward(batches: Batches, batches': Batches) {
    forall b :: b in batches ==> b in batches' && Rank(batches[b].status) <= Rank(batches'[b].status)
  }

  /** What a transaction does to one batch: files may move in any way if it rolls the batch up, and
      otherwise no file may become terminal. */
  ghost predicate Handled(files: Files, files': Files, b: nat, status: BatchStatus, status': BatchStatus) {
    || (FilesMove(files, files', b) && status' == Rolled(files', b, status))
    || (QuietMoves(files, files', b)
        && (status' == status || (IsOpen(status) && IsOpen(status') && Rank(status) <= Rank(status'))))
  }

  lemma HandledAgrees(files: Files, files': Files, b: nat, status: BatchStatus, status': BatchStatus)
    requires Agrees(files, b, status) && Handled(files, files', b, status, status')
    ensures Agrees(files', b, status') && Rank(status) <= Rank(status')
  {
    hide Agrees, Rolled;
    if FilesMove(files, files', b) && status' == Rolled(files', b, status) {
      RollUpRestores(files, files', b, status);
    } else {
      QuietMovesAgree(files, files', b, status, status');
    }
  }

  ghost predicate HandlesAll(db: Db, db': Db) {
    db'.batches.Keys == db.batches.Keys
    && forall b :: b in db.batches ==> Handled(db.files, db'.files, b, db.batches[b].status, db'.batches[b].status)
  }

  lemma HandlesAllAgrees(db: Db, db': Db)
    requires Agreement(db) && HandlesAll(db, db')
    ensures Agreement(db') && Forward(db.batches, db'.batches)
  {
    hide Handled, Agrees;
    forall b | b in db.batches
      ensures Agrees(db'.files, b, db'.batches[b].status) && Rank(db.batches[b].status) <= Rank(db'.batches[b].status)
    {
      HandledAgrees(db.files, db'.files, b, db.batches[b].status, db'.batches[b].status);
    }
  }

  // ----- the transactions -----

  lemma UploadHandles(db: Db, fileId: nat, bytes: nat, etag: nat)
    ensures HandlesAll(db, ReceiveUpload(db, fileId, bytes, etag))
  {
  }

  lemma StartHandles(db: Db, fileId: nat, batchId: nat, attempt: int)
    ensures HandlesAll(db, StartFile(db, fileId, batchId, attempt))
  {
  }

  lemma StartBatchHandles(db: Db, batchId: nat)
    ensures HandlesAll(db, StartBatch(db, batchId))
  {
  }

  /** A transaction that changes files of one batch only and rolls it up. */
  lemma RolledHandles(db: Db, db': Db, batchId: nat)
    requires |db'.files| == |db.files| && db'.batches == RollUp(db'.files, db.batches, batchId)
    requires forall i :: 0 <= i < |db.files| ==>
      FileMoves(db.files[i], db'.files[i]) && (db.files[i].batchId != batchId ==> db'.files[i] == db.files[i])
    ensures HandlesAll(db, db')
  {
    hide Rolled;
    forall b | b in db.batches
      ensures Handled(db.files, db'.files, b, db.batches[b].status, db'.batches[b].status)
    {
      if b == batchId {
        assert FilesMove(db.files, db'.files, b);
      } else {
        assert QuietMoves(db.files, db'.files, b);
      }
    }
  }

  lemma FinishHandles(db: Db, fileId: nat, batchId: nat, attempt: int, result: WorkerResult)
    ensures HandlesAll(db, FinishFile(db, fileId, batchId, attempt, result))
  {
    if SomeMayFinish(db.files, fileId, batchId, attempt) {
      RolledHandles(db, FinishFile(db, fileId, batchId, attempt, result), batchId);
    }
  }

  lemma SweepHandles(db: Db, batchId: nat, cutoff: int)
    ensures HandlesAll(db, SweepBatch(db, batchId, cutoff))
  {
    RolledHandles(db, SweepBatch(db, batchId, cutoff), batchId);
  }

  /** The evicting half of an admission rolls up every batch that lost a file. */
  lemma EvictionHandles(db: Db, evicted: Files, owned: set<nat>, now: int)
    requires DistinctIds(db.files) && forall r :: r in evicted ==> r in db.files && Evictable(r, owned, now)
    ensures var files := ExpireRows(db.files, evicted, now);
      HandlesAll(db, db.(files := files, batches := RollTouched(files, db.batches, evicted)))
  {
    hide Rolled;
    var files := ExpireRows(db.files, evicted, now);
    forall i | 0 <= i < |files| && files[i] != db.files[i]
      ensures db.files[i].status == Completed && Touched(evicted, db.files[i].batchId)
    {
      var r :| r in evicted && r.id == db.files[i].id;
      SameRow(db.files, db.files[i], r);
    }
    forall b | b in db.batches
      ensures Handled(db.files, files, b, db.batches[b].status, RollTouched(files, db.batches, evicted)[b].status)
    {
      if Touched(evicted, b) {
        assert FilesMove(db.files, files, b);
      } else {
        assert QuietMoves(db.files, files, b);
      }
    }
  }

  lemma RanksAdd(a: Batches, b: Batches, c: Batches)
    requires Forward(a, b) && Forward(b, c)
    ensures Forward(a, c)
  {
  }

  lemma ClaimableIsKept(files: Files, evicted: Files, owned: set<nat>, now: int, i: nat, batchId: nat)
    requires DistinctIds(files) && i < |files| && forall r :: r in evicted ==> r in files && Evictable(r, owned, now)
    ensures Claimable(files[i], batchId) ==> !Listed(evicted, files[i])
  {
    if Listed(evicted, files[i]) {
      var r :| r in evicted && r.id == files[i].id;
      SameRow(files, files[i], r);
    }
  }

  lemma QueueingHandles(db: Db, db': Db, batchId: nat, end: int)
    requires |db'.files| == |db.files| && batchId in db.batches
    requires forall i :: 0 <= i < |db.files| ==>
      || db.files[i] == db'.files[i]
      || (db.files[i].status == Ready && db'.files[i] == db.files[i].(status := Queued, expiresAt := db'.files[i].expiresAt))
    requires db.batches[batchId].status == BatchUploading || db.batches[batchId].status == BatchQueued
    requires db'.batches == db.batches[batchId := db.batches[batchId].(status := BatchQueued, expiresAt := end)]
    ensures HandlesAll(db, db')
  {
    forall b | b in db.batches
      ensures QuietMoves(db.files, db'.files, b)
    {
    }
  }

  lemma AdmitHandles(db: Db, db': Db, batchId: nat, snapshot: Snapshot, now: int, evicted: Files)
    requires RowsSound(db) && batchId in db.batches && AdmissionOf(db, db', batchId, snapshot, now, evicted) && Agreement(db)
    ensures Agreement(db') && Forward(db.batches, db'.batches)
  {
    var owned := OwnedBy(db.batches, db.batches[batchId].subject);
    var files := ExpireRows(db.files, evicted, now);
    var middle := db.(files := files, batches := RollTouched(files, db.batches, evicted));
    EvictionHandles(db, evicted, owned, now);
    HandlesAllAgrees(db, middle);
    hide Rolled, RollTouched, Agreement, HandlesAll;
    forall i | 0 <= i < |files|
      ensures files[i] == db'.files[i]
        || (files[i].status == Ready && db'.files[i] == files[i].(status := Queued, expiresAt := db'.files[i].expiresAt))
    {
      assert AdmitsRow(db.files[i], db'.files[i], batchId, owned, evicted, RetentionEnd(snapshot, now), now);
      ClaimableIsKept(db.files, evicted, owned, now, i, batchId);
    }
    QueueingHandles(middle, db', batchId, RetentionEnd(snapshot, now));
    HandlesAllAgrees(middle, db');
    RanksAdd(db.batches, middle.batches, db'.batches);
  }

  lemma OthersAgree(files: Files, more: Files, b: nat, status: BatchStatus)
    requires Agrees(files, b, status) && forall i :: 0 <= i < |more| ==> more[i].batchId != b
    ensures Agrees(files + more, b, status)
  {
    forall p: FileStatus -> bool
      ensures Every(files + more, b, p) == Every(files, b, p)
    {
      forall i | 0 <= i < |files|
        ensures (files + more)[i] == files[i]
      {
      }
    }
  }

  /** A new batch starts open with all its files uploading; the others do not notice. */
  lemma CreateAgrees(db: Db, batchId: nat, batch: BatchRow, ids: seq<nat>, expiresAt: int)
    requires RowsSound(db) && Agreement(db) && batchId !in db.batches && ids != [] && batch.status == BatchUploading
    ensures Agreement(db.(files := db.files + NewFiles(batchId, ids, expiresAt), batches := db.batches[batchId := batch]))
  {
    var files := db.files + NewFiles(batchId, ids, expiresAt);
    assert files[|db.files|] == NewFile(batchId, ids[0], expiresAt);
    assert !AllTerminal(files, batchId) && !AllExpired(files, batchId);
    forall b | b in db.batches
      ensures Agrees(files, b, db.batches[b].status)
    {
      OthersAgree(db.files, NewFiles(batchId, ids, expiresAt), b, db.batches[b].status);
    }
  }

  // ----- runs -----

  lemma CreateKeepsRows(db: Db, batchId: nat, batch: BatchRow, ids: seq<nat>, expiresAt: int)
    requires RowsSound(db) && FreshIds(db.files, ids)
    ensures RowsSound(db.(files := db.files + NewFiles(batchId, ids, expiresAt), batches := db.batches[batchId := batch]))
  {
    var more := NewFiles(batchId, ids, expiresAt);
    var files := db.files + more;
    forall i, j | 0 <= i < j < |files|
      ensures files[i].id != files[j].id
    {
      if i < |db.files| <= j {
        assert db.files[i] in db.files;
      }
    }
  }

  lemma AdmitKeepsRows(db: Db, db': Db, batchId: nat, snapshot: Snapshot, now: int, evicted: Files)
    requires batchId in db.batches && AdmissionOf(db, db', batchId, snapshot, now, evicted)
    ensures SameRows(db, db')
  {
    hide Rolled;
    forall i | 0 <= i < |db.files|
      ensures db'.files[i].id == db.files[i].id && db'.files[i].batchId == db.files[i].batchId
    {
      assert AdmitsRow(db.files[i], db'.files[i], batchId, OwnedBy(db.batches, db.batches[batchId].subject), evicted,
                       RetentionEnd(snapshot, now), now);
    }
  }

  /** Transactions that only update rows. */
  lemma OthersKeepRows(w: World, step: Step, w': World)
    requires Next(w, step, w') && !step.Create? && !step.Admit?
    ensures SameRows(w.db, w'.db)
  {
    hide Rolled;
  }

  lemma StepKeepsRows(w: World, step: Step, w': World)
    requires RowsSound(w.db) && Next(w, step, w')
    ensures RowsSound(w'.db)
    ensures !step.Create? ==> SameRows(w.db, w'.db)
  {
    if step.Create? {
      if w'.db != w.db {
        CreateKeepsRows(w.db, step.batchId, w'.db.batches[step.batchId], step.ids, w.clock + UPLOAD_WINDOW_MS);
      }
    } else {
      if step.Admit? {
        if w'.db != w.db {
          var evicted := AdmissionEffects(w.db, step.batchId, step.snapshot, step.largeQueueBytes, w.clock);
          AdmitKeepsRows(w.db, w'.db, step.batchId, step.snapshot, w.clock, evicted);
        }
      } else {
        OthersKeepRows(w, step, w');
      }
      hide RowsSound, Next;
      SameRowsSound(w.db, w'.db);
    }
  }

  lemma StepKeepsAgreement(w: World, step: Step, w': World)
    requires RowsSound(w.db) && Agreement(w.db) && Next(w, step, w')
    ensures Agreement(w'.db) && Forward(w.db.batches, w'.db.batches)
  {
    hide Agrees, HandlesAll, AdmitTransaction, RollUp;
    match step {
      case Tick(_) =>
      case Create(input, ownership, plan, batchId, ids) =>
        if w'.db != w.db {
          CreateAgrees(w.db, batchId, w'.db.batches[batchId], ids, w.clock + UPLOAD_WINDOW_MS);
        }
      case Upload(fileId, bytes, etag) =>
        UploadHandles(w.db, fileId, bytes, etag);
        HandlesAllAgrees(w.db, w'.db);
      case Admit(batchId, snapshot, largeQueueBytes) =>
        if w'.db != w.db {
          var evicted := AdmissionEffects(w.db, batchId, snapshot, largeQueueBytes, w.clock);
          AdmitHandles(w.db, w'.db, batchId, snapshot, w.clock, evicted);
        }
      case Start(fileId, batchId, attempt) =>
        StartHandles(w.db, fileId, batchId, attempt);
        HandlesAllAgrees(w.db, w'.db);
      case StartedBatch(batchId) =>
        StartBatchHandles(w.db, batchId);
        HandlesAllAgrees(w.db, w'.db);
      case Finish(fileId, batchId, attempt, result) =>
        FinishHandles(w.db, fileId, batchId, attempt, result);
        HandlesAllAgrees(w.db, w'.db);
      case Sweep(batchId, cutoff) =>
        SweepHandles(w.db, batchId, cutoff);
        HandlesAllAgrees(w.db, w'.db);
      case Publish(_, _, _) =>
    }
  }

  lemma {:induction false} RunsAgree(run: seq<World>, steps: seq<Step>, i: nat)
    requires IsRun(run, steps) && i < |run|
    ensures RowsSound(run[i].db) && Agreement(run[i].db)
  {
    if i > 0 {
      RunsAgree(run, steps, i - 1);
      StepKeepsRows(run[i - 1], steps[i - 1], run[i]);
      StepKeepsAgreement(run[i - 1], steps[i - 1], run[i]);
    }
  }

  /** In every reachable state: a batch is closed exactly when all its files are terminal, expired
      exactly when all are expired, completed only with completed and expired files of which one is
      completed, and failed only without a completed file. */
  lemma BatchesTellTheTruth(run: seq<World>, steps: seq<Step>, i: nat, b: nat)
    requires IsRun(run, steps) && i < |run| && b in run[i].db.batches
    ensures var (files, status) := (run[i].db.files, run[i].db.batches[b].status);
      && (!IsOpen(status) <==> AllTerminal(files, b))
      && (status == BatchExpired <==> AllExpired(files, b))
      && (status == BatchCompleted ==> Every(files, b, (s: FileStatus) => s == Completed || s == Expired) && !NoneCompleted(files, b))
      && (status == BatchFailed ==> NoneCompleted(files, b))
      && (status == BatchPartial ==> AllTerminal(files, b) && !AllCompleted(files, b) && !AllExpired(files, b))
  {
    RunsAgree(run, steps, i);
    ClosedBatchShows(run[i].db.files, b, run[i].db.batches[b].status);
  }

  /** And it only moves forward. */
  lemma {:induction false} RankNeverFalls(run: seq<World>, steps: seq<Step>, i: nat, j: nat, b: nat)
    requires IsRun(run, steps) && i <= j < |run| && b in run[i].db.batches
    ensures b in run[j].db.batches && Rank(run[i].db.batches[b].status) <= Rank(run[j].db.batches[b].status)
    decreases j
  {
    hide Next, Agreement, Rank, RowsSound;
    if i < j {
      RankNeverFalls(run, steps, i, j - 1, b);
      RunsAgree(run, steps, j - 1);
      StepKeepsAgreement(run[j - 1], steps[j - 1], run[j]);
    }
  }

  // ----- idempotent creation -----

  ghost predicate KeysDistinct(batches: Batches) {
    forall a, b :: a in batches && b in batches && HasKey(batches[a], batches[b].subject, batches[b].idempotencyKey) ==> a == b
  }

  lemma SameBatchesKeepKeys(batches: Batches, batches': Batches)
    requires KeysDistinct(batches) && SameBatches(batches, batches')
    ensures KeysDistinct(batches')
  {
    forall a, b | a in batches' && b in batches' && HasKey(batches'[a], batches'[b].subject, batches'[b].idempotencyKey)
      ensures a == b
    {
      assert SameOwner(batches[a], batches'[a]) && SameOwner(batches[b], batches'[b]);
    }
  }

  lemma CreationKeepsKeys(w: World, step: Step, w': World)
    requires Next(w, step, w') && step.Create? && KeysDistinct(w.db.batches)
    ensures KeysDistinct(w'.db.batches)
  {
  }

  /** A subject never has two batches with the same idempotency key: repeating a creation either
      answers for the one batch there is or is refused. */
  lemma {:induction false} OneBatchPerKey(run: seq<World>, steps: seq<Step>, i: nat)
    requires IsRun(run, steps) && i < |run|
    ensures KeysDistinct(run[i].db.batches)
  {
    if i > 0 {
      OneBatchPerKey(run, steps, i - 1);
      RunsAgree(run, steps, i - 1);
      assert Next(run[i - 1], steps[i - 1], run[i]);
      if steps[i - 1].Create? {
        CreationKeepsKeys(run[i - 1], steps[i - 1], run[i]);
      } else {
        StepKeepsRows(run[i - 1], steps[i - 1], run[i]);
        SameBatchesKeepKeys(run[i - 1].db.batches, run[i].db.batches);
      }
    }
  }
}
