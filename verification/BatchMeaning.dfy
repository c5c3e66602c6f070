/** What a batch was closed as, in terms of the files it then had
    (apps/conversion-api/src/app/lifecycle/batch-rollup.ts and its callers). */
module BatchMeaning {
  import opened Prelude
  import opened Conversions
  import opened BatchRollup
  import opened Admission
  import opened Eviction
  import opened Lifecycle
  import opened ConversionRuns
  import opened AdmissionEffect
  import opened BatchAgreement

  predicate FileOf(files: Files, b: nat, i: nat) {
    i < |files| && files[i].batchId == b
  }

  ghost predicate AllEnded(files: Files, b: nat) {
    forall i: nat :: FileOf(files, b, i) ==> files[i].status in {Completed, Failed, Cancelled, Expired}
  }

  ghost predicate SomeWith(files: Files, b: nat, status: FileStatus) {
    exists i: nat :: FileOf(files, b, i) && files[i].status == status
  }

  ghost predicate SomeWithout(files: Files, b: nat, status: FileStatus) {
    exists i: nat :: FileOf(files, b, i) && files[i].status != status
  }

  predicate Takes(status: BatchStatus) {
    status == BatchUploading || status == BatchQueued || status == BatchProcessing
  }

  /** The status that an open batch is closed with, by the statuses of its files. */
  ghost predicate ClosedAs(files: Files, b: nat, status: BatchStatus) {
    && AllEnded(files, b)
    && (status == BatchExpired <==> !SomeWithout(files, b, Expired))
    && (status == BatchFailed <==> SomeWithout(files, b, Expired) && !SomeWith(files, b, Completed))
    && (status == BatchPartial <==> SomeWith(files, b, Completed) && SomeWithout(files, b, Completed))
    && (status == BatchCompleted <==> SomeWith(files, b, Completed) && !SomeWithout(files, b, Completed))
  }

  lemma TerminalMeans(s: FileStatus)
    ensures IsTerminal(s) <==> s in {Completed, Failed, Cancelled, Expired}
  {
  }

  lemma EveryMeans(files: Files, b: nat)
    ensures AllTerminal(files, b) <==> AllEnded(files, b)
    ensures AllExpired(files, b) <==> !SomeWithout(files, b, Expired)
    ensures AllCompleted(files, b) <==> !SomeWithout(files, b, Completed)
    ensures NoneCompleted(files, b) <==> !SomeWith(files, b, Completed)
  {
    hide IsTerminal;
    forall i: nat | FileOf(files, b, i)
      ensures IsTerminal(files[i].status) <==> files[i].status in {Completed, Failed, Cancelled, Expired}
    {
      TerminalMeans(files[i].status);
    }
  }

  /** A roll-up, both ways: it changes nothing while a file has not ended; it closes an open batch with
      the status that its files call for; and it lets a completed or partial batch expire once all its
      files have. */
  lemma RollUpExactly(files: Files, b: nat, status: BatchStatus)
    ensures var next := Rolled(files, b, status);
      if !AllEnded(files, b) then next == status
      else if Takes(status) then ClosedAs(files, b, next)
      else if !SomeWithout(files, b, Expired) && status in {BatchCompleted, BatchPartial} then next == BatchExpired
      else next == status
  {
    EveryMeans(files, b);
    hide AllTerminal, AllExpired, AllCompleted, NoneCompleted, AllEnded;
  }

  /** What a later status of a closed batch may be. */
  predicate Stays(status: BatchStatus, status': BatchStatus) {
    status' == status || (status' == BatchExpired && status in {BatchCompleted, BatchPartial})
  }

  /** What one transaction does to a batch. */
  ghost predicate Moves(files': Files, b: nat, status: BatchStatus, status': BatchStatus) {
    if Takes(status) then Takes(status') || ClosedAs(files', b, status') else Stays(status, status')
  }

  lemma MovesMeans(files': Files, b: nat, status: BatchStatus, status': BatchStatus)
    requires Moves(files', b, status, status')
    ensures Takes(status) ==> Takes(status') || ClosedAs(files', b, status')
    ensures !Takes(status) ==> Stays(status, status') && !Takes(status')
  {
  }

  lemma HandledMoves(files: Files, files': Files, b: nat, status: BatchStatus, status': BatchStatus)
    requires Handled(files, files', b, status, status')
    ensures Moves(files', b, status, status')
  {
    if FilesMove(files, files', b) && status' == Rolled(files', b, status) {
      RollUpExactly(files', b, status);
    }
    hide Rolled, FilesMove, QuietMoves, ClosedAs;
  }

  /** Moves of two transactions, of which the second neither ends a file nor closes a batch. */
  lemma QuietMovesOn(files: Files, files': Files, b: nat, status: BatchStatus, middle: BatchStatus, status': BatchStatus)
    requires Moves(files, b, status, middle) && QuietMoves(files, files', b)
    requires status' == middle || (Takes(middle) && Takes(status'))
    ensures Moves(files', b, status, status')
  {
    if Takes(status) && !Takes(middle) {
      EveryMeans(files, b);
      EveryMeans(files', b);
      SameStatuses(files, files', b);
      assert AllTerminal(files, b);
      hide AllTerminal, AllExpired, AllCompleted, NoneCompleted, AllEnded, SomeWith, SomeWithout, QuietMoves;
    }
  }

  lemma AllHandledMove(db: Db, db': Db, b: nat)
    requires HandlesAll(db, db') && b in db.batches
    ensures b in db'.batches && Moves(db'.files, b, db.batches[b].status, db'.batches[b].status)
  {
    hide Handled, Moves;
    HandledMoves(db.files, db'.files, b, db.batches[b].status, db'.batches[b].status);
  }

  lemma AdmissionMoves(db: Db, db': Db, batchId: nat, snapshot: Snapshot, now: int, evicted: Files, b: nat)
    requires RowsSound(db) && batchId in db.batches && AdmissionOf(db, db', batchId, snapshot, now, evicted) && b in db.batches
    ensures b in db'.batches && Moves(db'.files, b, db.batches[b].status, db'.batches[b].status)
  {
    var owned := OwnedBy(db.batches, db.batches[batchId].subject);
    var files := ExpireRows(db.files, evicted, now);
    var middle := db.(files := files, batches := RollTouched(files, db.batches, evicted));
    EvictionHandles(db, evicted, owned, now);
    AllHandledMove(db, middle, b);
    forall i | 0 <= i < |files|
      ensures files[i] == db'.files[i]
        || (files[i].status == Ready && db'.files[i] == files[i].(status := Queued, expiresAt := db'.files[i].expiresAt))
    {
      hide Rolled, RollTouched, HandlesAll, Moves;
      assert AdmitsRow(db.files[i], db'.files[i], batchId, owned, evicted, RetentionEnd(snapshot, now), now);
      ClaimableIsKept(db.files, evicted, owned, now, i, batchId);
    }
    hide Rolled, HandlesAll, Moves, AdmitsRow, Handled;
    assert QuietMoves(files, db'.files, b);
    QuietMovesOn(files, db'.files, b, db.batches[b].status, middle.batches[b].status, db'.batches[b].status);
  }

  lemma StayingMoves(files': Files, b: nat, status: BatchStatus)
    ensures Moves(files', b, status, status)
  {
  }

  /** Every step moves every batch so. */
  lemma StepMoves(w: World, step: Step, w': World, b: nat)
    requires RowsSound(w.db) && Next(w, step, w') && b in w.db.batches
    ensures b in w'.db.batches && Moves(w'.db.files, b, w.db.batches[b].status, w'.db.batches[b].status)
  {
    hide HandlesAll, AdmitTransaction, RollUp, Moves, Handled;
    match step {
      case Upload(fileId, bytes, etag) =>
        UploadHandles(w.db, fileId, bytes, etag);
        AllHandledMove(w.db, w'.db, b);
      case Admit(batchId, snapshot, largeQueueBytes) =>
        if w'.db != w.db {
          var evicted := AdmissionEffects(w.db, batchId, snapshot, largeQueueBytes, w.clock);
          AdmissionMoves(w.db, w'.db, batchId, snapshot, w.clock, evicted, b);
        } else {
          StayingMoves(w'.db.files, b, w.db.batches[b].status);
        }
      case Start(fileId, batchId, attempt) =>
        StartHandles(w.db, fileId, batchId, attempt);
        AllHandledMove(w.db, w'.db, b);
      case StartedBatch(batchId) =>
        StartBatchHandles(w.db, batchId);
        AllHandledMove(w.db, w'.db, b);
      case Finish(fileId, batchId, attempt, result) =>
        FinishHandles(w.db, fileId, batchId, attempt, result);
        AllHandledMove(w.db, w'.db, b);
      case Sweep(batchId, cutoff) =>
        SweepHandles(w.db, batchId, cutoff);
        AllHandledMove(w.db, w'.db, b);
      case _ =>
        StayingMoves(w'.db.files, b, w.db.batches[b].status);
    }
  }

  lemma NotClosedAtStart(run: seq<World>, steps: seq<Step>, b: nat)
    requires IsRun(run, steps)
    ensures b !in run[0].db.batches
  {
    hide Next;
  }

  /** A batch that appears takes files. */
  lemma CreatedOpen(w: World, step: Step, w': World, b: nat)
    requires RowsSound(w.db) && Next(w, step, w') && b !in w.db.batches && b in w'.db.batches
    ensures Takes(w'.db.batches[b].status)
  {
    if !step.Create? {
      StepKeepsRows(w, step, w');
      hide Next, RowsSound;
    }
  }

  /** Over every run: a batch that does not take files any more was closed at one step, with the status
      that its files called for right after that step; since then it has kept that status, or it was
      completed or partial and has expired.  So FAILED means that at that step some file had not expired
      and none was completed, PARTIAL that some file was completed and some was not. */
  lemma {:induction false} ClosingStep(run: seq<World>, steps: seq<Step>, b: nat, n: nat) returns (k: nat)
    requires IsRun(run, steps) && n < |run| && b in run[n].db.batches && !Takes(run[n].db.batches[b].status)
    ensures k < n && b in run[k].db.batches && Takes(run[k].db.batches[b].status)
    ensures b in run[k + 1].db.batches && ClosedAs(run[k + 1].db.files, b, run[k + 1].db.batches[b].status)
    ensures Stays(run[k + 1].db.batches[b].status, run[n].db.batches[b].status)
  {
    hide IsRun, ClosedAs, RowsSound, Agreement, Next, Moves;
    LengthOfRun(run, steps);
    NotClosedAtStart(run, steps, b);
    StepOfRun(run, steps, n);
    RunsAgree(run, steps, n - 1);
    var (w, w') := (run[n - 1], run[n]);
    if b !in w.db.batches {
      CreatedOpen(w, steps[n - 1], w', b);
    }
    StepMoves(w, steps[n - 1], w', b);
    MovesMeans(w'.db.files, b, w.db.batches[b].status, w'.db.batches[b].status);
    if Takes(w.db.batches[b].status) {
      k := n - 1;
    } else {
      k := ClosingStep(run, steps, b, n - 1);
    }
  }
}
