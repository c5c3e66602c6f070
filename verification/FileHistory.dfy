/** What may happen to one file over a run of the service
    (apps/conversion-api/src/app/events/worker-event-processor.service.ts and
    apps/conversion-api/src/app/lifecycle/retention.service.ts). */
module FileHistory {
  import opened Prelude
  import opened Conversions
  import opened BatchRollup
  import opened Admission
  import opened Lifecycle
  import opened ConversionRuns
  import opened AdmissionEffect
  import opened BatchAgreement

  /** A file keeps its measured input once it is uploaded and its expiry once it is queued, its attempt
      never falls, and once it is terminal nothing about its result changes any more, except that a
      completed file may expire. */
  predicate Follows(f: FileRow, f': FileRow) {
    && FileMoves(f, f')
    && (f.status != Uploading ==> f'.status != Uploading && f'.inputBytes == f.inputBytes && f'.inputEtag == f.inputEtag)
    && (f.status != Uploading && f.status != Ready ==>
         f'.status != Uploading && f'.status != Ready && (f'.status != Expired ==> f'.expiresAt == f.expiresAt))
    && f.attempt <= f'.attempt
    && (IsTerminal(f.status) ==> f'.outputBytes == f.outputBytes && f'.attempt == f.attempt)
  }

  lemma FollowsChain(a: FileRow, b: FileRow, c: FileRow)
    requires Follows(a, b) && Follows(b, c)
    ensures Follows(a, c)
  {
  }

  lemma OrdinaryStepFollows(w: World, step: Step, w': World, k: nat)
    requires Next(w, step, w') && !step.Create? && !step.Admit? && k < |w.db.files|
    ensures k < |w'.db.files| && Follows(w.db.files[k], w'.db.files[k])
  {
    hide Rolled;
  }

  lemma StepFollows(w: World, step: Step, w': World, k: nat)
    requires RowsSound(w.db) && Next(w, step, w') && k < |w.db.files|
    ensures k < |w'.db.files| && Follows(w.db.files[k], w'.db.files[k])
  {
    if step.Admit? {
      if w'.db != w.db {
        var evicted := AdmissionEffects(w.db, step.batchId, step.snapshot, step.largeQueueBytes, w.clock);
        assert AdmitsRow(w.db.files[k], w'.db.files[k], step.batchId, OwnedBy(w.db.batches, w.db.batches[step.batchId].subject), evicted,
                         RetentionEnd(step.snapshot, w.clock), w.clock);
      }
    } else if !step.Create? {
      OrdinaryStepFollows(w, step, w', k);
    }
  }

  lemma FollowsItself(f: FileRow)
    ensures Follows(f, f)
  {
  }

  /** Over every run: a file settles once.  Later results, restarts, sweeps and uploads change nothing
      about a terminal file, whatever order and however often the events arrive. */
  lemma {:induction false} FilesSettleOnce(run: seq<World>, steps: seq<Step>, i: nat, j: nat, k: nat)
    requires IsRun(run, steps) && i <= j < |run| && k < |run[i].db.files|
    ensures k < |run[j].db.files| && Follows(run[i].db.files[k], run[j].db.files[k])
    decreases j
  {
    hide Follows, RowsSound, Next, Agreement;
    if i < j {
      FilesSettleOnce(run, steps, i, j - 1, k);
      RunsAgree(run, steps, j - 1);
      assert Next(run[j - 1], steps[j - 1], run[j]);
      StepFollows(run[j - 1], steps[j - 1], run[j], k);
      FollowsChain(run[i].db.files[k], run[j - 1].db.files[k], run[j].db.files[k]);
    } else {
      FollowsItself(run[i].db.files[k]);
    }
  }

  lemma AdmissionCompletesNothing(w: World, step: Step, w': World, k: nat)
    requires RowsSound(w.db) && Next(w, step, w') && step.Admit? && k < |w.db.files| && k < |w'.db.files|
    ensures var (s, s') := (w.db.files[k].status, w'.db.files[k].status);
      s' == s || (s == Ready && s' == Queued) || (s == Completed && s' == Expired)
  {
    if w'.db != w.db {
      var evicted := AdmissionEffects(w.db, step.batchId, step.snapshot, step.largeQueueBytes, w.clock);
      assert AdmitsRow(w.db.files[k], w'.db.files[k], step.batchId, OwnedBy(w.db.batches, w.db.batches[step.batchId].subject), evicted,
                       RetentionEnd(step.snapshot, w.clock), w.clock);
    }
  }

  /** A file becomes completed or failed only by a result that names it and its batch, from its present
      attempt or a later one, while it is queued or processing; and it stores that result. */
  lemma ResultsAreAccepted(w: World, step: Step, w': World, k: nat)
    requires RowsSound(w.db) && Next(w, step, w') && k < |w.db.files| && k < |w'.db.files|
    requires w'.db.files[k].status != w.db.files[k].status
    requires w'.db.files[k].status == Completed || w'.db.files[k].status == Failed
    ensures step.Finish?
    ensures var f := w.db.files[k];
      && f.id == step.fileId && f.batchId == step.batchId && (f.status == Queued || f.status == Processing)
      && f.attempt <= step.attempt
    ensures if w'.db.files[k].status == Completed
            then step.result.Succeeded? && w'.db.files[k].outputBytes == Some(step.result.outputBytes)
            else step.result.GaveUp?
  {
    hide Rolled;
    if step.Admit? {
      AdmissionCompletesNothing(w, step, w', k);
    }
  }

  lemma EveryLooksAtBatch(files: Files, files': Files, b: nat, p: FileStatus -> bool)
    requires |files'| == |files|
    requires forall i :: 0 <= i < |files| ==> files'[i].batchId == files[i].batchId && (files[i].batchId == b ==> files'[i] == files[i])
    ensures Every(files', b, p) == Every(files, b, p)
  {
  }

  /** The roll-up looks at the files of its batch only. */
  lemma RolledLooksAtBatch(files: Files, files': Files, b: nat, status: BatchStatus)
    requires |files'| == |files|
    requires forall i :: 0 <= i < |files| ==> files'[i].batchId == files[i].batchId && (files[i].batchId == b ==> files'[i] == files[i])
    ensures Rolled(files', b, status) == Rolled(files, b, status)
  {
    hide Every;
    forall p: FileStatus -> bool
      ensures Every(files', b, p) == Every(files, b, p)
    {
      EveryLooksAtBatch(files, files', b, p);
    }
  }

  lemma RollingTwice(files: Files, b: nat, status: BatchStatus)
    ensures Rolled(files, b, Rolled(files, b, status)) == Rolled(files, b, status)
  {
    hide Outcome;
  }

  /** A stored or awaited file of a listed batch whose time has come. */
  predicate Swept(f: FileRow, batchIds: seq<nat>, cutoff: int) {
    && f.batchId in batchIds && f.expiresAt <= cutoff
    && (f.status == Uploading || f.status == Ready || f.status == Queued || f.status == Processing || f.status == Completed)
  }

  lemma SweepOneMore(db: Db, front: seq<nat>, last: nat, cutoff: int)
    requires var before := SweepAll(db, front, cutoff);
      && |before.files| == |db.files|
      && (forall k :: 0 <= k < |db.files| ==>
           before.files[k] == if Swept(db.files[k], front, cutoff) then db.files[k].(status := Expired) else db.files[k])
      && before.batches == (map b | b in db.batches ::
           if b in front then db.batches[b].(status := Rolled(before.files, b, db.batches[b].status)) else db.batches[b])
    ensures var db' := SweepBatch(SweepAll(db, front, cutoff), last, cutoff);
      && |db'.files| == |db.files|
      && (forall k :: 0 <= k < |db.files| ==>
           db'.files[k] == if Swept(db.files[k], front + [last], cutoff) then db.files[k].(status := Expired) else db.files[k])
      && db'.batches == (map b | b in db.batches ::
           if b in front + [last] then db.batches[b].(status := Rolled(db'.files, b, db.batches[b].status)) else db.batches[b])
  {
    hide Rolled, SweepAll;
    var before := SweepAll(db, front, cutoff);
    var db' := SweepBatch(before, last, cutoff);
    forall b | b in db.batches
      ensures b != last || b in front ==> Rolled(db'.files, b, db.batches[b].status) == Rolled(before.files, b, db.batches[b].status)
    {
      if b != last || b in front {
        RolledLooksAtBatch(before.files, db'.files, b, db.batches[b].status);
      }
    }
    if last in db.batches && last in front {
      RollingTwice(db'.files, last, db.batches[last].status);
    }
  }

  /** The whole sweep is exact: the overdue live files of the listed batches expire and no other file
      changes, and every listed batch is rolled up over the final files, whatever the order of the list. */
  lemma {:induction false} SweepAllIsExact(db: Db, batchIds: seq<nat>, cutoff: int)
    ensures var db' := SweepAll(db, batchIds, cutoff);
      && |db'.files| == |db.files|
      && (forall k :: 0 <= k < |db.files| ==>
           db'.files[k] == if Swept(db.files[k], batchIds, cutoff) then db.files[k].(status := Expired) else db.files[k])
      && db'.batches == (map b | b in db.batches ::
           if b in batchIds then db.batches[b].(status := Rolled(db'.files, b, db.batches[b].status)) else db.batches[b])
  {
    if batchIds != [] {
      var front, last := batchIds[..|batchIds| - 1], batchIds[|batchIds| - 1];
      assert batchIds == front + [last];
      SweepAllIsExact(db, front, cutoff);
      SweepOneMore(db, front, last, cutoff);
    }
  }
}
