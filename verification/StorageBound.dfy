/** The storage cap over runs of the service
    (apps/conversion-api/src/app/admission/admission.service.ts).

    The cap is checked with input sizes, before the outputs are known.  An output may be larger than
    its input, so the cap itself can be exceeded, but only by the growth of completed files. */
module StorageBound {
  import opened Prelude
  import opened Conversions
  import opened BatchRollup
  import opened Admission
  import opened Eviction
  import opened Lifecycle
  import opened ConversionRuns
  import opened AdmissionEffect
  import opened BatchAgreement

  /** A counted file weighs its input, or its output where that is smaller. */
  function WeightOf(f: FileRow, owned: set<nat>, now: int): nat {
    if !Counts(f, owned, now) then 0
    else if f.status == Completed && Output(f) < Input(f) then Output(f)
    else Input(f)
  }

  /** What a completed file takes beyond its input. */
  function GrowthOf(f: FileRow, owned: set<nat>, now: int): nat {
    if Evictable(f, owned, now) && Output(f) > Input(f) then Output(f) - Input(f) else 0
  }

  function Weighs(owned: set<nat>, now: int): FileRow -> nat {
    (f: FileRow) => WeightOf(f, owned, now)
  }

  function Grows(owned: set<nat>, now: int): FileRow -> nat {
    (f: FileRow) => GrowthOf(f, owned, now)
  }

  function Weight(w: World, subject: nat): nat {
    Total(w.db.files, Weighs(OwnedBy(w.db.batches, subject), w.clock))
  }

  function Growth(w: World, subject: nat): nat {
    Total(w.db.files, Grows(OwnedBy(w.db.batches, subject), w.clock))
  }

  function UsedNow(w: World, subject: nat): nat {
    StorageUsed(w.db.files, OwnedBy(w.db.batches, subject), w.clock)
  }

  lemma UsedIsWeightAndGrowth(w: World, subject: nat)
    ensures UsedNow(w, subject) == Weight(w, subject) + Growth(w, subject)
  {
    var owned := OwnedBy(w.db.batches, subject);
    TotalSum(w.db.files, Weighs(owned, w.clock), Grows(owned, w.clock), Used(owned, w.clock));
  }

  // ----- steps that admit nothing for the subject -----

  ghost predicate Lighter(w: World, w': World, owned: set<nat>) {
    |w.db.files| == |w'.db.files|
    && forall i :: 0 <= i < |w.db.files| ==> WeightOf(w'.db.files[i], owned, w'.clock) <= WeightOf(w.db.files[i], owned, w.clock)
  }

  ghost predicate UsesLess(w: World, w': World, owned: set<nat>) {
    |w.db.files| == |w'.db.files|
    && forall i :: 0 <= i < |w.db.files| ==> UsedBytes(w'.db.files[i], owned, w'.clock) <= UsedBytes(w.db.files[i], owned, w.clock)
  }

  lemma LighterWeighsLess(w: World, w': World, subject: nat)
    requires SameRows(w.db, w'.db) && RowsSound(w.db)
    ensures Lighter(w, w', OwnedBy(w.db.batches, subject)) ==> Weight(w', subject) <= Weight(w, subject)
    ensures UsesLess(w, w', OwnedBy(w.db.batches, subject)) ==> UsedNow(w', subject) <= UsedNow(w, subject)
  {
    var owned := OwnedBy(w.db.batches, subject);
    SameRowsSound(w.db, w'.db);
    if Lighter(w, w', owned) {
      TotalMonotone(w'.db.files, w.db.files, Weighs(owned, w'.clock), Weighs(owned, w.clock));
    }
    if UsesLess(w, w', owned) {
      TotalMonotone(w'.db.files, w.db.files, Used(owned, w'.clock), Used(owned, w.clock));
    }
  }

  lemma OrdinaryStepIsLighter(w: World, step: Step, w': World, owned: set<nat>)
    requires Next(w, step, w') && !step.Create? && !step.Admit?
    ensures Lighter(w, w', owned)
    ensures !step.Finish? ==> UsesLess(w, w', owned)
  {
    hide Rolled;
  }

  lemma OtherAdmissionIsLighter(w: World, step: Step, w': World, subject: nat)
    requires RowsSound(w.db) && Next(w, step, w') && step.Admit? && !QueuesFor(w, step, subject)
    ensures Lighter(w, w', OwnedBy(w.db.batches, subject)) && UsesLess(w, w', OwnedBy(w.db.batches, subject))
  {
    if w'.db != w.db {
      var owned := OwnedBy(w.db.batches, subject);
      var evicted := AdmissionEffects(w.db, step.batchId, step.snapshot, step.largeQueueBytes, w.clock);
      var owner := OwnedBy(w.db.batches, w.db.batches[step.batchId].subject);
      forall i | 0 <= i < |w.db.files|
        ensures WeightOf(w'.db.files[i], owned, w.clock) <= WeightOf(w.db.files[i], owned, w.clock)
        ensures UsedBytes(w'.db.files[i], owned, w.clock) <= UsedBytes(w.db.files[i], owned, w.clock)
      {
        assert AdmitsRow(w.db.files[i], w'.db.files[i], step.batchId, owner, evicted, RetentionEnd(step.snapshot, w.clock), w.clock);
      }
    }
  }

  lemma NewFilesCountNothing(files: Files, more: Files, owned: set<nat>, owned': set<nat>, now: int)
    requires forall i :: 0 <= i < |more| ==> more[i].status == Uploading
    requires forall i :: 0 <= i < |files| ==> (files[i].batchId in owned' <==> files[i].batchId in owned)
    ensures Total(files + more, Weighs(owned', now)) == Total(files, Weighs(owned, now))
    ensures Total(files + more, Used(owned', now)) == Total(files, Used(owned, now))
  {
    TotalAppend(files, more, Weighs(owned', now));
    TotalZero(more, Weighs(owned', now));
    TotalEqual(files, files, Weighs(owned', now), Weighs(owned, now));
    TotalAppend(files, more, Used(owned', now));
    TotalZero(more, Used(owned', now));
    TotalEqual(files, files, Used(owned', now), Used(owned, now));
  }

  /** New files weigh nothing and use nothing. */
  lemma CreateKeepsTotals(w: World, step: Step, w': World, subject: nat)
    requires RowsSound(w.db) && Next(w, step, w') && step.Create?
    ensures Weight(w', subject) == Weight(w, subject) && UsedNow(w', subject) == UsedNow(w, subject)
  {
    if w'.db != w.db {
      var more := NewFiles(step.batchId, step.ids, w.clock + UPLOAD_WINDOW_MS);
      var owned, owned' := OwnedBy(w.db.batches, subject), OwnedBy(w'.db.batches, subject);
      forall b | b in w.db.batches
        ensures b in owned' <==> b in owned
      {
      }
      NewFilesCountNothing(w.db.files, more, owned, owned', w.clock);
    }
  }

  // ----- admissions of the subject -----

  lemma QueueingAdds(db: Db, db': Db, batchId: nat, snapshot: Snapshot, now: int, evicted: Files)
    requires DistinctIds(db.files) && batchId in db.batches && AdmissionOf(db, db', batchId, snapshot, now, evicted)
    ensures var owned := OwnedBy(db.batches, db.batches[batchId].subject);
      StorageUsed(db'.files, owned, now)
        <= StorageUsed(ExpireRows(db.files, evicted, now), owned, now) + Total(Claimed(db.files, batchId), Input)
  {
    hide RollTouched;
    var owned := OwnedBy(db.batches, db.batches[batchId].subject);
    var expired := ExpireRows(db.files, evicted, now);
    var incoming := (f: FileRow) => if Claimable(f, batchId) then Input(f) else 0;
    forall i | 0 <= i < |db.files|
      ensures UsedBytes(db'.files[i], owned, now) <= UsedBytes(expired[i], owned, now) + incoming(db.files[i])
    {
      assert AdmitsRow(db.files[i], db'.files[i], batchId, owned, evicted, RetentionEnd(snapshot, now), now);
    }
    TotalBound(db'.files, expired, db.files, Used(owned, now), Used(owned, now), incoming);
    ClaimedRows(db.files, batchId);
    TotalEqual(db.files, db.files, incoming, (f: FileRow) => if Claimable(f, batchId) then Input(f) else 0);
  }

  /** Right after an admission that queues files, the subject is within its cap. */
  lemma AdmissionFits(w: World, batchId: nat, snapshot: Snapshot, largeQueueBytes: int, cap: int)
    requires RowsSound(w.db) && batchId in w.db.batches && snapshot.storageBytes == Some(cap)
    requires AdmitTransaction(w.db, batchId, snapshot, largeQueueBytes, w.clock).Ok?
    requires AdmitTransaction(w.db, batchId, snapshot, largeQueueBytes, w.clock).value.files > 0
    ensures UsedNow(AfterAdmit(w, batchId, snapshot, largeQueueBytes), w.db.batches[batchId].subject) <= cap
  {
    var db' := AdmitTransaction(w.db, batchId, snapshot, largeQueueBytes, w.clock).value.db;
    var owned := OwnedBy(w.db.batches, w.db.batches[batchId].subject);
    var evicted := AdmissionEffects(w.db, batchId, snapshot, largeQueueBytes, w.clock);
    AdmitKeepsRows(w.db, db', batchId, snapshot, w.clock, evicted);
    SameRowsSound(w.db, db');
    ClaimedRows(w.db.files, batchId);
    QueueingAdds(w.db, db', batchId, snapshot, w.clock, evicted);
  }

  // ----- steps that complete a file -----

  /** The file counts for the subject, and what is used, less the input of the file, plus the output
      exceeds the cap. */
  predicate NoLongerFits(w: World, f: FileRow, outputBytes: nat, subject: nat, cap: int) {
    Counts(f, OwnedBy(w.db.batches, subject), w.clock) && UsedNow(w, subject) - Input(f) + outputBytes > cap
  }

  /** The step is a result that a file of the subject accepts, with an output that no longer fits. */
  predicate Outgrows(w: World, step: Step, subject: nat, cap: int) {
    && step.Finish? && step.result.Succeeded?
    && exists k ::
         && 0 <= k < |w.db.files|
         && MayFinish(w.db.files[k], step.fileId, step.batchId, step.attempt)
         && NoLongerFits(w, w.db.files[k], step.result.outputBytes, subject, cap)
  }

  /** A result changes one row. */
  lemma FinishOneRow(db: Db, fileId: nat, batchId: nat, attempt: int, result: WorkerResult) returns (k: nat)
    requires DistinctIds(db.files) && SomeMayFinish(db.files, fileId, batchId, attempt)
    ensures k < |db.files| && MayFinish(db.files[k], fileId, batchId, attempt)
    ensures FinishFile(db, fileId, batchId, attempt, result).files == db.files[k := Finished(db.files[k], result)]
    ensures forall i :: 0 <= i < |db.files| && MayFinish(db.files[i], fileId, batchId, attempt) ==> i == k
  {
    k :| 0 <= k < |db.files| && MayFinish(db.files[k], fileId, batchId, attempt);
    forall i | 0 <= i < |db.files| && MayFinish(db.files[i], fileId, batchId, attempt)
      ensures i == k
    {
      assert i < k || k < i || i == k;
    }
  }

  lemma FinishOutgrows(w: World, step: Step, w': World, subject: nat, cap: int)
    requires RowsSound(w.db) && Next(w, step, w') && step.Finish? && UsedNow(w, subject) <= cap
    ensures UsedNow(w', subject) > cap <==> Outgrows(w, step, subject, cap)
  {
    if SomeMayFinish(w.db.files, step.fileId, step.batchId, step.attempt) {
      var owned := OwnedBy(w.db.batches, subject);
      var k := FinishOneRow(w.db, step.fileId, step.batchId, step.attempt, step.result);
      StepKeepsRows(w, step, w');
      SameRowsSound(w.db, w'.db);
      TotalOneRow(w.db.files, k, w'.db.files[k], Used(owned, w.clock));
      hide FinishFile, RowsSound;
    }
  }

  /** A step takes a subject beyond its cap exactly when it completes one of its files with an output
      that no longer fits. */
  lemma ExceedsCapExactly(w: World, step: Step, w': World, subject: nat, cap: int)
    requires RowsSound(w.db) && Next(w, step, w') && UsedNow(w, subject) <= cap
    requires QueuesFor(w, step, subject) ==> step.snapshot.storageBytes == Some(cap)
    ensures UsedNow(w', subject) > cap <==> Outgrows(w, step, subject, cap)
  {
    if step.Create? {
      CreateKeepsTotals(w, step, w', subject);
    } else if QueuesFor(w, step, subject) {
      AdmissionFits(w, step.batchId, step.snapshot, step.largeQueueBytes, cap);
    } else if step.Finish? {
      FinishOutgrows(w, step, w', subject, cap);
    } else {
      StepKeepsRows(w, step, w');
      if step.Admit? {
        OtherAdmissionIsLighter(w, step, w', subject);
      } else {
        OrdinaryStepIsLighter(w, step, w', OwnedBy(w.db.batches, subject));
      }
      LighterWeighsLess(w, w', subject);
    }
  }

  // ----- runs -----

  /** The cap in force: that of the last admission that queued files for the subject, whatever plans
      there were before; `None` when that admission had no cap. */
  function CapAt(run: seq<World>, steps: seq<Step>, subject: nat, initial: nat, i: nat): Option<int>
    requires |run| == |steps| + 1 && i < |run|
  {
    if i == 0 then Some(initial)
    else if QueuesFor(run[i - 1], steps[i - 1], subject) then steps[i - 1].snapshot.storageBytes
    else CapAt(run, steps, subject, initial, i - 1)
  }

  /** Every admission of the subject happens under the same cap. */
  ghost predicate FixedCap(run: seq<World>, steps: seq<Step>, subject: nat, cap: int) {
    |run| == |steps| + 1
    && forall j :: 0 <= j < |steps| && AdmitsFor(run[j], steps[j], subject) ==> steps[j].snapshot.storageBytes == Some(cap)
  }

  lemma {:induction false} FixedCapInForce(run: seq<World>, steps: seq<Step>, subject: nat, cap: nat, i: nat)
    requires FixedCap(run, steps, subject, cap) && i < |run|
    ensures CapAt(run, steps, subject, cap, i) == Some(cap)
  {
    if i > 0 {
      FixedCapInForce(run, steps, subject, cap, i - 1);
    }
  }

  lemma StepKeepsWeight(w: World, step: Step, w': World, subject: nat, cap: int)
    requires RowsSound(w.db) && Next(w, step, w')
    requires if QueuesFor(w, step, subject) then step.snapshot.storageBytes == Some(cap) else Weight(w, subject) <= cap
    ensures Weight(w', subject) <= cap
  {
    if step.Create? {
      CreateKeepsTotals(w, step, w', subject);
    } else if QueuesFor(w, step, subject) {
      AdmissionFits(w, step.batchId, step.snapshot, step.largeQueueBytes, cap);
      UsedIsWeightAndGrowth(w', subject);
    } else {
      StepKeepsRows(w, step, w');
      if step.Admit? {
        OtherAdmissionIsLighter(w, step, w', subject);
      } else {
        OrdinaryStepIsLighter(w, step, w', OwnedBy(w.db.batches, subject));
      }
      LighterWeighsLess(w, w', subject);
    }
  }

  lemma WeightAtStart(run: seq<World>, steps: seq<Step>, subject: nat)
    requires IsRun(run, steps)
    ensures Weight(run[0], subject) == 0
  {
    hide Next;
  }

  lemma {:induction false} WeightStaysBelow(run: seq<World>, steps: seq<Step>, subject: nat, initial: nat, i: nat)
    requires IsRun(run, steps) && i < |run|
    ensures CapAt(run, steps, subject, initial, i).Some? ==> Weight(run[i], subject) <= CapAt(run, steps, subject, initial, i).value
  {
    if i == 0 {
      WeightAtStart(run, steps, subject);
    } else {
      hide Next, RowsSound, Agreement, Weight, QueuesFor, IsRun;
      StepOfRun(run, steps, i);
      WeightStaysBelow(run, steps, subject, initial, i - 1);
      RunsAgree(run, steps, i - 1);
      if CapAt(run, steps, subject, initial, i).Some? {
        StepKeepsWeight(run[i - 1], steps[i - 1], run[i], subject, CapAt(run, steps, subject, initial, i).value);
      }
    }
  }

  /** The storage invariant, whatever plans there are: in every reachable state a subject uses at most
      the cap of its last admission plus what its unexpired completed files take beyond their inputs. */
  lemma StorageInvariant(run: seq<World>, steps: seq<Step>, subject: nat, i: nat)
    requires IsRun(run, steps) && i < |run| && CapAt(run, steps, subject, 0, i).Some?
    ensures UsedNow(run[i], subject) <= CapAt(run, steps, subject, 0, i).value + Growth(run[i], subject)
  {
    WeightStaysBelow(run, steps, subject, 0, i);
    UsedIsWeightAndGrowth(run[i], subject);
  }

  /** Under one plan the cap is that plan's. */
  lemma StorageInvariantOfPlan(run: seq<World>, steps: seq<Step>, subject: nat, cap: nat, i: nat)
    requires IsRun(run, steps) && FixedCap(run, steps, subject, cap) && i < |run|
    ensures UsedNow(run[i], subject) <= cap + Growth(run[i], subject)
  {
    WeightStaysBelow(run, steps, subject, cap, i);
    FixedCapInForce(run, steps, subject, cap, i);
    UsedIsWeightAndGrowth(run[i], subject);
  }

  /** The subject is within the cap in force. */
  predicate WithinCap(run: seq<World>, steps: seq<Step>, subject: nat, initial: nat, i: nat)
    requires |run| == |steps| + 1 && i < |run|
  {
    var cap := CapAt(run, steps, subject, initial, i);
    cap.Some? ==> UsedNow(run[i], subject) <= cap.value
  }

  /** The step outgrows the cap in force. */
  predicate OutgrowsCap(run: seq<World>, steps: seq<Step>, subject: nat, initial: nat, i: nat)
    requires |run| == |steps| + 1 && i < |steps|
  {
    var cap := CapAt(run, steps, subject, initial, i);
    cap.Some? && Outgrows(run[i], steps[i], subject, cap.value)
  }

  lemma QueuedWithinCap(run: seq<World>, steps: seq<Step>, subject: nat, initial: nat, i: nat)
    requires IsRun(run, steps) && i < |steps| && QueuesFor(run[i], steps[i], subject)
    ensures WithinCap(run, steps, subject, initial, i + 1) && !OutgrowsCap(run, steps, subject, initial, i)
  {
    RunsAgree(run, steps, i);
    hide RowsSound, Agreement, UsedNow, AdmitTransaction;
    assert Next(run[i], steps[i], run[i + 1]);
    if steps[i].snapshot.storageBytes.Some? {
      AdmissionFits(run[i], steps[i].batchId, steps[i].snapshot, steps[i].largeQueueBytes, steps[i].snapshot.storageBytes.value);
    }
  }

  lemma StepWithinCap(run: seq<World>, steps: seq<Step>, subject: nat, initial: nat, i: nat)
    requires IsRun(run, steps) && i < |steps| && WithinCap(run, steps, subject, initial, i)
    ensures WithinCap(run, steps, subject, initial, i + 1) <==> !OutgrowsCap(run, steps, subject, initial, i)
  {
    if QueuesFor(run[i], steps[i], subject) {
      QueuedWithinCap(run, steps, subject, initial, i);
    } else if CapAt(run, steps, subject, initial, i).Some? {
      RunsAgree(run, steps, i);
      assert Next(run[i], steps[i], run[i + 1]);
      hide RowsSound, Agreement, UsedNow, QueuesFor, Next, Outgrows, Weight;
      ExceedsCapExactly(run[i], steps[i], run[i + 1], subject, CapAt(run, steps, subject, initial, i).value);
    }
  }

  lemma NothingUsedAtStart(run: seq<World>, steps: seq<Step>, subject: nat, initial: nat)
    requires IsRun(run, steps)
    ensures WithinCap(run, steps, subject, initial, 0)
  {
  }

  /** What holds at first and is lost only by a failure holds throughout iff nothing fails. */
  lemma {:induction false} FirstFailure(holds: seq<bool>, fails: seq<bool>, n: nat)
    requires |holds| == |fails| + 1 && n < |holds| && holds[0]
    requires forall i :: 0 <= i < |fails| && holds[i] ==> (holds[i + 1] <==> !fails[i])
    ensures (forall i :: 0 <= i <= n ==> holds[i]) <==> (forall i :: 0 <= i < n ==> !fails[i])
  {
    if n > 0 {
      FirstFailure(holds, fails, n - 1);
      assert holds[n - 1] ==> (holds[n] <==> !fails[n - 1]);
    }
  }

  /** The exact condition, whatever plans there are: a subject is within the cap in force at every index
      up to n if and only if no step before n completes one of its files with an output that no longer
      fits. */
  lemma WithinCapExactly(run: seq<World>, steps: seq<Step>, subject: nat, initial: nat, n: nat)
    requires IsRun(run, steps) && n < |run|
    ensures (forall i :: 0 <= i <= n ==> WithinCap(run, steps, subject, initial, i))
       <==> (forall i :: 0 <= i < n ==> !OutgrowsCap(run, steps, subject, initial, i))
  {
    hide *;
    LengthOfRun(run, steps);
    NothingUsedAtStart(run, steps, subject, initial);
    var holds := seq(n + 1, i requires 0 <= i < n + 1 => WithinCap(run, steps, subject, initial, i));
    var fails := seq(n, i requires 0 <= i < n => OutgrowsCap(run, steps, subject, initial, i));
    forall i | 0 <= i < n && holds[i]
      ensures holds[i + 1] <==> !fails[i]
    {
      StepWithinCap(run, steps, subject, initial, i);
    }
    FirstFailure(holds, fails, n);
    assert forall i :: 0 <= i <= n ==> holds[i] == WithinCap(run, steps, subject, initial, i);
    assert forall i :: 0 <= i < n ==> fails[i] == OutgrowsCap(run, steps, subject, initial, i);
  }

  /** Under one plan: usage is within the cap up to n if and only if no step before n outgrows it. */
  lemma WithinPlanExactly(run: seq<World>, steps: seq<Step>, subject: nat, cap: nat, n: nat)
    requires IsRun(run, steps) && FixedCap(run, steps, subject, cap) && n < |run|
    ensures (forall i :: 0 <= i <= n ==> UsedNow(run[i], subject) <= cap)
       <==> (forall i :: 0 <= i < n ==> !Outgrows(run[i], steps[i], subject, cap))
  {
    WithinCapExactly(run, steps, subject, cap, n);
    forall i | 0 <= i <= n
      ensures WithinCap(run, steps, subject, cap, i) <==> UsedNow(run[i], subject) <= cap
      ensures i < n ==> (OutgrowsCap(run, steps, subject, cap, i) <==> Outgrows(run[i], steps[i], subject, cap))
    {
      FixedCapInForce(run, steps, subject, cap, i);
    }
  }

  /** And at most its cap right after every admission that queued files for it. */
  lemma WithinCapAfterAdmission(run: seq<World>, steps: seq<Step>, i: nat, cap: int)
    requires IsRun(run, steps) && i < |steps| && steps[i].Admit? && steps[i].snapshot.storageBytes == Some(cap)
    requires run[i + 1].log != run[i].log
    ensures steps[i].batchId in run[i].db.batches
    ensures UsedNow(run[i + 1], run[i].db.batches[steps[i].batchId].subject) <= cap
  {
    RunsAgree(run, steps, i);
    assert Next(run[i], steps[i], run[i + 1]);
    AdmissionFits(run[i], steps[i].batchId, steps[i].snapshot, steps[i].largeQueueBytes, cap);
  }

  // ----- the cap itself is not a bound -----

  const CAP_PLAN := Snapshot(1, 100, Some(10), None, 1, 0)

  lemma SingleFile(f: FileRow, p: FileRow -> bool, before: (FileRow, FileRow) -> bool, m: FileRow -> nat)
    ensures Filter([f], p) == if p(f) then [f] else []
    ensures Sort([f], before) == [f] && Total([f], m) == m(f)
  {
    assert [f][..0] == [];
  }

  function ExampleFile(status: FileStatus, outputBytes: Option<nat>, attempt: int): FileRow {
    FileRow(7, 0, status, Some(10), Some(1), outputBytes, attempt, HOUR_MS)
  }

  lemma ExampleAdmission(db: Db, ready: FileRow)
    requires db.files == [ready] && ready == ExampleFile(Ready, None, 0).(expiresAt := UPLOAD_WINDOW_MS)
    requires 0 in db.batches && db.batches[0].status == BatchUploading
    ensures var r := AdmitTransaction(db, 0, CAP_PLAN, 0, 0);
      r.Ok? && r.value.files == 1 && r.value.db.files == [ExampleFile(Queued, None, 0)]
      && r.value.db.batches == db.batches[0 := db.batches[0].(status := BatchQueued, expiresAt := HOUR_MS)]
  {
    var owned := OwnedBy(db.batches, db.batches[0].subject);
    SingleFile(ready, (f: FileRow) => Claimable(f, 0), ById, Input);
    SingleFile(ready, (f: FileRow) => Claimable(f, 0), ById, Used(owned, 0));
    assert Claimed(db.files, 0) == [ready];
    assert FirstProblem([ready], 100).None?;
    assert Listed([ready], ready);
  }

  const EMPTY_WORLD := World(Db([], map[], map[], [], 0), 0, [], {})
  const EXAMPLE_BATCH := BatchRow(1, None, 0, 1, 0, BatchUploading, UPLOAD_WINDOW_MS)
  const EXAMPLE_REQUEST := NewBatch(1, None, 0, 1, 0)

  function CreatedWorld(): World {
    EMPTY_WORLD.(db := EMPTY_WORLD.db.(files := [NewFile(0, 7, UPLOAD_WINDOW_MS)], batches := map[0 := EXAMPLE_BATCH]))
  }

  function UploadedWorld(): World {
    CreatedWorld().(db := ReceiveUpload(CreatedWorld().db, 7, 10, 1))
  }

  function AdmittedWorld(): World {
    AfterAdmit(UploadedWorld(), 0, CAP_PLAN, 0)
  }

  function StartedWorld(): World {
    AdmittedWorld().(db := StartFile(AdmittedWorld().db, 7, 0, 1))
  }

  function FinishedWorld(): World {
    StartedWorld().(db := FinishFile(StartedWorld().db, 7, 0, 1, Succeeded(11)))
  }

  lemma ExampleCreation()
    ensures Next(EMPTY_WORLD, Create(EXAMPLE_REQUEST, Ownership(1, None), CAP_PLAN, 0, [7]), CreatedWorld())
  {
    assert NewFiles(0, [7], UPLOAD_WINDOW_MS) == [NewFile(0, 7, UPLOAD_WINDOW_MS)];
    assert CreateBatch(EMPTY_WORLD.db, EXAMPLE_REQUEST, Ownership(1, None), CAP_PLAN, 0, [7], 0, CreatedWorld().db, Created(0));
  }

  lemma ExampleRows()
    ensures FinishedWorld().db.files == [ExampleFile(Completed, Some(11), 1)]
    ensures FinishedWorld().clock == 0 && 0 in FinishedWorld().db.batches && FinishedWorld().db.batches[0].subject == 1
  {
    assert UploadedWorld().db.files == [ExampleFile(Ready, None, 0).(expiresAt := UPLOAD_WINDOW_MS)];
    ExampleAdmission(UploadedWorld().db, UploadedWorld().db.files[0]);
    hide AdmitTransaction, Rolled;
    assert AdmittedWorld().db.files == [ExampleFile(Queued, None, 0)];
    assert StartedWorld().db.files == [ExampleFile(Processing, None, 1)];
    assert MayFinish(StartedWorld().db.files[0], 7, 0, 1);
  }

  ghost predicate IsCappedRun(run: seq<World>, steps: seq<Step>) {
    IsRun(run, steps) && FixedCap(run, steps, 1, 10)
  }

  lemma LongerRun(run: seq<World>, steps: seq<Step>, step: Step, w': World)
    requires IsCappedRun(run, steps) && Next(run[|steps|], step, w')
    requires step.Admit? ==> step.snapshot == CAP_PLAN
    ensures IsCappedRun(run + [w'], steps + [step])
  {
    hide Next;
    forall j | 0 <= j < |steps + [step]| && AdmitsFor((run + [w'])[j], (steps + [step])[j], 1)
      ensures (steps + [step])[j].snapshot.storageBytes == Some(10)
    {
      assert j < |steps| ==> (run + [w'])[j] == run[j] && (steps + [step])[j] == steps[j];
    }
  }

  lemma ExampleSteps()
    ensures Next(CreatedWorld(), Upload(7, 10, 1), UploadedWorld())
    ensures Next(UploadedWorld(), Admit(0, CAP_PLAN, 0), AdmittedWorld())
    ensures Next(AdmittedWorld(), Start(7, 0, 1), StartedWorld())
    ensures Next(StartedWorld(), Finish(7, 0, 1, Succeeded(11)), FinishedWorld())
  {
    hide AfterAdmit, FinishFile, StartFile;
  }

  lemma ExampleUse()
    ensures UsedNow(FinishedWorld(), 1) == 11
  {
    hide FinishedWorld;
    ExampleRows();
    SingleFile(ExampleFile(Completed, Some(11), 1), (f: FileRow) => true, ById, Used(OwnedBy(FinishedWorld().db.batches, 1), 0));
  }

  lemma EmptyRun()
    ensures IsCappedRun([EMPTY_WORLD], [])
  {
  }

  lemma Extended(run: seq<World>, steps: seq<Step>, step: Step, w': World) returns (run': seq<World>, steps': seq<Step>)
    requires IsCappedRun(run, steps) && |run| == |steps| + 1 && Next(run[|steps|], step, w')
    requires step.Admit? ==> step.snapshot == CAP_PLAN
    ensures IsCappedRun(run', steps') && IsRun(run', steps') && FixedCap(run', steps', 1, 10)
    ensures |run'| == |steps'| + 1 && run'[|steps'|] == w'
  {
    run', steps' := run + [w'], steps + [step];
    LongerRun(run, steps, step, w');
  }

  /** A concrete run: a file of ten bytes is admitted under a cap of ten and its output takes eleven. */
  lemma CapAloneFails() returns (run: seq<World>, steps: seq<Step>)
    ensures IsRun(run, steps) && FixedCap(run, steps, 1, 10)
    ensures UsedNow(run[|steps|], 1) == 11
  {
    hide *;
    EmptyRun();
    ExampleCreation();
    ExampleSteps();
    ExampleUse();
    run, steps := [EMPTY_WORLD], [];
    run, steps := Extended(run, steps, Create(EXAMPLE_REQUEST, Ownership(1, None), CAP_PLAN, 0, [7]), CreatedWorld());
    run, steps := Extended(run, steps, Upload(7, 10, 1), UploadedWorld());
    run, steps := Extended(run, steps, Admit(0, CAP_PLAN, 0), AdmittedWorld());
    run, steps := Extended(run, steps, Start(7, 0, 1), StartedWorld());
    run, steps := Extended(run, steps, Finish(7, 0, 1, Succeeded(11)), FinishedWorld());
  }
}
