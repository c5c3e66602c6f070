/** The conversion tables as the services change them, statement by statement. */
module ConversionService {
  import opened Prelude
  import opened Conversions
  import opened BatchRollup
  import opened Admission
  import opened Eviction
  import opened Lifecycle

  /** Distinct batches in the order of their first file. */
  function BatchesOf(rows: Files): seq<nat> {
    if rows == [] then []
    else
      var front, last := BatchesOf(rows[..|rows| - 1]), rows[|rows| - 1].batchId;
      if last in front then front else front + [last]
  }

  lemma {:induction false} BatchesOfTouched(rows: Files, b: nat)
    ensures b in BatchesOf(rows) <==> Touched(rows, b)
  {
    if rows != [] {
      assert rows == rows[..|rows| - 1] + [rows[|rows| - 1]];
      BatchesOfTouched(rows[..|rows| - 1], b);
    }
  }

  lemma {:induction false} BatchesOfDistinct(rows: Files)
    ensures forall i, j :: 0 <= i < j < |BatchesOf(rows)| ==> BatchesOf(rows)[i] != BatchesOf(rows)[j]
  {
    if rows != [] {
      BatchesOfDistinct(rows[..|rows| - 1]);
    }
  }

  predicate AwaitsHead(f: FileRow, batchId: nat) {
    f.batchId == batchId && f.status == Uploading
  }

  function UploadOf(f: FileRow, batchId: nat, stored: map<nat, (nat, nat)>): FileRow {
    if AwaitsHead(f, batchId) && f.id in stored then Uploaded(f, stored[f.id].0, stored[f.id].1) else f
  }

  /** The uploading files of the batch among the first `n` whose object is stored, or is not. */
  ghost function UploadsIn(files: Files, n: nat, batchId: nat, ids: set<nat>, present: bool): set<nat>
    requires n <= |files|
  {
    set k: nat | k < n && AwaitsHead(files[k], batchId) && (files[k].id in ids) == present
  }

  lemma UploadsInNext(files: Files, n: nat, batchId: nat, ids: set<nat>, present: bool)
    requires n < |files|
    ensures |UploadsIn(files, n + 1, batchId, ids, present)|
         == |UploadsIn(files, n, batchId, ids, present)| + (if AwaitsHead(files[n], batchId) && (files[n].id in ids) == present then 1 else 0)
  {
    var counted := AwaitsHead(files[n], batchId) && (files[n].id in ids) == present;
    assert UploadsIn(files, n + 1, batchId, ids, present) == UploadsIn(files, n, batchId, ids, present) + if counted then {n} else {};
  }

  lemma UploadsInAll(files: Files, done: Files, batchId: nat, stored: map<nat, (nat, nat)>)
    requires |done| == |files| && forall k :: 0 <= k < |files| ==> done[k] == UploadOf(files[k], batchId, stored)
    ensures UploadsIn(files, |files|, batchId, stored.Keys, true)
         == set k: nat | k < |files| && files[k].batchId == batchId && files[k].status == Uploading && files[k].id in stored
    ensures UploadsIn(files, |files|, batchId, stored.Keys, false)
         == set k: nat | k < |done| && done[k].batchId == batchId && done[k].status == Uploading
  {
  }

  class ConversionTables {
    var files: Files
    var batches: Batches
    var usage: map<(nat, int), nat>
    var outbox: seq<OutboxRow>
    var nextOutboxId: nat

    constructor ()
      ensures Contents() == Db([], map[], map[], [], 0)
    {
      files, batches, usage, outbox, nextOutboxId := [], map[], map[], [], 0;
    }

    function Contents(): Db
      reads this
    {
      Db(files, batches, usage, outbox, nextOutboxId)
    }

    method Restore(db: Db)
      modifies this
      ensures Contents() == db
    {
      files, batches, usage, outbox, nextOutboxId := db.files, db.batches, db.usage, db.outbox, db.nextOutboxId;
    }

    method UpdateBatch(batchId: nat)
      requires batchId in batches
      modifies this`batches
      ensures batches == RollUp(files, old(batches), batchId)
    {
      var next, rolled := RollUpBatch(files, batchId, batches[batchId].status);
      batches := batches[batchId := batches[batchId].(status := next)];
    }

    /** Rolls up every batch that lost a file. */
    method RollUpEach(rows: Files)
      modifies this`batches
      ensures batches == RollTouched(files, old(batches), rows)
    {
      ghost var before := batches;
      var ids := BatchesOf(rows);
      BatchesOfDistinct(rows);
      for i := 0 to |ids|
        invariant batches.Keys == before.Keys
        invariant forall b :: b in batches ==>
          batches[b] == if b in ids[..i] then before[b].(status := Rolled(files, b, before[b].status)) else before[b]
      {
        assert ids[i] !in ids[..i];
        if ids[i] in batches {
          UpdateBatch(ids[i]);
        }
        assert forall b :: b in ids[..i + 1] <==> b in ids[..i] || b == ids[i];
      }
      assert ids[..|ids|] == ids;
      forall b: nat
        ensures b in ids <==> Touched(rows, b)
      {
        BatchesOfTouched(rows, b);
      }
    }

    /** The storage part of the transaction. */
    method MakeRoomFor(subject: nat, claimed: Files, storageBytes: Option<int>, now: int) returns (error: Option<AdmissionError>)
      modifies this`files, this`batches
      ensures var after := MakeRoom(old(Contents()), subject, claimed, storageBytes, now);
        match after
        case Ok(db) => error == None && Contents() == db
        case Err(e) => error == Some(e) && Contents() == old(Contents())
      ensures batches.Keys == old(batches).Keys
    {
      hide Candidates, Cut, ExpireRows, StorageUsed, Total, Rolled, Touched;
      if storageBytes.None? {
        return None;
      }
      var owned := OwnedBy(batches, subject);
      var deficit := StorageUsed(files, owned, now) + Total(claimed, Input) - storageBytes.value;
      if deficit > 0 {
        var candidates := Candidates(files, owned, now);
        var evicted, remaining := EvictUntilCovered(candidates, deficit);
        if remaining > 0 {
          return Some(StorageLimitExceeded);
        }
        files := ExpireRows(files, evicted, now);
        RollUpEach(evicted);
      }
      return None;
    }

    method ReserveDailyFor(subject: nat, count: nat, dailyFiles: Option<int>, now: int) returns (error: Option<AdmissionError>)
      modifies this`usage
      ensures match ReserveDaily(old(Contents()), subject, count, dailyFiles, now)
        case Ok(db) => error == None && Contents() == db
        case Err(e) => error == Some(e) && Contents() == old(Contents())
    {
      if dailyFiles.None? {
        return None;
      }
      if count > dailyFiles.value {
        return Some(DailyQuotaExceeded);
      }
      var key := (subject, DayOf(now));
      if key !in usage {
        usage := usage[key := count];
      } else if usage[key] + count <= dailyFiles.value {
        usage := usage[key := usage[key] + count];
      } else {
        return Some(DailyQuotaExceeded);
      }
      return None;
    }

    /** The admission of a batch.  An error rolls every table back. */
    method AdmitReadyFiles(batchId: nat, ownership: Ownership, snapshot: Snapshot, largeQueueBytes: int, now: int)
      returns (r: Result<nat, AdmissionError>)
      modifies this
      ensures match Admission.AdmitReadyFiles(old(Contents()), batchId, ownership, snapshot, largeQueueBytes, now)
        case Ok(admitted) => r == Ok(admitted.files) && Contents() == admitted.db
        case Err(e) => r == Err(e) && Contents() == old(Contents())
    {
      hide MakeRoom, ReserveDaily, QueueRows, Requests, Claimed, CheckOwnership;
      var refusal := CheckAdmittable(Contents(), batchId, ownership, snapshot, now);
      if refusal.Some? {
        return Err(refusal.value);
      }
      var before := Contents();
      var subject := batches[batchId].subject;
      var claimed := Claimed(files, batchId);
      if claimed == [] {
        return Ok(0);
      }
      var problem := FirstProblem(claimed, snapshot.maxFileBytes);
      if problem.Some? {
        return Err(problem.value);
      }
      var error := MakeRoomFor(subject, claimed, snapshot.storageBytes, now);
      if error.Some? {
        return Err(error.value);
      }
      error := ReserveDailyFor(subject, |claimed|, snapshot.dailyFiles, now);
      if error.Some? {
        Restore(before);
        return Err(error.value);
      }
      error := QueueClaimedFiles(batchId, claimed, snapshot, largeQueueBytes, now);
      if error.Some? {
        Restore(before);
        return Err(error.value);
      }
      return Ok(|claimed|);
    }

    /** The last statements of the transaction; they may stop half way, and then everything is rolled
        back. */
    method QueueClaimedFiles(batchId: nat, claimed: Files, snapshot: Snapshot, largeQueueBytes: int, now: int)
      returns (error: Option<AdmissionError>)
      requires batchId in batches
      modifies this
      ensures match QueueClaimed(old(Contents()), batchId, claimed, snapshot, largeQueueBytes, now)
        case Ok(db) => error == None && Contents() == db
        case Err(e) => error == Some(e)
    {
      var end := RetentionEnd(snapshot, now);
      files := QueueRows(files, claimed, end);
      if batches[batchId].status != BatchUploading && batches[batchId].status != BatchQueued {
        return Some(BatchNotAdmittable);
      }
      batches := batches[batchId := batches[batchId].(status := BatchQueued, expiresAt := end)];
      if !MappedTier(snapshot.queueTier) {
        return Some(UnmappedQueueTier);
      }
      outbox := outbox + Requests(claimed, nextOutboxId, snapshot, largeQueueBytes, now);
      nextOutboxId := nextOutboxId + |claimed|;
      return None;
    }

    /** Marks every file of the batch whose object is stored as ready, and counts those it verified. */
    method CompleteUploads(batchId: nat, stored: map<nat, (nat, nat)>) returns (verified: nat, missing: nat)
      modifies this`files
      ensures |files| == |old(files)|
      ensures forall k :: 0 <= k < |files| ==>
        var f := old(files)[k];
        files[k] == if f.batchId == batchId && f.status == Uploading && f.id in stored
                    then f.(status := Ready, inputBytes := Some(stored[f.id].0), inputEtag := Some(stored[f.id].1)) else f
      ensures verified == |set k: nat | k < |old(files)| && old(files)[k].batchId == batchId && old(files)[k].status == Uploading
                                        && old(files)[k].id in stored|
      ensures missing == |set k: nat | k < |files| && files[k].batchId == batchId && files[k].status == Uploading|
    {
      verified, missing := 0, 0;
      assert UploadsIn(files, 0, batchId, stored.Keys, true) == UploadsIn(files, 0, batchId, stored.Keys, false) == {};
      hide UploadsIn;
      var rows := files;
      var done: Files := [];
      for i := 0 to |rows|
        invariant |done| == i
        invariant forall k :: 0 <= k < i ==> done[k] == UploadOf(rows[k], batchId, stored)
        invariant verified == |UploadsIn(rows, i, batchId, stored.Keys, true)|
        invariant missing == |UploadsIn(rows, i, batchId, stored.Keys, false)|
      {
        var f := rows[i];
        UploadsInNext(rows, i, batchId, stored.Keys, true);
        UploadsInNext(rows, i, batchId, stored.Keys, false);
        if AwaitsHead(f, batchId) {
          if f.id in stored {
            verified := verified + 1;
            f := Uploaded(f, stored[f.id].0, stored[f.id].1);
          } else {
            missing := missing + 1;
          }
        }
        done := done + [f];
      }
      UploadsInAll(rows, done, batchId, stored);
      files := done;
    }

    /** A STARTED event: two separate statements. */
    method ApplyStarted(fileId: nat, batchId: nat, attempt: int) returns (started: bool)
      modifies this`files, this`batches
      ensures Contents() == (if started then StartBatch(StartFile(old(Contents()), fileId, batchId, attempt), batchId)
                             else StartFile(old(Contents()), fileId, batchId, attempt))
      ensures started <==> exists i :: 0 <= i < |old(files)| && MayStart(old(files)[i], fileId, batchId, attempt)
    {
      started := exists i :: 0 <= i < |files| && MayStart(files[i], fileId, batchId, attempt);
      files := UpdateWhere(files, (f: FileRow) => MayStart(f, fileId, batchId, attempt), (f: FileRow) => Started(f, attempt));
      if started && batchId in batches && batches[batchId].status == BatchQueued {
        batches := batches[batchId := batches[batchId].(status := BatchProcessing)];
      }
    }

    /** A RESULT event that passed its checks. */
    method ApplyResult(fileId: nat, batchId: nat, attempt: int, result: WorkerResult) returns (claimed: bool)
      requires batchId in batches
      modifies this`files, this`batches
      ensures Contents() == FinishFile(old(Contents()), fileId, batchId, attempt, result)
      ensures claimed <==> SomeMayFinish(old(files), fileId, batchId, attempt)
    {
      claimed := SomeMayFinish(files, fileId, batchId, attempt);
      if claimed {
        files := UpdateWhere(files, (f: FileRow) => MayFinish(f, fileId, batchId, attempt), (f: FileRow) => Finished(f, result));
        UpdateBatch(batchId);
      }
    }

    /** The sweep of the batches with overdue files and of overdue open batches. */
    method ExpireOverdueFiles(batchIds: seq<nat>, cutoff: int)
      requires forall b :: b in batchIds ==> b in batches
      modifies this`files, this`batches
      ensures Contents() == SweepAll(old(Contents()), batchIds, cutoff)
    {
      ghost var before := Contents();
      for i := 0 to |batchIds|
        invariant Contents() == SweepAll(before, batchIds[..i], cutoff) && batches.Keys == before.batches.Keys
      {
        assert batchIds[..i + 1][..i] == batchIds[..i];
        files := UpdateWhere(files, (f: FileRow) => Overdue(f, batchIds[i], cutoff), (f: FileRow) => f.(status := Expired));
        UpdateBatch(batchIds[i]);
      }
      assert batchIds[..|batchIds|] == batchIds;
    }
  }
}
