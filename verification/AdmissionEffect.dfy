/** What a successful admission does, row by row
    (apps/conversion-api/src/app/admission/admission.service.ts). */
module AdmissionEffect {
  import opened Prelude
  import opened Conversions
  import opened BatchRollup
  import opened Admission
  import opened Eviction
  import opened ConversionRuns

  /** The files claimed are the ready files of the batch, each once. */
  lemma ClaimedRows(files: Files, batchId: nat)
    requires DistinctIds(files)
    ensures DistinctIds(Claimed(files, batchId))
    ensures forall f :: f in Claimed(files, batchId) <==> f in files && Claimable(f, batchId)
    ensures Total(Claimed(files, batchId), Input)
         == Total(files, (f: FileRow) => if Claimable(f, batchId) then Input(f) else 0)
  {
    var p := (f: FileRow) => Claimable(f, batchId);
    FilterKeepsDistinct(files, p);
    SortKeepsDistinct(Filter(files, p), ById);
    SortTotal(Filter(files, p), ById, Input);
    TotalFilter(files, p, Input, (f: FileRow) => if Claimable(f, batchId) then Input(f) else 0);
    forall f
      ensures f in Claimed(files, batchId) <==> f in files && Claimable(f, batchId)
    {
      FilterMembers(files, p, f);
    }
  }

  lemma {:induction false} NoProblems(claimed: Files, maxFileBytes: int, c: FileRow)
    requires FirstProblem(claimed, maxFileBytes).None? && c in claimed
    ensures c.inputBytes.Some? && c.inputEtag.Some? && c.inputBytes.value <= maxFileBytes
  {
    if c != claimed[0] {
      assert claimed == [claimed[0]] + claimed[1..];
      NoProblems(claimed[1..], maxFileBytes, c);
    }
  }

  /** Only measured files within the size limit are admitted. */
  lemma AdmittedAreMeasured(db: Db, batchId: nat, snapshot: Snapshot, largeQueueBytes: int, now: int)
    requires batchId in db.batches
    requires AdmitTransaction(db, batchId, snapshot, largeQueueBytes, now).Ok?
    requires AdmitTransaction(db, batchId, snapshot, largeQueueBytes, now).value.files > 0
    ensures forall c :: c in Claimed(db.files, batchId) ==>
      c.inputBytes.Some? && c.inputEtag.Some? && c.inputBytes.value <= snapshot.maxFileBytes
  {
    var roomy, reserved := AdmitParts(db, batchId, snapshot, largeQueueBytes, now);
    hide AdmitTransaction, Claimed, FirstProblem;
    forall c | c in Claimed(db.files, batchId)
      ensures c.inputBytes.Some? && c.inputEtag.Some? && c.inputBytes.value <= snapshot.maxFileBytes
    {
      NoProblems(Claimed(db.files, batchId), snapshot.maxFileBytes, c);
    }
  }

  /** Claimed rows are queued, evicted rows expire, every other row stays as it is. */
  ghost predicate AdmitsRow(f: FileRow, f': FileRow, batchId: nat, owned: set<nat>, evicted: Files, end: int, now: int) {
    if Claimable(f, batchId) then f' == QueueRow(f, end)
    else if Listed(evicted, f) then Evictable(f, owned, now) && f' == ExpireRow(f, now)
    else f' == f
  }

  ghost predicate AdmissionOf(db: Db, db': Db, batchId: nat, snapshot: Snapshot, now: int, evicted: Files)
    requires batchId in db.batches
  {
    var owned := OwnedBy(db.batches, db.batches[batchId].subject);
    var end := RetentionEnd(snapshot, now);
    var rolled := RollTouched(ExpireRows(db.files, evicted, now), db.batches, evicted);
    && |db'.files| == |db.files|
    && (forall i :: 0 <= i < |db.files| ==> AdmitsRow(db.files[i], db'.files[i], batchId, owned, evicted, end, now))
    && (forall r :: r in evicted ==> r in db.files && Evictable(r, owned, now))
    && DistinctIds(evicted)
    && batchId in rolled && (rolled[batchId].status == BatchUploading || rolled[batchId].status == BatchQueued)
    && db'.batches == rolled[batchId := rolled[batchId].(status := BatchQueued, expiresAt := end)]
  }

  lemma QueuedRows(files: Files, batchId: nat, evicted: Files, owned: set<nat>, end: int, now: int)
    requires DistinctIds(files) && forall r :: r in evicted ==> r in files && Evictable(r, owned, now)
    ensures var after := QueueRows(ExpireRows(files, evicted, now), Claimed(files, batchId), end);
      |after| == |files| && forall i :: 0 <= i < |files| ==> AdmitsRow(files[i], after[i], batchId, owned, evicted, end, now)
  {
    var claimed := Claimed(files, batchId);
    ClaimedRows(files, batchId);
    forall i | 0 <= i < |files|
      ensures AdmitsRow(files[i], QueueRows(ExpireRows(files, evicted, now), claimed, end)[i], batchId, owned, evicted, end, now)
    {
      hide Claimed, DistinctIds;
      if Listed(claimed, files[i]) {
        var c :| c in claimed && c.id == files[i].id;
        SameRow(files, files[i], c);
      }
      if Listed(evicted, files[i]) {
        var r :| r in evicted && r.id == files[i].id;
        SameRow(files, files[i], r);
      }
    }
  }

  /** Making room expires some evictable files and leaves everything else of the files alone. */
  lemma RoomEffects(db: Db, subject: nat, claimed: Files, storageBytes: Option<int>, now: int) returns (evicted: Files)
    requires DistinctIds(db.files) && MakeRoom(db, subject, claimed, storageBytes, now).Ok?
    ensures var (roomy, owned) := (MakeRoom(db, subject, claimed, storageBytes, now).value, OwnedBy(db.batches, subject));
      && roomy.files == ExpireRows(db.files, evicted, now)
      && roomy.batches == RollTouched(roomy.files, db.batches, evicted)
      && (forall r :: r in evicted ==> r in db.files && Evictable(r, owned, now))
      && DistinctIds(evicted)
      && (storageBytes.Some? ==> StorageUsed(roomy.files, owned, now) + Total(claimed, Input) <= storageBytes.value)
  {
    if storageBytes.Some? {
      evicted := EvictionIsShortest(db, subject, claimed, storageBytes.value, now);
    } else {
      evicted := [];
      NothingEvicted(db, now);
    }
  }

  lemma CollectEffects(db: Db, db': Db, roomy: Db, batchId: nat, snapshot: Snapshot, now: int, evicted: Files)
    requires batchId in db.batches && batchId in roomy.batches
    requires var (owned, end) := (OwnedBy(db.batches, db.batches[batchId].subject), RetentionEnd(snapshot, now));
      && roomy.files == ExpireRows(db.files, evicted, now) && roomy.batches == RollTouched(roomy.files, db.batches, evicted)
      && |db'.files| == |db.files|
      && (forall i :: 0 <= i < |db.files| ==> AdmitsRow(db.files[i], db'.files[i], batchId, owned, evicted, end, now))
      && (forall r :: r in evicted ==> r in db.files && Evictable(r, owned, now))
      && DistinctIds(evicted)
      && (roomy.batches[batchId].status == BatchUploading || roomy.batches[batchId].status == BatchQueued)
      && db'.batches == roomy.batches[batchId := roomy.batches[batchId].(status := BatchQueued, expiresAt := end)]
    ensures AdmissionOf(db, db', batchId, snapshot, now, evicted)
  {
  }

  /** The effect of an admission that queues files. */
  lemma AdmissionEffects(db: Db, batchId: nat, snapshot: Snapshot, largeQueueBytes: int, now: int) returns (evicted: Files)
    requires DistinctIds(db.files) && batchId in db.batches
    requires AdmitTransaction(db, batchId, snapshot, largeQueueBytes, now).Ok?
    requires AdmitTransaction(db, batchId, snapshot, largeQueueBytes, now).value.files > 0
    ensures AdmissionOf(db, AdmitTransaction(db, batchId, snapshot, largeQueueBytes, now).value.db, batchId, snapshot, now, evicted)
    ensures var owned := OwnedBy(db.batches, db.batches[batchId].subject);
      snapshot.storageBytes.Some? ==>
        StorageUsed(ExpireRows(db.files, evicted, now), owned, now) + Total(Claimed(db.files, batchId), Input) <= snapshot.storageBytes.value
  {
    var roomy, reserved := AdmitParts(db, batchId, snapshot, largeQueueBytes, now);
    var subject := db.batches[batchId].subject;
    var claimed := Claimed(db.files, batchId);
    var owned, end := OwnedBy(db.batches, subject), RetentionEnd(snapshot, now);
    var db' := AdmitTransaction(db, batchId, snapshot, largeQueueBytes, now).value.db;
    assert reserved.files == roomy.files && reserved.batches == roomy.batches;
    assert db'.files == QueueRows(roomy.files, claimed, end);
    assert roomy.batches[batchId].status == BatchUploading || roomy.batches[batchId].status == BatchQueued;
    assert db'.batches == roomy.batches[batchId := roomy.batches[batchId].(status := BatchQueued, expiresAt := end)];
    hide *;
    evicted := RoomEffects(db, subject, claimed, snapshot.storageBytes, now);
    QueuedRows(db.files, batchId, evicted, owned, end, now);
    CollectEffects(db, db', roomy, batchId, snapshot, now, evicted);
  }
}
