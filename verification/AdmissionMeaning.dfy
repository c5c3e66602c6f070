/** When an admission succeeds, and with which error it fails otherwise, spelled out on the rows
    (apps/conversion-api/src/app/admission/admission.service.ts). */
module AdmissionMeaning {
  import opened Prelude
  import opened Conversions
  import opened BatchRollup
  import opened Admission
  import opened Eviction
  import opened Lifecycle
  import opened AdmissionEffect

  // ----- who may ask -----

  /** The batch is the subject's own, and its token, if it has one, is the one presented. */
  predicate IsOwner(batch: BatchRow, ownership: Ownership) {
    batch.subject == ownership.subject && (batch.tokenHash == None || ownership.tokenHash == batch.tokenHash)
  }

  predicate TakesFiles(batch: BatchRow) {
    batch.status == BatchUploading || batch.status == BatchQueued
  }

  /** The checks before the transaction, in order: every request that is let through comes from the owner
      of an unexpired batch that takes files, under a retention that has a class; any other gets the
      error of the first check that fails. */
  lemma ChecksExactly(db: Db, batchId: nat, ownership: Ownership, snapshot: Snapshot, largeQueueBytes: int, now: int)
    ensures var reply := AdmitReadyFiles(db, batchId, ownership, snapshot, largeQueueBytes, now);
      if snapshot.outputRetentionHours !in {1, 48, 96, 168} then reply == Err(UnmappedRetention)
      else if batchId !in db.batches || !IsOwner(db.batches[batchId], ownership) then reply == Err(BatchNotFound)
      else if !TakesFiles(db.batches[batchId]) || db.batches[batchId].expiresAt <= now then reply == Err(BatchNotAdmittable)
      else reply == AdmitTransaction(db, batchId, snapshot, largeQueueBytes, now)
  {
    hide AdmitTransaction;
  }

  /** A creation is answered with an existing batch exactly for its owner, with the same number of files
      and options; somebody else's token, or other parameters, are refused. */
  lemma ReplayExactly(batch: BatchRow, batchId: nat, input: NewBatch, ownership: Ownership)
    ensures var reply := ReplayOf(batch, batchId, input, ownership);
      if batch.subject != ownership.subject then reply == Refused(BatchNotFound)
      else if !IsOwner(batch, ownership) then reply == Refused(BatchTokenMismatch)
      else if batch.fileCount != input.fileCount || batch.options != input.options then reply == Refused(IdempotencyConflict)
      else reply == Replayed(batchId)
  {
  }

  // ----- when the transaction succeeds -----

  predicate IsReady(f: FileRow, batchId: nat) {
    f.batchId == batchId && f.status == Ready
  }

  predicate FitsPlan(f: FileRow, maxFileBytes: int) {
    f.inputBytes.Some? && f.inputEtag.Some? && f.inputBytes.value <= maxFileBytes
  }

  ghost predicate AllFit(files: Files, batchId: nat, maxFileBytes: int) {
    forall f :: f in files && IsReady(f, batchId) ==> FitsPlan(f, maxFileBytes)
  }

  function MisfitError(f: FileRow): AdmissionError {
    if f.inputBytes == None || f.inputEtag == None then FileNotMeasured else FileTooLarge
  }

  /** The ready file with the least identifier that is not measured or too large. */
  ghost predicate FirstMisfit(files: Files, batchId: nat, maxFileBytes: int, f: FileRow) {
    && f in files && IsReady(f, batchId) && !FitsPlan(f, maxFileBytes)
    && forall g :: g in files && IsReady(g, batchId) && !FitsPlan(g, maxFileBytes) ==> f.id <= g.id
  }

  predicate OwnedFile(f: FileRow, batches: Batches, subject: nat) {
    f.batchId in batches && batches[f.batchId].subject == subject
  }

  /** What an unexpired file of the subject takes: its input while it is converted, its output after. */
  function Takes(f: FileRow, batches: Batches, subject: nat, now: int): nat {
    if !OwnedFile(f, batches, subject) || f.expiresAt <= now then 0
    else if f.status == Queued || f.status == Processing then (if f.inputBytes.Some? then f.inputBytes.value else 0)
    else if f.status == Completed then (if f.outputBytes.Some? then f.outputBytes.value else 0)
    else 0
  }

  /** What an eviction of the file would free. */
  function Frees(f: FileRow, batches: Batches, subject: nat, now: int): nat {
    if OwnedFile(f, batches, subject) && now < f.expiresAt && f.status == Completed && f.outputBytes.Some?
    then f.outputBytes.value else 0
  }

  function Asks(f: FileRow, batchId: nat): nat {
    if IsReady(f, batchId) && f.inputBytes.Some? then f.inputBytes.value else 0
  }

  function Counts(f: FileRow, batchId: nat): nat {
    if IsReady(f, batchId) then 1 else 0
  }

  /** Even after every eviction that is possible, the ready files would exceed the cap. */
  ghost predicate NoRoom(db: Db, batchId: nat, cap: int, now: int)
    requires batchId in db.batches
  {
    var (batches, subject) := (db.batches, db.batches[batchId].subject);
    Total(db.files, (f: FileRow) => Takes(f, batches, subject, now)) + Total(db.files, (f: FileRow) => Asks(f, batchId))
      - Total(db.files, (f: FileRow) => Frees(f, batches, subject, now)) > cap
  }

  /** The files of the subject admitted so far on the day, and the ready ones, exceed the quota. */
  ghost predicate OverQuota(db: Db, batchId: nat, dailyFiles: int, now: int)
    requires batchId in db.batches
  {
    var key := (db.batches[batchId].subject, now / 86_400_000);
    (if key in db.usage then db.usage[key] else 0) + Total(db.files, (f: FileRow) => Counts(f, batchId)) > dailyFiles
  }

  /** The first problem that the transaction meets, if any. */
  ghost predicate Fails(db: Db, batchId: nat, snapshot: Snapshot, now: int, error: AdmissionError)
    requires batchId in db.batches
  {
    if !AllFit(db.files, batchId, snapshot.maxFileBytes) then
      exists f :: FirstMisfit(db.files, batchId, snapshot.maxFileBytes, f) && error == MisfitError(f)
    else if snapshot.storageBytes.Some? && NoRoom(db, batchId, snapshot.storageBytes.value, now) then error == StorageLimitExceeded
    else if snapshot.dailyFiles.Some? && OverQuota(db, batchId, snapshot.dailyFiles.value, now) then error == DailyQuotaExceeded
    else if !TakesFiles(db.batches[batchId]) then error == BatchNotAdmittable
    else error == UnmappedQueueTier && !(0 <= snapshot.queueTier <= 3)
  }

  ghost predicate SomethingReady(files: Files, batchId: nat) {
    exists f :: f in files && IsReady(f, batchId)
  }

  /** Nothing stands in the way. */
  ghost predicate Succeeds(db: Db, batchId: nat, snapshot: Snapshot, now: int)
    requires batchId in db.batches
  {
    && AllFit(db.files, batchId, snapshot.maxFileBytes)
    && (snapshot.storageBytes.Some? ==> !NoRoom(db, batchId, snapshot.storageBytes.value, now))
    && (snapshot.dailyFiles.Some? ==> !OverQuota(db, batchId, snapshot.dailyFiles.value, now))
    && TakesFiles(db.batches[batchId])
    && 0 <= snapshot.queueTier <= 3
  }

  lemma {:induction false} ProblemAt(claimed: Files, maxFileBytes: int) returns (k: nat)
    ensures k <= |claimed| && forall i :: 0 <= i < k ==> FitsPlan(claimed[i], maxFileBytes)
    ensures k < |claimed| ==> !FitsPlan(claimed[k], maxFileBytes)
    ensures k < |claimed| ==> FirstProblem(claimed, maxFileBytes) == Some(MisfitError(claimed[k]))
    ensures k == |claimed| ==> FirstProblem(claimed, maxFileBytes) == None
  {
    if claimed == [] || Problem(claimed[0], maxFileBytes).Some? {
      k := 0;
    } else {
      var rest := ProblemAt(claimed[1..], maxFileBytes);
      k := rest + 1;
      assert forall i :: 0 < i < k ==> claimed[i] == claimed[1..][i - 1];
    }
  }

  lemma ClaimedById(files: Files, batchId: nat)
    requires DistinctIds(files)
    ensures forall i, j :: 0 <= i < j < |Claimed(files, batchId)| ==> Claimed(files, batchId)[i].id <= Claimed(files, batchId)[j].id
  {
    OrdersOfRows();
    SortSorts(Filter(files, (f: FileRow) => Claimable(f, batchId)), ById);
  }

  /** The ready files, checked by ascending identifier. */
  lemma ProblemExactly(files: Files, batchId: nat, maxFileBytes: int)
    requires DistinctIds(files)
    ensures var problem := FirstProblem(Claimed(files, batchId), maxFileBytes);
      if AllFit(files, batchId, maxFileBytes) then problem == None
      else exists f :: FirstMisfit(files, batchId, maxFileBytes, f) && problem == Some(MisfitError(f))
  {
    var claimed := Claimed(files, batchId);
    ClaimedRows(files, batchId);
    ClaimedById(files, batchId);
    hide Claimed, FirstProblem, FitsPlan;
    var k := ProblemAt(claimed, maxFileBytes);
    if k < |claimed| {
      var f := claimed[k];
      assert f in claimed;
      forall g | g in files && IsReady(g, batchId) && !FitsPlan(g, maxFileBytes)
        ensures f.id <= g.id
      {
        assert g in claimed;
        var i :| 0 <= i < |claimed| && claimed[i] == g;
      }
      assert FirstMisfit(files, batchId, maxFileBytes, f);
    }
  }

  lemma ClaimedBytes(files: Files, batchId: nat)
    requires DistinctIds(files)
    ensures Total(Claimed(files, batchId), Input) == Total(files, (f: FileRow) => Asks(f, batchId))
  {
    ClaimedRows(files, batchId);
    hide Claimed;
    TotalEqual(files, files, (f: FileRow) => if Claimable(f, batchId) then Input(f) else 0, (f: FileRow) => Asks(f, batchId));
  }

  lemma {:induction false} InsertLength(files: Files, f: FileRow, before: (FileRow, FileRow) -> bool)
    ensures |Insert(files, f, before)| == |files| + 1
  {
    if files != [] && !before(files[|files| - 1], f) {
      InsertLength(files[..|files| - 1], f, before);
    }
  }

  lemma {:induction false} SortLength(files: Files, before: (FileRow, FileRow) -> bool)
    ensures |Sort(files, before)| == |files|
  {
    if files != [] {
      SortLength(files[..|files| - 1], before);
      InsertLength(Sort(files[..|files| - 1], before), files[|files| - 1], before);
    }
  }

  lemma {:induction false} FilterLength(files: Files, p: FileRow -> bool, m: FileRow -> nat)
    requires forall f :: m(f) == if p(f) then 1 else 0
    ensures |Filter(files, p)| == Total(files, m)
  {
    if files != [] {
      FilterLength(files[..|files| - 1], p, m);
    }
  }

  /** The number of files claimed. */
  lemma ClaimedCount(files: Files, batchId: nat)
    ensures |Claimed(files, batchId)| == Total(files, (f: FileRow) => Counts(f, batchId))
  {
    var p := (f: FileRow) => Claimable(f, batchId);
    SortLength(Filter(files, p), ById);
    FilterLength(files, p, (f: FileRow) => Counts(f, batchId));
  }

  lemma SomethingClaimed(files: Files, batchId: nat)
    requires DistinctIds(files)
    ensures Claimed(files, batchId) != [] <==> SomethingReady(files, batchId)
  {
    ClaimedRows(files, batchId);
    hide Claimed;
    if Claimed(files, batchId) != [] {
      assert Claimed(files, batchId)[0] in Claimed(files, batchId);
    }
  }

  lemma RoomExactly(db: Db, batchId: nat, cap: int, now: int)
    requires DistinctIds(db.files) && batchId in db.batches
    ensures NoRoom(db, batchId, cap, now) <==>
      MakeRoom(db, db.batches[batchId].subject, Claimed(db.files, batchId), Some(cap), now) == Err(StorageLimitExceeded)
  {
    var (batches, subject) := (db.batches, db.batches[batchId].subject);
    var owned := OwnedBy(batches, subject);
    EvictionFailsExactly(db, subject, Claimed(db.files, batchId), cap, now);
    ClaimedBytes(db.files, batchId);
    TotalEqual(db.files, db.files, Used(owned, now), (f: FileRow) => Takes(f, batches, subject, now));
    TotalEqual(db.files, db.files, EvictableBytes(owned, now), (f: FileRow) => Frees(f, batches, subject, now));
    hide MakeRoom, Claimed;
  }

  /** Evicting completed files rolls other batches up, but not one with a ready file. */
  lemma ReadyBatchStays(db: Db, batchId: nat, storageBytes: Option<int>, now: int)
    requires DistinctIds(db.files) && batchId in db.batches && SomethingReady(db.files, batchId)
    requires MakeRoom(db, db.batches[batchId].subject, Claimed(db.files, batchId), storageBytes, now).Ok?
    ensures var roomy := MakeRoom(db, db.batches[batchId].subject, Claimed(db.files, batchId), storageBytes, now).value;
      batchId in roomy.batches && roomy.batches[batchId].status == db.batches[batchId].status && roomy.usage == db.usage
  {
    var subject, claimed := db.batches[batchId].subject, Claimed(db.files, batchId);
    var roomy := MakeRoom(db, subject, claimed, storageBytes, now).value;
    assert roomy.usage == db.usage;
    var evicted := RoomEffects(db, subject, claimed, storageBytes, now);
    hide MakeRoom, Claimed;
    var f :| f in db.files && IsReady(f, batchId);
    var i :| 0 <= i < |db.files| && db.files[i] == f;
    assert roomy.files[i] == f by {
      if Listed(evicted, f) {
        var g :| g in evicted && g.id == f.id;
        SameRow(db.files, f, g);
      }
    }
    assert !IsTerminal(roomy.files[i].status);
  }

  lemma RoomError(db: Db, subject: nat, claimed: Files, storageBytes: Option<int>, now: int)
    ensures storageBytes.None? ==> MakeRoom(db, subject, claimed, storageBytes, now) == Ok(db)
    ensures MakeRoom(db, subject, claimed, storageBytes, now).Err? ==>
      MakeRoom(db, subject, claimed, storageBytes, now) == Err(StorageLimitExceeded)
  {
  }

  /** The transaction, both ways and with its error: it queues every ready file exactly if all are
      measured and within the size limit, the cap can be met by evictions, the quota of the day is met,
      the batch still takes files and the tier has a queue; without a ready file it changes nothing. */
  lemma TransactionExactly(db: Db, batchId: nat, snapshot: Snapshot, largeQueueBytes: int, now: int)
    requires DistinctIds(db.files) && batchId in db.batches
    ensures var reply := AdmitTransaction(db, batchId, snapshot, largeQueueBytes, now);
      if !SomethingReady(db.files, batchId) then reply == Ok(Admitted(db, 0))
      else if Succeeds(db, batchId, snapshot, now) then
        reply.Ok? && reply.value.files == Total(db.files, (f: FileRow) => Counts(f, batchId)) && reply.value.files > 0
      else reply.Err? && Fails(db, batchId, snapshot, now, reply.error)
  {
    var subject, claimed := db.batches[batchId].subject, Claimed(db.files, batchId);
    ClaimedCount(db.files, batchId);
    SomethingClaimed(db.files, batchId);
    ProblemExactly(db.files, batchId, snapshot.maxFileBytes);
    if snapshot.storageBytes.Some? {
      RoomExactly(db, batchId, snapshot.storageBytes.value, now);
    }
    hide Claimed, FirstProblem, MakeRoom, AllFit, FirstMisfit, NoRoom, SomethingReady;
    if SomethingReady(db.files, batchId) && MakeRoom(db, subject, claimed, snapshot.storageBytes, now).Ok? {
      ReadyBatchStays(db, batchId, snapshot.storageBytes, now);
    }
    RoomError(db, subject, claimed, snapshot.storageBytes, now);
  }

  // ----- what is evicted -----

  /** A completed file of the subject that has not expired. */
  predicate MayGo(f: FileRow, batches: Batches, subject: nat, now: int) {
    OwnedFile(f, batches, subject) && f.status == Completed && now < f.expiresAt
  }

  /** It expires earlier, or at the same time with a smaller identifier. */
  predicate GoesFirst(f: FileRow, g: FileRow) {
    f.expiresAt < g.expiresAt || (f.expiresAt == g.expiresAt && f.id < g.id)
  }

  ghost function Missing(db: Db, subject: nat, claimed: Files, cap: int, now: int): int {
    Total(db.files, (f: FileRow) => Takes(f, db.batches, subject, now)) + Total(claimed, Input) - cap
  }

  lemma MissingIsDeficit(db: Db, subject: nat, claimed: Files, cap: int, now: int)
    ensures Deficit(db, subject, claimed, cap, now) == Missing(db, subject, claimed, cap, now)
  {
    TotalEqual(db.files, db.files, Used(OwnedBy(db.batches, subject), now), (f: FileRow) => Takes(f, db.batches, subject, now));
  }

  lemma ExpiredRowsAre(files: Files, evicted: Files, now: int)
    requires DistinctIds(files) && forall r :: r in evicted ==> r in files
    ensures |ExpireRows(files, evicted, now)| == |files| && forall i :: 0 <= i < |files| ==>
      ExpireRows(files, evicted, now)[i] == if files[i] in evicted then files[i].(status := Expired, expiresAt := now) else files[i]
  {
    forall i | 0 <= i < |files|
      ensures Listed(evicted, files[i]) <==> files[i] in evicted
    {
      if Listed(evicted, files[i]) {
        var r :| r in evicted && r.id == files[i].id;
        SameRow(files, files[i], r);
      }
    }
  }

  lemma FirstGoes(candidates: Files, n: nat, f: FileRow, g: FileRow)
    requires n <= |candidates| && Sorted(candidates, ByExpiry)
    requires f in candidates && g in candidates[..n] && GoesFirst(f, g)
    ensures f in candidates[..n]
  {
    var i :| 0 <= i < |candidates| && candidates[i] == f;
    var j :| 0 <= j < n && candidates[j] == g;
    assert j < i ==> ByExpiry(candidates[j], candidates[i]);
    assert i < n && candidates[..n][i] == f;
  }

  /** What makes room: only completed files of the subject go, those that expire first go first, they free
      what is missing, and without the last of them it would not be enough. */
  lemma EvictedExactly(db: Db, subject: nat, claimed: Files, cap: int, now: int) returns (evicted: Files)
    requires DistinctIds(db.files) && MakeRoom(db, subject, claimed, Some(cap), now).Ok?
    ensures var after := MakeRoom(db, subject, claimed, Some(cap), now).value;
      |after.files| == |db.files| && forall i :: 0 <= i < |db.files| ==>
        after.files[i] == if db.files[i] in evicted then db.files[i].(status := Expired, expiresAt := now) else db.files[i]
    ensures forall f :: f in evicted ==> f in db.files && MayGo(f, db.batches, subject, now)
    ensures forall f, g :: f in db.files && MayGo(f, db.batches, subject, now) && g in evicted && GoesFirst(f, g) ==> f in evicted
    ensures Total(evicted, Output) >= Missing(db, subject, claimed, cap, now)
    ensures evicted != [] ==> Total(evicted[..|evicted| - 1], Output) < Missing(db, subject, claimed, cap, now)
  {
    var owned := OwnedBy(db.batches, subject);
    var candidates := Candidates(db.files, owned, now);
    CandidatesInOrder(db.files, owned, now);
    MissingIsDeficit(db, subject, claimed, cap, now);
    hide Candidates, MakeRoom, Deficit, Missing, RollTouched, StorageUsed;
    evicted := EvictionIsShortest(db, subject, claimed, cap, now);
    if evicted != [] {
      assert candidates[..|evicted| - 1] == evicted[..|evicted| - 1];
    }
    forall f, g | f in db.files && MayGo(f, db.batches, subject, now) && g in evicted && GoesFirst(f, g)
      ensures f in evicted
    {
      assert Evictable(f, owned, now);
      FirstGoes(candidates, |evicted|, f, g);
    }
    ExpiredRowsAre(db.files, evicted, now);
  }
}
