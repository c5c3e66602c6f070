/** Admission of uploaded files under a plan: storage cap with eviction, daily quota and outbox rows
    (apps/conversion-api/src/app/admission/admission.service.ts). */
module Admission {
  import opened Prelude
  import opened Conversions
  import opened BatchRollup

  const HOUR_MS := 3_600_000
  const DAY_MS := 86_400_000
  const UPLOAD_WINDOW_MS := 24 * HOUR_MS
  const FIRST_PAID_TIER := 2

  datatype Snapshot = Snapshot(
    maxBatchFiles: int,
    maxFileBytes: int,
    storageBytes: Option<int>,
    dailyFiles: Option<int>,
    outputRetentionHours: int,
    queueTier: int)

  /** Who asks: the subject and the digest of the batch token, if one was presented. */
  datatype Ownership = Ownership(subject: nat, tokenHash: Option<nat>)

  datatype AdmissionError =
    | BatchNotFound | BatchNotAdmittable | BatchSizeInvalid | BatchTokenMismatch | DailyQuotaExceeded
    | FileNotMeasured | FileTooLarge | IdempotencyConflict | StorageLimitExceeded
    | UnmappedRetention | UnmappedQueueTier

  datatype Queue = TierQueue(tier: int) | PaidLargeQueue

  datatype OutboxRow = OutboxRow(id: nat, queue: Queue, fileId: nat, batchId: nat, inputEtag: nat, attempts: nat, nextAttemptAt: int)

  /** `usage` is the daily usage table, by subject and UTC day. */
  datatype Db = Db(files: Files, batches: Batches, usage: map<(nat, int), nat>, outbox: seq<OutboxRow>, nextOutboxId: nat)

  function OrZero(bytes: Option<nat>): nat {
    if bytes.Some? then bytes.value else 0
  }

  function OwnedBy(batches: Batches, subject: nat): set<nat> {
    set b | b in batches && batches[b].subject == subject
  }

  // ----- storage in use -----

  predicate Counts(f: FileRow, owned: set<nat>, now: int) {
    f.batchId in owned && (f.status == Queued || f.status == Processing || f.status == Completed) && f.expiresAt > now
  }

  function UsedBytes(f: FileRow, owned: set<nat>, now: int): nat {
    if Counts(f, owned, now) then OrZero(if f.status == Completed then f.outputBytes else f.inputBytes) else 0
  }

  function Used(owned: set<nat>, now: int): FileRow -> nat {
    (f: FileRow) => UsedBytes(f, owned, now)
  }

  function Input(f: FileRow): nat {
    OrZero(f.inputBytes)
  }

  function Output(f: FileRow): nat {
    OrZero(f.outputBytes)
  }

  function StorageUsed(files: Files, owned: set<nat>, now: int): nat {
    Total(files, Used(owned, now))
  }

  // ----- eviction -----

  predicate Evictable(f: FileRow, owned: set<nat>, now: int) {
    f.batchId in owned && f.status == Completed && f.expiresAt > now
  }

  /** The completed files of the subject, first those that expire first. */
  function Candidates(files: Files, owned: set<nat>, now: int): Files {
    Sort(Filter(files, (f: FileRow) => Evictable(f, owned, now)), ByExpiry)
  }

  /** The least number of candidates, from `k` on, whose bytes cover the deficit; all if none does. */
  function Cut(candidates: Files, deficit: int, k: nat): (cut: nat)
    requires k <= |candidates|
    ensures k <= cut <= |candidates|
    decreases |candidates| - k
  {
    if k == |candidates| || Total(candidates[..k], Output) >= deficit then k else Cut(candidates, deficit, k + 1)
  }

  function Evicted(files: Files, owned: set<nat>, now: int, deficit: int): Files {
    var candidates := Candidates(files, owned, now);
    candidates[..Cut(candidates, deficit, 0)]
  }

  function ExpireRow(f: FileRow, now: int): FileRow {
    f.(status := Expired, expiresAt := now)
  }

  /** Updates name their rows by identifier. */
  predicate Listed(rows: Files, f: FileRow) {
    exists g :: g in rows && g.id == f.id
  }

  function ExpireRows(files: Files, rows: Files, now: int): Files {
    seq(|files|, i requires 0 <= i < |files| => if Listed(rows, files[i]) then ExpireRow(files[i], now) else files[i])
  }

  predicate Touched(rows: Files, batchId: nat) {
    exists g :: g in rows && g.batchId == batchId
  }

  function RollTouched(files: Files, batches: Batches, rows: Files): Batches {
    map b | b in batches ::
      if Touched(rows, b) then batches[b].(status := Rolled(files, b, batches[b].status)) else batches[b]
  }

  function Deficit(db: Db, subject: nat, claimed: Files, cap: int, now: int): int {
    StorageUsed(db.files, OwnedBy(db.batches, subject), now) + Total(claimed, Input) - cap
  }

  /** Frees the deficit by expiring completed files, or fails. */
  function MakeRoom(db: Db, subject: nat, claimed: Files, storageBytes: Option<int>, now: int): Result<Db, AdmissionError> {
    if storageBytes.None? then Ok(db)
    else
      var deficit := Deficit(db, subject, claimed, storageBytes.value, now);
      if deficit <= 0 then Ok(db)
      else
        var evicted := Evicted(db.files, OwnedBy(db.batches, subject), now, deficit);
        if Total(evicted, Output) < deficit then Err(StorageLimitExceeded)
        else
          var files := ExpireRows(db.files, evicted, now);
          Ok(db.(files := files, batches := RollTouched(files, db.batches, evicted)))
  }

  // ----- the rest of the transaction -----

  predicate Claimable(f: FileRow, batchId: nat) {
    f.batchId == batchId && f.status == Ready
  }

  /** The ready files of the batch, by identifier. */
  function Claimed(files: Files, batchId: nat): Files {
    Sort(Filter(files, (f: FileRow) => Claimable(f, batchId)), ById)
  }

  function Problem(f: FileRow, maxFileBytes: int): Option<AdmissionError> {
    if f.inputBytes.None? || f.inputEtag.None? then Some(FileNotMeasured)
    else if f.inputBytes.value > maxFileBytes then Some(FileTooLarge)
    else None
  }

  function FirstProblem(claimed: Files, maxFileBytes: int): Option<AdmissionError> {
    if claimed == [] then None
    else if Problem(claimed[0], maxFileBytes).Some? then Problem(claimed[0], maxFileBytes)
    else FirstProblem(claimed[1..], maxFileBytes)
  }

  function DayOf(now: int): int {
    now / DAY_MS
  }

  function UsageOf(usage: map<(nat, int), nat>, subject: nat, day: int): nat {
    if (subject, day) in usage then usage[(subject, day)] else 0
  }

  function ReserveDaily(db: Db, subject: nat, files: nat, dailyFiles: Option<int>, now: int): Result<Db, AdmissionError> {
    if dailyFiles.None? then Ok(db)
    else
      var key := (subject, DayOf(now));
      if files > dailyFiles.value || (key in db.usage && db.usage[key] + files > dailyFiles.value) then Err(DailyQuotaExceeded)
      else Ok(db.(usage := db.usage[key := UsageOf(db.usage, subject, DayOf(now)) + files]))
  }

  function RetentionEnd(snapshot: Snapshot, now: int): int {
    now + snapshot.outputRetentionHours * HOUR_MS
  }

  function QueueRow(f: FileRow, retentionEnd: int): FileRow {
    f.(status := Queued, expiresAt := retentionEnd)
  }

  function QueueRows(files: Files, claimed: Files, retentionEnd: int): Files {
    seq(|files|, i requires 0 <= i < |files| => if Listed(claimed, files[i]) then QueueRow(files[i], retentionEnd) else files[i])
  }

  predicate MappedTier(tier: int) {
    0 <= tier < 4
  }

  function QueueFor(snapshot: Snapshot, bytes: nat, largeQueueBytes: int): Queue {
    if snapshot.queueTier >= FIRST_PAID_TIER && bytes > largeQueueBytes then PaidLargeQueue else TierQueue(snapshot.queueTier)
  }

  function RequestOf(f: FileRow, id: nat, snapshot: Snapshot, largeQueueBytes: int, now: int): OutboxRow {
    OutboxRow(id, QueueFor(snapshot, Input(f), largeQueueBytes), f.id, f.batchId, OrZero(f.inputEtag), 0, now)
  }

  function Requests(claimed: Files, firstId: nat, snapshot: Snapshot, largeQueueBytes: int, now: int): seq<OutboxRow> {
    seq(|claimed|, i requires 0 <= i < |claimed| => RequestOf(claimed[i], firstId + i, snapshot, largeQueueBytes, now))
  }

  function QueueClaimed(db: Db, batchId: nat, claimed: Files, snapshot: Snapshot, largeQueueBytes: int, now: int): Result<Db, AdmissionError>
    requires batchId in db.batches
  {
    var batch := db.batches[batchId];
    if batch.status != BatchUploading && batch.status != BatchQueued then Err(BatchNotAdmittable)
    else if !MappedTier(snapshot.queueTier) then Err(UnmappedQueueTier)
    else
      var end := RetentionEnd(snapshot, now);
      Ok(db.(
        files := QueueRows(db.files, claimed, end),
        batches := db.batches[batchId := batch.(status := BatchQueued, expiresAt := end)],
        outbox := db.outbox + Requests(claimed, db.nextOutboxId, snapshot, largeQueueBytes, now),
        nextOutboxId := db.nextOutboxId + |claimed|))
  }

  datatype Admitted = Admitted(db: Db, files: nat)

  /** The transaction.  The batch was read before it and may have changed since. */
  function AdmitTransaction(db: Db, batchId: nat, snapshot: Snapshot, largeQueueBytes: int, now: int): Result<Admitted, AdmissionError>
    requires batchId in db.batches
  {
    var subject := db.batches[batchId].subject;
    var claimed := Claimed(db.files, batchId);
    if claimed == [] then Ok(Admitted(db, 0))
    else
      match FirstProblem(claimed, snapshot.maxFileBytes)
      case Some(problem) => Err(problem)
      case None =>
        match MakeRoom(db, subject, claimed, snapshot.storageBytes, now)
        case Err(error) => Err(error)
        case Ok(roomy) =>
          match ReserveDaily(roomy, subject, |claimed|, snapshot.dailyFiles, now)
          case Err(error) => Err(error)
          case Ok(reserved) =>
            match QueueClaimed(reserved, batchId, claimed, snapshot, largeQueueBytes, now)
            case Err(error) => Err(error)
            case Ok(after) => Ok(Admitted(after, |claimed|))
  }

  function CheckOwnership(batch: BatchRow, ownership: Ownership, mismatch: AdmissionError): Option<AdmissionError> {
    if batch.subject != ownership.subject then Some(BatchNotFound)
    else if batch.tokenHash.None? then None
    else if ownership.tokenHash != batch.tokenHash then Some(mismatch)
    else None
  }

  predicate MappedRetention(hours: int) {
    hours == 1 || hours == 48 || hours == 96 || hours == 168
  }

  /** What is checked before the transaction. */
  function CheckAdmittable(db: Db, batchId: nat, ownership: Ownership, snapshot: Snapshot, now: int): Option<AdmissionError> {
    if !MappedRetention(snapshot.outputRetentionHours) then Some(UnmappedRetention)
    else if batchId !in db.batches then Some(BatchNotFound)
    else
      var batch := db.batches[batchId];
      match CheckOwnership(batch, ownership, BatchNotFound)
      case Some(error) => Some(error)
      case None =>
        if batch.status != BatchUploading && batch.status != BatchQueued then Some(BatchNotAdmittable)
        else if batch.expiresAt <= now then Some(BatchNotAdmittable)
        else None
  }

  /** Checks and transaction without anything in between. */
  function AdmitReadyFiles(db: Db, batchId: nat, ownership: Ownership, snapshot: Snapshot, largeQueueBytes: int, now: int)
    : Result<Admitted, AdmissionError>
  {
    match CheckAdmittable(db, batchId, ownership, snapshot, now)
    case Some(error) => Err(error)
    case None => if batchId in db.batches then AdmitTransaction(db, batchId, snapshot, largeQueueBytes, now) else Err(BatchNotFound)
  }
}
