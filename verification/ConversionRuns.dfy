/** Runs of the whole conversion service: every transaction is one step, steps interleave freely, and
    the clock only moves forward. */
module ConversionRuns {
  import opened Prelude
  import opened Conversions
  import opened BatchRollup
  import opened Admission
  import opened Lifecycle
  import opened Outbox

  /** An admission of one file with the batch and tag it had then: for whom, when, and whether it counted
      against a daily quota. */
  datatype Entry = Entry(fileId: nat, batchId: nat, inputEtag: nat, subject: nat, day: int, metered: bool)

  /** The tables with their history: all admissions in order, and the outbox rows whose message was
      sent at least once. */
  datatype World = World(db: Db, clock: int, log: seq<Entry>, sent: set<nat>)

  datatype Step =
    | Tick(now: int)
    | Create(input: NewBatch, ownership: Ownership, plan: Snapshot, batchId: nat, ids: seq<nat>)
    | Upload(fileId: nat, bytes: nat, etag: nat)
    | Admit(batchId: nat, snapshot: Snapshot, largeQueueBytes: int)
    | Start(fileId: nat, batchId: nat, attempt: int)
    | StartedBatch(batchId: nat)
    | Finish(fileId: nat, batchId: nat, attempt: int, result: WorkerResult)
    | Sweep(batchId: nat, cutoff: int)
    | Publish(claimed: seq<OutboxRow>, sends: seq<bool>, committed: bool)

  function EntryOf(f: FileRow, subject: nat, day: int, metered: bool): Entry {
    Entry(f.id, f.batchId, OrZero(f.inputEtag), subject, day, metered)
  }

  function Entries(claimed: Files, subject: nat, day: int, metered: bool): seq<Entry> {
    seq(|claimed|, i requires 0 <= i < |claimed| => EntryOf(claimed[i], subject, day, metered))
  }

  /** An admission transaction.  Its batch passed the checks at some earlier time. */
  function AfterAdmit(w: World, batchId: nat, snapshot: Snapshot, largeQueueBytes: int): World
    requires batchId in w.db.batches
  {
    match AdmitTransaction(w.db, batchId, snapshot, largeQueueBytes, w.clock)
    case Err(_) => w
    case Ok(admitted) =>
      if admitted.files == 0 then w
      else w.(db := admitted.db,
              log := w.log + Entries(Claimed(w.db.files, batchId), w.db.batches[batchId].subject, DayOf(w.clock),
                                     snapshot.dailyFiles.Some?))
  }

  /** A publishing round.  What was sent stays sent even when the transaction fails afterwards. */
  function AfterPublish(w: World, claimed: seq<OutboxRow>, sends: seq<bool>, committed: bool): World
    requires |sends| <= |claimed|
  {
    var delivered, failed := IdsWith(claimed, sends, true), IdsWith(claimed, sends, false);
    w.(sent := w.sent + delivered,
       db := if committed then w.db.(outbox := AfterRound(w.db.outbox, delivered, failed, w.clock)) else w.db)
  }

  ghost predicate Next(w: World, step: Step, w': World) {
    match step
    case Tick(now) => w.clock <= now && w' == w.(clock := now)
    case Create(input, ownership, plan, batchId, ids) =>
      exists reply :: CreateBatch(w.db, input, ownership, plan, batchId, ids, w.clock, w'.db, reply) && w' == w.(db := w'.db)
    case Upload(fileId, bytes, etag) => w' == w.(db := ReceiveUpload(w.db, fileId, bytes, etag))
    case Admit(batchId, snapshot, largeQueueBytes) =>
      batchId in w.db.batches && w' == AfterAdmit(w, batchId, snapshot, largeQueueBytes)
    case Start(fileId, batchId, attempt) => w' == w.(db := StartFile(w.db, fileId, batchId, attempt))
    case StartedBatch(batchId) => w' == w.(db := StartBatch(w.db, batchId))
    case Finish(fileId, batchId, attempt, result) => w' == w.(db := FinishFile(w.db, fileId, batchId, attempt, result))
    case Sweep(batchId, cutoff) => cutoff <= w.clock && w' == w.(db := SweepBatch(w.db, batchId, cutoff))
    case Publish(claimed, sends, committed) =>
      IsClaim(w.db.outbox, claimed, w.clock) && |sends| <= |claimed| && w' == AfterPublish(w, claimed, sends, committed)
  }

  ghost predicate IsRun(run: seq<World>, steps: seq<Step>) {
    && |run| == |steps| + 1
    && run[0].db == Db([], map[], map[], [], 0) && run[0].log == [] && run[0].sent == {}
    && forall i :: 0 <= i < |steps| ==> Next(run[i], steps[i], run[i + 1])
  }

  lemma StepOfRun(run: seq<World>, steps: seq<Step>, i: nat)
    requires IsRun(run, steps) && 0 < i < |run|
    ensures |run| == |steps| + 1 && Next(run[i - 1], steps[i - 1], run[i])
  {
    hide Next;
  }

  lemma LengthOfRun(run: seq<World>, steps: seq<Step>)
    requires IsRun(run, steps)
    ensures |run| == |steps| + 1
  {
    hide Next;
  }

  /** The admission queues files. */
  predicate Queues(w: World, batchId: nat, snapshot: Snapshot, largeQueueBytes: int) {
    batchId in w.db.batches
    && var r := AdmitTransaction(w.db, batchId, snapshot, largeQueueBytes, w.clock);
       r.Ok? && r.value.files > 0
  }

  /** The step is an admission of a batch of the subject. */
  predicate AdmitsFor(w: World, step: Step, subject: nat) {
    step.Admit? && step.batchId in w.db.batches && w.db.batches[step.batchId].subject == subject
  }

  /** And it queues files. */
  predicate QueuesFor(w: World, step: Step, subject: nat) {
    AdmitsFor(w, step, subject) && Queues(w, step.batchId, step.snapshot, step.largeQueueBytes)
  }

  // ----- what every step does to the rows -----

  /** File identifiers are distinct and every file belongs to a batch. */
  ghost predicate RowsSound(db: Db) {
    DistinctIds(db.files) && forall f :: f in db.files ==> f.batchId in db.batches
  }

  predicate SameOwner(batch: BatchRow, batch': BatchRow) {
    batch' == batch.(status := batch'.status, expiresAt := batch'.expiresAt)
  }

  ghost predicate SameBatches(batches: Batches, batches': Batches) {
    && batches'.Keys == batches.Keys
    && forall b :: b in batches ==> SameOwner(batches[b], batches'[b])
  }

  /** Rows keep their identity and batches their owner, key and size. */
  ghost predicate SameRows(db: Db, db': Db) {
    && |db.files| == |db'.files|
    && (forall i :: 0 <= i < |db.files| ==> db'.files[i].id == db.files[i].id && db'.files[i].batchId == db.files[i].batchId)
    && SameBatches(db.batches, db'.batches)
  }

  lemma SameRowsSound(db: Db, db': Db)
    requires RowsSound(db) && SameRows(db, db')
    ensures RowsSound(db')
    ensures forall subject :: OwnedBy(db'.batches, subject) == OwnedBy(db.batches, subject)
  {
    forall f | f in db'.files
      ensures f.batchId in db'.batches
    {
      var i :| 0 <= i < |db'.files| && db'.files[i] == f;
      assert db.files[i] in db.files;
    }
  }

  /** The parts of a successful admission. */
  lemma AdmitParts(db: Db, batchId: nat, snapshot: Snapshot, largeQueueBytes: int, now: int) returns (roomy: Db, reserved: Db)
    requires batchId in db.batches
    requires AdmitTransaction(db, batchId, snapshot, largeQueueBytes, now).Ok?
    requires AdmitTransaction(db, batchId, snapshot, largeQueueBytes, now).value.files > 0
    ensures var claimed := Claimed(db.files, batchId);
      var subject := db.batches[batchId].subject;
      && claimed != [] && FirstProblem(claimed, snapshot.maxFileBytes).None?
      && MakeRoom(db, subject, claimed, snapshot.storageBytes, now) == Ok(roomy)
      && ReserveDaily(roomy, subject, |claimed|, snapshot.dailyFiles, now) == Ok(reserved)
      && batchId in reserved.batches
      && QueueClaimed(reserved, batchId, claimed, snapshot, largeQueueBytes, now)
           == Ok(AdmitTransaction(db, batchId, snapshot, largeQueueBytes, now).value.db)
      && AdmitTransaction(db, batchId, snapshot, largeQueueBytes, now).value.files == |claimed|
  {
    hide Claimed, FirstProblem, QueueClaimed, Evicted, Deficit, ExpireRows;
    var claimed := Claimed(db.files, batchId);
    var subject := db.batches[batchId].subject;
    roomy := MakeRoom(db, subject, claimed, snapshot.storageBytes, now).value;
    reserved := ReserveDaily(roomy, subject, |claimed|, snapshot.dailyFiles, now).value;
  }
}
