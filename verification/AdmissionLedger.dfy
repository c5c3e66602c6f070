/** Conservation over runs of the service: admissions, daily usage, outbox rows and sent messages
    (apps/conversion-api/src/app/admission/admission.service.ts and
    apps/conversion-api/src/app/outbox/outbox-publisher.service.ts). */
module AdmissionLedger {
  import opened Prelude
  import opened Conversions
  import opened BatchRollup
  import opened Admission
  import opened Eviction
  import opened Lifecycle
  import opened Outbox
  import opened ConversionRuns
  import opened AdmissionEffect
  import opened BatchAgreement

  predicate BeforeQueue(s: FileStatus) {
    s == Uploading || s == Ready
  }

  predicate AfterQueue(s: FileStatus) {
    s == Queued || s == Processing || s == Completed || s == Failed || s == Cancelled
  }

  predicate InLog(log: seq<Entry>, fileId: nat) {
    exists k :: 0 <= k < |log| && log[k].fileId == fileId
  }

  /** The metered admissions of a subject on a day. */
  function Metered(log: seq<Entry>, subject: nat, day: int): nat {
    if log == [] then 0
    else
      var last := log[|log| - 1];
      Metered(log[..|log| - 1], subject, day) + if last.metered && last.subject == subject && last.day == day then 1 else 0
  }

  predicate IsFileOf(f: FileRow, entry: Entry) {
    f.id == entry.fileId && f.batchId == entry.batchId && f.inputEtag == Some(entry.inputEtag)
  }

  /** The entry's file, still in the batch and with the tag it was admitted with. */
  predicate HasFile(files: Files, entry: Entry) {
    exists i :: 0 <= i < |files| && IsFileOf(files[i], entry)
  }

  /** A file is in the log once it has been queued, never before, and never twice. */
  ghost predicate LogSound(files: Files, log: seq<Entry>) {
    && (forall i, j :: 0 <= i < j < |log| ==> log[i].fileId != log[j].fileId)
    && (forall i :: 0 <= i < |files| ==>
         && (BeforeQueue(files[i].status) ==> !InLog(log, files[i].id))
         && (AfterQueue(files[i].status) ==> InLog(log, files[i].id)))
    && (forall k :: 0 <= k < |log| ==> HasFile(files, log[k]))
  }

  predicate Asks(row: OutboxRow, entry: Entry) {
    row.fileId == entry.fileId && row.batchId == entry.batchId && row.inputEtag == entry.inputEtag
  }

  predicate Pending(outbox: seq<OutboxRow>, k: nat) {
    exists i :: 0 <= i < |outbox| && outbox[i].id == k
  }

  /** Outbox row k is the request of admission k, and an admission without a row was sent. */
  ghost predicate OutboxSound(db: Db, log: seq<Entry>, sent: set<nat>) {
    && db.nextOutboxId == |log|
    && DistinctRows(db.outbox)
    && (forall row :: row in db.outbox ==> row.id < |log| && Asks(row, log[row.id]))
    && (forall k: nat :: k < |log| ==> k in sent || Pending(db.outbox, k))
    && (forall k :: k in sent ==> k < |log|)
  }

  ghost predicate UsageSound(db: Db, log: seq<Entry>) {
    forall subject: nat, day: int :: UsageOf(db.usage, subject, day) == Metered(log, subject, day)
  }

  ghost predicate Conserved(w: World) {
    && LogSound(w.db.files, w.log)
    && OutboxSound(w.db, w.log, w.sent)
    && UsageSound(w.db, w.log)
  }

  // ----- steps that admit nothing -----

  predicate KeepsSide(f: FileRow, f': FileRow) {
    && f'.id == f.id && f'.batchId == f.batchId
    && (BeforeQueue(f'.status) ==> BeforeQueue(f.status)) && (AfterQueue(f'.status) ==> AfterQueue(f.status))
    && (!BeforeQueue(f.status) ==> f'.inputEtag == f.inputEtag)
  }

  lemma SidesKeepLog(files: Files, files': Files, log: seq<Entry>)
    requires LogSound(files, log) && |files'| == |files| && forall i :: 0 <= i < |files| ==> KeepsSide(files[i], files'[i])
    ensures LogSound(files', log)
  {
    forall k | 0 <= k < |log|
      ensures HasFile(files', log[k])
    {
      var i :| 0 <= i < |files| && IsFileOf(files[i], log[k]);
      assert InLog(log, files[i].id);
      assert IsFileOf(files'[i], log[k]);
    }
  }

  lemma UpdatesKeepSides(w: World, step: Step, w': World)
    requires Next(w, step, w') && !step.Create? && !step.Admit?
    ensures |w'.db.files| == |w.db.files| && forall i :: 0 <= i < |w.db.files| ==> KeepsSide(w.db.files[i], w'.db.files[i])
    ensures w'.log == w.log && w'.db.usage == w.db.usage && w'.db.nextOutboxId == w.db.nextOutboxId
    ensures !step.Publish? ==> w'.db.outbox == w.db.outbox && w'.sent == w.sent
  {
    hide Rolled;
  }

  lemma CreateKeepsLog(files: Files, log: seq<Entry>, batchId: nat, ids: seq<nat>, expiresAt: int)
    requires LogSound(files, log) && FreshIds(files, ids)
    ensures LogSound(files + NewFiles(batchId, ids, expiresAt), log)
  {
    var all := files + NewFiles(batchId, ids, expiresAt);
    forall k | 0 <= k < |log|
      ensures forall i :: 0 <= i < |ids| ==> log[k].fileId != ids[i]
    {
      var j :| 0 <= j < |files| && IsFileOf(files[j], log[k]);
      assert files[j] in files;
    }
    forall k | 0 <= k < |log|
      ensures HasFile(all, log[k])
    {
      var i :| 0 <= i < |files| && IsFileOf(files[i], log[k]);
      assert IsFileOf(all[i], log[k]);
    }
  }

  lemma RoundKeepsPending(rows: seq<OutboxRow>, delivered: set<nat>, failed: set<nat>, now: int, row: OutboxRow)
    requires row in rows && row.id !in delivered
    ensures Pending(AfterRound(rows, delivered, failed, now), row.id)
  {
    RoundKeeps(rows, delivered, failed, now, row);
    var kept := if row.id in failed then Postpone(row, now) else row;
    var after := AfterRound(rows, delivered, failed, now);
    var i :| 0 <= i < |after| && after[i] == kept;
  }

  /** A publishing round loses no request: what it removes was sent. */
  lemma PublishKeepsOutbox(w: World, claimed: seq<OutboxRow>, sends: seq<bool>, committed: bool)
    requires OutboxSound(w.db, w.log, w.sent) && IsClaim(w.db.outbox, claimed, w.clock) && |sends| <= |claimed|
    ensures var w' := AfterPublish(w, claimed, sends, committed);
      OutboxSound(w'.db, w'.log, w'.sent)
  {
    var delivered, failed := IdsWith(claimed, sends, true), IdsWith(claimed, sends, false);
    var w' := AfterPublish(w, claimed, sends, committed);
    assert forall k :: k in delivered ==> k < |w.log|;
    if committed {
      RoundKeepsDistinct(w.db.outbox, delivered, failed, w.clock);
      forall row | row in w'.db.outbox
        ensures row.id < |w.log| && Asks(row, w.log[row.id])
      {
        RoundAddsNothing(w.db.outbox, delivered, failed, w.clock, row);
      }
      forall k: nat | k < |w.log| && k !in w'.sent
        ensures Pending(w'.db.outbox, k)
      {
        var i :| 0 <= i < |w.db.outbox| && w.db.outbox[i].id == k;
        RoundKeepsPending(w.db.outbox, delivered, failed, w.clock, w.db.outbox[i]);
      }
    }
  }

  // ----- admissions -----

  lemma {:induction false} MeteredAppend(log: seq<Entry>, more: seq<Entry>, subject: nat, day: int)
    ensures Metered(log + more, subject, day) == Metered(log, subject, day) + Metered(more, subject, day)
  {
    if more == [] {
      assert log + more == log;
    } else {
      assert (log + more)[..|log + more| - 1] == log + more[..|more| - 1];
      MeteredAppend(log, more[..|more| - 1], subject, day);
    }
  }

  lemma {:induction false} MeteredEntries(claimed: Files, subject: nat, day: int, metered: bool, s: nat, d: int)
    ensures Metered(Entries(claimed, subject, day, metered), s, d) == if metered && s == subject && d == day then |claimed| else 0
  {
    if claimed != [] {
      var entries := Entries(claimed, subject, day, metered);
      assert entries[..|claimed| - 1] == Entries(claimed[..|claimed| - 1], subject, day, metered);
      MeteredEntries(claimed[..|claimed| - 1], subject, day, metered, s, d);
    }
  }

  /** The usage row grows by exactly the files admitted. */
  lemma AdmissionKeepsUsage(db: Db, log: seq<Entry>, claimed: Files, subject: nat, dailyFiles: Option<int>, now: int)
    requires UsageSound(db, log) && ReserveDaily(db, subject, |claimed|, dailyFiles, now).Ok?
    ensures UsageSound(ReserveDaily(db, subject, |claimed|, dailyFiles, now).value,
                       log + Entries(claimed, subject, DayOf(now), dailyFiles.Some?))
  {
    var after := ReserveDaily(db, subject, |claimed|, dailyFiles, now).value;
    var more := Entries(claimed, subject, DayOf(now), dailyFiles.Some?);
    forall s: nat, d: int
      ensures UsageOf(after.usage, s, d) == Metered(log + more, s, d)
    {
      MeteredAppend(log, more, s, d);
      MeteredEntries(claimed, subject, DayOf(now), dailyFiles.Some?, s, d);
      assert UsageOf(db.usage, s, d) == Metered(log, s, d);
    }
  }

  predicate AsksFor(row: OutboxRow, f: FileRow) {
    row.fileId == f.id && row.batchId == f.batchId && row.inputEtag == OrZero(f.inputEtag)
  }

  predicate Admits(entry: Entry, f: FileRow) {
    entry.fileId == f.id && entry.batchId == f.batchId && entry.inputEtag == OrZero(f.inputEtag)
  }

  /** One new row for each claimed file, numbered from `firstId`. */
  ghost predicate Appends(outbox: seq<OutboxRow>, outbox': seq<OutboxRow>, claimed: Files, firstId: nat) {
    && |outbox'| == |outbox| + |claimed|
    && (forall i :: 0 <= i < |outbox| ==> outbox'[i] == outbox[i])
    && forall i :: 0 <= i < |claimed| ==>
         outbox'[|outbox| + i].id == firstId + i && AsksFor(outbox'[|outbox| + i], claimed[i])
  }

  lemma AppendedRow(db: Db, log: seq<Entry>, sent: set<nat>, outbox': seq<OutboxRow>, claimed: Files, i: nat)
    requires OutboxSound(db, log, sent) && Appends(db.outbox, outbox', claimed, |log|) && i < |outbox'|
    ensures if i < |db.outbox| then outbox'[i] == db.outbox[i] && outbox'[i].id < |log| && Asks(outbox'[i], log[outbox'[i].id])
            else outbox'[i].id == |log| + (i - |db.outbox|) && AsksFor(outbox'[i], claimed[i - |db.outbox|])
  {
    if i < |db.outbox| {
      assert db.outbox[i] in db.outbox;
    } else {
      var c := claimed[i - |db.outbox|];
    }
  }

  lemma AppendedPending(db: Db, log: seq<Entry>, sent: set<nat>, outbox': seq<OutboxRow>, claimed: Files, k: nat)
    requires OutboxSound(db, log, sent) && Appends(db.outbox, outbox', claimed, |log|) && k < |log| + |claimed| && k !in sent
    ensures Pending(outbox', k)
  {
    if k < |log| {
      assert Pending(db.outbox, k);
      var i :| 0 <= i < |db.outbox| && db.outbox[i].id == k;
      assert outbox'[i].id == k;
    } else {
      var c := claimed[k - |log|];
      assert outbox'[|db.outbox| + (k - |log|)].id == k;
    }
  }

  lemma AppendedDistinct(db: Db, log: seq<Entry>, sent: set<nat>, outbox': seq<OutboxRow>, claimed: Files)
    requires OutboxSound(db, log, sent) && Appends(db.outbox, outbox', claimed, |log|)
    ensures DistinctRows(outbox')
  {
    forall i, j | 0 <= i < j < |outbox'|
      ensures outbox'[i].id != outbox'[j].id
    {
      AppendedRow(db, log, sent, outbox', claimed, i);
      AppendedRow(db, log, sent, outbox', claimed, j);
    }
  }

  lemma AppendedNames(db: Db, log: seq<Entry>, sent: set<nat>, outbox': seq<OutboxRow>, claimed: Files, more: seq<Entry>, row: OutboxRow)
    requires OutboxSound(db, log, sent) && |more| == |claimed| && Appends(db.outbox, outbox', claimed, |log|)
    requires forall i :: 0 <= i < |claimed| ==> Admits(more[i], claimed[i])
    requires row in outbox'
    ensures row.id < |log + more| && Asks(row, (log + more)[row.id])
  {
    var i :| 0 <= i < |outbox'| && outbox'[i] == row;
    AppendedRow(db, log, sent, outbox', claimed, i);
    hide OutboxSound;
    if i >= |db.outbox| {
      var j := i - |db.outbox|;
      assert (log + more)[|log| + j] == more[j];
    }
  }

  /** Every claimed file gets its one request. */
  lemma AdmissionKeepsOutbox(db: Db, log: seq<Entry>, sent: set<nat>, outbox': seq<OutboxRow>, claimed: Files, more: seq<Entry>)
    requires OutboxSound(db, log, sent) && |more| == |claimed| && Appends(db.outbox, outbox', claimed, |log|)
    requires forall i :: 0 <= i < |claimed| ==> Admits(more[i], claimed[i])
    ensures OutboxSound(db.(outbox := outbox', nextOutboxId := |log| + |claimed|), log + more, sent)
  {
    AppendedDistinct(db, log, sent, outbox', claimed);
    forall row | row in outbox'
      ensures row.id < |log + more| && Asks(row, (log + more)[row.id])
    {
      AppendedNames(db, log, sent, outbox', claimed, more, row);
    }
    forall k: nat | k < |log + more| && k !in sent
      ensures Pending(outbox', k)
    {
      AppendedPending(db, log, sent, outbox', claimed, k);
    }
    hide Pending, Appends, DistinctRows;
  }

  predicate IsQueued(f: FileRow, f': FileRow) {
    f'.id == f.id && f'.batchId == f.batchId && f'.status == Queued && f'.inputEtag == f.inputEtag
  }

  /** The entries are the claimed files, none of which was in the log. */
  ghost predicate Enters(files: Files, files': Files, log: seq<Entry>, claimed: Files, more: seq<Entry>) {
    && |files'| == |files| && DistinctIds(claimed)
    && |more| == |claimed| && (forall i :: 0 <= i < |claimed| ==> Admits(more[i], claimed[i]))
    && (forall c :: c in claimed ==> c in files && BeforeQueue(c.status) && c.inputEtag.Some?)
    && (forall i :: 0 <= i < |files| ==> if Listed(claimed, files[i]) then IsQueued(files[i], files'[i]) else KeepsSide(files[i], files'[i]))
  }

  lemma EntriesAreNew(files: Files, files': Files, log: seq<Entry>, claimed: Files, more: seq<Entry>)
    requires LogSound(files, log) && Enters(files, files', log, claimed, more)
    ensures forall i, j :: 0 <= i < j < |log + more| ==> (log + more)[i].fileId != (log + more)[j].fileId
  {
    var all := log + more;
    forall i | 0 <= i < |claimed|
      ensures !InLog(log, claimed[i].id)
    {
      assert claimed[i] in claimed;
      var j :| 0 <= j < |files| && files[j] == claimed[i];
    }
    forall i, j | 0 <= i < j < |all|
      ensures all[i].fileId != all[j].fileId
    {
      if i < |log| <= j {
        assert !InLog(log, claimed[j - |log|].id);
      }
    }
  }

  lemma OldEntryKeepsFile(files: Files, files': Files, log: seq<Entry>, claimed: Files, more: seq<Entry>, k: nat)
    requires LogSound(files, log) && Enters(files, files', log, claimed, more) && k < |log|
    ensures HasFile(files', log[k])
  {
    assert HasFile(files, log[k]);
    var i :| 0 <= i < |files| && IsFileOf(files[i], log[k]);
    assert InLog(log, files[i].id);
    assert IsFileOf(files'[i], log[k]);
  }

  lemma NewEntryHasFile(files: Files, files': Files, log: seq<Entry>, claimed: Files, more: seq<Entry>, j: nat)
    requires Enters(files, files', log, claimed, more) && j < |more|
    ensures HasFile(files', more[j])
  {
    hide BeforeQueue, KeepsSide;
    assert claimed[j] in claimed && Admits(more[j], claimed[j]);
    var i :| 0 <= i < |files| && files[i] == claimed[j];
    assert Listed(claimed, files[i]);
    assert IsFileOf(files'[i], more[j]);
  }

  lemma EntriesAreFiles(files: Files, files': Files, log: seq<Entry>, claimed: Files, more: seq<Entry>)
    requires LogSound(files, log) && Enters(files, files', log, claimed, more)
    ensures forall k :: 0 <= k < |log + more| ==> HasFile(files', (log + more)[k])
  {
    forall k | 0 <= k < |log + more|
      ensures HasFile(files', (log + more)[k])
    {
      if k < |log| {
        OldEntryKeepsFile(files, files', log, claimed, more, k);
      } else {
        NewEntryHasFile(files, files', log, claimed, more, k - |log|);
      }
    }
  }

  lemma StatusInLog(files: Files, log: seq<Entry>, i: nat)
    requires LogSound(files, log) && i < |files|
    ensures BeforeQueue(files[i].status) ==> !InLog(log, files[i].id)
    ensures AfterQueue(files[i].status) ==> InLog(log, files[i].id)
  {
  }

  lemma JoinedLog(log: seq<Entry>, more: seq<Entry>, claimed: Files, fileId: nat)
    requires |more| == |claimed| && forall i :: 0 <= i < |claimed| ==> Admits(more[i], claimed[i])
    ensures InLog(log + more, fileId) <==> InLog(log, fileId) || exists i :: 0 <= i < |claimed| && claimed[i].id == fileId
  {
    var all := log + more;
    if InLog(log, fileId) {
      var k :| 0 <= k < |log| && log[k].fileId == fileId;
      assert all[k].fileId == fileId;
    }
    if i :| 0 <= i < |claimed| && claimed[i].id == fileId {
      assert all[|log| + i].fileId == fileId;
    }
    if InLog(all, fileId) {
      var k :| 0 <= k < |all| && all[k].fileId == fileId;
      assert k >= |log| ==> claimed[k - |log|].id == fileId;
    }
  }

  lemma EntriesMatchStatuses(files: Files, files': Files, log: seq<Entry>, claimed: Files, more: seq<Entry>, i: nat)
    requires LogSound(files, log) && Enters(files, files', log, claimed, more) && i < |files|
    ensures BeforeQueue(files'[i].status) ==> !InLog(log + more, files'[i].id)
    ensures AfterQueue(files'[i].status) ==> InLog(log + more, files'[i].id)
  {
    hide LogSound, HasFile;
    assert BeforeQueue(files[i].status) ==> !InLog(log, files[i].id) by { StatusInLog(files, log, i); }
    assert AfterQueue(files[i].status) ==> InLog(log, files[i].id) by { StatusInLog(files, log, i); }
    JoinedLog(log, more, claimed, files[i].id);
    hide InLog;
    if Listed(claimed, files[i]) {
      var c :| c in claimed && c.id == files[i].id;
      var j :| 0 <= j < |claimed| && claimed[j] == c;
    } else {
      assert forall j :: 0 <= j < |claimed| ==> claimed[j] in claimed;
    }
  }

  lemma AdmissionKeepsLog(files: Files, files': Files, log: seq<Entry>, claimed: Files, more: seq<Entry>)
    requires LogSound(files, log) && Enters(files, files', log, claimed, more)
    ensures LogSound(files', log + more)
  {
    EntriesAreNew(files, files', log, claimed, more);
    EntriesAreFiles(files, files', log, claimed, more);
    forall i | 0 <= i < |files|
      ensures BeforeQueue(files'[i].status) ==> !InLog(log + more, files'[i].id)
      ensures AfterQueue(files'[i].status) ==> InLog(log + more, files'[i].id)
    {
      EntriesMatchStatuses(files, files', log, claimed, more, i);
    }
    hide InLog, HasFile, BeforeQueue, AfterQueue, KeepsSide, Listed;
  }

  lemma RoomKeepsLedger(db: Db, subject: nat, claimed: Files, storageBytes: Option<int>, now: int)
    requires MakeRoom(db, subject, claimed, storageBytes, now).Ok?
    ensures var roomy := MakeRoom(db, subject, claimed, storageBytes, now).value;
      roomy.usage == db.usage && roomy.outbox == db.outbox && roomy.nextOutboxId == db.nextOutboxId
  {
  }

  /** What the last statements of an admission change besides the files and the batch. */
  lemma QueueingEffects(db: Db, batchId: nat, snapshot: Snapshot, largeQueueBytes: int, now: int)
    requires batchId in db.batches
    requires AdmitTransaction(db, batchId, snapshot, largeQueueBytes, now).Ok?
    requires AdmitTransaction(db, batchId, snapshot, largeQueueBytes, now).value.files > 0
    ensures var db' := AdmitTransaction(db, batchId, snapshot, largeQueueBytes, now).value.db;
      var claimed := Claimed(db.files, batchId);
      var reserved := ReserveDaily(db, db.batches[batchId].subject, |claimed|, snapshot.dailyFiles, now);
      && reserved.Ok? && db'.usage == reserved.value.usage
      && db'.outbox == db.outbox + Requests(claimed, db.nextOutboxId, snapshot, largeQueueBytes, now)
      && db'.nextOutboxId == db.nextOutboxId + |claimed|
      && AdmitTransaction(db, batchId, snapshot, largeQueueBytes, now).value.files == |claimed|
  {
    var roomy, reserved := AdmitParts(db, batchId, snapshot, largeQueueBytes, now);
    hide AdmitTransaction, Claimed, FirstProblem, MakeRoom, Requests, QueueRows;
    RoomKeepsLedger(db, db.batches[batchId].subject, Claimed(db.files, batchId), snapshot.storageBytes, now);
  }

  lemma QueuesExtends(w: World, batchId: nat, snapshot: Snapshot, largeQueueBytes: int)
    requires Queues(w, batchId, snapshot, largeQueueBytes)
    ensures var w' := AfterAdmit(w, batchId, snapshot, largeQueueBytes);
      && w'.db == AdmitTransaction(w.db, batchId, snapshot, largeQueueBytes, w.clock).value.db && w'.sent == w.sent
      && w'.log == w.log + Entries(Claimed(w.db.files, batchId), w.db.batches[batchId].subject, DayOf(w.clock), snapshot.dailyFiles.Some?)
  {
    hide AdmitTransaction;
  }

  lemma AdmittedSides(db: Db, db': Db, batchId: nat, snapshot: Snapshot, now: int, evicted: Files)
    requires RowsSound(db) && batchId in db.batches && AdmissionOf(db, db', batchId, snapshot, now, evicted)
    ensures |db'.files| == |db.files|
    ensures forall i :: 0 <= i < |db.files| ==>
      if Listed(Claimed(db.files, batchId), db.files[i]) then IsQueued(db.files[i], db'.files[i])
      else KeepsSide(db.files[i], db'.files[i])
  {
    hide Rolled;
    var claimed := Claimed(db.files, batchId);
    var owned := OwnedBy(db.batches, db.batches[batchId].subject);
    ClaimedRows(db.files, batchId);
    forall i | 0 <= i < |db.files|
      ensures if Listed(claimed, db.files[i]) then IsQueued(db.files[i], db'.files[i])
              else KeepsSide(db.files[i], db'.files[i])
    {
      hide Claimed;
      assert AdmitsRow(db.files[i], db'.files[i], batchId, owned, evicted, RetentionEnd(snapshot, now), now);
      if Listed(claimed, db.files[i]) {
        var c :| c in claimed && c.id == db.files[i].id;
        SameRow(db.files, db.files[i], c);
      } else {
        assert db.files[i] !in claimed;
      }
    }
  }

  lemma AdmissionEnters(db: Db, db': Db, batchId: nat, snapshot: Snapshot, now: int, evicted: Files, log: seq<Entry>, more: seq<Entry>)
    requires RowsSound(db) && batchId in db.batches && AdmissionOf(db, db', batchId, snapshot, now, evicted)
    requires more == Entries(Claimed(db.files, batchId), db.batches[batchId].subject, DayOf(now), snapshot.dailyFiles.Some?)
    requires forall c :: c in Claimed(db.files, batchId) ==> c.inputEtag.Some?
    ensures Enters(db.files, db'.files, log, Claimed(db.files, batchId), more)
  {
    hide AdmissionOf, Claimed, KeepsSide, Listed, IsQueued;
    ClaimedRows(db.files, batchId);
    AdmittedSides(db, db', batchId, snapshot, now, evicted);
  }

  lemma AdmitKeepsLog(w: World, batchId: nat, snapshot: Snapshot, largeQueueBytes: int)
    requires RowsSound(w.db) && LogSound(w.db.files, w.log) && Queues(w, batchId, snapshot, largeQueueBytes)
    ensures var w' := AfterAdmit(w, batchId, snapshot, largeQueueBytes);
      LogSound(w'.db.files, w'.log)
  {
    hide AdmitTransaction, AdmissionOf, LogSound, Enters, Claimed, Entries, AfterAdmit, UsageSound;
    var w' := AfterAdmit(w, batchId, snapshot, largeQueueBytes);
    var claimed := Claimed(w.db.files, batchId);
    var more := Entries(claimed, w.db.batches[batchId].subject, DayOf(w.clock), snapshot.dailyFiles.Some?);
    QueuesExtends(w, batchId, snapshot, largeQueueBytes);
    var evicted := AdmissionEffects(w.db, batchId, snapshot, largeQueueBytes, w.clock);
    AdmittedAreMeasured(w.db, batchId, snapshot, largeQueueBytes, w.clock);
    AdmissionEnters(w.db, w'.db, batchId, snapshot, w.clock, evicted, w.log, more);
    AdmissionKeepsLog(w.db.files, w'.db.files, w.log, claimed, more);
  }

  lemma UsageSoundness(db: Db, db': Db, log: seq<Entry>)
    requires UsageSound(db, log) && db'.usage == db.usage
    ensures UsageSound(db', log)
  {
  }

  lemma AdmitKeepsUsage(w: World, batchId: nat, snapshot: Snapshot, largeQueueBytes: int)
    requires UsageSound(w.db, w.log) && Queues(w, batchId, snapshot, largeQueueBytes)
    ensures var w' := AfterAdmit(w, batchId, snapshot, largeQueueBytes);
      UsageSound(w'.db, w'.log)
  {
    var w' := AfterAdmit(w, batchId, snapshot, largeQueueBytes);
    QueueingEffects(w.db, batchId, snapshot, largeQueueBytes, w.clock);
    hide AdmitTransaction, Claimed, UsageSound, ReserveDaily, Requests;
    var claimed := Claimed(w.db.files, batchId);
    var subject := w.db.batches[batchId].subject;
    AdmissionKeepsUsage(w.db, w.log, claimed, subject, snapshot.dailyFiles, w.clock);
    UsageSoundness(ReserveDaily(w.db, subject, |claimed|, snapshot.dailyFiles, w.clock).value, w'.db, w'.log);
  }

  lemma RequestRows(outbox: seq<OutboxRow>, claimed: Files, firstId: nat, snapshot: Snapshot, largeQueueBytes: int, now: int)
    ensures Appends(outbox, outbox + Requests(claimed, firstId, snapshot, largeQueueBytes, now), claimed, firstId)
  {
  }

  lemma OutboxSoundness(db: Db, db': Db, log: seq<Entry>, sent: set<nat>)
    requires OutboxSound(db, log, sent) && db'.outbox == db.outbox && db'.nextOutboxId == db.nextOutboxId
    ensures OutboxSound(db', log, sent)
  {
  }

  lemma NextIsLog(db: Db, log: seq<Entry>, sent: set<nat>)
    requires OutboxSound(db, log, sent)
    ensures db.nextOutboxId == |log|
  {
  }

  lemma AdmitKeepsOutbox(w: World, batchId: nat, snapshot: Snapshot, largeQueueBytes: int)
    requires OutboxSound(w.db, w.log, w.sent) && Queues(w, batchId, snapshot, largeQueueBytes)
    ensures var w' := AfterAdmit(w, batchId, snapshot, largeQueueBytes);
      OutboxSound(w'.db, w'.log, w'.sent)
  {
    var w' := AfterAdmit(w, batchId, snapshot, largeQueueBytes);
    QueueingEffects(w.db, batchId, snapshot, largeQueueBytes, w.clock);
    hide AdmitTransaction, Claimed, OutboxSound, ReserveDaily, Requests, Appends, UsageSound;
    var claimed := Claimed(w.db.files, batchId);
    var more := Entries(claimed, w.db.batches[batchId].subject, DayOf(w.clock), snapshot.dailyFiles.Some?);
    NextIsLog(w.db, w.log, w.sent);
    RequestRows(w.db.outbox, claimed, |w.log|, snapshot, largeQueueBytes, w.clock);
    AdmissionKeepsOutbox(w.db, w.log, w.sent, w'.db.outbox, claimed, more);
    OutboxSoundness(w.db.(outbox := w'.db.outbox, nextOutboxId := |w.log| + |claimed|), w'.db, w'.log, w.sent);
  }

  lemma AdmitKeepsConserved(w: World, batchId: nat, snapshot: Snapshot, largeQueueBytes: int)
    requires RowsSound(w.db) && Conserved(w) && batchId in w.db.batches
    ensures Conserved(AfterAdmit(w, batchId, snapshot, largeQueueBytes))
  {
    hide AdmitTransaction, LogSound, OutboxSound, UsageSound, RowsSound;
    if Queues(w, batchId, snapshot, largeQueueBytes) {
      AdmitKeepsLog(w, batchId, snapshot, largeQueueBytes);
      AdmitKeepsUsage(w, batchId, snapshot, largeQueueBytes);
      AdmitKeepsOutbox(w, batchId, snapshot, largeQueueBytes);
    }
  }

  // ----- runs -----

  lemma StepKeepsConserved(w: World, step: Step, w': World)
    requires RowsSound(w.db) && Conserved(w) && Next(w, step, w')
    ensures Conserved(w')
  {
    hide LogSound, OutboxSound, UsageSound, RowsSound, AdmitTransaction;
    if step.Create? {
      if w'.db != w.db {
        CreateKeepsLog(w.db.files, w.log, step.batchId, step.ids, w.clock + UPLOAD_WINDOW_MS);
        UsageSoundness(w.db, w'.db, w.log);
        OutboxSoundness(w.db, w'.db, w.log, w.sent);
      }
    } else if step.Admit? {
      AdmitKeepsConserved(w, step.batchId, step.snapshot, step.largeQueueBytes);
    } else {
      UpdatesKeepSides(w, step, w');
      SidesKeepLog(w.db.files, w'.db.files, w.log);
      UsageSoundness(w.db, w'.db, w.log);
      if step.Publish? {
        PublishKeepsOutbox(w, step.claimed, step.sends, step.committed);
      } else {
        OutboxSoundness(w.db, w'.db, w.log, w.sent);
      }
    }
  }

  lemma {:induction false} RunsConserve(run: seq<World>, steps: seq<Step>, i: nat)
    requires IsRun(run, steps) && i < |run|
    ensures Conserved(run[i])
  {
    if i > 0 {
      hide *;
      StepOfRun(run, steps, i);
      RunsConserve(run, steps, i - 1);
      RunsAgree(run, steps, i - 1);
      StepKeepsConserved(run[i - 1], steps[i - 1], run[i]);
    }
  }

  /** Each file is queued at most once, and only queued files ever reach a worker or a result. */
  lemma QueuedAtMostOnce(run: seq<World>, steps: seq<Step>, i: nat)
    requires IsRun(run, steps) && i < |run|
    ensures forall j, k :: 0 <= j < k < |run[i].log| ==> run[i].log[j].fileId != run[i].log[k].fileId
    ensures forall f :: f in run[i].db.files ==>
      && (AfterQueue(f.status) ==> InLog(run[i].log, f.id))
      && (BeforeQueue(f.status) ==> !InLog(run[i].log, f.id))
  {
    RunsConserve(run, steps, i);
  }

  ghost predicate OneRowPerFile(outbox: seq<OutboxRow>) {
    forall row, other :: row in outbox && other in outbox && row.fileId == other.fileId ==> row == other
  }

  /** One outbox row was ever made for each admission, in order; it asks for that file in its batch with
      the tag that was measured, and it is either still pending or its message was sent at least once. */
  lemma PendingOrSent(run: seq<World>, steps: seq<Step>, i: nat, k: nat)
    requires IsRun(run, steps) && i < |run| && k < |run[i].log|
    ensures run[i].db.nextOutboxId == |run[i].log|
    ensures HasFile(run[i].db.files, run[i].log[k])
    ensures k in run[i].sent || exists row :: row in run[i].db.outbox && row.id == k && Asks(row, run[i].log[k])
    ensures OneRowPerFile(run[i].db.outbox)
  {
    RunsConserve(run, steps, i);
    var outbox := run[i].db.outbox;
    if k !in run[i].sent {
      var j :| 0 <= j < |outbox| && outbox[j].id == k;
      assert outbox[j] in outbox;
    }
    forall row, other | row in outbox && other in outbox && row.fileId == other.fileId
      ensures row == other
    {
      assert row.id == other.id;
    }
  }

  /** The usage row of a day is the number of metered files admitted on it. */
  lemma UsageIsAdmissions(run: seq<World>, steps: seq<Step>, i: nat, subject: nat, day: int)
    requires IsRun(run, steps) && i < |run|
    ensures UsageOf(run[i].db.usage, subject, day) == Metered(run[i].log, subject, day)
  {
    RunsConserve(run, steps, i);
  }

  // ----- the daily quota -----

  ghost predicate FixedQuota(run: seq<World>, steps: seq<Step>, subject: nat, dailyFiles: int) {
    |run| == |steps| + 1
    && forall j :: 0 <= j < |steps| && AdmitsFor(run[j], steps[j], subject) ==> steps[j].snapshot.dailyFiles == Some(dailyFiles)
  }

  predicate AllMetered(log: seq<Entry>, subject: nat) {
    forall k :: 0 <= k < |log| && log[k].subject == subject ==> log[k].metered
  }

  lemma StepKeepsQuota(w: World, step: Step, w': World, subject: nat, dailyFiles: nat, day: int)
    requires Next(w, step, w') && UsageOf(w.db.usage, subject, day) <= dailyFiles && AllMetered(w.log, subject)
    requires AdmitsFor(w, step, subject) ==> step.snapshot.dailyFiles == Some(dailyFiles)
    ensures UsageOf(w'.db.usage, subject, day) <= dailyFiles && AllMetered(w'.log, subject)
  {
    if step.Admit? && w' != w {
      var roomy, reserved := AdmitParts(w.db, step.batchId, step.snapshot, step.largeQueueBytes, w.clock);
      hide AdmitTransaction, Claimed, MakeRoom, FirstProblem;
      var claimed := Claimed(w.db.files, step.batchId);
      RoomKeepsLedger(w.db, w.db.batches[step.batchId].subject, claimed, step.snapshot.storageBytes, w.clock);
      assert w'.db.usage == reserved.usage;
    } else if !step.Create? && !step.Admit? {
      UpdatesKeepSides(w, step, w');
    }
  }

  /** Under one plan, a subject never has more files admitted in a day than its quota, and the usage
      row counts all of them. */
  lemma {:induction false} QuotaHolds(run: seq<World>, steps: seq<Step>, subject: nat, dailyFiles: nat, day: int, i: nat)
    requires IsRun(run, steps) && FixedQuota(run, steps, subject, dailyFiles) && i < |run|
    ensures UsageOf(run[i].db.usage, subject, day) <= dailyFiles
    ensures AllMetered(run[i].log, subject)
  {
    if i > 0 {
      QuotaHolds(run, steps, subject, dailyFiles, day, i - 1);
      StepKeepsQuota(run[i - 1], steps[i - 1], run[i], subject, dailyFiles, day);
    }
  }

  /** The step queues files of the subject on that day under a plan with a quota. */
  predicate MetersFor(w: World, step: Step, subject: nat, day: int) {
    QueuesFor(w, step, subject) && DayOf(w.clock) == day && step.snapshot.dailyFiles.Some?
  }

  /** The quota in force: that of the last metered admission of the subject on that day. */
  function QuotaAt(run: seq<World>, steps: seq<Step>, subject: nat, day: int, i: nat): Option<int>
    requires |run| == |steps| + 1 && i < |run|
  {
    if i == 0 then None
    else if MetersFor(run[i - 1], steps[i - 1], subject, day) then steps[i - 1].snapshot.dailyFiles
    else QuotaAt(run, steps, subject, day, i - 1)
  }

  lemma StepMovesUsage(w: World, step: Step, w': World, subject: nat, day: int)
    requires Next(w, step, w')
    ensures if MetersFor(w, step, subject, day)
            then 0 < UsageOf(w'.db.usage, subject, day) <= step.snapshot.dailyFiles.value
            else UsageOf(w'.db.usage, subject, day) == UsageOf(w.db.usage, subject, day)
  {
    if step.Admit? {
      if Queues(w, step.batchId, step.snapshot, step.largeQueueBytes) {
        QueueingEffects(w.db, step.batchId, step.snapshot, step.largeQueueBytes, w.clock);
        QueuesExtends(w, step.batchId, step.snapshot, step.largeQueueBytes);
        hide AdmitTransaction, Claimed, Requests, AfterAdmit;
      }
    } else if !step.Create? {
      UpdatesKeepSides(w, step, w');
    }
  }

  /** Whatever plans there are: in every reachable state the files of a subject metered on a day are
      within the quota of the last metered admission of that day, and none without one. */
  lemma {:induction false} QuotaInForce(run: seq<World>, steps: seq<Step>, subject: nat, day: int, i: nat)
    requires IsRun(run, steps) && i < |run|
    ensures Metered(run[i].log, subject, day) == UsageOf(run[i].db.usage, subject, day)
    ensures match QuotaAt(run, steps, subject, day, i)
      case None => Metered(run[i].log, subject, day) == 0
      case Some(quota) => 0 < Metered(run[i].log, subject, day) <= quota
  {
    UsageIsAdmissions(run, steps, i, subject, day);
    if i > 0 {
      hide Next, MetersFor, Metered, UsageOf, IsRun;
      StepOfRun(run, steps, i);
      QuotaInForce(run, steps, subject, day, i - 1);
      StepMovesUsage(run[i - 1], steps[i - 1], run[i], subject, day);
    }
  }
}
