/** The status of a batch, computed from its files
    (apps/conversion-api/src/app/lifecycle/batch-rollup.ts). */
module BatchRollup {
  import opened Prelude
  import opened Conversions

  predicate IsTerminal(s: FileStatus) {
    s == Completed || s == Failed || s == Cancelled || s == Expired
  }

  predicate IsLive(s: FileStatus) {
    s == Uploading || s == Ready || s == Queued || s == Processing || s == Completed
  }

  predicate IsOpen(s: BatchStatus) {
    s == BatchUploading || s == BatchQueued || s == BatchProcessing
  }

  predicate Every(files: Files, batchId: nat, p: FileStatus -> bool) {
    forall i :: 0 <= i < |files| && files[i].batchId == batchId ==> p(files[i].status)
  }

  predicate AllTerminal(files: Files, batchId: nat) {
    Every(files, batchId, IsTerminal)
  }

  predicate AllExpired(files: Files, batchId: nat) {
    Every(files, batchId, (s: FileStatus) => s == Expired)
  }

  predicate AllCompleted(files: Files, batchId: nat) {
    Every(files, batchId, (s: FileStatus) => s == Completed)
  }

  predicate NoneCompleted(files: Files, batchId: nat) {
    Every(files, batchId, (s: FileStatus) => s != Completed)
  }

  /** What the files call for; nothing while one of them is not terminal. */
  function Outcome(files: Files, batchId: nat): Option<BatchStatus> {
    if !AllTerminal(files, batchId) then None
    else if AllExpired(files, batchId) then Some(BatchExpired)
    else if AllCompleted(files, batchId) then Some(BatchCompleted)
    else if NoneCompleted(files, batchId) then Some(BatchFailed)
    else Some(BatchPartial)
  }

  /** Open batches take any outcome; a completed or partial one can still expire. */
  predicate Replaces(outcome: BatchStatus, status: BatchStatus) {
    IsOpen(status) || (outcome == BatchExpired && (status == BatchCompleted || status == BatchPartial))
  }

  function Rolled(files: Files, batchId: nat, status: BatchStatus): BatchStatus {
    match Outcome(files, batchId)
    case None => status
    case Some(outcome) => if Replaces(outcome, status) then outcome else status
  }

  /** Counts the statuses of the batch's files and updates the batch when they call for it; answers
      the new status of a batch that it updated. */
  method RollUpBatch(files: Files, batchId: nat, status: BatchStatus) returns (next: BatchStatus, rolled: Option<BatchStatus>)
    ensures next == Rolled(files, batchId, status)
    ensures rolled == if Outcome(files, batchId).Some? && Replaces(Outcome(files, batchId).value, status)
                      then Outcome(files, batchId) else None
  {
    var total, completed, expired := 0, 0, 0;
    for i := 0 to |files|
      invariant AllTerminal(files[..i], batchId)
      invariant completed <= total && expired <= total
      invariant AllCompleted(files[..i], batchId) <==> completed == total
      invariant NoneCompleted(files[..i], batchId) <==> completed == 0
      invariant AllExpired(files[..i], batchId) <==> expired == total
    {
      assert files[..i + 1] == files[..i] + [files[i]];
      if files[i].batchId == batchId {
        if !IsTerminal(files[i].status) {
          return status, None;
        }
        total := total + 1;
        completed := completed + if files[i].status == Completed then 1 else 0;
        expired := expired + if files[i].status == Expired then 1 else 0;
      }
    }
    assert files[..|files|] == files;
    var allExpired := expired == total;
    var outcome :=
      if allExpired then BatchExpired
      else if completed == total then BatchCompleted
      else if completed == 0 then BatchFailed
      else BatchPartial;
    var applies := IsOpen(status) || (allExpired && (status == BatchCompleted || status == BatchPartial));
    return if applies then outcome else status, if applies then Some(outcome) else None;
  }

  // ----- agreement of a batch with its files -----

  /** What a batch status says about the files of the batch, in every reachable state. */
  predicate Agrees(files: Files, batchId: nat, status: BatchStatus) {
    && (IsOpen(status) <==> !AllTerminal(files, batchId))
    && (status == BatchExpired <==> AllExpired(files, batchId))
    && (status == BatchCompleted ==> Every(files, batchId, (s: FileStatus) => s == Completed || s == Expired))
    && (status == BatchFailed ==> NoneCompleted(files, batchId))
    && (status == BatchPartial ==> !AllCompleted(files, batchId))
    && status != BatchCancelled
  }

  /** How far a batch is. */
  function Rank(status: BatchStatus): nat {
    match status
    case BatchUploading => 0
    case BatchQueued => 1
    case BatchProcessing => 2
    case BatchExpired => 4
    case _ => 3
  }

  /** The moves of a file: an open one goes anywhere, a completed one may expire, and any other
      terminal status is final. */
  predicate FileMoves(f: FileRow, f': FileRow) {
    && f'.id == f.id && f'.batchId == f.batchId
    && (IsTerminal(f.status) ==> f'.status == f.status || (f.status == Completed && f'.status == Expired))
  }

  predicate FilesMove(files: Files, files': Files, batchId: nat) {
    |files| == |files'| && forall i :: 0 <= i < |files| ==>
      files'[i].batchId == files[i].batchId && (files[i].batchId == batchId ==> FileMoves(files[i], files'[i]))
  }

  lemma StayTerminal(files: Files, files': Files, batchId: nat)
    requires FilesMove(files, files', batchId) && AllTerminal(files, batchId)
    ensures AllTerminal(files', batchId)
    ensures AllExpired(files, batchId) ==> AllExpired(files', batchId)
  {
  }

  lemma StillSaid(files: Files, files': Files, batchId: nat)
    requires FilesMove(files, files', batchId) && AllTerminal(files, batchId)
    ensures NoneCompleted(files, batchId) && !AllExpired(files, batchId) ==>
      NoneCompleted(files', batchId) && !AllExpired(files', batchId)
    ensures !AllCompleted(files, batchId) ==> !AllCompleted(files', batchId)
    ensures Every(files, batchId, (s: FileStatus) => s == Completed || s == Expired) ==>
      Every(files', batchId, (s: FileStatus) => s == Completed || s == Expired)
  {
    if NoneCompleted(files, batchId) && !AllExpired(files, batchId) {
      var i :| 0 <= i < |files| && files[i].batchId == batchId && files[i].status != Expired;
      assert files'[i].status == files[i].status;
    }
    if !AllCompleted(files, batchId) {
      var i :| 0 <= i < |files| && files[i].batchId == batchId && files[i].status != Completed;
      assert files'[i].status == files[i].status;
    }
  }

  /** Rolling up restores the agreement after any moves of the files, and only moves the batch on. */
  lemma RollUpRestores(files: Files, files': Files, batchId: nat, status: BatchStatus)
    requires Agrees(files, batchId, status) && FilesMove(files, files', batchId)
    ensures Agrees(files', batchId, Rolled(files', batchId, status))
    ensures Rank(status) <= Rank(Rolled(files', batchId, status))
  {
    if !IsOpen(status) {
      StayTerminal(files, files', batchId);
      if status == BatchFailed || status == BatchPartial || status == BatchCompleted {
        StillSaid(files, files', batchId);
      }
      if status == BatchExpired {
        assert AllExpired(files', batchId);
      }
    }
  }

  /** A completed batch still has a completed file, a failed one a failed or cancelled file. */
  lemma ClosedBatchShows(files: Files, batchId: nat, status: BatchStatus)
    requires Agrees(files, batchId, status)
    ensures status == BatchCompleted ==>
      exists i :: 0 <= i < |files| && files[i].batchId == batchId && files[i].status == Completed
    ensures status == BatchFailed ==>
      exists i :: 0 <= i < |files| && files[i].batchId == batchId && (files[i].status == Failed || files[i].status == Cancelled)
  {
    if status == BatchCompleted || status == BatchFailed {
      var i :| 0 <= i < |files| && files[i].batchId == batchId && files[i].status != Expired;
      assert IsTerminal(files[i].status);
    }
  }

  /** Moves that open or close nothing need no roll-up. */
  predicate QuietMoves(files: Files, files': Files, batchId: nat) {
    |files| == |files'| && forall i :: 0 <= i < |files| ==>
      && files'[i].batchId == files[i].batchId
      && (files[i].batchId == batchId ==>
           files'[i].status == files[i].status || (!IsTerminal(files[i].status) && !IsTerminal(files'[i].status)))
  }

  lemma SameStatuses(files: Files, files': Files, batchId: nat)
    requires QuietMoves(files, files', batchId)
    ensures AllTerminal(files', batchId) <==> AllTerminal(files, batchId)
    ensures AllExpired(files', batchId) <==> AllExpired(files, batchId)
    ensures AllCompleted(files', batchId) <==> AllCompleted(files, batchId)
    ensures AllTerminal(files, batchId) ==> (NoneCompleted(files', batchId) <==> NoneCompleted(files, batchId))
    ensures Every(files, batchId, (s: FileStatus) => s == Completed || s == Expired) ==>
      Every(files', batchId, (s: FileStatus) => s == Completed || s == Expired)
  {
    if !AllTerminal(files, batchId) {
      var i :| 0 <= i < |files| && files[i].batchId == batchId && !IsTerminal(files[i].status);
      assert !IsTerminal(files'[i].status);
    }
    if !AllExpired(files, batchId) {
      var i :| 0 <= i < |files| && files[i].batchId == batchId && files[i].status != Expired;
      assert files'[i].status != Expired;
    }
    if !AllCompleted(files, batchId) {
      var i :| 0 <= i < |files| && files[i].batchId == batchId && files[i].status != Completed;
      assert files'[i].status != Completed;
    }
  }

  lemma QuietMovesAgree(files: Files, files': Files, batchId: nat, status: BatchStatus, status': BatchStatus)
    requires Agrees(files, batchId, status) && QuietMoves(files, files', batchId)
    requires status' == status || (IsOpen(status) && IsOpen(status'))
    ensures Agrees(files', batchId, status')
  {
    SameStatuses(files, files', batchId);
  }
}
