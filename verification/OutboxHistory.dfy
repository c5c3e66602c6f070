/** What becomes of a request in the outbox over whole runs
    (apps/conversion-api/src/app/outbox/outbox-publisher.service.ts). */
module OutboxHistory {
  import opened Prelude
  import opened Conversions
  import opened Admission
  import opened Lifecycle
  import opened Outbox
  import opened ConversionRuns
  import opened BatchAgreement
  import opened AdmissionLedger
  import opened FileMeaning
  import M = AdmissionMeaning

  /** The round sends the message of this request, and the send goes well or fails. */
  ghost predicate Sends(step: Step, id: nat, outcome: bool) {
    step.Publish? && exists p :: 0 <= p < |step.sends| && p < |step.claimed| && step.sends[p] == outcome && step.claimed[p].id == id
  }

  /** And its transaction commits. */
  ghost predicate Delivers(step: Step, id: nat) {
    Sends(step, id, true) && step.committed
  }

  ghost predicate Fails(step: Step, id: nat) {
    Sends(step, id, false) && step.committed
  }

  // ----- one step -----

  lemma RequestIsFresh(w: World, step: Step, w': World, claimed: Files, row: OutboxRow)
    requires step.Admit? && row in w'.db.outbox && row !in w.db.outbox
    requires |w'.db.outbox| == |w.db.outbox| + |claimed|
    requires forall i :: 0 <= i < |w.db.outbox| ==> w'.db.outbox[i] == w.db.outbox[i]
    requires forall i :: 0 <= i < |claimed| ==>
      IsRequest(w'.db.outbox[|w.db.outbox| + i], claimed[i], w.db.nextOutboxId + i, step.snapshot, step.largeQueueBytes, w.clock)
    ensures w.db.nextOutboxId <= row.id && row.attempts == 0
  {
    var k :| 0 <= k < |w'.db.outbox| && w'.db.outbox[k] == row;
    assert k >= |w.db.outbox|;
    var i := k - |w.db.outbox|;
    assert IsRequest(w'.db.outbox[|w.db.outbox| + i], claimed[i], w.db.nextOutboxId + i, step.snapshot, step.largeQueueBytes, w.clock);
  }

  /** An admission adds rows with fresh identifiers, due at once. */
  lemma AdmissionAddsRows(w: World, step: Step, w': World)
    requires RowsSound(w.db) && Next(w, step, w') && step.Admit?
    ensures w.db.nextOutboxId <= w'.db.nextOutboxId
    ensures forall row :: row in w'.db.outbox ==>
      row in w.db.outbox || (w.db.nextOutboxId <= row.id && row.attempts == 0)
  {
    if FileMeaning.Admits(w, step) {
      var claimed := RequestsExactly(w, step, w');
      hide *;
      forall row | row in w'.db.outbox && row !in w.db.outbox
        ensures w.db.nextOutboxId <= row.id && row.attempts == 0
      {
        RequestIsFresh(w, step, w', claimed, row);
      }
    } else {
      M.TransactionExactly(w.db, step.batchId, step.snapshot, step.largeQueueBytes, w.clock);
      hide M.Succeeds, M.Fails, M.SomethingReady;
    }
  }

  /** A round works on rows that are due: what it delivers is gone, what fails waits for its delay. */
  lemma RoundMoves(w: World, step: Step, w': World, row': OutboxRow) returns (row: OutboxRow)
    requires DistinctRows(w.db.outbox) && Next(w, step, w') && step.Publish? && row' in w'.db.outbox
    ensures row in w.db.outbox && row.id == row'.id && !Delivers(step, row.id)
    ensures if Fails(step, row.id)
            then row.nextAttemptAt <= w.clock && row'.attempts == row.attempts + 1 && row'.nextAttemptAt == w.clock + Backoff(row.attempts)
            else row' == row
  {
    hide Backoff;
    var delivered, failed := IdsWith(step.claimed, step.sends, true), IdsWith(step.claimed, step.sends, false);
    if step.committed {
      RoundAddsNothing(w.db.outbox, delivered, failed, w.clock, row');
      row :| row in w.db.outbox && SameRequest(row, row')
             && (if row'.id in failed
                 then row'.attempts == row.attempts + 1 && row'.nextAttemptAt == w.clock + Backoff(row.attempts)
                 else row' == row);
      assert Fails(step, row.id) <==> row.id in failed;
      if row.id in failed {
        var p :| 0 <= p < |step.sends| && step.claimed[p].id == row.id;
        assert step.claimed[p] in w.db.outbox;
      }
    } else {
      row := row';
    }
  }

  /** Every row of the outbox is a row of the step before, or a request of this admission. */
  lemma RowsComeFrom(w: World, step: Step, w': World, row': OutboxRow) returns (row: OutboxRow)
    requires RowsSound(w.db) && Conserved(w) && Next(w, step, w') && row' in w'.db.outbox && row'.id < w.db.nextOutboxId
    ensures row in w.db.outbox && row.id == row'.id && !Delivers(step, row.id)
    ensures if Fails(step, row.id)
            then row.nextAttemptAt <= w.clock && row'.attempts == row.attempts + 1 && row'.nextAttemptAt == w.clock + Backoff(row.attempts)
            else row' == row
  {
    hide Backoff, RowsSound, LogSound, UsageSound;
    if step.Publish? {
      hide AfterPublish, Asks;
      row := RoundMoves(w, step, w', row');
    } else {
      row := row';
      if step.Admit? {
        hide *;
        AdmissionAddsRows(w, step, w');
      }
    }
  }

  /** A request made by this step has not been tried. */
  lemma NewRequest(w: World, step: Step, w': World, row: OutboxRow)
    requires RowsSound(w.db) && Conserved(w) && Next(w, step, w') && row in w'.db.outbox && row.id >= w.db.nextOutboxId
    ensures row.attempts == 0
  {
    hide RowsSound, LogSound, UsageSound;
    if step.Publish? {
      var _ := RoundMoves(w, step, w', row);
    } else if step.Admit? {
      AdmissionAddsRows(w, step, w');
    }
  }

  /** Identifiers are given out in order, and only what has one is sent. */
  lemma StepKeepsIds(w: World, step: Step, w': World, id: nat, outcome: bool)
    requires RowsSound(w.db) && Conserved(w) && Next(w, step, w')
    ensures w.db.nextOutboxId <= w'.db.nextOutboxId
    ensures Sends(step, id, outcome) ==> id < w.db.nextOutboxId
  {
    hide RowsSound, LogSound, UsageSound;
    if step.Admit? {
      AdmissionAddsRows(w, step, w');
    }
  }

  // ----- runs -----

  /** The part of a run that the lemmas below step over. */
  lemma SoundStep(run: seq<World>, steps: seq<Step>, n: nat)
    requires IsRun(run, steps) && 0 < n < |run|
    ensures |run| == |steps| + 1 && Next(run[n - 1], steps[n - 1], run[n])
    ensures RowsSound(run[n - 1].db) && Conserved(run[n - 1])
  {
    hide *;
    StepOfRun(run, steps, n);
    RunsConserve(run, steps, n - 1);
    RunsAgree(run, steps, n - 1);
  }

  lemma {:induction false} IdsStay(run: seq<World>, steps: seq<Step>, i: nat, n: nat)
    requires IsRun(run, steps) && i <= n < |run|
    ensures run[i].db.nextOutboxId <= run[n].db.nextOutboxId
  {
    hide *;
    if i < n {
      SoundStep(run, steps, n);
      IdsStay(run, steps, i, n - 1);
      StepKeepsIds(run[n - 1], steps[n - 1], run[n], 0, true);
    }
  }

  /** The committed rounds among the first `n` steps in which sending this request failed. */
  ghost function Failures(steps: seq<Step>, n: nat, id: nat): nat
    requires n <= |steps|
  {
    if n == 0 then 0 else Failures(steps, n - 1, id) + if Fails(steps[n - 1], id) then 1 else 0
  }

  lemma {:induction false} UnknownNeverFails(run: seq<World>, steps: seq<Step>, n: nat, id: nat)
    requires IsRun(run, steps) && n < |run| && run[n].db.nextOutboxId <= id
    ensures n <= |steps| && Failures(steps, n, id) == 0
  {
    hide Next, RowsSound, Conserved, Sends;
    if n > 0 {
      SoundStep(run, steps, n);
      StepKeepsIds(run[n - 1], steps[n - 1], run[n], id, false);
      UnknownNeverFails(run, steps, n - 1, id);
    }
  }

  /** The attempts that a row counts are exactly the committed rounds in which sending it failed. */
  lemma {:induction false} AttemptsAreFailures(run: seq<World>, steps: seq<Step>, n: nat, row: OutboxRow)
    requires IsRun(run, steps) && n < |run| && row in run[n].db.outbox
    ensures n <= |steps| && row.attempts == Failures(steps, n, row.id)
  {
    hide Next, RowsSound, Conserved, Sends, Delivers, Backoff;
    if n > 0 {
      SoundStep(run, steps, n);
      if row.id < run[n - 1].db.nextOutboxId {
        var before := RowsComeFrom(run[n - 1], steps[n - 1], run[n], row);
        AttemptsAreFailures(run, steps, n - 1, before);
      } else {
        NewRequest(run[n - 1], steps[n - 1], run[n], row);
        UnknownNeverFails(run, steps, n - 1, row.id);
        StepKeepsIds(run[n - 1], steps[n - 1], run[n], row.id, false);
      }
    }
  }

  lemma SentIsKnown(run: seq<World>, steps: seq<Step>, i: nat, n: nat, id: nat)
    requires IsRun(run, steps) && i <= n < |run| && i < |steps| && (Delivers(steps[i], id) || Fails(steps[i], id))
    ensures id < run[n].db.nextOutboxId
  {
    hide Next, RowsSound, Conserved, Sends;
    LengthOfRun(run, steps);
    SoundStep(run, steps, i + 1);
    StepKeepsIds(run[i], steps[i], run[i + 1], id, true);
    StepKeepsIds(run[i], steps[i], run[i + 1], id, false);
    IdsStay(run, steps, i, n);
  }

  /** After a failure a row is not due before its delay is over, whatever happens to it in between. */
  lemma {:induction false} FailedRowWaits(run: seq<World>, steps: seq<Step>, i: nat, n: nat, row: OutboxRow)
    requires IsRun(run, steps) && i < n < |run| && i < |steps| && Fails(steps[i], row.id) && row in run[n].db.outbox
    ensures run[i].clock + Backoff(Failures(steps, i, row.id)) <= row.nextAttemptAt
    ensures (forall k :: i < k < n ==> !Fails(steps[k], row.id)) ==>
      row.nextAttemptAt == run[i].clock + Backoff(Failures(steps, i, row.id))
  {
    hide *;
    SentIsKnown(run, steps, i, n - 1, row.id);
    SoundStep(run, steps, n);
    var before := RowsComeFrom(run[n - 1], steps[n - 1], run[n], row);
    AttemptsAreFailures(run, steps, n - 1, before);
    if i < n - 1 {
      FailedRowWaits(run, steps, i, n - 1, before);
      BackoffGrows(before.attempts, before.attempts);
    }
  }

  /** Retries are spaced: after a failed attempt a request is not sent again before the delay that its
      failures so far call for, by any instance. */
  lemma RetriesAreSpaced(run: seq<World>, steps: seq<Step>, i: nat, j: nat, id: nat, outcome: bool)
    requires IsRun(run, steps) && i < j < |steps| && Fails(steps[i], id) && Sends(steps[j], id, outcome)
    ensures j < |run| && run[i].clock + Backoff(Failures(steps, i, id)) <= run[j].clock
  {
    hide RowsSound, Conserved, Fails, Backoff, Failures, AfterPublish;
    LengthOfRun(run, steps);
    SoundStep(run, steps, j + 1);
    var p :| 0 <= p < |steps[j].sends| && p < |steps[j].claimed| && steps[j].claimed[p].id == id;
    var row := steps[j].claimed[p];
    assert row in run[j].db.outbox && row.nextAttemptAt <= run[j].clock;
    FailedRowWaits(run, steps, i, j, row);
  }

  /** A delivered request is gone for good. */
  lemma {:induction false} DeliveredIsGone(run: seq<World>, steps: seq<Step>, i: nat, n: nat, row: OutboxRow)
    requires IsRun(run, steps) && i < n < |run| && i < |steps| && Delivers(steps[i], row.id)
    ensures row !in run[n].db.outbox
  {
    hide *;
    if row in run[n].db.outbox {
      SentIsKnown(run, steps, i, n - 1, row.id);
      SoundStep(run, steps, n);
      var before := RowsComeFrom(run[n - 1], steps[n - 1], run[n], row);
      if i < n - 1 {
        DeliveredIsGone(run, steps, i, n - 1, before);
      }
    }
  }

  /** So a message is sent again after a good send only if the transaction of that round failed. */
  lemma DeliveredOnce(run: seq<World>, steps: seq<Step>, i: nat, j: nat, id: nat, outcome: bool)
    requires IsRun(run, steps) && i < j < |steps| && Delivers(steps[i], id)
    ensures !Sends(steps[j], id, outcome)
  {
    hide RowsSound, Conserved, Delivers, AfterPublish;
    LengthOfRun(run, steps);
    SoundStep(run, steps, j + 1);
    if Sends(steps[j], id, outcome) {
      var p :| 0 <= p < |steps[j].sends| && p < |steps[j].claimed| && steps[j].claimed[p].id == id;
      DeliveredIsGone(run, steps, i, j, steps[j].claimed[p]);
    }
  }

  /** And no request is stuck: as soon as it is due, a round that takes it alone, sends it and commits is
      possible and removes it. */
  lemma PendingCanBeSent(run: seq<World>, steps: seq<Step>, n: nat, row: OutboxRow) returns (due: World, after: World)
    requires IsRun(run, steps) && n < |run| && row in run[n].db.outbox
    ensures Next(run[n], Tick(due.clock), due) && due.clock == if run[n].clock < row.nextAttemptAt then row.nextAttemptAt else run[n].clock
    ensures Next(due, Publish([row], [true], true), after)
    ensures row.id in after.sent && forall other :: other in after.db.outbox <==> other in run[n].db.outbox && other != row
  {
    RunsConserve(run, steps, n);
    hide LogSound, UsageSound, Backoff;
    due := run[n].(clock := if run[n].clock < row.nextAttemptAt then row.nextAttemptAt else run[n].clock);
    after := AfterPublish(due, [row], [true], true);
    var delivered, failed := IdsWith([row], [true], true), IdsWith([row], [true], false);
    assert [true][0] && delivered == {row.id} && failed == {};
    forall other
      ensures other in after.db.outbox <==> other in run[n].db.outbox && other != row
    {
      if other in after.db.outbox {
        RoundAddsNothing(due.db.outbox, delivered, failed, due.clock, other);
      } else if other in run[n].db.outbox && other != row {
        RoundKeeps(due.db.outbox, delivered, failed, due.clock, other);
      }
    }
  }
}
