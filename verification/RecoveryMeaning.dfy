/** What a recovery command decides and writes, spelled out on the rows
    (apps/notifications/src/app/operations/email-recovery.service.ts). */
module RecoveryMeaning {
  import opened Prelude
  import opened FeedbackPolicy
  import opened Destinations
  import opened Recovery

  /** A request starts from a suppressed mailbox, completion and failure from a pending recovery. */
  predicate Starts(row: Destination, action: RecoveryAction) {
    if action == Requested then row.status == Suppressed else row.status == RecoveryPending
  }

  predicate Named(rows: Table, command: Command, k: RecipientHash) {
    k in command.aliases && k in rows
  }

  ghost predicate SomeRow(rows: Table, command: Command) {
    exists k :: Named(rows, command, k)
  }

  ghost predicate HasAudit(audits: seq<Audit>, command: Command) {
    exists audit :: audit in audits && audit.operationId == command.operationId
  }

  /** The named revision is the greatest of the rows. */
  ghost predicate AtRevision(rows: Table, command: Command) {
    && (forall k :: Named(rows, command, k) ==> rows[k].suppressionRevision <= command.expectedRevision)
    && exists k :: Named(rows, command, k) && rows[k].suppressionRevision == command.expectedRevision
  }

  /** Every audit of the operation is of the same action and evidence, and of a row that the command
      names, and the named revision is the greatest among them. */
  ghost predicate RepeatsAudits(rows: Table, audits: seq<Audit>, command: Command) {
    && (forall audit :: audit in audits && audit.operationId == command.operationId ==>
         && Named(rows, command, audit.destination) && audit.action == command.action && audit.evidence == command.evidence
         && audit.previousStatus == (if command.action == Requested then Suppressed else RecoveryPending)
         && audit.nextStatus == (match command.action
                                 case Requested => RecoveryPending case Completed => Active case FailedAction => Suppressed)
         && audit.suppressionRevision <= command.expectedRevision)
    && exists audit :: audit in audits && audit.operationId == command.operationId
                       && audit.suppressionRevision == command.expectedRevision
  }

  lemma RevisionMeans(rows: Table, command: Command)
    ensures AtRevision(rows, command) <==>
      IsMaximum(command.expectedRevision, set k | k in Found(rows, command.aliases) :: rows[k].suppressionRevision)
  {
    var revisions := set k | k in Found(rows, command.aliases) :: rows[k].suppressionRevision;
    assert forall k :: k in Found(rows, command.aliases) ==> rows[k].suppressionRevision in revisions;
    assert forall k :: k in Found(rows, command.aliases) <==> Named(rows, command, k);
  }

  lemma AuditsMean(rows: Table, audits: seq<Audit>, command: Command, recorded: set<Audit>)
    requires forall audit :: audit in recorded <==> audit in audits && audit.operationId == command.operationId
    ensures IsExactReplay(rows, recorded, command) <==> RepeatsAudits(rows, audits, command)
  {
    var revisions := set audit | audit in recorded :: audit.suppressionRevision;
    assert forall audit :: audit in recorded ==> audit.suppressionRevision in revisions;
  }

  /** What the first half of the transaction answers, both ways. */
  lemma DecisionExactly(rows: Table, audits: seq<Audit>, command: Command)
    ensures var decision := Decide(rows, audits, command);
      if !SomeRow(rows, command) then decision == NoDestination
      else if HasAudit(audits, command) then
        decision == if RepeatsAudits(rows, audits, command) then Replayed else OperationConflict
      else if (forall k :: Named(rows, command, k) ==> Starts(rows[k], command.action)) && AtRevision(rows, command) then
        decision.Proceed?
        && (forall k :: k in decision.revisions <==> Named(rows, command, k))
        && (forall k :: k in decision.revisions ==> decision.revisions[k] == rows[k].suppressionRevision)
      else decision == WrongState
  {
    var found := Found(rows, command.aliases);
    var recorded := AuditsOf(audits, command.operationId);
    assert forall k :: k in found <==> Named(rows, command, k);
    assert forall audit :: audit in recorded <==> audit in audits && audit.operationId == command.operationId;
    assert SomeRow(rows, command) <==> found != {};
    assert HasAudit(audits, command) <==> recorded != {};
    RevisionMeans(rows, command);
    AuditsMean(rows, audits, command, recorded);
  }

  /** The row after a committed command: a request blocks it further, a failure suppresses it again, and a
      completion frees it of its reason and its time of suppression; nothing else of a row changes. */
  predicate Becomes(row: Destination, row': Destination, action: RecoveryAction) {
    && row'.suppressionRevision == row.suppressionRevision
    && row'.facts.lastDeliveryId == row.facts.lastDeliveryId && row'.facts.lastEventId == row.facts.lastEventId
    && row'.facts.last == row.facts.last
    && match action
       case Requested => row'.status == RecoveryPending && row'.facts.reasonCode == row.facts.reasonCode && row'.suppressedAt == row.suppressedAt
       case Completed => row'.status == Active && row'.facts.reasonCode == None && row'.suppressedAt == None
       case FailedAction => row'.status == Suppressed && row'.facts.reasonCode == row.facts.reasonCode && row'.suppressedAt == row.suppressedAt
  }

  /** Every row that was read is as it was read. */
  ghost predicate StillAsRead(rows: Table, command: Command, revisions: map<RecipientHash, nat>) {
    forall k :: k in revisions ==>
      k in rows && Starts(rows[k], command.action) && rows[k].suppressionRevision == revisions[k]
  }

  ghost predicate IsAuditOf(audit: Audit, command: Command, revisions: map<RecipientHash, nat>) {
    && audit.destination in revisions && audit.suppressionRevision == revisions[audit.destination]
    && audit.operationId == command.operationId && audit.action == command.action && audit.evidence == command.evidence
    && audit.previousStatus == (if command.action == Requested then Suppressed else RecoveryPending)
    && audit.nextStatus == (match command.action
                            case Requested => RecoveryPending case Completed => Active case FailedAction => Suppressed)
  }

  /** The second half, both ways: it writes all rows that were read, and one audit for each, exactly if
      all of them are still as they were read; otherwise it writes nothing. */
  lemma CommitExactly(w: World, op: nat, w': World)
    requires Next(w, Commit(op), w')
    ensures var Pending(command, revisions) := w.inFlight[op];
      if StillAsRead(w.rows, command, revisions) then
        && w'.rows.Keys == w.rows.Keys
        && (forall k :: k in w.rows ==>
             if k in revisions then Becomes(w.rows[k], w'.rows[k], command.action) else w'.rows[k] == w.rows[k])
        && w.audits <= w'.audits
        && (forall audit :: audit in w'.audits[|w.audits|..] <==> IsAuditOf(audit, command, revisions))
      else w'.rows == w.rows && w'.audits == w.audits
  {
    var Pending(command, revisions) := w.inFlight[op];
    assert SwapSucceeds(w.rows, command, revisions) <==> StillAsRead(w.rows, command, revisions);
    forall audit: Audit
      ensures IsAuditOf(audit, command, revisions) <==>
        audit.destination in revisions && audit == AuditFor(audit.destination, command, revisions)
    {
    }
    hide SwapSucceeds, StillAsRead, IsAuditOf, AuditFor;
  }

  /** Feedback and the beginning of a command, both ways: any transition of the rows is a step, and a
      command begins exactly if its operation is not in flight; only a decision to proceed leaves a trace. */
  lemma OtherStepsExactly(w: World, step: Step, w': World)
    ensures step.Feedback? ==>
      (Next(w, step, w') <==>
        Transition(w.rows, step.aliases, step.event, w'.rows) && w'.audits == w.audits && w'.inFlight == w.inFlight)
    ensures step.Begin? ==>
      (Next(w, step, w') <==>
        var (op, decision) := (step.command.operationId, Decide(w.rows, w.audits, step.command));
        && op !in w.inFlight && w'.rows == w.rows && w'.audits == w.audits
        && w'.inFlight == if decision.Proceed? then w.inFlight[op := Pending(step.command, decision.revisions)] else w.inFlight)
  {
    hide Decide, Transition;
  }
}
