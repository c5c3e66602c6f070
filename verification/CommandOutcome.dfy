/** Why a caller of the security-email command is told what it is told, and why the delivery row says what
    it says (apps/notifications/src/app/delivery/security-email.service.ts, delivery-lease.ts and
    apps/notifications/src/app/feedback/ses-feedback-policy.ts). */
module CommandOutcome {
  import opened Prelude
  import opened Revisions
  import opened FeedbackPolicy
  import opened FeedbackMeaning
  import opened Destinations
  import D = Deliveries
  import opened CommandProtocol

  /** Some alias of the recipient is suppressed or has a recovery pending. */
  predicate AliasBlocked(rows: Table, aliases: seq<RecipientHash>) {
    exists k :: k in aliases && k in rows && (rows[k].status == Suppressed || rows[k].status == RecoveryPending)
  }

  /** What came of the submission is this answer of SES. */
  predicate Submitted(step: Step, submission: D.Submission) {
    || (step.CallSes? && step.submission == submission)
    || (step.RenderFails? && submission == D.Refused("EMAIL_RENDER_FAILED"))
  }

  /** The step ends the lease of the row. */
  predicate EndsLease(w: World, step: Step) {
    && (step.WaitExpire? || step.ExpireStale?)
    && w.row.Some? && w.row.value.leaseExpiresAt.Some? && w.row.value.leaseExpiresAt.value <= step.now
  }

  /** The step that a recorded result goes back to. */
  predicate Causes(w: World, step: Step, result: D.CommandResult, code: Option<string>) {
    match result
    case ResultAccepted => code == None && (step.Receive? || (step.CallSes? && step.submission.Accepted?))
    case ResultFailed => code.Some? && Submitted(step, D.Refused(code.value))
    case ResultRejected => code.Some? && Submitted(step, D.RejectedBySes(code.value))
    case ResultSuppressed =>
      code == Some("DESTINATION_SUPPRESSED") && w.row == None && step.Claim? && AliasBlocked(step.rows, step.aliases)
    case ResultUnknown =>
      code.Some? && (Submitted(step, D.Unknown(code.value)) || (code == Some("SUBMISSION_LEASE_EXPIRED") && EndsLease(w, step)))
  }

  /** Where a submission that is being recorded comes from. */
  lemma {:induction false} SubmissionHasCause(run: seq<World>, steps: seq<Step>, c: nat, n: nat) returns (k: nat)
    requires IsRun(run, steps) && n < |run| && c in run[n].callers && run[n].callers[c].Finalizing?
    ensures k < n && Submitted(steps[k], run[n].callers[c].submission)
    ensures steps[k].c == c && c in run[k].callers && run[k].callers[c].Calling?
  {
    var last := run[n - 1];
    assert Enabled(last, steps[n - 1]) && run[n] == Apply(last, steps[n - 1]);
    if c in last.callers && last.callers[c] == run[n].callers[c] {
      k := SubmissionHasCause(run, steps, c, n - 1);
    } else {
      k := n - 1;
    }
  }

  /** The answer that a submission calls for. */
  predicate Tells(s: D.Submission, result: D.CommandResult, code: Option<string>) {
    match s
    case Accepted(_) => result == D.ResultAccepted && code == None
    case Refused(why) => result == D.ResultFailed && code == Some(why)
    case RejectedBySes(why) => result == D.ResultRejected && code == Some(why)
    case Unknown(why) => result == D.ResultUnknown && code == Some(why)
  }

  /** Recording a submission answers an unanswered row with what SES said, and keeps an earlier answer. */
  lemma FinalizeTells(d: D.Delivery, s: D.Submission, now: int)
    requires D.FinalizeSubmission(d, s, now).Some?
    ensures var d' := D.FinalizeSubmission(d, s, now).value;
      && d'.callerResult.Some?
      && (if d.callerResult == None then Tells(s, d'.callerResult.value, d'.callerResultCode)
          else d'.callerResult == d.callerResult && d'.callerResultCode == d.callerResultCode)
  {
  }

  predicate HasResult(w: World) {
    w.row.Some? && w.row.value.callerResult.Some?
  }

  /** One step that records a result. */
  lemma RecordingStep(w: World, step: Step)
    requires Enabled(w, step) && !HasResult(w) && HasResult(Apply(w, step))
    ensures var d' := Apply(w, step).row.value;
      if step.Finalize? then Tells(w.callers[step.c].submission, d'.callerResult.value, d'.callerResultCode)
      else Causes(w, step, d'.callerResult.value, d'.callerResultCode)
  {
    if step.Finalize? {
      FinalizeTells(w.row.value, w.callers[step.c].submission, step.now);
    }
    hide D.FinalizeSubmission;
  }

  /** Every recorded result has its cause: ACCEPTED stands only after a submission that SES accepted or
      after feedback, FAILED only after a refusal or a failed rendering, REJECTED only after a
      rejection, SUPPRESSED only when an alias was blocked at the claim, and UNKNOWN only after a
      submission of unknown outcome or an expired lease; each carries its code. */
  lemma {:induction false} ResultHasCause(run: seq<World>, steps: seq<Step>, n: nat) returns (k: nat)
    requires IsRun(run, steps) && n < |run| && HasResult(run[n])
    ensures k < n && Causes(run[k], steps[k], run[n].row.value.callerResult.value, run[n].row.value.callerResultCode)
  {
    var last := run[n - 1];
    assert Enabled(last, steps[n - 1]) && run[n] == Apply(last, steps[n - 1]);
    if HasResult(last) {
      k := ResultHasCause(run, steps, n - 1);
      ResultWrittenOnce(run, steps, n - 1, n);
    } else {
      RecordingStep(last, steps[n - 1]);
      if steps[n - 1].Finalize? {
        k := SubmissionHasCause(run, steps, steps[n - 1].c, n - 1);
      } else {
        k := n - 1;
      }
    }
  }

  /** So every recorded answer that a caller is given has its cause. */
  lemma AnswerHasCause(run: seq<World>, steps: seq<Step>, c: nat, n: nat, response: Response) returns (k: nat)
    requires IsRun(run, steps) && n < |run| && ToldAt(run[n], c, response) && response.Recorded?
    ensures k < n && Causes(run[k], steps[k], response.result, response.code)
  {
    RunsStaySound(run, steps, n);
    assert Agrees(run[n].callers[c], run[n].row);
    k := ResultHasCause(run, steps, n);
  }

  /** The polling loop, turn by turn: a waiting caller takes a result that it has read only before its
      deadline, gives up only at it, expires only a lease that it has read as over, and reads again only
      while it has read no result. */
  lemma WaitingExactly(w: World, step: Step, c: nat)
    requires Enabled(w, step) && c in w.callers && w.callers[c].Waiting?
    ensures var (d, after) := (w.callers[c].view, Apply(w, step).callers[c]);
      match step
      case WaitAnswer(b, now) => b == c ==> now < w.callers[c].deadlineAt && d.callerResult.Some?
                                            && after == Caller.Answered(Recorded(d.callerResult.value, d.callerResultCode))
      case WaitTimeout(b, now) => b == c ==> w.callers[c].deadlineAt <= now && after == Caller.Answered(Transient("COMMAND_IN_PROGRESS"))
      case WaitExpire(b, now) => b == c ==> now < w.callers[c].deadlineAt && d.callerResult == None
                                            && d.leaseExpiresAt.Some? && d.leaseExpiresAt.value <= now
                                            && after == Refreshing(w.callers[c].deadlineAt)
      case WaitRead(b) => b == c ==> d.callerResult == None && w.row.Some? && after == Waiting(w.callers[c].deadlineAt, w.row.value)
      case _ => after == w.callers[c]
  {
    hide D.FinalizeSubmission, D.ExpireLease, D.ReceiveFeedback, D.Attempt;
  }

  /** Which turn the loop takes at `now`: the answer that the caller has read before its deadline, the
      transient answer from the deadline on, and otherwise another read, after ending a lease that is over. */
  lemma WaitingMoves(w: World, c: nat, now: int)
    requires c in w.callers && w.callers[c].Waiting? && w.row.Some?
    ensures var (d, inTime) := (w.callers[c].view, now < w.callers[c].deadlineAt);
      && (Enabled(w, WaitAnswer(c, now)) <==> inTime && d.callerResult.Some?)
      && (Enabled(w, WaitTimeout(c, now)) <==> !inTime)
      && (Enabled(w, WaitExpire(c, now)) <==>
          inTime && d.callerResult == None && d.leaseExpiresAt.Some? && d.leaseExpiresAt.value <= now)
      && (Enabled(w, WaitRead(c)) <==> d.callerResult == None)
  {
  }

  /** The step that an answer without a recorded result goes back to. */
  predicate CausesTransient(w: World, step: Step, c: nat, reason: string) {
    && c in w.callers
    && match step
       case WaitTimeout(b, now) => b == c && reason == "COMMAND_IN_PROGRESS" && w.callers[c].Waiting? && w.callers[c].deadlineAt <= now
       case ReadCurrent(b) => b == c && reason == "COMMAND_IN_PROGRESS" && w.callers[c].Overtaken? && !HasResult(w)
       case ReadBack(b) => b == c && reason == "DELIVERY_STATE_UNAVAILABLE" && w.callers[c].ReadingBack? && !HasResult(w)
       case ReadBackFails(b) => b == c && reason == "DELIVERY_STATE_UNAVAILABLE" && w.callers[c].ReadingBack?
       case _ => false
  }

  lemma AnsweringStep(w: World, step: Step, c: nat)
    requires Enabled(w, step) && c in Apply(w, step).callers && Apply(w, step).callers[c].Answered?
    requires c in w.callers ==> !w.callers[c].Answered?
    ensures match Apply(w, step).callers[c].response
      case Transient(reason) => CausesTransient(w, step, c, reason)
      case Conflict => step.Claim? && step.c == c && w.row.Some? && c in w.callers && w.callers[c].Arrived? && !w.callers[c].sameCommand
      case Recorded(_, _) => true
  {
    if step.Finalize? {
      var s := w.callers[step.c].submission;
      if D.FinalizeSubmission(w.row.value, s, step.now).Some? {
        FinalizeTells(w.row.value, s, step.now);
      }
    }
    hide D.FinalizeSubmission, D.ExpireLease, D.ReceiveFeedback, D.Attempt;
  }

  lemma AnswerStays(w: World, step: Step, c: nat)
    requires Enabled(w, step) && c in w.callers && w.callers[c].Answered?
    ensures c in Apply(w, step).callers && Apply(w, step).callers[c] == w.callers[c]
  {
    hide D.FinalizeSubmission, D.ExpireLease, D.ReceiveFeedback, D.Attempt;
  }

  /** A caller is told that the command is in progress only after its deadline, or when another caller
      made the attempt and no result was recorded yet; that the state is unavailable only after it failed
      to record or to read back a result; and that it conflicts only when the request was stored with
      other parameters. */
  lemma {:induction false} OtherAnswerHasCause(run: seq<World>, steps: seq<Step>, c: nat, n: nat, response: Response) returns (k: nat)
    requires IsRun(run, steps) && n < |run| && ToldAt(run[n], c, response) && !response.Recorded?
    ensures k < n
    ensures if response.Transient? then CausesTransient(run[k], steps[k], c, response.reason)
            else steps[k].Claim? && steps[k].c == c && run[k].row.Some? && c in run[k].callers && run[k].callers[c].Arrived?
                 && !run[k].callers[c].sameCommand
  {
    var last := run[n - 1];
    assert Enabled(last, steps[n - 1]) && run[n] == Apply(last, steps[n - 1]);
    if c in last.callers && last.callers[c].Answered? {
      AnswerStays(last, steps[n - 1], c);
      k := OtherAnswerHasCause(run, steps, c, n - 1, response);
    } else {
      k := n - 1;
      AnsweringStep(last, steps[n - 1], c);
    }
  }

  // ----- what every step writes to the row -----

  /** The status and code that a submission calls for. */
  predicate ShowsSubmission(s: D.Submission, status: DeliveryStatus, code: Option<string>) {
    match s
    case Accepted(_) => status == ACCEPTED && code == None
    case Refused(why) => status == FAILED && code == Some(why)
    case RejectedBySes(why) => status == REJECTED && code == Some(why)
    case Unknown(why) => status == SUBMISSION_UNKNOWN && code == Some(why)
  }

  /** The submission decides the status: none was known, or only an unknown one and this one is known. */
  predicate Decides(d: D.Delivery, s: D.Submission) {
    d.status == PENDING || (d.status == SUBMISSION_UNKNOWN && !s.Unknown?)
  }

  predicate SameStatus(d: D.Delivery, d': D.Delivery) {
    d'.status == d.status && d'.failureCode == d.failureCode
  }

  predicate SameAnswer(d: D.Delivery, d': D.Delivery) {
    d'.callerResult == d.callerResult && d'.callerResultCode == d.callerResultCode && d'.finalizedAt == d.finalizedAt
  }

  predicate SameMessage(d: D.Delivery, d': D.Delivery) {
    d'.providerMessageId == d.providerMessageId && d'.submittedAt == d.submittedAt
  }

  /** A submission on the row: the accepted one leaves its message and the time, the status follows if
      it is still open, and the caller is answered if nobody was. */
  lemma FinalizeExactly(d: D.Delivery, s: D.Submission, now: int)
    ensures var reply := D.FinalizeSubmission(d, s, now);
      if s.Accepted? && d.providerMessageId.Some? && d.providerMessageId != Some(s.messageId) then reply == None
      else
        && reply.Some?
        && var d' := reply.value;
          && d'.attemptCount == d.attemptCount && d'.last == d.last
          && (if s.Accepted?
              then d'.providerMessageId == Some(s.messageId) && d'.submittedAt == Some(if d.submittedAt.Some? then d.submittedAt.value else now)
              else SameMessage(d, d'))
          && (if Decides(d, s) then ShowsSubmission(s, d'.status, d'.failureCode) else SameStatus(d, d'))
          && (if d.callerResult == None
              then d'.callerResult.Some? && Tells(s, d'.callerResult.value, d'.callerResultCode) && d'.finalizedAt == Some(now)
              else SameAnswer(d, d'))
          && d'.leaseExpiresAt == if d.callerResult == None || Decides(d, s) then None else d.leaseExpiresAt
  {
  }

  /** The row of a new command. */
  lemma ClaimExactly(rows: Table, aliases: seq<RecipientHash>, now: int, leaseMs: nat)
    ensures var d := D.Claimed(SomeBlocked(rows, aliases), now, leaseMs);
      && d.attemptCount == 0 && d.last == NO_STAMP && d.providerMessageId == None && d.submittedAt == None
      && if AliasBlocked(rows, aliases) then
           && d.status == SUPPRESSED && d.failureCode == Some("DESTINATION_SUPPRESSED")
           && d.callerResult == Some(D.ResultSuppressed) && d.callerResultCode == Some("DESTINATION_SUPPRESSED")
           && d.leaseExpiresAt == None && d.finalizedAt == Some(now)
         else
           && d.status == PENDING && d.failureCode == None && d.callerResult == None && d.callerResultCode == None
           && d.leaseExpiresAt == Some(now + leaseMs) && d.finalizedAt == None
  {
  }

  /** An attempt and the end of a lease. */
  lemma AttemptExactly(d: D.Delivery, now: int)
    ensures D.Attempt(d) == if d.status == PENDING && d.attemptCount == 0 then d.(attemptCount := 1) else d
    ensures var d' := D.ExpireLease(d, now);
      if d.status == PENDING && d.callerResult == None && d.leaseExpiresAt.Some? && d.leaseExpiresAt.value <= now then
        && d'.status == SUBMISSION_UNKNOWN && d'.failureCode == Some("SUBMISSION_LEASE_EXPIRED")
        && d'.callerResult == Some(D.ResultUnknown) && d'.callerResultCode == Some("SUBMISSION_LEASE_EXPIRED")
        && d'.leaseExpiresAt == None && d'.finalizedAt == Some(now)
        && SameMessage(d, d') && d'.attemptCount == d.attemptCount && d'.last == d.last
      else d' == d
  {
  }

  /** The delivery has bounced, was complained about or was suppressed. */
  predicate IsEnded(status: DeliveryStatus) {
    status == BOUNCED || status == COMPLAINED || status == SUPPRESSED
  }

  /** The event comes after everything the row has shown. */
  predicate IsNewer(d: D.Delivery, e: Event) {
    d.last == NO_STAMP || StampLess(d.last, StampOf(RevisionOf(e)))
  }

  /** Feedback on the row: it proves acceptance, so an open command is answered ACCEPTED and the message
      and its time are kept; a terminal mailbox event is shown unless the row already shows a later
      final one, any other event only while the row has not ended and the event is newer. */
  lemma FeedbackExactly(d: D.Delivery, e: Event, now: int)
    ensures var d' := D.ReceiveFeedback(d, e, now);
      && d'.attemptCount == d.attemptCount
      && d'.providerMessageId == Some(e.messageId)
      && d'.submittedAt == Some(if d.submittedAt.Some? then d.submittedAt.value else e.mailTimestamp)
      && (if d.callerResult == None
          then d'.callerResult == Some(D.ResultAccepted) && d'.callerResultCode == None && d'.leaseExpiresAt == None && d'.finalizedAt == Some(now)
          else SameAnswer(d, d') && d'.leaseExpiresAt == d.leaseExpiresAt)
      && (if (if EndsMailbox(e.feedback) then !IsEnded(d.status) || IsNewer(d, e) else !IsEnded(d.status) && IsNewer(d, e))
          then d'.status == StatusOf(e.feedback) && d'.failureCode == FailureCode(e.feedback) && d'.last == StampOf(RevisionOf(e))
          else SameStatus(d, d') && d'.last == d.last)
  {
    MailboxMeans(e.feedback);
    GuardIsOrder(d.last, RevisionOf(e));
    hide IsTerminalMailboxEvent, EndsMailbox, StatusOf, FailureCode, Precedence;
  }
}
