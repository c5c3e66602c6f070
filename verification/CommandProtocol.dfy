/** The security-email command: any number of callers send the same request while leases expire and
    feedback arrives (apps/notifications/src/app/delivery/security-email.service.ts and
    delivery-lease.ts).

    Every database statement or transaction is one step; between two of them anything may happen, and
    a caller may stop for good at any point. */
module CommandProtocol {
  import opened Prelude
  import opened Revisions
  import opened FeedbackPolicy
  import opened Destinations
  import opened Deliveries

  /** What a caller is told: the recorded result, or that there is none yet. */
  datatype Response =
    | Recorded(result: CommandResult, code: Option<string>)
    | Transient(reason: string)
    | Conflict

  datatype Caller =
    | Arrived(deadlineAt: int, sameCommand: bool)
    | Waiting(deadlineAt: int, view: Delivery)
    | Refreshing(deadlineAt: int)
    | Submitting
    | Overtaken
    | Calling
    | Finalizing(submission: Submission)
    | ReadingBack
    | Answered(response: Response)

  datatype World = World(row: Option<Delivery>, callers: map<nat, Caller>, submissions: nat)

  datatype Step =
    | Arrive(c: nat, deadlineAt: int, sameCommand: bool)
    | Claim(c: nat, now: int, leaseMs: nat, rows: Table, aliases: seq<RecipientHash>)
    | WaitAnswer(c: nat, now: int)
    | WaitTimeout(c: nat, now: int)
    | WaitExpire(c: nat, now: int)
    | WaitRead(c: nat)
    | BeginAttempt(c: nat)
    | ReadCurrent(c: nat)
    | RenderFails(c: nat)
    | CallSes(c: nat, submission: Submission)
    | Finalize(c: nat, now: int)
    | FinalizeFails(c: nat)
    | ReadBack(c: nat)
    | ReadBackFails(c: nat)
    | ExpireStale(now: int)
    | Receive(event: Event, now: int)

  function AnswerOr(d: Delivery, code: string): Response {
    if d.callerResult.Some? then Recorded(d.callerResult.value, d.callerResultCode) else Transient(code)
  }

  /** What a claim finds in the table: the caller waits, or is answered at once. */
  function FoundExisting(d: Delivery, caller: Caller): Caller
    requires caller.Arrived?
  {
    if !caller.sameCommand then Answered(Conflict)
    else if d.callerResult.Some? then Answered(AnswerOr(d, ""))
    else Waiting(caller.deadlineAt, d)
  }

  predicate IsAt(w: World, c: nat, p: Caller -> bool) {
    c in w.callers && p(w.callers[c])
  }

  predicate Enabled(w: World, step: Step) {
    match step
    case Arrive(c, _, _) => c !in w.callers
    case Claim(c, _, _, _, _) => IsAt(w, c, (caller: Caller) => caller.Arrived?)
    case WaitAnswer(c, now) =>
      IsAt(w, c, (caller: Caller) => caller.Waiting? && now < caller.deadlineAt && caller.view.callerResult.Some?)
    case WaitTimeout(c, now) => IsAt(w, c, (caller: Caller) => caller.Waiting? && now >= caller.deadlineAt)
    case WaitExpire(c, now) => w.row.Some? &&
      IsAt(w, c, (caller: Caller) => caller.Waiting? && now < caller.deadlineAt && caller.view.callerResult.None?
                                     && caller.view.leaseExpiresAt.Some? && caller.view.leaseExpiresAt.value <= now)
    case WaitRead(c) => w.row.Some? &&
      IsAt(w, c, (caller: Caller) => caller.Refreshing? || (caller.Waiting? && caller.view.callerResult.None?))
    case BeginAttempt(c) => w.row.Some? && IsAt(w, c, (caller: Caller) => caller.Submitting?)
    case ReadCurrent(c) => w.row.Some? && IsAt(w, c, (caller: Caller) => caller.Overtaken?)
    case RenderFails(c) => IsAt(w, c, (caller: Caller) => caller.Calling?)
    case CallSes(c, _) => IsAt(w, c, (caller: Caller) => caller.Calling?)
    case Finalize(c, _) => w.row.Some? && IsAt(w, c, (caller: Caller) => caller.Finalizing?)
    case FinalizeFails(c) => IsAt(w, c, (caller: Caller) => caller.Finalizing?)
    case ReadBack(c) => w.row.Some? && IsAt(w, c, (caller: Caller) => caller.ReadingBack?)
    case ReadBackFails(c) => IsAt(w, c, (caller: Caller) => caller.ReadingBack?)
    case ExpireStale(_) => w.row.Some?
    case Receive(e, _) => w.row.Some? && AcceptsMessage(w.row.value, e.messageId)
  }

  function At(w: World, c: nat, caller: Caller): World {
    w.(callers := w.callers[c := caller])
  }

  ghost function Apply(w: World, step: Step): World
    requires Enabled(w, step)
  {
    match step
    case Arrive(c, deadlineAt, sameCommand) => At(w, c, Arrived(deadlineAt, sameCommand))
    case Claim(c, now, leaseMs, rows, aliases) =>
      (match w.row
       case Some(d) => At(w, c, FoundExisting(d, w.callers[c]))
       case None =>
         var d := Claimed(SomeBlocked(rows, aliases), now, leaseMs);
         At(w, c, if d.callerResult.Some? then Answered(AnswerOr(d, "")) else Submitting).(row := Some(d)))
    case WaitAnswer(c, _) => At(w, c, Answered(AnswerOr(w.callers[c].view, "")))
    case WaitTimeout(c, _) => At(w, c, Answered(Transient("COMMAND_IN_PROGRESS")))
    case WaitExpire(c, now) => At(w, c, Refreshing(w.callers[c].deadlineAt)).(row := Some(ExpireLease(w.row.value, now)))
    case WaitRead(c) => At(w, c, Waiting(w.callers[c].deadlineAt, w.row.value))
    case BeginAttempt(c) =>
      if MayAttempt(w.row.value) then At(w, c, Calling).(row := Some(Attempt(w.row.value))) else At(w, c, Overtaken)
    case ReadCurrent(c) => At(w, c, Answered(AnswerOr(w.row.value, "COMMAND_IN_PROGRESS")))
    case RenderFails(c) => At(w, c, Finalizing(Refused("EMAIL_RENDER_FAILED")))
    case CallSes(c, submission) => At(w, c, Finalizing(submission)).(submissions := w.submissions + 1)
    case Finalize(c, now) =>
      (match FinalizeSubmission(w.row.value, w.callers[c].submission, now)
       case Some(d) => At(w, c, Answered(AnswerOr(d, "DELIVERY_STATE_UNAVAILABLE"))).(row := Some(d))
       case None => At(w, c, ReadingBack))
    case FinalizeFails(c) => At(w, c, ReadingBack)
    case ReadBack(c) => At(w, c, Answered(AnswerOr(w.row.value, "DELIVERY_STATE_UNAVAILABLE")))
    case ReadBackFails(c) => At(w, c, Answered(Transient("DELIVERY_STATE_UNAVAILABLE")))
    case ExpireStale(now) => w.(row := Some(ExpireLease(w.row.value, now)))
    case Receive(e, now) => w.(row := Some(ReceiveFeedback(w.row.value, e, now)))
  }

  ghost predicate IsRun(run: seq<World>, steps: seq<Step>) {
    && |run| == |steps| + 1 && run[0] == World(None, map[], 0)
    && forall i :: 0 <= i < |steps| ==> Enabled(run[i], steps[i]) && run[i + 1] == Apply(run[i], steps[i])
  }

  // ----- what every reachable state satisfies -----

  /** No result is recorded exactly while the lease is set, exactly while the delivery is not
      finalized, and then its status is still pending; a pending delivery has seen no feedback. */
  predicate Coherent(d: Delivery) {
    && (d.callerResult.None? <==> d.leaseExpiresAt.Some?)
    && (d.callerResult.None? <==> d.finalizedAt.None?)
    && (d.callerResult.None? ==> d.status == PENDING)
    && (d.status == PENDING ==> d.last == NO_STAMP)
    && d.attemptCount <= 1
  }

  /** A recorded result that a caller has seen is the one in the row. */
  predicate Agrees(caller: Caller, row: Option<Delivery>) {
    match caller
    case Answered(Recorded(result, code)) =>
      row.Some? && row.value.callerResult == Some(result) && row.value.callerResultCode == code
    case Waiting(_, view) =>
      view.callerResult.Some? ==>
        row.Some? && row.value.callerResult == view.callerResult && row.value.callerResultCode == view.callerResultCode
    case _ => true
  }

  predicate Attempted(w: World) {
    w.row.Some? && w.row.value.attemptCount == 1
  }

  predicate PastAttempt(caller: Caller) {
    caller.Calling? || caller.Finalizing?
  }

  ghost predicate Sound(w: World) {
    && (w.row.Some? ==> Coherent(w.row.value))
    && (forall c :: c in w.callers ==> Agrees(w.callers[c], w.row))
    && (!Attempted(w) ==> w.submissions == 0 && forall c :: c in w.callers ==> !PastAttempt(w.callers[c]))
    && (forall c :: c in w.callers && w.callers[c].Calling? ==> w.submissions == 0)
    && (forall b, c :: b in w.callers && c in w.callers && w.callers[b].Calling? && w.callers[c].Calling? ==> b == c)
    && w.submissions <= 1
  }

  /** The updates of the row: a recorded result stays, an attempt is not forgotten, and the row never
      becomes pending again. */
  predicate RowMoves(d: Delivery, d': Delivery) {
    && Coherent(d')
    && (d.callerResult.Some? ==>
      d'.callerResult == d.callerResult && d'.callerResultCode == d.callerResultCode && d'.finalizedAt == d.finalizedAt)
    && (d'.status == PENDING ==> d.status == PENDING)
    && d.attemptCount <= d'.attemptCount
  }

  lemma UpdatesMoveRow(d: Delivery, s: Submission, e: Event, now: int)
    requires Coherent(d)
    ensures RowMoves(d, Attempt(d)) && RowMoves(d, ExpireLease(d, now))
    ensures FinalizeSubmission(d, s, now).Some? ==> RowMoves(d, FinalizeSubmission(d, s, now).value)
    ensures RowMoves(d, ReceiveFeedback(d, e, now))
  {
    hide FailureCode, StatusOf;
    TerminalStatusSources(e.feedback);
  }

  function AnyEvent(): Event {
    Event(0, 0, 0, 0, 0, 0, Send)
  }

  function StepTime(step: Step): int {
    match step
    case WaitExpire(_, now) => now
    case ExpireStale(now) => now
    case _ => 0
  }

  /** What a step does to the row and to the submissions. */
  lemma StepMovesRow(w: World, step: Step)
    requires w.row.Some? && Coherent(w.row.value) && Enabled(w, step)
    ensures Apply(w, step).row.Some? && RowMoves(w.row.value, Apply(w, step).row.value)
    ensures Apply(w, step).row.value.attemptCount != w.row.value.attemptCount ==> step.BeginAttempt? && MayAttempt(w.row.value)
  {
    var d := w.row.value;
    match step {
      case Finalize(c, now) => UpdatesMoveRow(d, w.callers[c].submission, AnyEvent(), now);
      case Receive(e, now) =>
        UpdatesMoveRow(d, Unknown(""), e, now);
        assert ReceiveFeedback(d, e, now).attemptCount == d.attemptCount;
      case _ =>
        UpdatesMoveRow(d, Unknown(""), AnyEvent(), StepTime(step));
    }
  }

  lemma StillAgrees(caller: Caller, d: Delivery, d': Delivery)
    requires Agrees(caller, Some(d)) && RowMoves(d, d')
    ensures Agrees(caller, Some(d'))
  {
  }

  /** Steps of one caller, or of none, that begin no attempt. */
  lemma OrdinaryStep(w: World, step: Step)
    requires Sound(w) && Enabled(w, step) && w.row.Some? && !step.BeginAttempt? && !step.CallSes?
    ensures Sound(Apply(w, step))
  {
    var w' := Apply(w, step);
    StepMovesRow(w, step);
    forall c | c in w'.callers
      ensures Agrees(w'.callers[c], w'.row)
      ensures PastAttempt(w'.callers[c]) ==> c in w.callers && PastAttempt(w.callers[c])
      ensures w'.callers[c].Calling? ==> c in w.callers && w.callers[c].Calling?
    {
      if c in w.callers && w'.callers[c] == w.callers[c] {
        StillAgrees(w.callers[c], w.row.value, w'.row.value);
      } else {
        hide ExpireLease, FinalizeSubmission, ReceiveFeedback, Attempt, RowMoves, Coherent, AcceptsMessage;
      }
    }
  }

  lemma AttemptStep(w: World, c: nat)
    requires Sound(w) && Enabled(w, BeginAttempt(c))
    ensures Sound(Apply(w, BeginAttempt(c)))
  {
    var w' := Apply(w, BeginAttempt(c));
    StepMovesRow(w, BeginAttempt(c));
    forall b | b in w'.callers
      ensures Agrees(w'.callers[b], w'.row)
    {
      if b != c {
        StillAgrees(w.callers[b], w.row.value, w'.row.value);
      }
    }
  }

  lemma FirstClaim(w: World, step: Step)
    requires Sound(w) && Enabled(w, step) && w.row.None?
    ensures Sound(Apply(w, step))
  {
  }

  lemma StepKeepsSound(w: World, step: Step)
    requires Sound(w) && Enabled(w, step)
    ensures Sound(Apply(w, step))
  {
    if w.row.None? {
      FirstClaim(w, step);
    } else if step.BeginAttempt? {
      AttemptStep(w, step.c);
    } else if step.CallSes? {
      assert w.callers[step.c].Calling?;
    } else {
      OrdinaryStep(w, step);
    }
  }

  /** Safety over every run, whatever the interleaving. */
  lemma {:induction false} RunsStaySound(run: seq<World>, steps: seq<Step>, i: nat)
    requires IsRun(run, steps) && i < |run|
    ensures Sound(run[i])
  {
    if i > 0 {
      RunsStaySound(run, steps, i - 1);
      StepKeepsSound(run[i - 1], steps[i - 1]);
    }
  }

  // ----- the result is written once -----

  lemma {:induction false} RowMovesAlong(run: seq<World>, steps: seq<Step>, i: nat, j: nat)
    requires IsRun(run, steps) && i <= j < |run| && run[i].row.Some?
    ensures run[j].row.Some? && RowMoves(run[i].row.value, run[j].row.value)
    decreases j
  {
    if i == j {
      RunsStaySound(run, steps, i);
    } else {
      RowMovesAlong(run, steps, i, j - 1);
      RunsStaySound(run, steps, j - 1);
      StepMovesRow(run[j - 1], steps[j - 1]);
    }
  }

  lemma ResultWrittenOnce(run: seq<World>, steps: seq<Step>, i: nat, j: nat)
    requires IsRun(run, steps) && i <= j < |run|
    requires run[i].row.Some? && run[i].row.value.callerResult.Some?
    ensures run[j].row.Some?
    ensures var (d, d') := (run[i].row.value, run[j].row.value);
      d'.callerResult == d.callerResult && d'.callerResultCode == d.callerResultCode && d'.finalizedAt == d.finalizedAt
  {
    RowMovesAlong(run, steps, i, j);
  }

  /** In every reachable state no result is recorded exactly while the lease is set, exactly while the
      delivery is not finalized, and then it is pending. */
  lemma LeaseMeansPending(run: seq<World>, steps: seq<Step>, i: nat)
    requires IsRun(run, steps) && i < |run| && run[i].row.Some?
    ensures var d := run[i].row.value;
      && (d.callerResult.None? <==> d.leaseExpiresAt.Some?)
      && (d.callerResult.None? <==> d.finalizedAt.None?)
      && (d.callerResult.None? ==> d.status == PENDING)
  {
    RunsStaySound(run, steps, i);
  }

  predicate ToldAt(w: World, c: nat, response: Response) {
    c in w.callers && w.callers[c] == Answered(response)
  }

  /** Any two recorded responses for one request agree, whoever received them and whenever. */
  lemma ResponsesAgree(run: seq<World>, steps: seq<Step>, i: nat, b: nat, j: nat, c: nat, r: Response, q: Response)
    requires IsRun(run, steps) && i <= j < |run|
    requires ToldAt(run[i], b, r) && ToldAt(run[j], c, q) && r.Recorded? && q.Recorded?
    ensures r == q
  {
    RunsStaySound(run, steps, i);
    RunsStaySound(run, steps, j);
    assert Agrees(run[i].callers[b], run[i].row) && Agrees(run[j].callers[c], run[j].row);
    RowMovesAlong(run, steps, i, j);
  }

  // ----- at most one submission -----

  lemma AtMostOneSubmission(run: seq<World>, steps: seq<Step>, i: nat)
    requires IsRun(run, steps) && i < |run|
    ensures run[i].submissions <= 1
    ensures run[i].submissions == 1 ==> Attempted(run[i])
  {
    RunsStaySound(run, steps, i);
  }

  /** Once a delivery that was never attempted has left the pending status, it never will be. */
  lemma {:induction false} NeverAttempted(run: seq<World>, steps: seq<Step>, i: nat, j: nat)
    requires IsRun(run, steps) && i <= j < |run|
    requires run[i].row.Some? && run[i].row.value.status != PENDING && run[i].row.value.attemptCount == 0
    ensures run[j].row.Some? && run[j].row.value.status != PENDING && run[j].row.value.attemptCount == 0
    ensures run[j].submissions == 0
    decreases j
  {
    RunsStaySound(run, steps, j);
    if i < j {
      NeverAttempted(run, steps, i, j - 1);
      RunsStaySound(run, steps, j - 1);
      StepMovesRow(run[j - 1], steps[j - 1]);
    }
  }

  /** What settles a delivery before its first attempt: a claim while an alias is blocked, a lease
      that expires first, or feedback that arrives first. */
  ghost predicate SettlesFirst(w: World, step: Step) {
    || (step.Claim? && w.row.None? && SomeBlocked(step.rows, step.aliases))
    || (w.row.Some? && w.row.value.attemptCount == 0
        && match step
           case WaitExpire(_, now) => LeaseExpired(w.row.value, now)
           case ExpireStale(now) => LeaseExpired(w.row.value, now)
           case Receive(_, _) => w.row.value.status == PENDING
           case _ => false)
  }

  lemma FirstFeedbackShows(d: Delivery, e: Event, now: int)
    requires d.status == PENDING && d.last == NO_STAMP
    ensures ReceiveFeedback(d, e, now).status != PENDING
  {
    hide FailureCode, StatusOf;
    TerminalStatusSources(e.feedback);
    assert Overwrites(RecordAcceptance(d, e, now), e);
  }

  lemma NoSubmission(run: seq<World>, steps: seq<Step>, i: nat, j: nat)
    requires IsRun(run, steps) && i < |steps| && i < j < |run| && SettlesFirst(run[i], steps[i])
    ensures run[j].submissions == 0
  {
    RunsStaySound(run, steps, i);
    assert Enabled(run[i], steps[i]) && run[i + 1] == Apply(run[i], steps[i]);
    if steps[i].Receive? {
      FirstFeedbackShows(run[i].row.value, steps[i].event, steps[i].now);
    }
    NeverAttempted(run, steps, i + 1, j);
  }

  // ----- polling -----

  /** One turn of the polling loop: the clock and the row as last read. */
  datatype Poll = Poll(now: int, view: Delivery)

  predicate StillOpen(polls: seq<Poll>, i: nat, deadlineAt: int) {
    forall j :: 0 <= j < i && j < |polls| ==> polls[j].now < deadlineAt && polls[j].view.callerResult.None?
  }

  predicate SeesExpiredLease(poll: Poll) {
    poll.view.callerResult.None? && poll.view.leaseExpiresAt.Some? && poll.view.leaseExpiresAt.value <= poll.now
  }

  /** The poll that ends the wait is the first with a recorded result or the first too late; `expired` are
      the turns that expire the claim. */
  method WaitForCallerResult(polls: seq<Poll>, deadlineAt: int) returns (response: Response, turns: nat, expired: seq<nat>)
    requires polls != [] && polls[|polls| - 1].now >= deadlineAt
    ensures turns < |polls| && forall i :: 0 <= i < turns ==> polls[i].now < deadlineAt && polls[i].view.callerResult == None
    ensures if polls[turns].now >= deadlineAt then response == Transient("COMMAND_IN_PROGRESS")
            else polls[turns].view.callerResult.Some?
                 && response == Recorded(polls[turns].view.callerResult.value, polls[turns].view.callerResultCode)
    ensures forall i: nat :: i in expired <==>
      i < turns && polls[i].view.leaseExpiresAt.Some? && polls[i].view.leaseExpiresAt.value <= polls[i].now
  {
    turns, expired := 0, [];
    while polls[turns].now < deadlineAt
      invariant turns < |polls| && StillOpen(polls, turns, deadlineAt)
      invariant forall i: nat :: i in expired <==> i < turns && SeesExpiredLease(polls[i])
      decreases |polls| - turns
    {
      var view := polls[turns].view;
      if view.callerResult.Some? {
        return AnswerOr(view, ""), turns, expired;
      }
      if view.leaseExpiresAt.Some? && view.leaseExpiresAt.value <= polls[turns].now {
        expired := expired + [turns];
      }
      turns := turns + 1;
    }
    return Transient("COMMAND_IN_PROGRESS"), turns, expired;
  }
}
