/** The delivery row and every update it receives
    (apps/notifications/src/app/delivery/security-email.service.ts, delivery-lease.ts and
    apps/notifications/src/app/feedback/ses-feedback-transitions.ts). */
module Deliveries {
  import opened Prelude
  import opened Revisions
  import opened FeedbackPolicy

  datatype CommandResult = ResultAccepted | ResultFailed | ResultRejected | ResultSuppressed | ResultUnknown

  datatype Delivery = Delivery(
    status: DeliveryStatus,
    failureCode: Option<string>,
    last: Stamp,
    callerResult: Option<CommandResult>,
    callerResultCode: Option<string>,
    leaseExpiresAt: Option<int>,
    finalizedAt: Option<int>,
    attemptCount: nat,
    providerMessageId: Option<nat>,
    submittedAt: Option<int>)

  /** What a call to SES came to. */
  datatype Submission =
    | Accepted(messageId: nat)
    | Refused(code: string)
    | RejectedBySes(code: string)
    | Unknown(code: string)

  function SubmissionStatus(s: Submission): DeliveryStatus {
    match s
    case Accepted(_) => ACCEPTED
    case Refused(_) => FAILED
    case RejectedBySes(_) => REJECTED
    case Unknown(_) => SUBMISSION_UNKNOWN
  }

  function SubmissionResult(s: Submission): CommandResult {
    match s
    case Accepted(_) => ResultAccepted
    case Refused(_) => ResultFailed
    case RejectedBySes(_) => ResultRejected
    case Unknown(_) => ResultUnknown
  }

  function SubmissionCode(s: Submission): Option<string> {
    match s
    case Accepted(_) => None
    case Refused(code) => Some(code)
    case RejectedBySes(code) => Some(code)
    case Unknown(code) => Some(code)
  }

  // ----- the updates -----

  /** The row a claim creates: leased for a submission, or suppressed for good. */
  function Claimed(blocked: bool, now: int, leaseMs: nat): Delivery {
    if blocked
    then Delivery(SUPPRESSED, Some("DESTINATION_SUPPRESSED"), NO_STAMP, Some(ResultSuppressed), Some("DESTINATION_SUPPRESSED"),
                  None, Some(now), 0, None, None)
    else Delivery(PENDING, None, NO_STAMP, None, None, Some(now + leaseMs), None, 0, None, None)
  }

  predicate MayAttempt(d: Delivery) {
    d.status == PENDING && d.attemptCount == 0
  }

  function Attempt(d: Delivery): Delivery {
    if MayAttempt(d) then d.(attemptCount := 1) else d
  }

  predicate LeaseExpired(d: Delivery, now: int) {
    d.status == PENDING && d.callerResult.None? && d.leaseExpiresAt.Some? && d.leaseExpiresAt.value <= now
  }

  function ExpireLease(d: Delivery, now: int): Delivery {
    if LeaseExpired(d, now)
    then d.(status := SUBMISSION_UNKNOWN, callerResult := Some(ResultUnknown), callerResultCode := Some("SUBMISSION_LEASE_EXPIRED"),
            failureCode := Some("SUBMISSION_LEASE_EXPIRED"), leaseExpiresAt := None, finalizedAt := Some(now))
    else d
  }

  predicate Replaceable(status: DeliveryStatus, s: Submission) {
    status == PENDING || (status == SUBMISSION_UNKNOWN && !s.Unknown?)
  }

  /** `None` where a different message identifier is stored: the transaction rolls back. */
  function PersistOutcome(d: Delivery, s: Submission, now: int): Option<Delivery> {
    if s.Accepted? && d.providerMessageId.Some? && d.providerMessageId.value != s.messageId then None
    else
      var attached :=
        if s.Accepted?
        then d.(providerMessageId := Some(s.messageId), submittedAt := if d.submittedAt.None? then Some(now) else d.submittedAt)
        else d;
      Some(if Replaceable(attached.status, s)
           then attached.(status := SubmissionStatus(s), failureCode := SubmissionCode(s), leaseExpiresAt := None)
           else attached)
  }

  function AnswerCaller(d: Delivery, result: CommandResult, code: Option<string>, now: int): Delivery {
    if d.callerResult.None?
    then d.(callerResult := Some(result), callerResultCode := code, leaseExpiresAt := None, finalizedAt := Some(now))
    else d
  }

  function FinalizeSubmission(d: Delivery, s: Submission, now: int): Option<Delivery> {
    match PersistOutcome(d, s, now)
    case None => None
    case Some(persisted) => Some(AnswerCaller(persisted, SubmissionResult(s), SubmissionCode(s), now))
  }

  /** Feedback attaches its message identifier, or conflicts with a different one. */
  predicate AcceptsMessage(d: Delivery, messageId: nat) {
    d.providerMessageId.None? || d.providerMessageId.value == messageId
  }

  function RecordAcceptance(d: Delivery, e: Event, now: int): Delivery {
    var submitted := d.(providerMessageId := Some(e.messageId), submittedAt := if d.submittedAt.None? then Some(e.mailTimestamp) else d.submittedAt);
    AnswerCaller(submitted, ResultAccepted, None, now)
  }

  function Show(d: Delivery, e: Event): Delivery {
    d.(status := StatusOf(e.feedback), failureCode := FailureCode(e.feedback), last := StampOf(RevisionOf(e)))
  }

  predicate Overwrites(d: Delivery, e: Event) {
    if IsTerminalMailboxEvent(e.feedback)
    then !IsTerminalStatus(d.status) || NewerEvent(d.last, RevisionOf(e))
    else !IsTerminalStatus(d.status) && NewerEvent(d.last, RevisionOf(e))
  }

  function ApplyTransition(d: Delivery, e: Event): Delivery {
    if Overwrites(d, e) then Show(d, e) else d
  }

  function ReceiveFeedback(d: Delivery, e: Event, now: int): Delivery {
    ApplyTransition(RecordAcceptance(d, e, now), e)
  }

  /** The delivery row, changed in place by guarded updates. */
  class DeliveryRow {
    var row: Delivery

    constructor Claim(blocked: bool, now: int, leaseMs: nat)
      ensures row == Claimed(blocked, now, leaseMs)
    {
      row := Claimed(blocked, now, leaseMs);
    }

    /** The compare-and-swap that guards the call to SES. */
    method BeginAttempt() returns (attempted: bool)
      modifies this
      ensures row == Attempt(old(row)) && (attempted <==> MayAttempt(old(row)))
    {
      attempted := row.status == PENDING && row.attemptCount == 0;
      if attempted {
        row := row.(attemptCount := 1);
      }
    }

    method Expire(now: int)
      modifies this
      ensures row == ExpireLease(old(row), now)
    {
      if LeaseExpired(row, now) {
        row := row.(status := SUBMISSION_UNKNOWN, leaseExpiresAt := None, finalizedAt := Some(now));
        row := row.(callerResult := Some(ResultUnknown), callerResultCode := Some("SUBMISSION_LEASE_EXPIRED"));
        row := row.(failureCode := Some("SUBMISSION_LEASE_EXPIRED"));
      }
    }

    /** Answers false and changes nothing when the stored message identifier conflicts. */
    method Finalize(s: Submission, now: int) returns (persisted: bool)
      modifies this
      ensures var after := FinalizeSubmission(old(row), s, now);
        persisted == after.Some? && row == if persisted then after.value else old(row)
    {
      if s.Accepted? {
        if row.providerMessageId.None? {
          row := row.(providerMessageId := Some(s.messageId));
        } else if row.providerMessageId.value != s.messageId {
          return false;
        }
        if row.submittedAt.None? {
          row := row.(submittedAt := Some(now));
        }
      }
      if Replaceable(row.status, s) {
        row := row.(status := SubmissionStatus(s), failureCode := SubmissionCode(s), leaseExpiresAt := None);
      }
      if row.callerResult.None? {
        row := row.(callerResult := Some(SubmissionResult(s)), callerResultCode := SubmissionCode(s));
        row := row.(leaseExpiresAt := None, finalizedAt := Some(now));
      }
      return true;
    }

    method Feedback(e: Event, now: int) returns (accepted: bool)
      modifies this
      ensures accepted <==> AcceptsMessage(old(row), e.messageId)
      ensures row == if accepted then ReceiveFeedback(old(row), e, now) else old(row)
    {
      if row.providerMessageId != Some(e.messageId) {
        if row.providerMessageId.Some? {
          return false;
        }
        row := row.(providerMessageId := Some(e.messageId));
      }
      if row.submittedAt.None? {
        row := row.(submittedAt := Some(e.mailTimestamp));
      }
      if row.callerResult.None? {
        row := row.(callerResult := Some(ResultAccepted), callerResultCode := None, leaseExpiresAt := None, finalizedAt := Some(now));
      }
      if IsTerminalMailboxEvent(e.feedback) {
        if !IsTerminalStatus(row.status) || NewerEvent(row.last, RevisionOf(e)) {
          row := Show(row, e);
        }
        return true;
      }
      if !IsTerminalStatus(row.status) && NewerEvent(row.last, RevisionOf(e)) {
        row := Show(row, e);
      }
      return true;
    }
  }

  // ----- runs of one delivery -----

  datatype Step =
    | Begin
    | Result(submission: Submission, now: int)
    | Expiry(now: int)
    | Receive(event: Event, now: int)

  function Apply(d: Delivery, step: Step): Delivery {
    match step
    case Begin => Attempt(d)
    case Result(s, now) => (match FinalizeSubmission(d, s, now) case None => d case Some(after) => after)
    case Expiry(now) => ExpireLease(d, now)
    case Receive(e, now) => if AcceptsMessage(d, e.messageId) then ReceiveFeedback(d, e, now) else d
  }

  function Run(d: Delivery, steps: seq<Step>): Delivery {
    if steps == [] then d else Apply(Run(d, steps[..|steps| - 1]), steps[|steps| - 1])
  }

  /** All messages of one delivery carry the identifier SES gave it. */
  predicate SameMessage(steps: seq<Step>, messageId: nat) {
    forall step :: step in steps ==>
      && (step.Receive? ==> step.event.messageId == messageId)
      && (step.Result? && step.submission.Accepted? ==> step.submission.messageId == messageId)
  }

  /** The run processes exactly the events `es`, in any order and any number of times. */
  ghost predicate Processes(steps: seq<Step>, es: seq<Event>) {
    && (forall step :: step in steps && step.Receive? ==> step.event in es)
    && (forall e :: e in es ==> exists step :: step in steps && step.Receive? && step.event == e)
  }

  /** The event that should decide the delivery: the latest terminal mailbox event if there is one,
      and otherwise the latest event of all. */
  ghost predicate Authoritative(e: Event, es: seq<Event>) {
    && e in es
    && (SomeTerminal(es) ==> IsTerminal(e))
    && forall x :: x in es && (SomeTerminal(es) ==> IsTerminal(x)) ==> x == e || Older(x, e)
  }

  predicate Shows(d: Delivery, e: Event) {
    d.status == StatusOf(e.feedback) && d.failureCode == FailureCode(e.feedback) && d.last == StampOf(RevisionOf(e))
  }

  /** Why a row may show `e` after the events `seen`.  A shown terminal event is the latest terminal
      one; a shown soft bounce has kept out every older terminal event; any other shown event is the
      latest of all. */
  ghost predicate Justified(e: Event, seen: seq<Event>) {
    && e in seen
    && if IsTerminal(e) then forall t :: t in seen && IsTerminal(t) ==> t == e || Older(t, e)
       else if IsSoftBounce(e.feedback) then forall t :: t in seen && IsTerminal(t) ==> Older(t, e)
       else forall x :: x in seen ==> !IsTerminal(x) && (x == e || Older(x, e))
  }

  /** What every run maintains over the events processed so far. */
  ghost predicate Tracks(d: Delivery, seen: seq<Event>) {
    if seen == [] then d.last == NO_STAMP && !IsTerminalStatus(d.status)
    else exists e :: Justified(e, seen) && Shows(d, e)
  }

  lemma OtherStepsKeepTracks(d: Delivery, seen: seq<Event>, step: Step)
    requires Tracks(d, seen) && !step.Receive?
    ensures Tracks(Apply(d, step), seen)
  {
    if seen != [] {
      var e :| Justified(e, seen) && Shows(d, e);
      TerminalStatusSources(e.feedback);
      hide StatusOf, FailureCode, Justified;
      assert Shows(Apply(d, step), e);
    }
  }

  /** The heart of the matter: one more event, in whatever order events come. */
  lemma TransitionKeepsTracks(d: Delivery, seen: seq<Event>, e: Event)
    requires Tracks(d, seen) && Identified(seen + [e])
    ensures Tracks(ApplyTransition(d, e), seen + [e])
  {
    var all := seen + [e];
    TerminalStatusSources(e.feedback);
    if seen == [] {
      assert Justified(e, all);
    } else {
      var shown :| Justified(shown, seen) && Shows(d, shown);
      TerminalStatusSources(shown.feedback);
      OlderOrder(shown, e, e);
      assert RevisionOf(shown) == RevisionOf(e) ==> shown == e by { assert e in all && shown in all; }
      if Overwrites(d, e) {
        forall x | x in seen && (IsTerminal(e) ==> IsTerminal(x)) && (IsSoftBounce(e.feedback) ==> IsTerminal(x))
          ensures x == e || Older(x, e)
        {
          OlderOrder(x, shown, e);
        }
        assert Justified(e, all);
      } else {
        assert Justified(shown, all);
      }
    }
  }

  lemma ReceptionKeepsTracks(d: Delivery, e: Event, now: int, seen: seq<Event>)
    requires Tracks(d, seen) && Identified(seen + [e])
    ensures Tracks(ReceiveFeedback(d, e, now), seen + [e])
  {
    hide Justified, StatusOf, FailureCode;
    var recorded := RecordAcceptance(d, e, now);
    if seen != [] {
      var shown :| Justified(shown, seen) && Shows(d, shown);
      assert Shows(recorded, shown);
    }
    TransitionKeepsTracks(recorded, seen, e);
  }

  /** The events of a run, in the order it processed them. */
  function EventsOf(steps: seq<Step>): seq<Event> {
    if steps == [] then []
    else EventsOf(steps[..|steps| - 1]) + if steps[|steps| - 1].Receive? then [steps[|steps| - 1].event] else []
  }

  lemma {:induction false} EventsOfMembership(steps: seq<Step>, e: Event)
    ensures e in EventsOf(steps) <==> exists step :: step in steps && step.Receive? && step.event == e
  {
    if steps != [] {
      var front, last := steps[..|steps| - 1], steps[|steps| - 1];
      assert steps == front + [last];
      EventsOfMembership(front, e);
      assert forall step :: step in steps <==> step in front || step == last;
    }
  }

  predicate CarriesMessage(d: Delivery, messageId: nat) {
    d.providerMessageId.None? || d.providerMessageId.value == messageId
  }

  lemma StepCarriesMessage(d: Delivery, step: Step, messageId: nat)
    requires CarriesMessage(d, messageId) && SameMessage([step], messageId)
    ensures CarriesMessage(Apply(d, step), messageId)
    ensures step.Receive? ==> Apply(d, step) == ReceiveFeedback(d, step.event, step.now)
  {
    assert step in [step];
  }

  lemma {:induction false} RunTracks(d: Delivery, steps: seq<Step>, messageId: nat)
    requires Tracks(d, []) && CarriesMessage(d, messageId) && SameMessage(steps, messageId)
    requires Identified(EventsOf(steps))
    ensures Tracks(Run(d, steps), EventsOf(steps)) && CarriesMessage(Run(d, steps), messageId)
  {
    if steps != [] {
      var front, last := steps[..|steps| - 1], steps[|steps| - 1];
      assert steps == front + [last];
      RunTracks(d, front, messageId);
      assert last in steps;
      var before := Run(d, front);
      StepCarriesMessage(before, last, messageId);
      hide Tracks, ReceiveFeedback, FinalizeSubmission, Attempt, ExpireLease;
      if last.Receive? {
        ReceptionKeepsTracks(before, last.event, last.now, EventsOf(front));
      } else {
        OtherStepsKeepTracks(before, EventsOf(front), last);
        assert EventsOf(front) + [] == EventsOf(front);
      }
    }
  }

  /** Every soft bounce is harmless: it is older than some terminal event, or it is itself the event
      that should decide. */
  ghost predicate Settled(es: seq<Event>) {
    forall b :: b in es && IsSoftBounce(b.feedback) ==>
      Authoritative(b, es) || exists t :: t in es && IsTerminal(t) && Older(b, t)
  }

  lemma JustifiedIsAuthoritative(e: Event, seen: seq<Event>, es: seq<Event>)
    requires Justified(e, seen) && SameMembers(seen, es) && Settled(es)
    ensures Authoritative(e, es)
  {
    if IsSoftBounce(e.feedback) && !Authoritative(e, es) {
      var t :| t in es && IsTerminal(t) && Older(e, t);
      OlderOrder(e, t, t);
    }
  }

  /** Delivery convergence.  From a claimed delivery, every run that processes exactly the events
      `es`, in any order, with any repeats and with submission results, attempts and lease expiries
      anywhere in between, ends showing the authoritative event. */
  lemma DeliveryConverges(d: Delivery, steps: seq<Step>, messageId: nat, es: seq<Event>)
    requires Tracks(d, []) && CarriesMessage(d, messageId) && SameMessage(steps, messageId)
    requires es != [] && Identified(es) && Settled(es) && Processes(steps, es)
    ensures exists e :: Authoritative(e, es) && Shows(Run(d, steps), e)
  {
    forall e
      ensures e in EventsOf(steps) <==> e in es
    {
      EventsOfMembership(steps, e);
    }
    RunTracks(d, steps, messageId);
    assert es[0] in EventsOf(steps);
    var e :| Justified(e, EventsOf(steps)) && Shows(Run(d, steps), e);
    JustifiedIsAuthoritative(e, EventsOf(steps), es);
  }

  lemma AuthoritativeIsUnique(a: Event, b: Event, es: seq<Event>)
    requires Authoritative(a, es) && Authoritative(b, es)
    ensures a == b
  {
    OlderOrder(a, b, a);
  }

  // ----- and exactly then -----

  function Receptions(es: seq<Event>): seq<Step> {
    seq(|es|, i requires 0 <= i < |es| => Receive(es[i], 0))
  }

  lemma {:induction false} RunAppend(d: Delivery, p: seq<Step>, q: seq<Step>)
    ensures Run(d, p + q) == Run(Run(d, p), q)
    decreases |q|
  {
    if q == [] {
      assert p + q == p;
    } else {
      assert (p + q)[..|p + q| - 1] == p + q[..|q| - 1];
      RunAppend(d, p, q[..|q| - 1]);
    }
  }

  /** A row that shows e is not overwritten by x. */
  predicate KeepsOut(e: Event, x: Event) {
    if IsTerminalStatus(StatusOf(e.feedback)) then IsTerminal(x) ==> !Older(e, x) else !IsTerminal(x) && !Older(e, x)
  }

  lemma StaysThrough(d: Delivery, e: Event, x: Event)
    requires Shows(d, e) && CarriesMessage(d, x.messageId)
    requires KeepsOut(e, x)
    ensures Shows(Apply(d, Receive(x, 0)), e) && CarriesMessage(Apply(d, Receive(x, 0)), x.messageId)
  {
    hide StatusOf, FailureCode;
    OlderOrder(e, x, x);
    assert Shows(RecordAcceptance(d, x, 0), e);
    assert !Overwrites(RecordAcceptance(d, x, 0), x);
  }

  /** Once shown, an event that no other may overwrite stays. */
  lemma {:induction false} StaysShown(d: Delivery, e: Event, es: seq<Event>, messageId: nat)
    requires Shows(d, e) && CarriesMessage(d, messageId)
    requires forall x :: x in es ==> x.messageId == messageId
    requires forall x :: x in es ==> KeepsOut(e, x)
    ensures Shows(Run(d, Receptions(es)), e)
    ensures CarriesMessage(Run(d, Receptions(es)), messageId)
  {
    hide Apply, Shows, CarriesMessage, KeepsOut;
    if es != [] {
      var front, last := es[..|es| - 1], es[|es| - 1];
      assert es == front + [last] && last in es;
      StaysShown(d, e, front, messageId);
      assert Receptions(es)[..|es| - 1] == Receptions(front);
      StaysThrough(Run(d, Receptions(front)), e, last);
    }
  }

  lemma FirstShows(d: Delivery, e: Event, messageId: nat)
    requires d.last == NO_STAMP && !IsTerminalStatus(d.status) && CarriesMessage(d, messageId) && e.messageId == messageId
    ensures Shows(Apply(d, Receive(e, 0)), e) && CarriesMessage(Apply(d, Receive(e, 0)), messageId)
  {
    hide StatusOf, FailureCode;
    assert Overwrites(RecordAcceptance(d, e, 0), e);
  }

  lemma ReceptionsProcess(e: Event, es: seq<Event>, messageId: nat)
    requires e in es && forall x :: x in es ==> x.messageId == messageId
    ensures Processes(Receptions([e] + es), es) && SameMessage(Receptions([e] + es), messageId)
  {
    var steps := Receptions([e] + es);
    forall step | step in steps
      ensures step.Receive? && step.event in es
    {
      var i :| 0 <= i < |steps| && steps[i] == step;
      assert step.event == ([e] + es)[i];
    }
    forall x | x in es
      ensures exists step :: step in steps && step.Receive? && step.event == x
    {
      var i :| 0 <= i < |es| && es[i] == x;
      assert steps[i + 1] == Receive(x, 0) && steps[i + 1] in steps;
    }
  }

  /** Processing one event first pins it, when nothing may overwrite it. */
  lemma FirstWins(d: Delivery, e: Event, es: seq<Event>, messageId: nat)
    requires d.last == NO_STAMP && !IsTerminalStatus(d.status) && CarriesMessage(d, messageId)
    requires e in es && forall x :: x in es ==> x.messageId == messageId
    requires forall x :: x in es ==> KeepsOut(e, x)
    ensures Shows(Run(d, Receptions([e] + es)), e)
    ensures Processes(Receptions([e] + es), es) && SameMessage(Receptions([e] + es), messageId)
  {
    hide Processes, SameMessage;
    var first := Receive(e, 0);
    assert Run(d, [first]) == Apply(d, first) by { assert [first][..0] == []; }
    FirstShows(d, e, messageId);
    hide Apply, Shows, CarriesMessage, IsTerminalStatus, StatusOf, KeepsOut;
    assert Receptions([e] + es) == [first] + Receptions(es);
    RunAppend(d, [first], Receptions(es));
    StaysShown(Run(d, [first]), e, es, messageId);
    ReceptionsProcess(e, es, messageId);
  }

  /** A finite non-empty set of identified events has an authoritative one. */
  lemma {:induction false} AuthoritativeExists(es: seq<Event>) returns (e: Event)
    requires es != [] && Identified(es)
    ensures Authoritative(e, es)
  {
    var front, last := es[..|es| - 1], es[|es| - 1];
    assert es == front + [last];
    if front == [] {
      return last;
    }
    var best := AuthoritativeExists(front);
    OlderOrder(best, last, last);
    assert RevisionOf(best) == RevisionOf(last) ==> best == last by { assert best in es && last in es; }
    assert SomeTerminal(es) <==> SomeTerminal(front) || IsTerminal(last) by {
      if SomeTerminal(front) {
        var t :| t in front && IsTerminal(t);
        assert t in es;
      }
      assert last in es;
    }
    var replace := (IsTerminal(last) && !IsTerminal(best)) || (IsTerminal(last) == IsTerminal(best) && Older(best, last));
    e := if replace then last else best;
    forall x | x in es && (SomeTerminal(es) ==> IsTerminal(x))
      ensures x == e || Older(x, e)
    {
      OlderOrder(x, best, e);
      assert x in front ==> (SomeTerminal(front) && !IsTerminal(best)) || !SomeTerminal(front) || !IsTerminal(x) || x == best || Older(x, best);
    }
  }

  /** An unsettled soft bounce and the authoritative event each keep all others out. */
  lemma UnsettledPair(es: seq<Event>) returns (b: Event, a: Event)
    requires es != [] && Identified(es) && !Settled(es)
    ensures b in es && a in es && RevisionOf(a) != RevisionOf(b)
    ensures forall x :: x in es ==> KeepsOut(b, x) && KeepsOut(a, x)
  {
    b :| b in es && IsSoftBounce(b.feedback) && !Authoritative(b, es) && !exists t :: t in es && IsTerminal(t) && Older(b, t);
    a := AuthoritativeExists(es);
    TerminalStatusSources(a.feedback);
    TerminalStatusSources(b.feedback);
    forall x | x in es
      ensures KeepsOut(a, x)
    {
      OlderOrder(a, x, x);
      if IsTerminal(x) {
        assert SomeTerminal(es);
      }
    }
    assert a != b && a.fingerprint != b.fingerprint;
  }

  /** Otherwise the order matters: the same events end in two different rows. */
  lemma UnsettledDiverges(d: Delivery, es: seq<Event>, messageId: nat) returns (p: seq<Step>, q: seq<Step>)
    requires d.last == NO_STAMP && !IsTerminalStatus(d.status) && CarriesMessage(d, messageId)
    requires es != [] && Identified(es) && !Settled(es) && forall x :: x in es ==> x.messageId == messageId
    ensures Processes(p, es) && Processes(q, es) && SameMessage(p, messageId) && SameMessage(q, messageId)
    ensures Run(d, p).last != Run(d, q).last
  {
    var b, a := UnsettledPair(es);
    FirstWins(d, b, es, messageId);
    FirstWins(d, a, es, messageId);
    p, q := Receptions([b] + es), Receptions([a] + es);
  }

  /** Whatever the order, the repeats and the steps in between, the row ends with the same status,
      failure code and last-event revision. */
  ghost predicate OrderIndependent(d: Delivery, es: seq<Event>, messageId: nat) {
    forall p, q ::
      Processes(p, es) && Processes(q, es) && SameMessage(p, messageId) && SameMessage(q, messageId) ==>
        var (a, b) := (Run(d, p), Run(d, q));
        a.status == b.status && a.failureCode == b.failureCode && a.last == b.last
  }

  /** The exact condition for order independence. */
  lemma OrderIndependenceCondition(now: int, leaseMs: nat, es: seq<Event>, messageId: nat)
    requires es != [] && Identified(es) && forall x :: x in es ==> x.messageId == messageId
    ensures OrderIndependent(Claimed(false, now, leaseMs), es, messageId) <==> Settled(es)
  {
    var d := Claimed(false, now, leaseMs);
    if Settled(es) {
      forall p, q | Processes(p, es) && Processes(q, es) && SameMessage(p, messageId) && SameMessage(q, messageId)
        ensures var (a, b) := (Run(d, p), Run(d, q));
          a.status == b.status && a.failureCode == b.failureCode && a.last == b.last
      {
        DeliveryConverges(d, p, messageId, es);
        DeliveryConverges(d, q, messageId, es);
        var e :| Authoritative(e, es) && Shows(Run(d, p), e);
        var f :| Authoritative(f, es) && Shows(Run(d, q), f);
        AuthoritativeIsUnique(e, f, es);
      }
    } else {
      var p, q := UnsettledDiverges(d, es, messageId);
    }
  }

  const TRANSIENT_BOUNCE := Event(1, 1, 7, 0, 10, 1, Bounce("Transient", "General"))
  const EARLIER_COMPLAINT := Event(2, 1, 7, 0, 5, 2, Complaint(None, None))

  lemma RunOfTwo(d: Delivery, a: Step, b: Step)
    ensures Run(d, [a, b]) == Apply(Apply(d, a), b)
  {
    assert [a, b][..1] == [a] && [a][..0] == [];
    assert Run(d, [a]) == Apply(Run(d, []), a);
  }

  /** A concrete pair: a transient bounce and a complaint that happened before it.  Whichever is
      processed first stays. */
  lemma OrderMattersExample(now: int, leaseMs: nat)
    ensures var d := Claimed(false, now, leaseMs);
      && Run(d, [Receive(TRANSIENT_BOUNCE, now), Receive(EARLIER_COMPLAINT, now)]).status == BOUNCED
      && Run(d, [Receive(EARLIER_COMPLAINT, now), Receive(TRANSIENT_BOUNCE, now)]).status == COMPLAINED
  {
    hide FailureCode;
    var d := Claimed(false, now, leaseMs);
    var bounce, complaint := Receive(TRANSIENT_BOUNCE, now), Receive(EARLIER_COMPLAINT, now);
    assert ToLower("Transient")[0] == 't' && |ToLower("General")| == 7;
    assert IsSoftBounce(TRANSIENT_BOUNCE.feedback) && IsTerminal(EARLIER_COMPLAINT);
    assert StatusOf(TRANSIENT_BOUNCE.feedback) == BOUNCED && StatusOf(EARLIER_COMPLAINT.feedback) == COMPLAINED;
    RunOfTwo(d, bounce, complaint);
    RunOfTwo(d, complaint, bounce);
  }
}
