/** Operator recovery of suppressed mailboxes, racing with feedback
    (apps/notifications/src/app/operations/email-recovery.service.ts).

    A recovery transaction takes no alias lock: it reads the rows, and later updates each of them
    only if status and suppression revision are still as read.  The two halves are separate steps
    here and feedback may come in between.  An operation lock keeps transactions of one operation
    apart. */
module Recovery {
  import opened Prelude
  import opened FeedbackPolicy
  import opened Destinations

  datatype RecoveryAction = Requested | Completed | FailedAction

  datatype Evidence = Evidence(actorId: string, reasonCode: string, reference: string, providerRequestId: Option<string>)

  datatype Command = Command(operationId: nat, action: RecoveryAction, expectedRevision: nat, evidence: Evidence, aliases: seq<RecipientHash>)

  function ExpectedStatus(action: RecoveryAction): DestinationStatus {
    if action == Requested then Suppressed else RecoveryPending
  }

  function NextStatusOf(action: RecoveryAction): DestinationStatus {
    match action
    case Requested => RecoveryPending
    case Completed => Active
    case FailedAction => Suppressed
  }

  datatype Audit = Audit(
    destination: RecipientHash,
    operationId: nat,
    action: RecoveryAction,
    evidence: Evidence,
    previousStatus: DestinationStatus,
    nextStatus: DestinationStatus,
    suppressionRevision: nat)

  /** What the first half of the transaction decides: an exact replay returns, an error rolls back,
      and otherwise the revisions read are kept for the second half. */
  datatype Decision =
    | NoDestination
    | Replayed
    | OperationConflict
    | WrongState
    | Proceed(revisions: map<RecipientHash, nat>)

  ghost predicate IsMaximum(m: nat, revisions: set<nat>) {
    m in revisions && forall r :: r in revisions ==> r <= m
  }

  ghost function AuditsOf(audits: seq<Audit>, operationId: nat): set<Audit> {
    set audit | audit in audits && audit.operationId == operationId
  }

  predicate AuditMatches(audit: Audit, command: Command) {
    && audit.action == command.action
    && audit.evidence == command.evidence
    && audit.previousStatus == ExpectedStatus(command.action)
    && audit.nextStatus == NextStatusOf(command.action)
  }

  ghost predicate IsExactReplay(rows: Table, recorded: set<Audit>, command: Command) {
    && IsMaximum(command.expectedRevision, set audit | audit in recorded :: audit.suppressionRevision)
    && forall audit :: audit in recorded ==>
      audit.destination in command.aliases && audit.destination in rows && AuditMatches(audit, command)
  }

  function Found(rows: Table, aliases: seq<RecipientHash>): set<RecipientHash> {
    set k | k in aliases && k in rows
  }

  ghost predicate InExpectedState(rows: Table, command: Command) {
    var found := Found(rows, command.aliases);
    && (forall k :: k in found ==> rows[k].status == ExpectedStatus(command.action))
    && IsMaximum(command.expectedRevision, set k | k in found :: rows[k].suppressionRevision)
  }

  ghost function Decide(rows: Table, audits: seq<Audit>, command: Command): Decision {
    var found := Found(rows, command.aliases);
    if found == {} then NoDestination
    else if AuditsOf(audits, command.operationId) != {} then
      if IsExactReplay(rows, AuditsOf(audits, command.operationId), command) then Replayed else OperationConflict
    else if InExpectedState(rows, command) then Proceed(map k | k in found :: rows[k].suppressionRevision)
    else WrongState
  }

  predicate Unchanged(rows: Table, k: RecipientHash, command: Command, revisions: map<RecipientHash, nat>) {
    k in revisions && k in rows && rows[k].status == ExpectedStatus(command.action) && rows[k].suppressionRevision == revisions[k]
  }

  /** Every row read still has the status and revision it was read with. */
  predicate SwapSucceeds(rows: Table, command: Command, revisions: map<RecipientHash, nat>) {
    forall k :: k in revisions ==> Unchanged(rows, k, command, revisions)
  }

  function Recovered(row: Destination, next: DestinationStatus): Destination {
    if next == Active
    then row.(status := next, facts := row.facts.(reasonCode := None), suppressedAt := None)
    else row.(status := next)
  }

  function SwappedRows(rows: Table, command: Command, revisions: map<RecipientHash, nat>): Table {
    map k | k in rows :: if k in revisions then Recovered(rows[k], NextStatusOf(command.action)) else rows[k]
  }

  function AuditFor(k: RecipientHash, command: Command, revisions: map<RecipientHash, nat>): Audit
    requires k in revisions
  {
    Audit(k, command.operationId, command.action, command.evidence,
          ExpectedStatus(command.action), NextStatusOf(command.action), revisions[k])
  }

  /** The audits of a committed operation: one for every row it changed. */
  ghost predicate AuditsRecorded(before: seq<Audit>, command: Command, revisions: map<RecipientHash, nat>, after: seq<Audit>) {
    && before <= after
    && forall audit :: audit in after[|before|..] <==> audit.destination in revisions && audit == AuditFor(audit.destination, command, revisions)
  }

  /** The second half of the transaction over the tables. */
  class RecoveryTables {
    var rows: Table
    var audits: seq<Audit>

    constructor (rows: Table)
      ensures this.rows == rows && audits == []
    {
      this.rows := rows;
      audits := [];
    }

    /** Updates every row or none, and records one audit for each. */
    method CommitTransition(command: Command, revisions: map<RecipientHash, nat>) returns (committed: bool)
      modifies this
      ensures committed <==> SwapSucceeds(old(rows), command, revisions)
      ensures committed ==> rows == SwappedRows(old(rows), command, revisions)
      ensures committed ==> AuditsRecorded(old(audits), command, revisions, audits)
      ensures !committed ==> rows == old(rows) && audits == old(audits)
    {
      var updated := set k | k in revisions && Unchanged(rows, k, command, revisions);
      if updated != revisions.Keys {
        return false;
      }
      rows := map k | k in rows :: if k in updated then Recovered(rows[k], NextStatusOf(command.action)) else rows[k];
      assert rows == SwappedRows(old(rows), command, revisions);
      var rest := updated;
      while rest != {}
        invariant rows == SwappedRows(old(rows), command, revisions)
        invariant rest <= updated && old(audits) <= audits
        invariant forall audit :: audit in audits[|old(audits)|..] <==>
          audit.destination in updated - rest && audit == AuditFor(audit.destination, command, revisions)
        decreases |rest|
      {
        var k :| k in rest;
        var audit := AuditFor(k, command, revisions);
        assert (audits + [audit])[|old(audits)|..] == audits[|old(audits)|..] + [audit];
        audits := audits + [audit];
        rest := rest - {k};
      }
      return true;
    }
  }

  // ----- runs that mix recovery and feedback -----

  datatype Pending = Pending(command: Command, revisions: map<RecipientHash, nat>)

  datatype World = World(rows: Table, audits: seq<Audit>, inFlight: map<nat, Pending>)

  datatype Step =
    | Feedback(event: Event, aliases: seq<RecipientHash>)
    | Begin(command: Command)
    | Commit(operationId: nat)

  ghost predicate Next(w: World, step: Step, w': World) {
    match step
    case Feedback(e, aliases) =>
      Transition(w.rows, aliases, e, w'.rows) && w' == w.(rows := w'.rows)
    case Begin(command) =>
      && command.operationId !in w.inFlight
      && (match Decide(w.rows, w.audits, command)
          case Proceed(revisions) => w' == w.(inFlight := w.inFlight[command.operationId := Pending(command, revisions)])
          case _ => w' == w)
    case Commit(operationId) =>
      && operationId in w.inFlight
      && w'.inFlight == w.inFlight - {operationId}
      && var Pending(command, revisions) := w.inFlight[operationId];
        if SwapSucceeds(w.rows, command, revisions)
        then w'.rows == SwappedRows(w.rows, command, revisions) && AuditsRecorded(w.audits, command, revisions, w'.audits)
        else w'.rows == w.rows && w'.audits == w.audits
  }

  ghost predicate IsRun(run: seq<World>, steps: seq<Step>) {
    |run| == |steps| + 1 && forall i :: 0 <= i < |steps| ==> Next(run[i], steps[i], run[i + 1])
  }

  // ----- a mailbox whose keyring may grow -----

  /** The row of the mailbox, under any of its aliases. */
  predicate Stored(rows: Table, mailbox: set<RecipientHash>, k: RecipientHash) {
    k in mailbox && k in rows
  }

  /** An alias list of the mailbox: it names every row that the mailbox has, since a rotated keyring
      adds aliases and forgets none. */
  ghost predicate Names(rows: Table, mailbox: set<RecipientHash>, aliases: seq<RecipientHash>) {
    && aliases != [] && (forall k :: k in aliases ==> k in mailbox)
    && (forall k :: Stored(rows, mailbox, k) ==> k in aliases)
  }

  ghost predicate Disjoint(mailbox: set<RecipientHash>, aliases: seq<RecipientHash>) {
    forall k :: k in aliases ==> k !in mailbox
  }

  /** The step is about the mailbox, under its aliases of that time, or about other mailboxes. */
  ghost predicate Fits(w: World, step: Step, mailbox: set<RecipientHash>) {
    match step
    case Feedback(_, aliases) => Names(w.rows, mailbox, aliases) || Disjoint(mailbox, aliases)
    case Begin(command) => Names(w.rows, mailbox, command.aliases) || Disjoint(mailbox, command.aliases)
    case Commit(_) => true
  }

  ghost predicate AboutMailbox(run: seq<World>, steps: seq<Step>, mailbox: set<RecipientHash>) {
    |steps| < |run| && forall i :: 0 <= i < |steps| ==> Fits(run[i], steps[i], mailbox)
  }

  /** All rows of the mailbox have one status and, while it is blocked, one suppression revision.  An
      alias that first appears while it is not blocked starts again at revision zero. */
  ghost predicate Uniform(rows: Table, mailbox: set<RecipientHash>) {
    forall j, k :: Stored(rows, mailbox, j) && Stored(rows, mailbox, k) ==>
      && rows[j].status == rows[k].status
      && (IsBlocked(rows[j].status) ==> rows[j].suppressionRevision == rows[k].suppressionRevision)
  }

  ghost predicate HasStatus(rows: Table, mailbox: set<RecipientHash>, status: DestinationStatus, revision: nat) {
    && (exists k :: Stored(rows, mailbox, k))
    && forall k :: Stored(rows, mailbox, k) ==> rows[k].status == status && rows[k].suppressionRevision == revision
  }

  ghost predicate NoneBlocked(rows: Table, mailbox: set<RecipientHash>) {
    forall k :: Stored(rows, mailbox, k) ==> !IsBlocked(rows[k].status)
  }

  /** What a transaction of the mailbox read is all there is, or can no longer be swapped: the mailbox
      is not blocked, or its revision has moved on. */
  ghost predicate ReadSound(rows: Table, mailbox: set<RecipientHash>, command: Command, revisions: map<RecipientHash, nat>) {
    && (forall k :: k in revisions ==> Stored(rows, mailbox, k) && revisions[k] == command.expectedRevision <= rows[k].suppressionRevision)
    && (|| (forall k :: Stored(rows, mailbox, k) ==> k in revisions)
        || NoneBlocked(rows, mailbox)
        || (forall k :: Stored(rows, mailbox, k) ==> rows[k].suppressionRevision > command.expectedRevision))
  }

  /** What is known about one transaction in flight. */
  ghost predicate PendingSound(w: World, op: nat, pending: Pending, mailbox: set<RecipientHash>) {
    var Pending(command, revisions) := pending;
    && command.operationId == op
    && AuditsOf(w.audits, op) == {}
    && (exists k :: k in revisions)
    && (|| (&& command.aliases != [] && (forall k :: k in command.aliases ==> k in mailbox)
            && ReadSound(w.rows, mailbox, command, revisions))
        || (Disjoint(mailbox, command.aliases) && forall k :: k in revisions ==> k !in mailbox))
  }

  ghost predicate InFlightSound(w: World, mailbox: set<RecipientHash>) {
    forall op :: op in w.inFlight ==> PendingSound(w, op, w.inFlight[op], mailbox)
  }

  ghost predicate Sound(w: World, mailbox: set<RecipientHash>) {
    Uniform(w.rows, mailbox) && InFlightSound(w, mailbox)
  }

  // ----- what a step does to the mailbox -----

  ghost predicate SameMailbox(before: Table, after: Table, mailbox: set<RecipientHash>) {
    forall k :: k in mailbox ==> (k in before <==> k in after) && (k in before ==> after[k] == before[k])
  }

  /** A terminal event: one suppressed row under all aliases, at a greater revision than any before. */
  ghost predicate Suppresses(before: Table, after: Table, mailbox: set<RecipientHash>) {
    && (forall k :: Stored(before, mailbox, k) ==> k in after)
    && (forall k :: Stored(after, mailbox, k) ==> after[k].status == Suppressed)
    && (forall j, k :: Stored(before, mailbox, j) && Stored(after, mailbox, k) ==>
         after[k].suppressionRevision > before[j].suppressionRevision)
    && (forall j, k :: Stored(after, mailbox, j) && Stored(after, mailbox, k) ==>
         after[j].suppressionRevision == after[k].suppressionRevision)
  }

  /** News while the mailbox is not blocked: rows keep their revisions and may be added. */
  ghost predicate Reports(before: Table, after: Table, mailbox: set<RecipientHash>) {
    && NoneBlocked(before, mailbox) && NoneBlocked(after, mailbox)
    && (forall k :: Stored(before, mailbox, k) ==> k in after && after[k].suppressionRevision == before[k].suppressionRevision)
    && (forall j, k :: Stored(after, mailbox, j) && Stored(after, mailbox, k) ==> after[j].status == after[k].status)
  }

  /** A recovery command commits: every row moves from the expected status at the named revision to the
      next one. */
  ghost predicate Recovers(before: Table, after: Table, mailbox: set<RecipientHash>, action: RecoveryAction, revision: nat) {
    && HasStatus(before, mailbox, ExpectedStatus(action), revision)
    && HasStatus(after, mailbox, NextStatusOf(action), revision)
    && forall k :: k in mailbox ==> (k in before <==> k in after)
  }

  ghost predicate TerminalFor(step: Step, mailbox: set<RecipientHash>) {
    step.Feedback? && !Disjoint(mailbox, step.aliases) && IsTerminal(step.event)
  }

  ghost predicate CommitsFor(w: World, step: Step, mailbox: set<RecipientHash>, action: RecoveryAction, revision: nat) {
    && step.Commit? && step.operationId in w.inFlight
    && var Pending(command, revisions) := w.inFlight[step.operationId];
      && command.aliases != [] && (forall k :: k in command.aliases ==> k in mailbox)
      && command.action == action && command.expectedRevision == revision
      && SwapSucceeds(w.rows, command, revisions)
  }

  lemma ReportedIsUnblocked(rows: Table, aliases: seq<RecipientHash>, e: Event, status: DestinationStatus, facts: Facts)
    requires Decides(rows, aliases, e, status, facts) && Speaks(e) && !SomeBlocked(rows, aliases)
    ensures !IsBlocked(status)
  {
  }

  lemma FeedbackOnMailbox(before: Table, e: Event, aliases: seq<RecipientHash>, after: Table, mailbox: set<RecipientHash>)
    requires Uniform(before, mailbox) && Transition(before, aliases, e, after)
    requires Names(before, mailbox, aliases) || Disjoint(mailbox, aliases)
    ensures if !Disjoint(mailbox, aliases) && IsTerminal(e) then Suppresses(before, after, mailbox)
            else SameMailbox(before, after, mailbox) || Reports(before, after, mailbox)
  {
    hide IsTerminal, Speaks, IsEarliest, Uniform;
    if Disjoint(mailbox, aliases) {
      assert Framed(before, aliases, after);
    } else if IsTerminal(e) {
      var row :| SuppressedOutcome(before, aliases, e, row) && forall k :: k in aliases ==> k in after && after[k] == row;
      hide Decides;
      assert forall k :: Stored(after, mailbox, k) ==> k in aliases by { assert Framed(before, aliases, after); }
    } else if Speaks(e) && !SomeBlocked(before, aliases) {
      var status, facts :| ReportedOutcome(before, aliases, e, status, facts, after);
      ReportedIsUnblocked(before, aliases, e, status, facts);
      hide Decides;
      assert forall k :: Stored(after, mailbox, k) ==> k in aliases by { assert Framed(before, aliases, after); }
    }
  }

  /** A swap that succeeds covers the whole mailbox. */
  lemma SwapCoversMailbox(rows: Table, mailbox: set<RecipientHash>, command: Command, revisions: map<RecipientHash, nat>)
    requires Uniform(rows, mailbox) && ReadSound(rows, mailbox, command, revisions) && exists k :: k in revisions
    requires SwapSucceeds(rows, command, revisions)
    ensures Recovers(rows, SwappedRows(rows, command, revisions), mailbox, command.action, command.expectedRevision)
  {
    var j :| j in revisions;
    assert Unchanged(rows, j, command, revisions);
    assert forall k :: Stored(rows, mailbox, k) ==> k in revisions;
    forall k | Stored(rows, mailbox, k)
      ensures Unchanged(rows, k, command, revisions)
    {
    }
    var after := SwappedRows(rows, command, revisions);
    assert Stored(rows, mailbox, j) && Stored(after, mailbox, j);
  }

  lemma DisjointSwap(rows: Table, mailbox: set<RecipientHash>, command: Command, revisions: map<RecipientHash, nat>)
    requires forall k :: k in revisions ==> k !in mailbox
    ensures SameMailbox(rows, SwappedRows(rows, command, revisions), mailbox)
  {
  }

  /** The four things a step can do to a mailbox. */
  lemma StepOnMailbox(w: World, step: Step, w': World, mailbox: set<RecipientHash>) returns (action: RecoveryAction, revision: nat)
    requires Sound(w, mailbox) && Next(w, step, w') && Fits(w, step, mailbox)
    ensures
      || (SameMailbox(w.rows, w'.rows, mailbox) && !TerminalFor(step, mailbox))
      || (TerminalFor(step, mailbox) && Suppresses(w.rows, w'.rows, mailbox))
      || (step.Feedback? && !TerminalFor(step, mailbox) && Reports(w.rows, w'.rows, mailbox))
      || (CommitsFor(w, step, mailbox, action, revision) && Recovers(w.rows, w'.rows, mailbox, action, revision))
  {
    hide Transition, Decide, Suppresses, Reports, Recovers, Uniform, ReadSound;
    action, revision := Requested, 0;
    match step {
      case Feedback(e, aliases) =>
        FeedbackOnMailbox(w.rows, e, aliases, w'.rows, mailbox);
      case Begin(command) =>
      case Commit(op) =>
        var Pending(command, revisions) := w.inFlight[op];
        assert PendingSound(w, op, w.inFlight[op], mailbox);
        assert command.aliases != [] ==> command.aliases[0] in command.aliases;
        if SwapSucceeds(w.rows, command, revisions) {
          if Disjoint(mailbox, command.aliases) {
            assert SameMailbox(w.rows, w'.rows, mailbox) by { DisjointSwap(w.rows, mailbox, command, revisions); }
          } else {
            SwapCoversMailbox(w.rows, mailbox, command, revisions);
            action, revision := command.action, command.expectedRevision;
          }
        }
    }
  }

  // ----- soundness is kept -----

  /** One of the four effects, whatever caused it. */
  ghost predicate Effect(before: Table, after: Table, mailbox: set<RecipientHash>) {
    || SameMailbox(before, after, mailbox)
    || Suppresses(before, after, mailbox)
    || Reports(before, after, mailbox)
    || exists action, revision :: Recovers(before, after, mailbox, action, revision)
  }

  lemma EffectKeepsUniform(before: Table, after: Table, mailbox: set<RecipientHash>)
    requires Uniform(before, mailbox) && Effect(before, after, mailbox)
    ensures Uniform(after, mailbox)
  {
  }

  lemma EffectKeepsRead(before: Table, after: Table, mailbox: set<RecipientHash>, command: Command, revisions: map<RecipientHash, nat>)
    requires Effect(before, after, mailbox) && ReadSound(before, mailbox, command, revisions) && exists k :: k in revisions
    ensures ReadSound(after, mailbox, command, revisions)
  {
    var j :| j in revisions;
    assert Stored(before, mailbox, j);
    if SameMailbox(before, after, mailbox) {
      assert forall k :: Stored(after, mailbox, k) <==> Stored(before, mailbox, k);
    } else if Suppresses(before, after, mailbox) {
      assert forall k :: Stored(after, mailbox, k) ==> after[k].suppressionRevision > before[j].suppressionRevision;
    } else if Reports(before, after, mailbox) {
      assert NoneBlocked(after, mailbox);
    } else {
      var action, revision :| Recovers(before, after, mailbox, action, revision);
      assert forall k :: Stored(after, mailbox, k) <==> Stored(before, mailbox, k);
    }
  }

  lemma EffectOfStep(w: World, step: Step, w': World, mailbox: set<RecipientHash>)
    requires Sound(w, mailbox) && Next(w, step, w') && Fits(w, step, mailbox)
    ensures Effect(w.rows, w'.rows, mailbox)
  {
    var action, revision := StepOnMailbox(w, step, w', mailbox);
  }

  lemma ProceedReadsAll(rows: Table, audits: seq<Audit>, command: Command, mailbox: set<RecipientHash>)
    requires Uniform(rows, mailbox) && Names(rows, mailbox, command.aliases) && Decide(rows, audits, command).Proceed?
    ensures ReadSound(rows, mailbox, command, Decide(rows, audits, command).revisions)
  {
    var found := Found(rows, command.aliases);
    forall k
      ensures k in found <==> Stored(rows, mailbox, k)
    {
    }
    var j :| j in found;
    var m :| m in found && rows[m].suppressionRevision == command.expectedRevision;
    forall k | k in found
      ensures rows[k].suppressionRevision == command.expectedRevision
    {
      assert IsBlocked(rows[k].status);
    }
  }

  lemma AuditsStayEmpty(w: World, step: Step, w': World, op: nat)
    requires Next(w, step, w') && AuditsOf(w.audits, op) == {} && op in w'.inFlight
    requires forall other :: other in w.inFlight ==> w.inFlight[other].command.operationId == other
    ensures AuditsOf(w'.audits, op) == {}
  {
    if step.Commit? && w'.audits != w.audits {
      assert w'.audits == w.audits + w'.audits[|w.audits|..];
      forall audit | audit in w'.audits
        ensures audit.operationId != op
      {
        if audit in w.audits {
          assert audit.operationId == op ==> audit in AuditsOf(w.audits, op);
        } else {
          assert audit in w'.audits[|w.audits|..];
        }
      }
    }
  }

  lemma BeginIsSound(w: World, command: Command, w': World, mailbox: set<RecipientHash>)
    requires Sound(w, mailbox) && Next(w, Begin(command), w') && Fits(w, Begin(command), mailbox)
    requires Decide(w.rows, w.audits, command).Proceed?
    ensures PendingSound(w', command.operationId, w'.inFlight[command.operationId], mailbox)
  {
    var k :| k in Found(w.rows, command.aliases);
    var revisions := Decide(w.rows, w.audits, command).revisions;
    assert k in revisions;
    assert forall x :: x in revisions ==> x in command.aliases;
    if !Disjoint(mailbox, command.aliases) {
      ProceedReadsAll(w.rows, w.audits, command, mailbox);
    }
  }

  lemma StillPendingSound(w: World, w': World, op: nat, pending: Pending, mailbox: set<RecipientHash>)
    requires PendingSound(w, op, pending, mailbox) && AuditsOf(w'.audits, op) == {} && Effect(w.rows, w'.rows, mailbox)
    ensures PendingSound(w', op, pending, mailbox)
  {
    hide Effect, ReadSound, AuditsOf;
    if ReadSound(w.rows, mailbox, pending.command, pending.revisions) {
      EffectKeepsRead(w.rows, w'.rows, mailbox, pending.command, pending.revisions);
    }
  }

  lemma StepKeepsSound(w: World, step: Step, w': World, mailbox: set<RecipientHash>)
    requires Sound(w, mailbox) && Next(w, step, w') && Fits(w, step, mailbox)
    ensures Sound(w', mailbox)
  {
    EffectOfStep(w, step, w', mailbox);
    EffectKeepsUniform(w.rows, w'.rows, mailbox);
    hide Effect, Uniform, ReadSound, Decide, Fits, Transition;
    assert forall op :: op in w.inFlight ==> PendingSound(w, op, w.inFlight[op], mailbox);
    forall op | op in w'.inFlight
      ensures PendingSound(w', op, w'.inFlight[op], mailbox)
    {
      if op in w.inFlight && w'.inFlight[op] == w.inFlight[op] {
        AuditsStayEmpty(w, step, w', op);
        StillPendingSound(w, w', op, w.inFlight[op], mailbox);
      } else {
        BeginIsSound(w, step.command, w', mailbox);
      }
    }
  }

  lemma {:induction false} RunsStaySound(run: seq<World>, steps: seq<Step>, mailbox: set<RecipientHash>, i: nat)
    requires IsRun(run, steps) && AboutMailbox(run, steps, mailbox) && Sound(run[0], mailbox) && i < |run|
    ensures Sound(run[i], mailbox)
  {
    if i > 0 {
      RunsStaySound(run, steps, mailbox, i - 1);
      StepKeepsSound(run[i - 1], steps[i - 1], run[i], mailbox);
    }
  }

  // ----- recovery safety -----

  /** Step j made the mailbox pending at the revision, and no terminal event has reached it up to n. */
  ghost predicate PendingSinceStep(run: seq<World>, steps: seq<Step>, mailbox: set<RecipientHash>, revision: nat, j: nat, n: nat)
    requires n <= |steps| < |run|
  {
    && j < n
    && CommitsFor(run[j], steps[j], mailbox, Requested, revision)
    && HasStatus(run[j].rows, mailbox, Suppressed, revision)
    && (forall i :: j < i < n ==> !TerminalFor(steps[i], mailbox))
  }

  /** No row of the mailbox is pending at the start. */
  ghost predicate NotPending(rows: Table, mailbox: set<RecipientHash>) {
    forall k :: Stored(rows, mailbox, k) ==> rows[k].status != RecoveryPending
  }

  ghost predicate SomeActive(rows: Table, mailbox: set<RecipientHash>) {
    exists k :: Stored(rows, mailbox, k) && rows[k].status == Active
  }

  lemma NotPendingYet(rows: Table, mailbox: set<RecipientHash>, revision: nat)
    requires NotPending(rows, mailbox)
    ensures !HasStatus(rows, mailbox, RecoveryPending, revision)
  {
  }

  /** The step before a pending state: it left the mailbox alone or it committed the request. */
  lemma BeforePending(w: World, step: Step, w': World, mailbox: set<RecipientHash>, revision: nat)
    requires Sound(w, mailbox) && Next(w, step, w') && Fits(w, step, mailbox)
    requires HasStatus(w'.rows, mailbox, RecoveryPending, revision)
    ensures
      || (HasStatus(w.rows, mailbox, RecoveryPending, revision) && !TerminalFor(step, mailbox))
      || (CommitsFor(w, step, mailbox, Requested, revision) && HasStatus(w.rows, mailbox, Suppressed, revision))
  {
    var action, r := StepOnMailbox(w, step, w', mailbox);
    var k :| Stored(w'.rows, mailbox, k);
    hide Next, CommitsFor, TerminalFor, Fits, InFlightSound;
    assert SameMailbox(w.rows, w'.rows, mailbox) ==> Stored(w.rows, mailbox, k);
    assert Recovers(w.rows, w'.rows, mailbox, action, r) ==> action == Requested && r == revision;
  }

  /** A pending mailbox was made pending by a request that committed at its present suppression
      revision, and no terminal event has been processed for it since. */
  lemma {:induction false} PendingSince(run: seq<World>, steps: seq<Step>, mailbox: set<RecipientHash>, revision: nat, n: nat) returns (j: nat)
    requires IsRun(run, steps) && AboutMailbox(run, steps, mailbox) && Sound(run[0], mailbox) && NotPending(run[0].rows, mailbox)
    requires n < |run| && HasStatus(run[n].rows, mailbox, RecoveryPending, revision)
    ensures PendingSinceStep(run, steps, mailbox, revision, j, n)
  {
    NotPendingYet(run[0].rows, mailbox, revision);
    if n > 0 {
      var i := n - 1;
      RunsStaySound(run, steps, mailbox, i);
      assert Next(run[i], steps[i], run[n]) && Fits(run[i], steps[i], mailbox);
      BeforePending(run[i], steps[i], run[n], mailbox, revision);
      hide Next, Fits, Sound, CommitsFor, TerminalFor, HasStatus;
      if HasStatus(run[i].rows, mailbox, RecoveryPending, revision) && !TerminalFor(steps[i], mailbox) {
        j := PendingSince(run, steps, mailbox, revision, i);
      } else {
        j := i;
      }
    }
  }

  lemma BecomesActive(w: World, step: Step, w': World, mailbox: set<RecipientHash>) returns (revision: nat)
    requires Sound(w, mailbox) && Next(w, step, w') && Fits(w, step, mailbox)
    requires !NoneBlocked(w.rows, mailbox)
    requires SomeActive(w'.rows, mailbox)
    ensures CommitsFor(w, step, mailbox, Completed, revision)
    ensures HasStatus(w.rows, mailbox, RecoveryPending, revision) && HasStatus(w'.rows, mailbox, Active, revision)
  {
    var action, r := StepOnMailbox(w, step, w', mailbox);
    var b :| Stored(w.rows, mailbox, b) && IsBlocked(w.rows[b].status);
    var k :| Stored(w'.rows, mailbox, k) && w'.rows[k].status == Active;
    hide Next, CommitsFor, TerminalFor, Fits, InFlightSound;
    revision := r;
  }

  /** A blocked mailbox becomes active only when a completion commits that names its present
      suppression revision, with no terminal event since the request that made it pending. */
  lemma RecoverySafety(run: seq<World>, steps: seq<Step>, mailbox: set<RecipientHash>, i: nat) returns (j: nat, revision: nat)
    requires IsRun(run, steps) && AboutMailbox(run, steps, mailbox) && Sound(run[0], mailbox) && NotPending(run[0].rows, mailbox)
    requires i < |steps| && !NoneBlocked(run[i].rows, mailbox)
    requires SomeActive(run[i + 1].rows, mailbox)
    ensures CommitsFor(run[i], steps[i], mailbox, Completed, revision)
    ensures HasStatus(run[i].rows, mailbox, RecoveryPending, revision)
    ensures HasStatus(run[i + 1].rows, mailbox, Active, revision)
    ensures PendingSinceStep(run, steps, mailbox, revision, j, i)
  {
    RunsStaySound(run, steps, mailbox, i);
    assert Next(run[i], steps[i], run[i + 1]) && Fits(run[i], steps[i], mailbox);
    revision := BecomesActive(run[i], steps[i], run[i + 1], mailbox);
    j := PendingSince(run, steps, mailbox, revision, i);
  }

  // ----- replays -----

  function RecordOf(k: RecipientHash, command: Command): Audit {
    Audit(k, command.operationId, command.action, command.evidence,
          ExpectedStatus(command.action), NextStatusOf(command.action), command.expectedRevision)
  }

  /** The record that a committed operation leaves: one audit for every row it changed. */
  ghost predicate Recorded(w: World, command: Command, keys: set<RecipientHash>) {
    && (forall k :: k in keys ==> k in w.rows)
    && AuditsOf(w.audits, command.operationId) == (set k | k in keys :: RecordOf(k, command))
  }

  lemma CommitRecords(w: World, op: nat, w': World, mailbox: set<RecipientHash>)
    requires Sound(w, mailbox) && Next(w, Commit(op), w')
    requires SwapSucceeds(w.rows, w.inFlight[op].command, w.inFlight[op].revisions)
    requires !Disjoint(mailbox, w.inFlight[op].command.aliases)
    ensures Recorded(w', w.inFlight[op].command, w.inFlight[op].revisions.Keys)
  {
    var Pending(command, revisions) := w.inFlight[op];
    assert PendingSound(w, op, w.inFlight[op], mailbox);
    hide Sound, Uniform, Decide;
    var recorded := set k | k in revisions.Keys :: RecordOf(k, command);
    assert w'.audits == w.audits + w'.audits[|w.audits|..];
    forall k | k in revisions
      ensures k in w'.rows
    {
      assert Unchanged(w.rows, k, command, revisions);
    }
    forall audit
      ensures audit in AuditsOf(w'.audits, op) <==> audit in recorded
    {
      assert audit in w.audits && audit.operationId == op ==> audit in AuditsOf(w.audits, op);
      if audit in recorded {
        assert audit == AuditFor(audit.destination, command, revisions);
      }
    }
  }

  lemma StepKeepsRecord(w: World, step: Step, w': World, command: Command, keys: set<RecipientHash>, mailbox: set<RecipientHash>)
    requires Next(w, step, w') && Recorded(w, command, keys) && InFlightSound(w, mailbox) && keys != {}
    ensures Recorded(w', command, keys)
  {
    var op := command.operationId;
    var k :| k in keys;
    assert RecordOf(k, command) in AuditsOf(w.audits, op);
    match step {
      case Feedback(e, used) =>
        assert forall x :: x in w.rows ==> x in w'.rows;
      case Begin(begun) =>
      case Commit(other) =>
        assert PendingSound(w, other, w.inFlight[other], mailbox);
        assert other != op;
        if SwapSucceeds(w.rows, w.inFlight[other].command, w.inFlight[other].revisions) {
          assert w'.audits == w.audits + w'.audits[|w.audits|..];
          assert AuditsOf(w'.audits, op) == AuditsOf(w.audits, op);
        }
    }
  }

  lemma {:induction false} RecordStays(run: seq<World>, steps: seq<Step>, command: Command, keys: set<RecipientHash>,
                                       mailbox: set<RecipientHash>, i: nat, n: nat)
    requires IsRun(run, steps) && AboutMailbox(run, steps, mailbox) && Sound(run[0], mailbox) && keys != {}
    requires i <= n < |run| && Recorded(run[i], command, keys)
    ensures Recorded(run[n], command, keys)
    decreases n - i
  {
    hide Next, Recorded, Uniform, InFlightSound, AboutMailbox;
    if i < n {
      RecordStays(run, steps, command, keys, mailbox, i, n - 1);
      RunsStaySound(run, steps, mailbox, n - 1);
      assert Next(run[n - 1], steps[n - 1], run[n]);
      StepKeepsRecord(run[n - 1], steps[n - 1], run[n], command, keys, mailbox);
    }
  }

  /** The same command, for a recipient whose aliases cover what was recorded. */
  predicate Repeats(again: Command, command: Command, keys: set<RecipientHash>) {
    && again.action == command.action && again.evidence == command.evidence
    && again.expectedRevision == command.expectedRevision
    && forall k :: k in keys ==> k in again.aliases
  }

  lemma ReplayDecision(w: World, command: Command, keys: set<RecipientHash>, again: Command)
    requires Recorded(w, command, keys) && keys != {} && again.operationId == command.operationId
    requires exists k :: k in again.aliases && k in w.rows
    ensures Decide(w.rows, w.audits, again) == if Repeats(again, command, keys) then Replayed else OperationConflict
  {
    var recorded := AuditsOf(w.audits, command.operationId);
    var present :| present in again.aliases && present in w.rows;
    assert present in Found(w.rows, again.aliases);
    var revisions := set audit | audit in recorded :: audit.suppressionRevision;
    var key :| key in keys;
    var first := RecordOf(key, command);
    assert first in recorded;
    assert first.suppressionRevision in revisions;
    assert revisions == {command.expectedRevision};
    forall k | k in keys
      ensures exists audit :: audit in recorded && audit.destination == k
    {
      assert RecordOf(k, command) in recorded;
    }
    assert AuditMatches(first, again) <==> again.action == command.action && again.evidence == command.evidence;
  }

  /** The operation of the mailbox commits at step i. */
  ghost predicate CommitsAt(run: seq<World>, steps: seq<Step>, mailbox: set<RecipientHash>, command: Command, i: nat)
    requires i < |steps| < |run|
  {
    && steps[i] == Commit(command.operationId) && command.operationId in run[i].inFlight
    && run[i].inFlight[command.operationId].command == command && !Disjoint(mailbox, command.aliases)
    && SwapSucceeds(run[i].rows, command, run[i].inFlight[command.operationId].revisions)
  }

  /** An operation commits once.  From then on, in every later state, its identifier is answered as
      an exact replay for the same command on the same mailbox and as a conflict for any other, and
      neither changes anything. */
  lemma ReplayAfterCommit(run: seq<World>, steps: seq<Step>, mailbox: set<RecipientHash>, command: Command, i: nat, n: nat, again: Command)
    requires IsRun(run, steps) && AboutMailbox(run, steps, mailbox) && Sound(run[0], mailbox)
    requires i < n < |steps| && CommitsAt(run, steps, mailbox, command, i)
    requires steps[n] == Begin(again) && again.operationId == command.operationId
    requires exists k :: k in again.aliases && k in run[n].rows
    ensures run[n + 1] == run[n]
    ensures Decide(run[n].rows, run[n].audits, again) ==
            if Repeats(again, command, run[i].inFlight[command.operationId].revisions.Keys) then Replayed else OperationConflict
  {
    var op := command.operationId;
    var keys := run[i].inFlight[op].revisions.Keys;
    RunsStaySound(run, steps, mailbox, i);
    assert Next(run[i], steps[i], run[i + 1]) && Next(run[n], steps[n], run[n + 1]);
    assert keys != {} by {
      assert PendingSound(run[i], op, run[i].inFlight[op], mailbox);
    }
    CommitRecords(run[i], op, run[i + 1], mailbox);
    RecordStays(run, steps, command, keys, mailbox, i + 1, n);
    hide Sound, AboutMailbox, Transition, Recorded, Repeats, IsExactReplay, InExpectedState;
    ReplayDecision(run[n], command, keys, again);
  }
}
