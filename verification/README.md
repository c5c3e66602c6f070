# Verified model of pixaeron's protocols

A Dafny model of the parts of the repository in which the order of events, bytes or rows decides the
result, with machine-checked proofs of what those parts keep. Every database transaction is one
atomic step over its tables; clocks, hashes, identifiers and the answers of the image library are
inputs. `dafny verify dfyconfig.toml` checks everything.

The model has five parts.

* **Email feedback and delivery** (`Revisions`, `FeedbackPolicy`, `FeedbackMeaning`, `Deliveries`,
  `Destinations`, `DestinationConvergence`, `FeedbackProcessor`, `DeliveryOrder`, `StatusMeaning`,
  `Recovery`, `RecoveryMeaning`, `AliasLocks`, `CommandProtocol`, `CommandOutcome`). SES events arrive
  duplicated and out of order and race with submissions, lease expiry and operators. The main results
  are convergence of destinations for every order and what they converge to, the exact condition for
  convergence of deliveries, safety of recovery, one answer with its cause and at most one submission
  per request, and the exact condition under which alias locks cannot deadlock.
* **Conversion batches** (`Conversions`, `BatchRollup`, `Admission`, `Eviction`, `Lifecycle`,
  `Outbox`, `ConversionService`, `ConversionRuns`, `AdmissionEffect`, `AdmissionMeaning`,
  `BatchAgreement`, `BatchMeaning`, `StorageBound`, `AdmissionLedger`, `FileHistory`, `FileMeaning`,
  `OutboxHistory`).
  One state machine of creation, upload, admission, worker events, expiry and publishing; batch and
  file statuses agree and are closed as the files call for, admissions succeed exactly when they may,
  storage and quota hold, eviction is minimal, no admitted request is lost, and retries are spaced.
* **Image containers** (`Bytes`, `ExifOrientation`, `JpegRewriter`, `JpegMeaning`, `WebpStrip`,
  `WebpMeaning`, `AvifWalk`, `AvifMeaning`, `Compressor`, `CompressorMeaning`). Byte-level loops over
  JPEG segments (ITU-T T.81, sections B.1.1.2 and B.1.1.4), WebP chunks (RFC 9649, sections 2.3 and
  2.7) and ISO boxes (ISO/IEC 14496-12, section 4.2).
* **Refresh rotation** (`RefreshRotation`, `RefreshOutcome`). Token chain, parallel refreshes of one
  session, and what decides the answer to each request.
* **Slot scheduler** (`SlotScheduler`). The priority semaphore of the conversion worker.

Code that updates rows, fields or buffers is modelled by classes and methods with loops. Each method
is proved equal to a specification function or relation, and the laws are proved about that, over all
inputs or all reachable states. The modules named after a meaning or an outcome say what the rows,
bytes and answers are in each case without naming the functions that compute them.

Three findings, each with its exact condition. A bounce that is neither permanent nor a provider
suppression writes a terminal delivery status without being a terminal mailbox event, so the final
delivery status can depend on the processing order; `Deliveries.OrderIndependenceCondition` says
exactly when for one delivery and `DeliveryOrder.OrderIndependenceCondition` for the whole system.
The storage cap bounds usage at the moment of an admission; afterwards outputs may outgrow their
inputs (`CapAloneFails`), and `WithinCapExactly` says exactly which results take a subject beyond its
cap. A lock number is a 64-bit hash of a longer alias, so collisions exist; transactions that lock a
given set of alias lists cannot deadlock exactly when no prefixes of the lists wait for each other in
a circle (`DeadlockCondition`). When any list with one alias per key version over some aliases may
occur, that is exactly when no two locks are crossed by aliases of rising versions
(`KeyringCondition`); a keyring with a single key never deadlocks, whatever collides.

The convergence theorems assume that equal fingerprints, and equal SNS message identifiers, belong to
equal events, and that all messages of one delivery carry the identifier SES gave it. An alias list
is a keyring of some moment: it may grow along a run, and it names every row the mailbox has.

## Model

| member | source | states |
|---|---|---|
| Revisions.GuardIsOrder | apps/notifications/src/app/feedback/ses-feedback-transitions.ts:401-421 | The six-way update guard passes exactly when the row's stamp precedes the event in the order of the authoritative-row query, whichever of the three columns are null |
| Revisions.RevisionOrder | apps/notifications/src/app/feedback/ses-feedback-transitions.ts:382-421 | The revision (time, rank, fingerprint) is a strict total order and the guard on a stamped row is that order |
| FeedbackPolicy.TerminalStatusSources | apps/notifications/src/app/feedback/ses-feedback-policy.ts:15-79 | Exactly the terminal mailbox events and the bounces that are neither permanent nor provider suppressions write a terminal delivery status; no event writes PENDING or SUBMISSION_UNKNOWN |
| FeedbackPolicy.SafeCode | apps/notifications/src/app/feedback/ses-feedback-policy.ts:139-145 | A failure code is the joined parts cut off at 100 characters, all capital letters, digits or underscores |
| FeedbackPolicy.JoinAppends | apps/notifications/src/app/feedback/ses-feedback-policy.ts:139-145 | Joining drops empty parts and puts exactly one underscore between two codes: the code of two lists of parts is the two codes joined |
| FeedbackPolicy.SanitizeIsIdempotent | apps/notifications/src/app/feedback/ses-feedback-policy.ts:139-145 | Sanitizing a sanitized part of a failure code changes nothing |
| FeedbackPolicy.OlderOrder | apps/notifications/src/app/feedback/ses-feedback-transitions.ts:382-421 | Between events, being older is transitive and antisymmetric, distinct revisions are comparable, and it is what both the guard and the query compare |
| FeedbackMeaning.MailboxMeans | apps/notifications/src/app/feedback/ses-feedback-policy.ts:15-36 | Terminal are exactly complaints and bounces that are permanent or name a suppression list, in any letter case; otherwise a delivery makes the mailbox active, a delay or transient bounce is a temporary failure, and any other event says nothing |
| FeedbackMeaning.StatusMeans | apps/notifications/src/app/feedback/ses-feedback-policy.ts:58-79 | The delivery status of every kind of event, both ways, where a bounce or complaint of a suppression list is SUPPRESSED |
| FeedbackMeaning.PrecedenceMeans | apps/notifications/src/app/feedback/ses-feedback-policy.ts:38-56 | Among events of one time, suppressions outrank complaints, then permanent bounces, other bounces, rejections and rendering failures, deliveries, delays and sends |
| FeedbackMeaning.SanitizeWord | apps/notifications/src/app/feedback/ses-feedback-policy.ts:139-145 | Sanitizing turns a word of letters and digits into capitals and goes on behind it |
| FeedbackMeaning.SanitizeGap | apps/notifications/src/app/feedback/ses-feedback-policy.ts:139-145 | Sanitizing turns every run of other characters into one underscore |
| FeedbackMeaning.CodeMeans | apps/notifications/src/app/feedback/ses-feedback-policy.ts:98-117 | The failure code of every kind of event: its name, then its sanitized subtypes behind underscores, cut off at 100 characters; none for a send or a delivery |
| Deliveries.DeliveryRow.BeginAttempt | apps/notifications/src/app/delivery/security-email.service.ts:216-224 | The compare-and-swap before a submission succeeds exactly for a pending row without an attempt, and records one attempt |
| Deliveries.DeliveryRow.Expire | apps/notifications/src/app/delivery/delivery-lease.ts:7-28 | An expired lease turns a pending, unanswered row into the unknown result and clears the lease; any other row stays as it is |
| Deliveries.DeliveryRow.Finalize | apps/notifications/src/app/delivery/security-email.service.ts:283-353 | One submission result: attaches the message identifier or rolls back on a different one, replaces only PENDING (and SUBMISSION_UNKNOWN for a known result), and answers the caller only if nobody did |
| Deliveries.DeliveryRow.Feedback | apps/notifications/src/app/feedback/ses-feedback-transitions.ts:61-116 | One event on the row: records acceptance, then overwrites status, failure code and stamp under the guard for terminal or for other events; refused when the message identifier conflicts |
| Deliveries.TransitionKeepsTracks | apps/notifications/src/app/feedback/ses-feedback-transitions.ts:82-116 | One more event in any order: the row keeps showing an event that the set of processed events justifies |
| Deliveries.RunTracks | apps/notifications/src/app/feedback/ses-feedback-transitions.ts:82-116 | Over every run of attempts, results, lease expiries and events the row shows a justified event of those processed |
| Deliveries.DeliveryConverges | apps/notifications/src/app/feedback/ses-feedback-transitions.ts:82-116 | Every run that processes exactly the given events, in any order, with repeats and with submission results, attempts and lease expiries anywhere in between, ends showing the latest terminal event if there is one and otherwise the latest event, provided every soft bounce is settled |
| Deliveries.AuthoritativeIsUnique | apps/notifications/src/app/feedback/ses-feedback-transitions.ts:82-116 | The event that decides a delivery is unique |
| Deliveries.AuthoritativeExists | apps/notifications/src/app/feedback/ses-feedback-transitions.ts:82-116 | Every non-empty set of identified events has a deciding event |
| Deliveries.UnsettledDiverges | apps/notifications/src/app/feedback/ses-feedback-transitions.ts:24-27 | When a soft bounce is not settled, two runs over the same events end in rows with different last-event revisions |
| Deliveries.OrderIndependenceCondition | apps/notifications/src/app/feedback/ses-feedback-transitions.ts:82-116 | The final status, failure code and last-event revision are the same for all runs over the events if and only if every soft bounce is older than some terminal event or is itself the deciding event |
| Deliveries.OrderMattersExample | apps/notifications/src/app/feedback/ses-feedback-transitions.ts:24-27 | A transient bounce at time 10 and a complaint at time 5 end as BOUNCED or as COMPLAINED depending on which is processed first |
| Destinations.DestinationTable.ApplyDestinationTransition | apps/notifications/src/app/feedback/ses-feedback-transitions.ts:118-168 | One event processed for arbitrary alias rows: a terminal event suppresses all aliases alike, an event without destination status or with a blocked alias changes nothing, any other makes all aliases show the latest of event and rows; other rows are untouched |
| Destinations.DestinationTable.SuppressDestinationAliases | apps/notifications/src/app/feedback/ses-feedback-transitions.ts:196-246 | All aliases end in one suppressed row: facts of the latest decider, revision one above the greatest stored, suppressed since the earliest of the stored times and the event |
| Destinations.DestinationTable.SuppressEachAlias | apps/notifications/src/app/feedback/ses-feedback-transitions.ts:214-224 | Every alias is upserted and guarded on its own; no other row changes |
| Destinations.DestinationTable.SuppressDestination | apps/notifications/src/app/feedback/ses-feedback-transitions.ts:284-336 | The upsert and the two guarded updates of one alias |
| Destinations.DestinationTable.Aggregate | apps/notifications/src/app/feedback/ses-feedback-transitions.ts:206-235 | The greatest suppression revision and the earliest suppression time over the stored aliases and the event |
| Destinations.DestinationTable.FindAuthoritative | apps/notifications/src/app/feedback/ses-feedback-transitions.ts:248-269 | A row of the aliases that no other alias row exceeds in the query order |
| Destinations.DestinationTable.ReportOnAliases | apps/notifications/src/app/feedback/ses-feedback-transitions.ts:154-194 | Unblocked aliases take over status and facts of the latest among the event and their own rows |
| Destinations.DestinationTable.UpdateEachAlias | apps/notifications/src/app/feedback/ses-feedback-transitions.ts:154-164 | Every alias is created or updated under the guard; no other row changes |
| Destinations.DestinationTable.UpdateNonterminalDestination | apps/notifications/src/app/feedback/ses-feedback-transitions.ts:338-380 | One alias: created with the event, or overwritten when the event is newer |
| DestinationConvergence.SummaryIsUnique | apps/notifications/src/app/feedback/ses-feedback-transitions.ts:118-246 | The row that a set of events calls for does not depend on the order in which they are listed |
| DestinationConvergence.SummaryUpToIds | apps/notifications/src/app/feedback/ses-feedback-transitions.ts:118-246 | Nor, but for the event row's own identifier, on the identifiers drawn for the event rows |
| DestinationConvergence.FirstTerminal | apps/notifications/src/app/feedback/ses-feedback-transitions.ts:196-246 | The first terminal event makes the mailbox suppressed at revision one with that event's data |
| DestinationConvergence.FurtherTerminal | apps/notifications/src/app/feedback/ses-feedback-transitions.ts:196-246 | A further terminal event keeps the latest one's data, the earliest time, and counts one more |
| DestinationConvergence.FreshNews | apps/notifications/src/app/feedback/ses-feedback-transitions.ts:150-194 | News about an unblocked mailbox leaves the data of the latest such event on every alias |
| DestinationConvergence.TransitionKeepsMailbox | apps/notifications/src/app/feedback/ses-feedback-transitions.ts:118-246 | One event under a keyring that only grows keeps every row of the mailbox equal to the summary of the events processed |
| DestinationConvergence.OtherMailboxes | apps/notifications/src/app/feedback/ses-feedback-transitions.ts:118-168 | Events under other aliases do not touch the mailbox |
| FeedbackProcessor.Processor.Persist | apps/notifications/src/app/feedback/ses-feedback.processor.ts:85-130 | One transaction: unmatched and conflicting notifications change nothing, a duplicate only attaches the message identifier, and a new event is stored and applied to delivery and destinations |
| StatusMeaning.NotificationExactly | apps/notifications/src/app/feedback/ses-feedback.processor.ts:85-180 | The answer to one notification, case by case: unmatched, conflicting message, duplicate of the same event, conflict with another event under the same key, or stored and shown to delivery and mailbox |
| FeedbackProcessor.Processor.FindDuplicateEvent | apps/notifications/src/app/feedback/ses-feedback.processor.ts:212-222 | Finds a stored event with the same SNS message identifier or fingerprint exactly when there is one |
| FeedbackProcessor.SoundProcess | apps/notifications/src/app/feedback/ses-feedback.processor.ts:85-130 | In sound traffic the first notification of an event is processed and every later one is a duplicate without effect on ledger and destinations |
| FeedbackProcessor.SystemInvariant | apps/notifications/src/app/feedback/ses-feedback.processor.ts:85-130 | Over every run of notifications and delivery steps the event table holds exactly the notified events and every delivery shows a justified one |
| FeedbackProcessor.SystemDeliveriesConverge | apps/notifications/src/app/feedback/ses-feedback.processor.ts:85-130 | Delivery convergence for the whole system, with traffic of other deliveries, duplicates and delivery steps interleaved |
| DeliveryOrder.UnsettledRunsDiverge | apps/notifications/src/app/feedback/ses-feedback.processor.ts:85-130 | When a soft bounce is not settled, two runs of the whole system, with deduplication, notify the same events and leave the delivery showing different events |
| DeliveryOrder.OrderIndependenceCondition | apps/notifications/src/app/feedback/ses-feedback.processor.ts:85-130 | Over all runs of the whole system from one start, with repeats dropped and any other traffic: the notified events of a delivery decide its status, failure code and last-event revision if and only if every soft bounce among them is settled |
| DeliveryOrder.FirstStays | apps/notifications/src/app/feedback/ses-feedback.processor.ts:85-130 | An event that keeps all others out stays shown when it is notified first, whatever is notified after it |
| StatusMeaning.DeliveryTells | apps/notifications/src/app/feedback/ses-feedback-policy.ts:58-79 | After any run of the whole system whose soft bounces are settled, a delivery has the status and code of the last complaint or permanent or suppressed bounce notified, and without one those of the last event of all, spelled out by kind of event |
| StatusMeaning.DeliverySaysSome | apps/notifications/src/app/feedback/ses-feedback-policy.ts:58-79 | Settled or not, a notified delivery has the status and code of one of its events, spelled out by kind of event |
| FeedbackProcessor.MailboxInvariant | apps/notifications/src/app/feedback/ses-feedback-transitions.ts:118-246 | Over every run, under alias lists that may grow, every row of a mailbox is the summary of its processed events and the base aliases have rows as soon as an event is relevant |
| StatusMeaning.MailboxTells | apps/notifications/src/app/feedback/ses-feedback-transitions.ts:118-380 | After any run, without a terminal event, every row of the mailbox is active without a reason exactly if the last of its deliveries, delays and transient bounces is a delivery and a temporary failure with that event's code otherwise, and has no row exactly if there was none; with a terminal event it is suppressed with the code of the last, since the time of the first, and they are counted |
| FeedbackProcessor.DestinationsConverge | apps/notifications/src/app/feedback/ses-feedback-transitions.ts:118-246 | Two runs that notify the same events of a mailbox, in any order, with any repeats and under alias lists that may grow differently, end with one and the same row under every alias that has one, but for the identifier of the event row: suppressed with the latest terminal event's data, the earliest terminal time and the number of terminal events, or showing the latest DELIVERY, delay or transient bounce; the base aliases have rows iff an event is relevant |
| FeedbackProcessor.FixedAliasesAreKeyring | apps/notifications/src/app/feedback/ses-feedback-transitions.ts:118-246 | A single alias list for the whole run is a keyring that never grows |
| Recovery.RecoveryTables.CommitTransition | apps/notifications/src/app/operations/email-recovery.service.ts:157-186 | The second half of a recovery transaction updates every row read, and records one audit for each, exactly when all of them still have the status and revision read; otherwise nothing changes |
| Recovery.RunsStaySound | apps/notifications/src/app/operations/email-recovery.service.ts:110-188 | Over runs that mix recovery and feedback, under alias lists that may grow, the rows of a mailbox agree on status and, while blocked, on suppression revision; a transaction in flight has read all rows of the mailbox or can no longer commit |
| Recovery.StepOnMailbox | apps/notifications/src/app/operations/email-recovery.service.ts:110-188 | A step leaves a mailbox alone, suppresses it by a terminal event, reports news while it is unblocked, or commits a recovery command that names its present revision |
| Recovery.PendingSince | apps/notifications/src/app/operations/email-recovery.service.ts:110-188 | A pending mailbox was made pending by a request that committed at its present suppression revision, with no terminal event since |
| Recovery.RecoverySafety | apps/notifications/src/app/operations/email-recovery.service.ts:110-188 | A blocked mailbox becomes ACTIVE only when a completion commits that names the present suppression revision, with no terminal event since the request that made it pending |
| Recovery.CommitRecords | apps/notifications/src/app/operations/email-recovery.service.ts:173-186 | A committed operation leaves exactly one audit for every row it changed, all at the command's revision |
| RecoveryMeaning.DecisionExactly | apps/notifications/src/app/operations/email-recovery.service.ts:110-163 | What a command decides, both ways, on the rows: no destination, an exact replay or a conflict once the operation has audits, a wrong state, or to proceed with the revisions of all rows when all have the starting status and the greatest revision is the named one |
| RecoveryMeaning.CommitExactly | apps/notifications/src/app/operations/email-recovery.service.ts:140-187 | A commit writes exactly if every row is still as read; a request blocks further, a failure suppresses again, a completion activates and clears reason and time of suppression, nothing else of a row changes, and there is one audit for each row written |
| RecoveryMeaning.OtherStepsExactly | apps/notifications/src/app/operations/email-recovery.service.ts:110-163 | Feedback changes the rows only, and a command begins exactly if its operation is not in flight and leaves a trace exactly if it decides to proceed |
| Recovery.RecordStays | apps/notifications/src/app/operations/email-recovery.service.ts:135-154 | The audits of a committed operation never change |
| Recovery.ReplayAfterCommit | apps/notifications/src/app/operations/email-recovery.service.ts:135-154 | In every later state a committed operation identifier is answered as an exact replay if and only if action, evidence and revision are the same and every recorded destination is among the recipient's, and as a conflict otherwise; neither changes anything |
| AliasLocks.LockRecipientAliases | apps/notifications/src/app/delivery/recipient-advisory-lock.ts:5-20 | Asks for the locks of a permutation of the given aliases, by key version and then by value, in ascending order |
| AliasLocks.SortIsOrdered | apps/notifications/src/app/delivery/recipient-advisory-lock.ts:9-14 | Sorting by key version and value gives an ordered permutation |
| AliasLocks.RunsStayValid | apps/notifications/src/app/delivery/recipient-advisory-lock.ts:16-19 | In every reachable state no lock has two holders and every transaction asks in order |
| AliasLocks.ReachesCircle | apps/notifications/src/app/delivery/recipient-advisory-lock.ts:5-20 | Transactions that lock the lists of a circle can come to hold exactly its prefixes, each while the earlier ones hold theirs |
| AliasLocks.DeadlockHasCircle | apps/notifications/src/app/delivery/recipient-advisory-lock.ts:5-20 | In every deadlock some transactions form a circle: their held prefixes share no lock and each waits for a lock of the next |
| AliasLocks.DeadlockCondition | apps/notifications/src/app/delivery/recipient-advisory-lock.ts:5-20 | For every lock function and every set of alias lists that transactions lock: no run over them can deadlock if and only if no prefixes of the lists form a circle |
| AliasLocks.SortAscends | apps/notifications/src/app/delivery/recipient-advisory-lock.ts:9-14 | A list with one alias per key version is locked in strictly ascending order of key versions |
| AliasLocks.CircleIsCrossed | apps/notifications/src/app/delivery/recipient-hash.service.ts:110-113 | Lists with one alias per key version can form a circle only around four aliases in use whose two different locks are crossed: the key versions rise from p to q and from r to s, while p shares its lock with s and q with r |
| AliasLocks.TangleIsCircle | apps/notifications/src/app/delivery/recipient-hash.service.ts:110-113 | Four such aliases make a circle of the lists [p, q] and [r, s] |
| AliasLocks.KeyringCondition | apps/notifications/src/app/delivery/recipient-hash.service.ts:110-113 | For every set of aliases in use: no run over any lists with one alias per key version can deadlock if and only if no two different locks are crossed by aliases in use |
| AliasLocks.UntangledNeverDeadlocks | apps/notifications/src/app/delivery/recipient-hash.service.ts:110-113 | Without crossed locks no smaller set of such lists can deadlock either, such as those of the mailboxes that exist |
| AliasLocks.SingleKeyNeverDeadlocks | apps/notifications/src/app/delivery/recipient-hash.service.ts:110-113 | With aliases of one key version only, every run is free of deadlock for every lock function, whatever collides |
| AliasLocks.DistinctLocksAreUntangled | apps/notifications/src/app/delivery/recipient-advisory-lock.ts:16-19 | Distinct lock numbers for the aliases in use are never crossed |
| AliasLocks.RunsEnd | apps/notifications/src/app/delivery/recipient-advisory-lock.ts:5-20 | Without new transactions a run is no longer than the locks and ends that remain |
| AliasLocks.SomeoneMoves | apps/notifications/src/app/delivery/recipient-advisory-lock.ts:5-20 | Where no prefixes of the lists form a circle, whenever a transaction is unfinished some transaction can take its next lock or finish |
| AliasLocks.EveryoneEnds | apps/notifications/src/app/delivery/recipient-advisory-lock.ts:5-20 | Under the same condition, where no step is possible every transaction has ended |
| CommandOutcome.FinalizeExactly | apps/notifications/src/app/delivery/security-email.service.ts:283-353 | A submission on the row, both ways: it conflicts with another message, decides the status exactly if none or only an unknown one was known, and answers the caller with what SES said exactly if nobody was answered |
| CommandOutcome.ClaimExactly | apps/notifications/src/app/delivery/security-email.service.ts:113-152 | A claim creates a suppressed, answered row exactly if an alias is suppressed or has a recovery pending, and a leased pending one otherwise |
| CommandOutcome.AttemptExactly | apps/notifications/src/app/delivery/security-email.service.ts:211-224 | An attempt and the expiry of a lease take effect exactly under their guards and write exactly their columns |
| CommandOutcome.FeedbackExactly | apps/notifications/src/app/feedback/ses-feedback-transitions.ts:61-116 | Feedback answers an open command ACCEPTED and keeps the first message time; a terminal mailbox event is shown unless a later final one is, any other event only while nothing final is shown and it is newer |
| CommandOutcome.ResultHasCause | apps/notifications/src/app/delivery/security-email.service.ts:283-309 | Over every run a recorded ACCEPTED goes back to a submission that SES accepted or to feedback, FAILED to a refusal or a failed rendering, REJECTED to a rejection, SUPPRESSED to a blocked alias at the claim, UNKNOWN to an unknown outcome or an expired lease, each with its code |
| CommandOutcome.AnswerHasCause | apps/notifications/src/app/delivery/security-email.service.ts:398-406 | So does every recorded answer that a caller is given |
| CommandOutcome.OtherAnswerHasCause | apps/notifications/src/app/delivery/security-email.service.ts:168-237 | A caller is told in progress only after its deadline or when overtaken without a result, unavailable only after failing to record or read back, and conflict only for other parameters |
| CommandOutcome.WaitingMoves | apps/notifications/src/app/delivery/security-email.service.ts:168-209 | Which turn the polling loop can take at a given time: the answer it has read before its deadline, the transient answer from the deadline on, and otherwise another read, after ending a lease that is over |
| CommandOutcome.WaitingExactly | apps/notifications/src/app/delivery/security-email.service.ts:168-209 | The polling loop turn by turn: a result is taken only before the deadline, the wait ends only at it, and only a lease read as over is expired |
| CommandProtocol.UpdatesMoveRow | apps/notifications/src/app/delivery/security-email.service.ts:199-353 | Attempt, expiry, finalization and feedback never change a recorded result, never forget an attempt and never make a row pending again |
| CommandProtocol.StepMovesRow | apps/notifications/src/app/delivery/security-email.service.ts:95-369 | The same for every step of callers, lease expiry and feedback; only the compare-and-swap before a submission counts an attempt |
| CommandProtocol.RunsStaySound | apps/notifications/src/app/delivery/security-email.service.ts:67-369 | In every reachable state recorded answers agree with the row, at most one caller is past the compare-and-swap and at most one submission was made |
| CommandProtocol.LeaseMeansPending | apps/notifications/src/app/delivery/security-email.service.ts:127-151 | callerResult is null iff the lease is set iff finalizedAt is null, and then the status is PENDING |
| CommandProtocol.ResultWrittenOnce | apps/notifications/src/app/delivery/security-email.service.ts:283-309 | Once set, callerResult, its code and finalizedAt never change |
| CommandProtocol.ResponsesAgree | apps/notifications/src/app/delivery/security-email.service.ts:168-251 | Any two recorded responses for one request agree, whoever received them and whenever |
| CommandProtocol.AtMostOneSubmission | apps/notifications/src/app/delivery/security-email.service.ts:211-237 | At most one call to SES over every interleaving, and only after the compare-and-swap |
| CommandProtocol.NeverAttempted | apps/notifications/src/app/operations/email-submission-reconciliation.service.ts:18-31 | A delivery that left PENDING without an attempt is never submitted |
| CommandProtocol.NoSubmission | apps/notifications/src/app/delivery/security-email.service.ts:113-151 | No submission when an alias was blocked at the claim, when the lease expired first or when feedback came first |
| CommandProtocol.WaitForCallerResult | apps/notifications/src/app/delivery/security-email.service.ts:168-197 | Polling answers with the first recorded result read before the deadline, and otherwise COMMAND_IN_PROGRESS; it expires the claim exactly in the turns that see an expired lease without a result |
| BatchRollup.RollUpBatch | apps/conversion-api/src/app/lifecycle/batch-rollup.ts:26-67 | Counting statuses gives the status that the files call for: nothing while one is not terminal, EXPIRED iff all expired, COMPLETED iff all completed, FAILED iff none completed, PARTIAL otherwise; open batches take any of them, a completed or partial one only EXPIRED |
| BatchMeaning.RollUpExactly | apps/conversion-api/src/app/lifecycle/batch-rollup.ts:9-60 | A roll-up, both ways, with quantifiers over the files: nothing while one has not ended; then an open batch is closed as expired iff all expired, failed iff some did not expire and none completed, completed iff all completed, partial iff some but not all did; a completed or partial one expires iff all have |
| BatchRollup.RollUpRestores | apps/conversion-api/src/app/lifecycle/batch-rollup.ts:26-67 | After any allowed moves of the files a roll-up restores the agreement of batch and files and never lowers the rank |
| BatchRollup.QuietMovesAgree | apps/conversion-api/src/app/lifecycle/batch-rollup.ts:26-67 | Moves among non-terminal statuses need no roll-up |
| BatchAgreement.EvictionHandles | apps/conversion-api/src/app/admission/admission.service.ts:333-344 | Evicting completed files and rolling up the batches they belong to handles every batch |
| BatchAgreement.AdmitHandles | apps/conversion-api/src/app/admission/admission.service.ts:295-394 | A successful admission keeps every batch in agreement with its files and moves batches only forward |
| BatchAgreement.StepKeepsAgreement | apps/conversion-api/src/app/events/worker-event-processor.service.ts:32-93 | So does every transaction: creation, upload, start, result, sweep, admission and publishing |
| BatchAgreement.BatchesTellTheTruth | apps/conversion-api/src/app/lifecycle/batch-rollup.ts:26-67 | In every reachable state a batch is closed iff all its files are terminal, EXPIRED iff all are expired, COMPLETED only with completed or expired files of which one is completed, FAILED only without a completed file, PARTIAL only with terminal files that are neither all completed nor all expired |
| BatchAgreement.RankNeverFalls | apps/conversion-api/src/app/lifecycle/batch-rollup.ts:50-66 | Batch status only moves forward in rank |
| BatchAgreement.OneBatchPerKey | apps/conversion-api/src/app/admission/admission.service.ts:132-214 | A subject never has two batches with the same idempotency key |
| BatchMeaning.ClosingStep | apps/conversion-api/src/app/lifecycle/batch-rollup.ts:9-60 | Over every run a batch that takes no files was closed at one step, as its files right after that step call for, and has kept that status or gone from completed or partial to expired |
| FileMeaning.BatchesMoveExactly | apps/conversion-api/src/app/admission/admission.service.ts:369-426 | Every step on every batch: owner, key and parameters never change, only its own admission sets its expiry and queues it, only a start moves it from queued to processing |
| FileMeaning.FilesMoveExactly | apps/conversion-api/src/app/events/worker-event-processor.service.ts:32-93 | Every step but an admission on every file, spelled out with its guards: upload, start of a later attempt, result of the same or a later attempt, sweep; nothing else changes a file |
| FileMeaning.CreationExactly | apps/conversion-api/src/app/admission/admission.service.ts:132-214 | A creation of an allowed size makes an uploading batch and its files for a day exactly if the subject has no batch with the key, and is answered by that batch or refused otherwise |
| FileMeaning.CreationPossible | apps/conversion-api/src/app/admission/admission.service.ts:132-214 | Every creation of an allowed size gets an answer, and a new batch exactly if the subject has none with the key |
| FileHistory.FilesSettleOnce | apps/conversion-api/src/app/events/worker-event-processor.service.ts:32-93 | Over every run the input of an uploaded file and the expiry of a queued one are fixed, its attempt never falls, and once it is terminal nothing changes about its result except that a completed file may expire |
| FileHistory.ResultsAreAccepted | apps/conversion-api/src/app/events/worker-event-processor.service.ts:65-84 | A file becomes completed or failed only by a result that names it and its batch, from its present attempt or a later one, while it is queued or processing, and stores that result |
| FileHistory.SweepAllIsExact | apps/conversion-api/src/app/lifecycle/retention.service.ts:51-70 | The whole sweep expires exactly the overdue live files of the listed batches, changes no other file and rolls up every listed batch over the final files, whatever the order |
| Eviction.CandidatesInOrder | apps/conversion-api/src/app/admission/admission.service.ts:311-322 | The eviction candidates are exactly the unexpired completed files of the subject, ordered by expiry and identifier |
| Eviction.EvictUntilCovered | apps/conversion-api/src/app/admission/admission.service.ts:324-330 | The loop stops at the first prefix that covers the deficit and returns what remains uncovered |
| Eviction.EvictionFrees | apps/conversion-api/src/app/admission/admission.service.ts:333-339 | Expiring rows frees exactly their output bytes |
| Eviction.EvictionFailsExactly | apps/conversion-api/src/app/admission/admission.service.ts:300-331 | STORAGE_LIMIT_EXCEEDED exactly when used plus incoming minus all evictable bytes exceeds the cap |
| Eviction.EvictionIsShortest | apps/conversion-api/src/app/admission/admission.service.ts:300-345 | Otherwise the evicted list is the shortest prefix of the (expires_at, id) order that covers the deficit, and used plus incoming is within the cap afterwards |
| AdmissionEffect.ClaimedRows | apps/conversion-api/src/app/admission/admission.service.ts:270-276 | The claimed files are the ready files of the batch, each once, and their bytes are the incoming bytes |
| AdmissionEffect.AdmittedAreMeasured | apps/conversion-api/src/app/admission/admission.service.ts:286-293 | Only measured files within the size limit are admitted |
| AdmissionEffect.AdmissionEffects | apps/conversion-api/src/app/admission/admission.service.ts:259-425 | A successful admission queues exactly the claimed rows, expires exactly the evicted ones, leaves every other row, and fits under the cap |
| AdmissionMeaning.ChecksExactly | apps/conversion-api/src/app/admission/admission.service.ts:230-257 | The checks before the transaction, both ways and with the error of the first that fails: mapped retention, existing batch, owner with the right token, status, expiry; only then the transaction runs |
| AdmissionMeaning.ReplayExactly | apps/conversion-api/src/app/admission/admission.service.ts:183-206 | An existing batch answers a creation exactly for its owner with the right token and the same parameters, and is refused with the right error otherwise |
| AdmissionMeaning.TransactionExactly | apps/conversion-api/src/app/admission/admission.service.ts:259-426 | The transaction succeeds exactly if every ready file is measured and within the limit, evicting every evictable file would meet the cap, the quota of the day is met, the batch takes files and the tier has a queue, and fails with the error of the first of these that does not hold |
| AdmissionMeaning.EvictedExactly | apps/conversion-api/src/app/admission/admission.service.ts:259-330 | Evicted are completed unexpired files of the subject only, in order of expiry and identifier, just as many as the missing bytes need |
| FileMeaning.AdmissionMovesFiles | apps/conversion-api/src/app/admission/admission.service.ts:369-426 | An admission that queues moves every ready file of the batch to queued until the end of the retention, may expire completed files of the subject, and leaves every other file; any other admission changes nothing |
| FileMeaning.RequestsExactly | apps/conversion-api/src/app/admission/admission.service.ts:388-424 | It appends one request for each ready file by ascending identifier, due at once, with its tag, in the queue of the tier or, paid and large, in the large queue |
| ConversionService.ConversionTables.RollUpEach | apps/conversion-api/src/app/admission/admission.service.ts:340-344 | Rolls up every batch that lost a file, each once |
| ConversionService.ConversionTables.MakeRoomFor | apps/conversion-api/src/app/admission/admission.service.ts:295-346 | The storage part of the transaction; an error leaves the tables alone |
| ConversionService.ConversionTables.ReserveDailyFor | apps/conversion-api/src/app/admission/admission.service.ts:348-367 | The usage row of the day grows by the files claimed, or DAILY_QUOTA_EXCEEDED and nothing changes |
| ConversionService.ConversionTables.QueueClaimedFiles | apps/conversion-api/src/app/admission/admission.service.ts:369-415 | Queues the claimed files, claims the batch and writes one outbox row per file, or reports why not |
| ConversionService.ConversionTables.AdmitReadyFiles | apps/conversion-api/src/app/admission/admission.service.ts:230-426 | The whole admission in the order of its checks; a failed admission changes nothing |
| ConversionService.ConversionTables.CompleteUploads | apps/conversion-api/src/app/admission/upload-completion.service.ts:35-56 | Every uploading file of the batch whose object is stored becomes ready with its size and tag, and no other row changes; verified counts those files, missing the ones still uploading |
| ConversionService.ConversionTables.ApplyStarted | apps/conversion-api/src/app/events/worker-event-processor.service.ts:33-54 | A STARTED event: the file under its attempt guard, then the batch only if the file was updated and the batch is QUEUED |
| ConversionService.ConversionTables.ApplyResult | apps/conversion-api/src/app/events/worker-event-processor.service.ts:65-92 | A RESULT event under its attempt guard, with the roll-up only if the file accepted it |
| ConversionService.ConversionTables.ExpireOverdueFiles | apps/conversion-api/src/app/lifecycle/retention.service.ts:51-70 | The sweep expires the overdue live files of each batch and rolls it up |
| StorageBound.UsedIsWeightAndGrowth | apps/conversion-api/src/app/admission/admission.service.ts:478-494 | Used bytes are the weight (the lesser of input and output) of the counted files plus the growth of the completed ones |
| StorageBound.AdmissionFits | apps/conversion-api/src/app/admission/admission.service.ts:295-378 | Right after an admission that queues files the subject is within its cap |
| StorageBound.ExceedsCapExactly | apps/conversion-api/src/app/events/worker-event-processor.service.ts:65-84 | From within the cap, a step exceeds it if and only if it completes a counted file of the subject whose output no longer fits: used less its input plus the output exceeds the cap |
| StorageBound.StorageInvariant | apps/conversion-api/src/app/admission/admission.service.ts:295-378 | Whatever plans there are, in every reachable state a subject uses at most the cap of its last queueing admission plus what its unexpired completed files take beyond their inputs |
| StorageBound.StorageInvariantOfPlan | apps/conversion-api/src/app/admission/admission.service.ts:295-378 | The same for a subject with one plan and its cap |
| StorageBound.WithinCapExactly | apps/conversion-api/src/app/admission/admission.service.ts:295-378 | Whatever plans there are, a subject is within the cap in force at every index up to n if and only if no step before n completes one of its files with an output that no longer fits |
| StorageBound.WithinPlanExactly | apps/conversion-api/src/app/admission/admission.service.ts:295-378 | Under one plan, usage is within the cap at every index up to n if and only if no step before n outgrows it |
| StorageBound.WithinCapAfterAdmission | apps/conversion-api/src/app/admission/admission.service.ts:295-378 | In every run, after every step that queued files under a cap, used bytes are at most the cap |
| StorageBound.CapAloneFails | apps/conversion-api/src/app/admission/admission.service.ts:482-485 | A concrete run in which a cap of ten bytes ends with eleven in use |
| AdmissionLedger.AdmissionKeepsUsage | apps/conversion-api/src/app/admission/admission.service.ts:348-367 | The usage row grows by exactly the files admitted |
| AdmissionLedger.AdmissionKeepsOutbox | apps/conversion-api/src/app/admission/admission.service.ts:398-415 | Every claimed file gets its one request |
| AdmissionLedger.PublishKeepsOutbox | apps/conversion-api/src/app/outbox/outbox-publisher.service.ts:61-118 | A publishing round, committed or not, loses no request: what it removes was sent |
| AdmissionLedger.QueuedAtMostOnce | apps/conversion-api/src/app/admission/admission.service.ts:369-378 | In every reachable state no file was admitted twice, every file past the queue was admitted and none before it |
| AdmissionLedger.PendingOrSent | apps/conversion-api/src/app/outbox/outbox-publisher.service.ts:55-129 | Exactly one outbox row was ever made for each admission; it asks for that file in its batch with the measured tag, it is still pending or was sent at least once, and no two rows ask for the same file |
| AdmissionLedger.UsageIsAdmissions | apps/conversion-api/src/app/admission/admission.service.ts:353-363 | The usage row of a day is the number of metered files admitted on it |
| AdmissionLedger.QuotaHolds | apps/conversion-api/src/app/admission/admission.service.ts:348-367 | Under one plan the usage of a day never exceeds dailyFiles and counts all admissions of the subject |
| AdmissionLedger.QuotaInForce | apps/conversion-api/src/app/admission/admission.service.ts:348-367 | Whatever plans there are: in every reachable state the metered admissions of a subject on a day are within the dailyFiles of the last metered admission of that day, and there are none without one |
| Outbox.BackoffGrows | apps/conversion-api/src/app/outbox/outbox-publisher.service.ts:104-112 | The delay starts at 5 s, never shrinks, never exceeds 15 min and has reached it after eight failures |
| Outbox.BackoffDoubles | apps/conversion-api/src/app/outbox/outbox-publisher.service.ts:104-112 | The delay is five seconds at first and doubles with every failure up to fifteen minutes |
| Outbox.OutboxTable.PublishRound | apps/conversion-api/src/app/outbox/outbox-publisher.service.ts:61-118 | Delivered rows are deleted and failed rows postponed with one more attempt; unsent rows stay |
| Outbox.OutboxTable.Drain | apps/conversion-api/src/app/outbox/outbox-publisher.service.ts:59-123 | Rounds go on until one claims less than a full batch or fails |
| Outbox.RoundKeeps | apps/conversion-api/src/app/outbox/outbox-publisher.service.ts:98-113 | A row that was not delivered stays, at most postponed |
| Outbox.RoundAddsNothing | apps/conversion-api/src/app/outbox/outbox-publisher.service.ts:98-113 | A round leaves no delivered row and no row that was not there before |
| OutboxHistory.RoundMoves | apps/conversion-api/src/app/outbox/outbox-publisher.service.ts:61-118 | A round takes only rows that are due; afterwards every remaining row is unchanged or, if its send failed in a committed round, counts one attempt more and waits for its delay |
| OutboxHistory.AttemptsAreFailures | apps/conversion-api/src/app/outbox/outbox-publisher.service.ts:104-112 | Over every run the attempts of a row are exactly the committed rounds in which sending it failed |
| OutboxHistory.FailedRowWaits | apps/conversion-api/src/app/outbox/outbox-publisher.service.ts:104-112 | Over every run a row is due exactly when the delay of its last failure is over, and never before the delay of any earlier one |
| OutboxHistory.RetriesAreSpaced | apps/conversion-api/src/app/outbox/outbox-publisher.service.ts:62-112 | Over every run a request whose send failed is not sent again before the delay of its failures so far is over |
| OutboxHistory.DeliveredIsGone | apps/conversion-api/src/app/outbox/outbox-publisher.service.ts:98-102 | A request delivered in a committed round is in no later outbox |
| OutboxHistory.DeliveredOnce | apps/conversion-api/src/app/outbox/outbox-publisher.service.ts:61-102 | Over every run no message is sent again after a good send whose transaction committed |
| OutboxHistory.PendingCanBeSent | apps/conversion-api/src/app/outbox/outbox-publisher.service.ts:61-102 | In every reachable state every request can be sent as soon as it is due, and a committed round that sends it removes it alone |
| ExifOrientation.WriteExifOrientationBlock | apps/conversion-worker/src/app/pipeline/image-compressor.service.ts:322-335 | The buffer written field by field is the 26-byte little-endian TIFF block with the orientation as its one entry |
| ExifOrientation.OrientationRoundTrip | apps/conversion-worker/src/app/pipeline/image-compressor.service.ts:322-335 | A reader that follows the TIFF structure finds the orientation that was written |
| JpegRewriter.RewriteJpegMetadata | apps/conversion-worker/src/app/pipeline/image-compressor.service.ts:419-462 | The loop over marker segments computes the rewritten file, or fails for the same reason at the same place |
| JpegRewriter.ParsedShapes | apps/conversion-worker/src/app/pipeline/image-compressor.service.ts:431-455 | Only complete marker segments and a complete scan survive a successful walk |
| JpegRewriter.ParseSerialized | apps/conversion-worker/src/app/pipeline/image-compressor.service.ts:431-455 | Serialising complete segments and a scan and walking them again gives them back |
| JpegRewriter.KeptSegments | apps/conversion-worker/src/app/pipeline/image-compressor.service.ts:443-453 | A segment is kept exactly when it occurs and is allowed |
| JpegRewriter.RewrittenContents | apps/conversion-worker/src/app/pipeline/image-compressor.service.ts:419-462 | The rewritten file has the same start, the orientation segment if any, exactly the allowed segments in order and the same scan bytes |
| JpegRewriter.RewriteAbsorbs | apps/conversion-worker/src/app/pipeline/image-compressor.service.ts:419-462 | Rewriting the output with any orientation succeeds and equals rewriting the input with it |
| JpegRewriter.ParsedLength | apps/conversion-worker/src/app/pipeline/image-compressor.service.ts:431-455 | The parsed bytes never exceed the input and reach its length only by tiling it |
| JpegRewriter.UprightShrinks | apps/conversion-worker/src/app/pipeline/image-compressor.service.ts:419-462 | With orientation 1 the result is the input itself or strictly shorter |
| JpegRewriter.OrientationNeverFails | apps/conversion-worker/src/app/pipeline/image-compressor.service.ts:419-462 | The rewriter fails on the same inputs with the same error whatever the orientation |
| JpegRewriter.OrientationCosts | apps/conversion-worker/src/app/pipeline/image-compressor.service.ts:419-430 | Carrying an orientation costs exactly 36 bytes |
| JpegMeaning.AllowedMeans | apps/conversion-worker/src/app/pipeline/image-compressor.service.ts:437-455 | Kept are exactly the segments that are neither application data nor comments, exact JFIF headers, colour profiles and Adobe segments, by marker and text |
| JpegMeaning.OrientationSegment | apps/conversion-worker/src/app/pipeline/image-compressor.service.ts:419-433 | The added segment is APP1 with its length, the EXIF prefix and a block that reads back as the orientation; none for the upright one |
| JpegMeaning.FirstEnd | apps/conversion-worker/src/app/pipeline/image-compressor.service.ts:419-462 | The scan ends at the first end marker, and is missing exactly if there is none |
| JpegMeaning.WalkExactly | apps/conversion-worker/src/app/pipeline/image-compressor.service.ts:419-462 | The walk from marker to marker ends, and the place where it stops alone decides the error or the scan |
| WebpStrip.StripWebpMetadata | apps/conversion-worker/src/app/pipeline/image-compressor.service.ts:346-385 | The loop over chunks computes the stripped file or returns the input unchanged |
| WebpStrip.ChunksTile | apps/conversion-worker/src/app/pipeline/image-compressor.service.ts:351-371 | The chunks of a completed walk tile the file |
| WebpStrip.ChunksOfConcat | apps/conversion-worker/src/app/pipeline/image-compressor.service.ts:351-371 | Serialising complete chunks and walking them again gives them back |
| WebpStrip.KeptPart | apps/conversion-worker/src/app/pipeline/image-compressor.service.ts:346-385 | The kept chunks are the clean chunks of the input in order, byte for byte except for metadata flags of VP8X |
| WebpStrip.FlagArithmetic | apps/conversion-worker/src/app/pipeline/image-compressor.service.ts:365-377 | Clearing the metadata flags is idempotent and undoes setting the EXIF flag |
| WebpStrip.StrippedContents | apps/conversion-worker/src/app/pipeline/image-compressor.service.ts:376-384 | A rewritten file keeps both header words, has a size field that matches its length and walks to exactly the stripped chunks |
| WebpStrip.StripAbsorbs | apps/conversion-worker/src/app/pipeline/image-compressor.service.ts:346-385 | strip(strip(x,o),o) = strip(x,o), strip(strip(x,o),1) = strip(x,1), and any orientation that rewrites the input gives the same result on its stripped form |
| WebpStrip.UprightNoLonger | apps/conversion-worker/src/app/pipeline/image-compressor.service.ts:346-385 | With orientation 1 the result is no longer than the input |
| WebpStrip.CarriesOnlyAllowedTypes | apps/conversion-worker/src/app/pipeline/image-compressor.service.ts:485-499 | The walk answers whether the size field matches and chunks of allowed types tile the file |
| WebpStrip.CleanMeaning | apps/conversion-worker/src/app/pipeline/image-compressor.service.ts:485-499 | The walk accepts exactly the files that complete chunks of allowed types tile |
| WebpStrip.UprightIsClean | apps/conversion-worker/src/app/pipeline/image-compressor.service.ts:346-385 | A rewritten upright file passes the walk |
| WebpMeaning.TypesMean | apps/conversion-worker/src/app/pipeline/image-compressor.service.ts:346-367 | The chunk types that may stay are those of image data, features, alpha and colour profile, by their names |
| WebpMeaning.FlagBits | apps/conversion-worker/src/app/pipeline/image-compressor.service.ts:359-372 | Clearing the flags clears exactly the XMP and EXIF bits, setting the flag sets exactly the EXIF bit |
| WebpMeaning.RewritesExactly | apps/conversion-worker/src/app/pipeline/image-compressor.service.ts:346-372 | A file is rewritten exactly if complete chunks tile it, one is image data, and a features chunk can announce an orientation to keep; otherwise it is returned |
| WebpMeaning.StrippedExactly | apps/conversion-worker/src/app/pipeline/image-compressor.service.ts:346-378 | Chunk by chunk, kept chunks stay as they are but for the features, which announce EXIF exactly if an orientation is kept and they are the last, and never XMP |
| WebpMeaning.WritesExactly | apps/conversion-worker/src/app/pipeline/image-compressor.service.ts:380-384 | A touched file is written with its new body, unless its size would not fit into four bytes |
| AvifWalk.CarriesOnlyAllowedTypes | apps/conversion-worker/src/app/pipeline/image-compressor.service.ts:500-540 | The three nested loops end, read in bounds and decide the recursive walk |
| AvifWalk.WalkMeta | apps/conversion-worker/src/app/pipeline/image-compressor.service.ts:511-535 | The loop over the children of a meta box |
| AvifWalk.WalkEntries | apps/conversion-worker/src/app/pipeline/image-compressor.service.ts:517-532 | The loop over the entries of an iinf child |
| AvifWalk.ChildMeaning | apps/conversion-worker/src/app/pipeline/image-compressor.service.ts:511-535 | A child is accepted iff its size is at least 8 and, for iinf, a chain of well-formed av01 or grid entries fills it |
| AvifWalk.BoxMeaning | apps/conversion-worker/src/app/pipeline/image-compressor.service.ts:504-537 | A top-level box is accepted iff its size and type are allowed and, for meta, a chain of accepted children fills it |
| AvifWalk.WalkMeaning | apps/conversion-worker/src/app/pipeline/image-compressor.service.ts:500-540 | The walk answers true iff the top-level boxes tile the file exactly, each is accepted, and at least one item is listed |
| AvifMeaning.TypesMean | apps/conversion-worker/src/app/pipeline/image-compressor.service.ts:500-550 | The boxes and item types of a clean file, by their names |
| AvifMeaning.EntryMeans | apps/conversion-worker/src/app/pipeline/image-compressor.service.ts:512-545 | An item entry has the type infe and at least twenty bytes, and its item type stands behind an identifier whose width depends on the version |
| Compressor.LosslessJpegIsRewrite | apps/conversion-worker/src/app/pipeline/image-compressor.service.ts:268-306 | A lossless JPEG answer is exactly the rewritten input |
| Compressor.UprightJpegNeverGrows | apps/conversion-worker/src/app/pipeline/image-compressor.service.ts:153-181 | An upright JPEG is only ever SAVED, NO_SAVINGS or a failure, in either mode |
| Compressor.UprightJpegIsClean | apps/conversion-worker/src/app/pipeline/image-compressor.service.ts:464-470 | The upright lossless JPEG answer passes the cleanliness walk |
| Compressor.LosslessIsIdempotent | apps/conversion-worker/src/app/pipeline/image-compressor.service.ts:153-181 | Compressing a lossless JPEG answer, or a lossless WebP answer that is the stripped file, again with the same orientation changes nothing and reports no savings |
| Compressor.UprightWebpNeverGrows | apps/conversion-worker/src/app/pipeline/image-compressor.service.ts:153-181 | An upright lossless WebP answer is never longer than its input |
| CompressorMeaning.RefusedExactly | apps/conversion-worker/src/app/pipeline/image-compressor.service.ts:114-141 | Why a file is refused before any encoder runs, both ways, in the order of the checks |
| CompressorMeaning.LabelledExactly | apps/conversion-worker/src/app/pipeline/image-compressor.service.ts:156-187 | Every accepted input, in both modes: shorter is saved; the same bytes, or not shorter without metadata in the input, is no savings with the input; not shorter with metadata is sanitized; anything thrown is a failed decoding |
| CompressorMeaning.MetadataIsRemoved | apps/conversion-worker/src/app/pipeline/image-compressor.service.ts:168-184 | An input that carries metadata is never handed back unless the encoder returned it |
| CompressorMeaning.CarriesExactly | apps/conversion-worker/src/app/pipeline/image-compressor.service.ts:308-320 | An input carries metadata exactly if it is not upright, embeds metadata, or fails the walk of its format |
| CompressorMeaning.LossyExactly | apps/conversion-worker/src/app/pipeline/image-compressor.service.ts:197-266 | The lossy mode, both ways for each format: the lossy candidate for a tenth saved, for PNG without a palette and shorter, for WebP and AVIF the shorter of the two, or the only one that removes metadata |
| CompressorMeaning.LossyFailsExactly | apps/conversion-worker/src/app/pipeline/image-compressor.service.ts:197-266 | When the lossy mode fails because an encoder or the walk throws |
| CompressorMeaning.LossyIsNoLonger | apps/conversion-worker/src/app/pipeline/image-compressor.service.ts:197-266 | Outside JPEG a lossy answer is never longer than the lossless one, but where nothing else removes the metadata |
| RefreshRotation.SessionStore.constructor | apps/auth/src/app/session/services/session.service.ts:73-115 | A new session has one unconsumed token whose hash the session row names |
| RefreshRotation.SessionStore.RevokeOnReuse | apps/auth/src/app/session/services/session.service.ts:382-389 | Revokes a live session and reports whether this call did |
| RefreshRotation.SessionStore.RotateAtomically | apps/auth/src/app/session/services/session.service.ts:403-446 | Two guarded updates and an insert, or nothing at all |
| RefreshRotation.CreationStartsChain | apps/auth/src/app/session/services/session.service.ts:95-115 | A created session starts a token chain |
| RefreshRotation.RotationConsumesCurrent | apps/auth/src/app/session/services/session.service.ts:403-446 | A rotation succeeds only with the current token |
| RefreshRotation.RotationExtendsChain | apps/auth/src/app/session/services/session.service.ts:403-446 | And it appends exactly one token to the chain |
| RefreshRotation.RunsKeepChain | apps/auth/src/app/session/services/session.service.ts:277-446 | Over every interleaving of any number of requests and logouts the tables spell out one chain of tokens |
| RefreshRotation.ExactlyOneUnconsumed | apps/auth/src/app/session/services/session.service.ts:403-446 | Exactly one token is unconsumed, and it is the one whose hash the session row holds |
| RefreshRotation.RotatedAtMostOnce | apps/auth/src/app/session/services/session.service.ts:426-436 | Each token is rotated at most once |
| RefreshRotation.NoRotationAfterRevocation | apps/auth/src/app/session/services/session.service.ts:403-446 | A revoked session stays revoked and never rotates again |
| RefreshRotation.ParallelInvariant | apps/auth/src/app/session/services/session.service.ts:277-446 | Requests that present the current token of a live session within the grace period are all still racing or one has rotated and the others can only conflict or be answered with grace |
| RefreshRotation.ParallelRefresh | apps/auth/src/app/session/services/session.service.ts:277-446 | Parallel refreshes never revoke the session, rotate at most once, and exactly once when all have ended |
| RefreshRotation.ReuseIsDetected | apps/auth/src/app/session/services/session.service.ts:357-401 | A request that read a consumed token and then a live session that shows reuse is bound to revoke; when it has ended the session is revoked, whatever happens meanwhile |
| RefreshRotation.ReuseExactly | apps/auth/src/app/session/services/session.service.ts:357-401 | Over every interleaving a request that has ended was answered as reuse if and only if it read a consumed token with its credential and then a live session in which the token is not the previous one or was consumed more than 3000 ms away |
| RefreshOutcome.EndsAsRead | apps/auth/src/app/session/services/session.service.ts:277-401 | Over every interleaving, from its session read on a request is rejected, fails, is excused, revokes or goes on to rotate exactly as the token row and session row it read call for: live session, right secret, unconsumed, just consumed |
| RefreshOutcome.DecidedHasRead | apps/auth/src/app/session/services/session.service.ts:277-297 | Every request that has decided has read both rows, the token first |
| RefreshOutcome.RotationExactly | apps/auth/src/app/session/services/session.service.ts:403-446 | The rotation transaction succeeds exactly if the presented token is the current one and the session live; then it consumes that token for the new one, and otherwise it touches no row |
| RefreshOutcome.GuardsExactly | apps/auth/src/app/session/services/session.service.ts:403-446 | The guards of the rotation on any rows, both ways |
| RefreshOutcome.RotatedHadSecret | apps/auth/src/app/session/services/session.service.ts:302-318 | Over every run from a created session, a request that ended rotated presented the secret of the current token, unconsumed at its read, and the session was live when it was read and when it rotated |
| RefreshOutcome.HonestRefreshRotates | apps/auth/src/app/session/services/session.service.ts:145-210 | A client that presents the current secret of a live session, undisturbed, rotates it |
| RefreshOutcome.RevocationExactly | apps/auth/src/app/session/services/session.service.ts:212-250 | What every step writes to the time of revocation: logout, expiry and detected reuse write the time they were given, reuse never over an earlier one, nothing revives a session |
| RefreshOutcome.EndedMeansRevoked | apps/auth/src/app/session/services/session.service.ts:324-355 | A request that ended rejected or with detected reuse leaves the session revoked |
| RefreshOutcome.CreatedAccepts | apps/auth/src/app/session/services/session.service.ts:59-136 | A new session is live until it expires and accepts exactly its one secret |
| RefreshRotation.SessionReadFirstWouldRevoke | apps/auth/src/app/session/services/session.service.ts:287-294 | Reading the session row before the token row would revoke an honest client; the order of the code answers it with grace |
| SlotScheduler.SlotPool.AcquireSlot | apps/conversion-worker/src/app/queue/queue-consumer.service.ts:192-202 | Takes a free slot at once or queues the waiter and sorts by priority |
| SlotScheduler.SlotPool.ReleaseSlot | apps/conversion-worker/src/app/queue/queue-consumer.service.ts:204-214 | Hands the slot to the first waiter, on a starved turn to the last, or frees it |
| SlotScheduler.InsertKeepsServiceOrder | apps/conversion-worker/src/app/queue/queue-consumer.service.ts:196-201 | A push and stable sort put the waiter behind everyone of its class or better and keep arrival order within a class |
| SlotScheduler.SortAfterPush | apps/conversion-worker/src/app/queue/queue-consumer.service.ts:196-201 | Sorting a sorted queue after a push only moves the new waiter |
| SlotScheduler.RunsStayValid | apps/conversion-worker/src/app/queue/queue-consumer.service.ts:192-214 | In every reachable state active equals the permits held and never exceeds the slots, nobody waits while a slot is free, and every message that arrived waits or was granted exactly once |
| SlotScheduler.HandOverChoice | apps/conversion-worker/src/app/queue/queue-consumer.service.ts:204-214 | A release with waiters keeps every slot busy and serves the best class in arrival order, on a starved turn the newest waiter of the worst class |
| SlotScheduler.StepMovesWaiter | apps/conversion-worker/src/app/queue/queue-consumer.service.ts:192-214 | How each step moves an ungranted waiter in the queue |
| SlotScheduler.BypassBudget | apps/conversion-worker/src/app/queue/queue-consumer.service.ts:204-214 | While no better class arrives, hand-overs advance a waiter one place each, starved turns excepted |
| SlotScheduler.BoundedWait | apps/conversion-worker/src/app/queue/queue-consumer.service.ts:204-214 | While no better class arrives, a waiter at place p that is still waiting has seen at most (8p + 7) / 7 hand-overs |
| SlotScheduler.TailBypassBound | apps/conversion-worker/src/app/queue/queue-consumer.service.ts:204-214 | A waiter that stays last, whatever arrives in front of it, is bypassed by at most seven hand-overs |

## Left out

- SQS, S3, SES, gRPC, Redis and Prisma plumbing, poll loops, abort signals, health checks and Nest modules: I/O without visible semantics.
- GraphQL resolvers, DTO validation, environment schemas, email templates, error formatting, rate limits, attempt counters and the plan cache: single-branch mappings.
- Isolation anomalies of PostgreSQL: transactions are atomic, there is one clock and row identifiers are distinct. A recovery transaction is the exception; its read and its guarded write are separate steps.
- Deadlocks that involve row locks or the operation lock of recovery: only the alias locks are modelled.
- Cryptography: hashes, fingerprints and identifiers are numbers; a credential is the hash it verifies against, so hashing is injective.
- Finding the delivery of a notification by message identifier and request tag (`findDelivery`), the second duplicate check after a unique-constraint race, and notifications rejected by the parser: a notification names its delivery.
- The regular expressions for recovery evidence and the read-only recovery inspection: single-branch checks.
- Fields that no decision reads: audit records and cookies of sessions, user agents, media types, output keys, previews, checksums. A worker result is modelled after its checks against the stored object.
- Purging of dead batches, usage rows and old emails: rows stay for ever in the model, so it does not show that purging a batch frees its idempotency key.
- Plan codes, file listings and remaining-quota queries: read-only.
- The PNG chunk walk, palette repacking, raw pixel digests and all encoders: answers of the image library are inputs of `Compressor`.
- Reads behind the end of a file in the WebP and AVIF walks: `WebpStrip.CarriesOnlyAllowedTypes` reports them as an error; the version byte of an empty AVIF child compares unequal to every number.
- Letter case beyond ASCII in feedback types, and string comparison of fingerprints and hashes beyond fixed-length hexadecimal.
- Keyrings that forget a key while rows under it exist: alias lists only grow.
- Fairness for waiters in the middle of the slot queue: the code does not provide it, so the bound without assumptions is for the last waiter only.
- CommandProtocol.WaitForCallerResult: the clock is read once per turn and the rows it sees are an input; in the runs the turns are separate steps.
- Outbox.OutboxTable.Drain: the rounds are an input, so termination against a clock is not stated; coalescing of concurrent drains is not modelled.
- ConversionService.ConversionTables.ApplyStarted: runs the two statements of a STARTED event together; in the runs they are separate steps and the second may come at any later time.
- Deliveries.DeliveryRow.Claim: the lookup of an existing row and the unique-constraint race are steps of `CommandProtocol`, where they have the same outcome.
