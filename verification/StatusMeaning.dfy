/** What a mailbox and a delivery say after any run, in terms of the events that were notified
    (apps/notifications/src/app/feedback/ses-feedback-policy.ts and ses-feedback-transitions.ts). */
module StatusMeaning {
  import opened Prelude
  import opened Revisions
  import opened FeedbackPolicy
  import opened FeedbackMeaning
  import opened Destinations
  import opened DestinationConvergence
  import opened FeedbackProcessor
  import D = Deliveries

  /** Earlier, or of the same time and less weight, or also of the same weight and a smaller fingerprint. */
  predicate Earlier(a: Event, b: Event) {
    || a.occurredAt < b.occurredAt
    || (a.occurredAt == b.occurredAt && Weight(a.feedback) < Weight(b.feedback))
    || (a.occurredAt == b.occurredAt && Weight(a.feedback) == Weight(b.feedback) && a.fingerprint < b.fingerprint)
  }

  lemma OlderMeans(a: Event, b: Event)
    ensures Older(a, b) <==> Earlier(a, b)
  {
    PrecedenceMeans(a.feedback, b.feedback);
    PrecedenceMeans(b.feedback, a.feedback);
    hide Precedence, Weight;
  }

  ghost predicate SomeOf(es: seq<Event>, p: Feedback -> bool) {
    exists e :: e in es && p(e.feedback)
  }

  /** The last event of a kind. */
  ghost predicate Latest(n: Event, es: seq<Event>, p: Feedback -> bool) {
    n in es && p(n.feedback) && forall x :: x in es && p(x.feedback) ==> x == n || Earlier(x, n)
  }

  function TimesOf(es: seq<Event>): set<int> {
    set e | e in es && EndsMailbox(e.feedback) :: e.occurredAt
  }

  ghost function Endings(es: seq<Event>): set<Event> {
    set e | e in es && EndsMailbox(e.feedback)
  }

  /** The row names the event that it shows. */
  predicate Cites(row: Destination, e: Event) {
    && row.facts.lastDeliveryId == Some(e.deliveryId) && row.facts.lastEventId == Some(e.id)
    && row.facts.last.at == Some(e.occurredAt) && row.facts.last.fingerprint == Some(e.fingerprint)
  }

  /** What a row of the mailbox says after these events. */
  ghost predicate Tells(row: Destination, es: seq<Event>) {
    if SomeOf(es, EndsMailbox) then
      && row.status == Suppressed
      && (exists t :: Latest(t, es, EndsMailbox) && Cites(row, t) && row.facts.reasonCode == FailureCode(t.feedback))
      && row.suppressedAt.Some? && row.suppressedAt.value in TimesOf(es) && (forall at :: at in TimesOf(es) ==> row.suppressedAt.value <= at)
      && row.suppressionRevision == |Endings(es)|
    else
      && (exists n :: Latest(n, es, IsNews) && Cites(row, n)
           && (row.status == Active <==> n.feedback.Delivered?)
           && (row.status == TemporaryFailure <==> n.feedback.DeliveryDelay? || IsTransient(n.feedback))
           && row.facts.reasonCode == if n.feedback.Delivered? then None else FailureCode(n.feedback))
      && row.suppressedAt == None && row.suppressionRevision == 0
  }

  lemma KindsMean(e: Event)
    ensures IsTerminal(e) <==> EndsMailbox(e.feedback)
    ensures Speaks(e) <==> IsNews(e.feedback) && !EndsMailbox(e.feedback)
  {
    MailboxMeans(e.feedback);
    hide IsTerminalMailboxEvent, DestinationStatusOf, EndsMailbox, IsNews;
  }

  lemma LatestTerminalMeans(t: Event, es: seq<Event>)
    requires LatestTerminal(t, es)
    ensures Latest(t, es, EndsMailbox) && SomeOf(es, EndsMailbox)
  {
    hide IsTerminal, EndsMailbox, Older, Earlier;
    KindsMean(t);
    forall x | x in es && EndsMailbox(x.feedback)
      ensures x == t || Earlier(x, t)
    {
      KindsMean(x);
      OlderMeans(x, t);
    }
  }

  lemma LatestNewsMeans(n: Event, es: seq<Event>)
    requires LatestNews(n, es) && !SomeOf(es, EndsMailbox)
    ensures Latest(n, es, IsNews)
  {
    hide Speaks, EndsMailbox, IsNews, Older, Earlier;
    KindsMean(n);
    forall x | x in es && IsNews(x.feedback)
      ensures x == n || Earlier(x, n)
    {
      KindsMean(x);
      OlderMeans(x, n);
    }
  }

  lemma SomeTerminalMeans(es: seq<Event>)
    ensures SomeTerminal(es) <==> SomeOf(es, EndsMailbox)
    ensures Relevant(es) <==> SomeOf(es, EndsMailbox) || SomeOf(es, IsNews)
    ensures Terminals(es) == Endings(es)
  {
    hide IsTerminal, Speaks, EndsMailbox, IsNews;
    forall e | e in es
      ensures IsTerminal(e) <==> EndsMailbox(e.feedback)
      ensures Speaks(e) <==> IsNews(e.feedback) && !EndsMailbox(e.feedback)
    {
      KindsMean(e);
    }
  }

  lemma EarliestMeans(at: int, es: seq<Event>)
    requires EarliestTerminal(at, es)
    ensures at in TimesOf(es) && forall other :: other in TimesOf(es) ==> at <= other
  {
    hide IsTerminal, EndsMailbox;
    forall e | e in es
      ensures IsTerminal(e) <==> EndsMailbox(e.feedback)
    {
      KindsMean(e);
    }
  }

  lemma TerminalFactsMean(row: Destination, t: Event)
    requires row.facts == FactsOf(t) && EndsMailbox(t.feedback)
    ensures Cites(row, t) && row.facts.reasonCode == FailureCode(t.feedback)
  {
    MailboxMeans(t.feedback);
    hide EndsMailbox, FailureCode, IsTerminalMailboxEvent, Precedence;
  }

  lemma NewsFactsMean(row: Destination, n: Event)
    requires row.facts == FactsOf(n) && row.status == NextStatus(n) && IsNews(n.feedback) && !EndsMailbox(n.feedback)
    ensures Cites(row, n)
    ensures row.status == Active <==> n.feedback.Delivered?
    ensures row.status == TemporaryFailure <==> n.feedback.DeliveryDelay? || IsTransient(n.feedback)
    ensures row.facts.reasonCode == if n.feedback.Delivered? then None else FailureCode(n.feedback)
  {
    MailboxMeans(n.feedback);
    hide EndsMailbox, IsTransient, FailureCode, IsTerminalMailboxEvent, DestinationStatusOf, Precedence;
  }

  lemma LatestIsOfKind(n: Event, es: seq<Event>, p: Feedback -> bool)
    requires Latest(n, es, p)
    ensures n in es && p(n.feedback)
  {
  }

  lemma SummaryTells(row: Destination, es: seq<Event>)
    requires Summary(row, es)
    ensures Tells(row, es)
  {
    hide EndsMailbox, IsNews, IsTerminal, FactsOf, NextStatus, LatestTerminal, LatestNews, Latest, EarliestTerminal, TimesOf, Cites, FailureCode;
    SomeTerminalMeans(es);
    if SomeTerminal(es) {
      var t :| LatestTerminal(t, es) && row.facts == FactsOf(t);
      LatestTerminalMeans(t, es);
      LatestIsOfKind(t, es, EndsMailbox);
      TerminalFactsMean(row, t);
      EarliestMeans(row.suppressedAt.value, es);
    } else {
      var n :| LatestNews(n, es) && row.status == NextStatus(n) && row.facts == FactsOf(n);
      LatestNewsMeans(n, es);
      LatestIsOfKind(n, es, IsNews);
      assert !EndsMailbox(n.feedback);
      NewsFactsMean(row, n);
    }
  }

  /** The rows of a mailbox after any run, in terms of what SES reported.  Without a complaint or a
      permanent or suppressed bounce, the mailbox is active, without a reason, when the last of its
      deliveries, delays and transient bounces is a delivery, and a temporary failure with that event's
      code otherwise; it has no row when there was none of them.  With one, it is suppressed with the
      code of the last, since the first, and they are counted. */
  lemma MailboxTells(states: seq<State>, actions: seq<Action>, messages: map<nat, nat>,
                     owners: set<nat>, mailbox: set<RecipientHash>, base: seq<RecipientHash>, es: seq<Event>)
    requires IsRun(states, actions) && SoundTraffic(actions, messages) && ClaimedAtStart(states[0], messages)
    requires Keyring(actions, owners, mailbox, base)
    requires forall k :: k in mailbox ==> k !in states[0].rows
    requires forall e :: e in es <==> Notified(actions, e) && e.deliveryId in owners
    ensures var rows := states[|actions|].rows;
      && (forall k :: k in base ==> (k in rows <==> SomeOf(es, EndsMailbox) || SomeOf(es, IsNews)))
      && (forall k :: k in mailbox && k in rows ==> Tells(rows[k], es))
  {
    MailboxReached(states, actions, messages, owners, mailbox, base, es);
    SomeTerminalMeans(es);
    hide *;
    forall k | k in mailbox && k in states[|actions|].rows
      ensures Tells(states[|actions|].rows[k], es)
    {
      SummaryTells(states[|actions|].rows[k], es);
    }
  }

  // ----- deliveries -----

  predicate Any(f: Feedback) {
    true
  }

  /** What a delivery says when it shows an event. */
  predicate Says(d: D.Delivery, f: Feedback) {
    && (d.status == ACCEPTED <==> f.Send?)
    && (d.status == DELIVERED <==> f.Delivered?)
    && (d.status == DELAYED <==> f.DeliveryDelay?)
    && (d.status == SUPPRESSED <==> BySuppressionList(f))
    && (d.status == BOUNCED <==> f.Bounce? && !BySuppressionList(f))
    && (d.status == COMPLAINED <==> f.Complaint? && !BySuppressionList(f))
    && (d.status == REJECTED <==> f.Reject?)
    && (d.status == FAILED <==> f.RenderingFailure?)
    && d.failureCode == FailureCode(f)
  }

  lemma ShowsSays(d: D.Delivery, e: Event)
    requires D.Shows(d, e)
    ensures Says(d, e.feedback) && d.last.at == Some(e.occurredAt) && d.last.fingerprint == Some(e.fingerprint)
  {
    StatusMeans(e.feedback);
    hide StatusOf, FailureCode, BySuppressionList, Precedence;
  }

  /** The event that decides a delivery, in terms of what SES reported. */
  lemma AuthoritativeMeans(e: Event, es: seq<Event>)
    requires D.Authoritative(e, es)
    ensures Latest(e, es, if SomeOf(es, EndsMailbox) then EndsMailbox else Any)
  {
    hide IsTerminal, EndsMailbox, Older, Earlier;
    SomeTerminalMeans(es);
    KindsMean(e);
    forall x | x in es
      ensures IsTerminal(x) <==> EndsMailbox(x.feedback)
      ensures Older(x, e) <==> Earlier(x, e)
    {
      KindsMean(x);
      OlderMeans(x, e);
    }
  }

  /** A delivery after any run in which its soft bounces are settled: it says what the last complaint or
      permanent or suppressed bounce says, and without one what the last event of all says. */
  lemma DeliveryTells(states: seq<State>, actions: seq<Action>, messages: map<nat, nat>, id: nat, es: seq<Event>)
    requires IsRun(states, actions) && SoundTraffic(actions, messages) && ClaimedAtStart(states[0], messages)
    requires id in messages && es != [] && D.Settled(es)
    requires forall e :: e in es <==> Notified(actions, e) && e.deliveryId == id
    ensures id in states[|actions|].deliveries
    ensures exists e :: Latest(e, es, if SomeOf(es, EndsMailbox) then EndsMailbox else Any)
                        && Says(states[|actions|].deliveries[id], e.feedback)
  {
    SystemDeliveriesConverge(states, actions, messages, id, es);
    hide *;
    var d := states[|actions|].deliveries[id];
    var e :| D.Authoritative(e, es) && D.Shows(d, e);
    AuthoritativeMeans(e, es);
    ShowsSays(d, e);
  }

  /** Settled or not, a delivery that was notified of anything says what one of its events says. */
  lemma DeliverySaysSome(states: seq<State>, actions: seq<Action>, messages: map<nat, nat>, id: nat, es: seq<Event>)
    requires IsRun(states, actions) && SoundTraffic(actions, messages) && ClaimedAtStart(states[0], messages)
    requires id in messages && es != []
    requires forall e :: e in es <==> Notified(actions, e) && e.deliveryId == id
    ensures id in states[|actions|].deliveries
    ensures exists e :: e in es && Says(states[|actions|].deliveries[id], e.feedback)
  {
    var last := states[|actions|];
    SystemInvariant(states, actions, messages);
    var seen := Seen(last.ledger, {id});
    forall e
      ensures e in seen <==> e in es
    {
      SeenMembers(last.ledger, {id}, e);
    }
    assert es[0] in seen;
    var e :| D.Justified(e, seen) && D.Shows(last.deliveries[id], e);
    assert e in es;
    hide *;
    ShowsSays(last.deliveries[id], e);
  }

  // ----- one notification -----

  /** The stored event has the message identifier or the fingerprint of the notification. */
  predicate SharesKey(stored: Stored, n: Notification) {
    stored.snsMessageId == n.snsMessageId || stored.event.fingerprint == n.event.fingerprint
  }

  /** It is the same event of the same delivery. */
  predicate SameEvent(stored: Stored, n: Notification) {
    stored.event.fingerprint == n.event.fingerprint && stored.event.deliveryId == n.event.deliveryId
  }

  /** The answer to one notification, case by case: without its delivery it is unmatched, with a message
      that is not the delivery's it conflicts; when an event with one of its keys is stored, it is a
      duplicate that only attaches the message, or it conflicts, as that event is the same or another;
      and otherwise it is stored, shown to the delivery and to the mailbox. */
  lemma NotificationExactly(s: State, n: Notification, now: int, s': State, reply: Reply)
    requires Process(s, n, now, s', reply)
    ensures var (id, messageId) := (n.event.deliveryId, n.event.messageId);
      if id !in s.deliveries then reply == Unmatched && s' == s
      else if s.deliveries[id].providerMessageId.Some? && s.deliveries[id].providerMessageId != Some(messageId) then
        reply == Conflicting && s' == s
      else if exists stored :: stored in s.ledger && SharesKey(stored, n) then
        || (&& reply == Duplicate && (exists stored :: stored in s.ledger && SharesKey(stored, n) && SameEvent(stored, n))
            && s'.ledger == s.ledger && s'.rows == s.rows
            && s'.deliveries == s.deliveries[id := s.deliveries[id].(providerMessageId := Some(messageId))])
        || (reply == Conflicting && s' == s && exists stored :: stored in s.ledger && SharesKey(stored, n) && !SameEvent(stored, n))
      else
        && reply == Processed && s'.ledger == s.ledger + [Stored(n.snsMessageId, n.event)]
        && s'.deliveries == s.deliveries[id := D.ReceiveFeedback(s.deliveries[id], n.event, now)]
        && Transition(s.rows, n.aliases, n.event, s'.rows)
  {
    assert forall stored :: stored in s.ledger ==> (Matches(stored, n) <==> SharesKey(stored, n));
    assert forall stored :: stored in s.ledger ==> (SameStoredEvent(stored, n) <==> SameEvent(stored, n));
    hide Transition, D.ReceiveFeedback;
  }
}
