/** The feedback processor: deduplication around the transitions, and what every processing order of
    the same notifications ends in
    (apps/notifications/src/app/feedback/ses-feedback.processor.ts and ses-feedback-transitions.ts). */
module FeedbackProcessor {
  import opened Prelude
  import opened FeedbackPolicy
  import opened Destinations
  import opened DestinationConvergence
  import D = Deliveries

  /** A notification as SQS delivers it: SNS may publish one event under several message
      identifiers, and SQS may deliver each of them any number of times. */
  datatype Notification = Notification(snsMessageId: nat, event: Event, aliases: seq<RecipientHash>)

  /** A row of the event table. */
  datatype Stored = Stored(snsMessageId: nat, event: Event)

  datatype State = State(ledger: seq<Stored>, deliveries: map<nat, D.Delivery>, rows: Table)

  datatype Reply = Processed | Duplicate | Unmatched | Conflicting

  predicate Matches(stored: Stored, n: Notification) {
    stored.snsMessageId == n.snsMessageId || stored.event.fingerprint == n.event.fingerprint
  }

  predicate SameStoredEvent(stored: Stored, n: Notification) {
    stored.event.deliveryId == n.event.deliveryId && stored.event.fingerprint == n.event.fingerprint
  }

  function Attach(d: D.Delivery, messageId: nat): D.Delivery {
    d.(providerMessageId := Some(messageId))
  }

  /** One transaction.  Where several stored events match, the database may answer with any. */
  ghost predicate Process(s: State, n: Notification, now: int, s': State, reply: Reply) {
    var e := n.event;
    if e.deliveryId !in s.deliveries then
      reply == Unmatched && s' == s
    else if !D.AcceptsMessage(s.deliveries[e.deliveryId], e.messageId) then
      reply == Conflicting && s' == s
    else if exists stored :: stored in s.ledger && Matches(stored, n) then
      exists stored :: stored in s.ledger && Matches(stored, n)
        && if SameStoredEvent(stored, n)
           then reply == Duplicate && s' == s.(deliveries := s.deliveries[e.deliveryId := Attach(s.deliveries[e.deliveryId], e.messageId)])
           else reply == Conflicting && s' == s
    else
      && reply == Processed
      && s'.ledger == s.ledger + [Stored(n.snsMessageId, e)]
      && s'.deliveries == s.deliveries[e.deliveryId := D.ReceiveFeedback(s.deliveries[e.deliveryId], e, now)]
      && Transition(s.rows, n.aliases, e, s'.rows)
  }

  /** The processor over its tables. */
  class Processor {
    var ledger: seq<Stored>
    var deliveries: map<nat, D.Delivery>
    const destinations: DestinationTable

    constructor (deliveries: map<nat, D.Delivery>)
      ensures fresh(destinations) && Contents() == State([], deliveries, map[])
    {
      ledger := [];
      this.deliveries := deliveries;
      destinations := new DestinationTable();
    }

    function Contents(): State
      reads this, destinations
    {
      State(ledger, deliveries, destinations.rows)
    }

    method Persist(n: Notification, now: int) returns (reply: Reply)
      requires IsAliasList(n.aliases)
      modifies this, destinations
      ensures Process(old(Contents()), n, now, Contents(), reply)
    {
      var e := n.event;
      if e.deliveryId !in deliveries {
        return Unmatched;
      }
      var delivery := deliveries[e.deliveryId];
      if !D.AcceptsMessage(delivery, e.messageId) {
        return Conflicting;
      }
      var duplicate := FindDuplicateEvent(n);
      if duplicate.Some? {
        if !SameStoredEvent(duplicate.value, n) {
          return Conflicting;
        }
        deliveries := deliveries[e.deliveryId := Attach(delivery, e.messageId)];
        return Duplicate;
      }
      ledger := ledger + [Stored(n.snsMessageId, e)];
      deliveries := deliveries[e.deliveryId := D.ReceiveFeedback(delivery, e, now)];
      destinations.ApplyDestinationTransition(e, n.aliases);
      return Processed;
    }

    method FindDuplicateEvent(n: Notification) returns (found: Option<Stored>)
      ensures found.Some? ==> found.value in ledger && Matches(found.value, n)
      ensures found.None? ==> forall stored :: stored in ledger ==> !Matches(stored, n)
    {
      for i := 0 to |ledger|
        invariant forall j :: 0 <= j < i ==> !Matches(ledger[j], n)
      {
        if Matches(ledger[i], n) {
          return Some(ledger[i]);
        }
      }
      return None;
    }
  }

  // ----- runs of the whole system -----

  datatype Action =
    | Notify(notification: Notification, now: int)
    | OnDelivery(id: nat, step: D.Step)

  ghost predicate Next(s: State, action: Action, s': State) {
    match action
    case Notify(n, now) => exists reply :: Process(s, n, now, s', reply)
    case OnDelivery(id, step) =>
      !step.Receive? && id in s.deliveries && s' == s.(deliveries := s.deliveries[id := D.Apply(s.deliveries[id], step)])
  }

  ghost predicate IsRun(states: seq<State>, actions: seq<Action>) {
    |states| == |actions| + 1 && forall i :: 0 <= i < |actions| ==> Next(states[i], actions[i], states[i + 1])
  }

  /** The processed events of some deliveries, in processing order. */
  function Seen(ledger: seq<Stored>, deliveries: set<nat>): seq<Event> {
    if ledger == [] then []
    else
      var last := ledger[|ledger| - 1].event;
      Seen(ledger[..|ledger| - 1], deliveries) + if last.deliveryId in deliveries then [last] else []
  }

  lemma {:induction false} SeenMembers(ledger: seq<Stored>, deliveries: set<nat>, e: Event)
    ensures e in Seen(ledger, deliveries) <==> e.deliveryId in deliveries && exists stored :: stored in ledger && stored.event == e
  {
    if ledger != [] {
      var front, last := ledger[..|ledger| - 1], ledger[|ledger| - 1];
      assert ledger == front + [last];
      SeenMembers(front, deliveries, e);
      assert forall stored :: stored in ledger <==> stored in front || stored == last;
    }
  }

  lemma SeenAppend(ledger: seq<Stored>, stored: Stored, deliveries: set<nat>)
    ensures Seen(ledger + [stored], deliveries)
         == Seen(ledger, deliveries) + if stored.event.deliveryId in deliveries then [stored.event] else []
  {
    assert (ledger + [stored])[..|ledger|] == ledger;
  }

  predicate SharesIdentity(m: Notification, n: Notification) {
    m.snsMessageId == n.snsMessageId || m.event.fingerprint == n.event.fingerprint
  }

  /** SES identifies the message of each delivery, a message identifier of SNS or a fingerprint
      belongs to one event, and only known deliveries receive feedback. */
  ghost predicate SoundTraffic(actions: seq<Action>, messages: map<nat, nat>) {
    && (forall a :: a in actions && a.Notify? ==>
      var e := a.notification.event;
      e.deliveryId in messages && e.messageId == messages[e.deliveryId])
    && (forall a :: a in actions && a.OnDelivery? && a.step.Result? && a.step.submission.Accepted? ==>
      a.id in messages && a.step.submission.messageId == messages[a.id])
    && (forall a, b ::
      a in actions && b in actions && a.Notify? && b.Notify? && SharesIdentity(a.notification, b.notification) ==>
        a.notification.event == b.notification.event)
  }

  ghost predicate ClaimedAtStart(s: State, messages: map<nat, nat>) {
    && s.ledger == []
    && s.deliveries.Keys == messages.Keys
    && forall id :: id in messages ==> D.Tracks(s.deliveries[id], []) && D.CarriesMessage(s.deliveries[id], messages[id])
  }

  ghost predicate Notified(actions: seq<Action>, e: Event) {
    exists a :: a in actions && a.Notify? && a.notification.event == e
  }

  /** The ledger holds exactly the notified events, each once. */
  ghost predicate LedgerComplete(s: State, actions: seq<Action>) {
    && (forall stored :: stored in s.ledger ==>
      exists a :: a in actions && a.Notify? && a.notification.event == stored.event && a.notification.snsMessageId == stored.snsMessageId)
    && (forall e :: Notified(actions, e) ==> exists stored :: stored in s.ledger && stored.event == e)
  }

  ghost predicate DeliveriesTrack(s: State, messages: map<nat, nat>) {
    && s.deliveries.Keys == messages.Keys
    && forall id :: id in messages ==>
      D.CarriesMessage(s.deliveries[id], messages[id]) && D.Tracks(s.deliveries[id], Seen(s.ledger, {id}))
  }

  lemma LedgerIdentified(s: State, actions: seq<Action>, messages: map<nat, nat>, deliveries: set<nat>)
    requires SoundTraffic(actions, messages) && LedgerComplete(s, actions)
    ensures Identified(Seen(s.ledger, deliveries))
  {
    var es := Seen(s.ledger, deliveries);
    forall a, b | a in es && b in es && a.fingerprint == b.fingerprint
      ensures a == b
    {
      SeenMembers(s.ledger, deliveries, a);
      SeenMembers(s.ledger, deliveries, b);
    }
  }

  /** What one transaction of sound traffic comes to: the first notification of an event is
      processed, every later one is a duplicate without effect. */
  lemma SoundProcess(s: State, n: Notification, now: int, s': State, actions: seq<Action>, messages: map<nat, nat>)
    requires SoundTraffic(actions + [Notify(n, now)], messages)
    requires LedgerComplete(s, actions) && DeliveriesTrack(s, messages)
    requires Next(s, Notify(n, now), s')
    ensures if Notified(actions, n.event)
            then s'.ledger == s.ledger && s'.rows == s.rows && Process(s, n, now, s', Duplicate)
            else n.event !in Seen(s.ledger, {n.event.deliveryId}) && Process(s, n, now, s', Processed)
  {
    hide Transition, D.Tracks, D.ReceiveFeedback;
    var all := actions + [Notify(n, now)];
    assert Notify(n, now) in all;
    assert forall a :: a in actions ==> a in all;
    var e := n.event;
    if Notified(actions, e) {
      var stored :| stored in s.ledger && stored.event == e;
      assert Matches(stored, n);
      forall other | other in s.ledger && Matches(other, n)
        ensures SameStoredEvent(other, n)
      {
      }
    } else {
      forall stored | stored in s.ledger
        ensures !Matches(stored, n) && stored.event != e
      {
        var a :| a in actions && a.Notify? && a.notification.event == stored.event && a.notification.snsMessageId == stored.snsMessageId;
      }
      SeenMembers(s.ledger, {e.deliveryId}, e);
    }
  }

  lemma LedgerStaysComplete(s: State, n: Notification, now: int, s': State, actions: seq<Action>)
    requires LedgerComplete(s, actions)
    requires if Notified(actions, n.event) then s'.ledger == s.ledger else s'.ledger == s.ledger + [Stored(n.snsMessageId, n.event)]
    ensures LedgerComplete(s', actions + [Notify(n, now)])
  {
    var all := actions + [Notify(n, now)];
    assert Notify(n, now) in all;
    assert forall a :: a in actions ==> a in all;
    forall e | Notified(all, e)
      ensures exists stored :: stored in s'.ledger && stored.event == e
    {
      if Notified(actions, e) {
        var stored :| stored in s.ledger && stored.event == e;
        assert stored in s'.ledger;
      } else {
        assert e == n.event;
        assert s'.ledger[|s'.ledger| - 1].event == e;
      }
    }
  }

  lemma OtherActionKeepsLedger(s: State, action: Action, s': State, actions: seq<Action>)
    requires LedgerComplete(s, actions) && action.OnDelivery? && s'.ledger == s.ledger
    ensures LedgerComplete(s', actions + [action])
  {
    var all := actions + [action];
    assert forall a :: a in actions ==> a in all;
    forall e | Notified(all, e)
      ensures Notified(actions, e)
    {
    }
  }

  lemma AttachKeepsTracks(d: D.Delivery, messageId: nat, seen: seq<Event>)
    requires D.Tracks(d, seen)
    ensures D.Tracks(Attach(d, messageId), seen)
  {
    if seen != [] {
      var shown :| D.Justified(shown, seen) && D.Shows(d, shown);
      assert D.Shows(Attach(d, messageId), shown);
    }
  }

  lemma OnDeliveryKeepsTracks(s: State, id: nat, step: D.Step, s': State, messages: map<nat, nat>)
    requires DeliveriesTrack(s, messages) && id in messages && !step.Receive?
    requires step.Result? && step.submission.Accepted? ==> step.submission.messageId == messages[id]
    requires s' == s.(deliveries := s.deliveries[id := D.Apply(s.deliveries[id], step)])
    ensures DeliveriesTrack(s', messages)
  {
    hide D.Tracks;
    D.OtherStepsKeepTracks(s.deliveries[id], Seen(s.ledger, {id}), step);
    assert D.CarriesMessage(s'.deliveries[id], messages[id]);
    hide D.Apply, D.CarriesMessage;
  }

  lemma DuplicateKeepsTracks(s: State, n: Notification, s': State, messages: map<nat, nat>)
    requires DeliveriesTrack(s, messages) && n.event.deliveryId in messages
    requires n.event.messageId == messages[n.event.deliveryId]
    requires s'.ledger == s.ledger
    requires n.event.deliveryId in s.deliveries
    requires s'.deliveries == s.deliveries[n.event.deliveryId := Attach(s.deliveries[n.event.deliveryId], n.event.messageId)]
    ensures DeliveriesTrack(s', messages)
  {
    AttachKeepsTracks(s.deliveries[n.event.deliveryId], n.event.messageId, Seen(s.ledger, {n.event.deliveryId}));
  }

  lemma ProcessedKeepsTracks(s: State, n: Notification, now: int, s': State, messages: map<nat, nat>)
    requires DeliveriesTrack(s, messages) && n.event.deliveryId in messages
    requires s'.ledger == s.ledger + [Stored(n.snsMessageId, n.event)]
    requires n.event.messageId == messages[n.event.deliveryId]
    requires s'.deliveries == s.deliveries[n.event.deliveryId := D.ReceiveFeedback(s.deliveries[n.event.deliveryId], n.event, now)]
    requires Identified(Seen(s'.ledger, {n.event.deliveryId}))
    ensures DeliveriesTrack(s', messages)
  {
    var e := n.event;
    forall id | id in messages
      ensures D.CarriesMessage(s'.deliveries[id], messages[id]) && D.Tracks(s'.deliveries[id], Seen(s'.ledger, {id}))
    {
      SeenAppend(s.ledger, Stored(n.snsMessageId, e), {id});
      if id == e.deliveryId {
        D.ReceptionKeepsTracks(s.deliveries[id], e, now, Seen(s.ledger, {id}));
      } else {
        assert Seen(s.ledger, {id}) + [] == Seen(s.ledger, {id});
      }
    }
  }

  lemma DuplicateEffect(s: State, n: Notification, now: int, s': State)
    requires Process(s, n, now, s', Duplicate)
    ensures n.event.deliveryId in s.deliveries && s'.ledger == s.ledger && s'.rows == s.rows
    ensures s'.deliveries == s.deliveries[n.event.deliveryId := Attach(s.deliveries[n.event.deliveryId], n.event.messageId)]
  {
    hide Matches, SameStoredEvent, Transition, Attach;
  }

  lemma ProcessedEffect(s: State, n: Notification, now: int, s': State)
    requires Process(s, n, now, s', Processed)
    ensures n.event.deliveryId in s.deliveries && s'.ledger == s.ledger + [Stored(n.snsMessageId, n.event)]
    ensures s'.deliveries == s.deliveries[n.event.deliveryId := D.ReceiveFeedback(s.deliveries[n.event.deliveryId], n.event, now)]
  {
    hide Matches, SameStoredEvent, Transition, D.ReceiveFeedback;
  }

  lemma NotificationIdentified(n: Notification, now: int, actions: seq<Action>, messages: map<nat, nat>)
    requires SoundTraffic(actions + [Notify(n, now)], messages)
    ensures n.event.deliveryId in messages && n.event.messageId == messages[n.event.deliveryId]
  {
    assert Notify(n, now) in actions + [Notify(n, now)];
  }

  lemma NotifyStep(s: State, n: Notification, now: int, s': State, actions: seq<Action>, messages: map<nat, nat>)
    requires LedgerComplete(s, actions) && DeliveriesTrack(s, messages)
    requires SoundTraffic(actions + [Notify(n, now)], messages) && Next(s, Notify(n, now), s')
    ensures LedgerComplete(s', actions + [Notify(n, now)]) && DeliveriesTrack(s', messages)
  {
    hide *;
    NotificationIdentified(n, now, actions, messages);
    SoundProcess(s, n, now, s', actions, messages);
    if Notified(actions, n.event) {
      DuplicateEffect(s, n, now, s');
      LedgerStaysComplete(s, n, now, s', actions);
      DuplicateKeepsTracks(s, n, s', messages);
    } else {
      ProcessedEffect(s, n, now, s');
      LedgerStaysComplete(s, n, now, s', actions);
      LedgerIdentified(s', actions + [Notify(n, now)], messages, {n.event.deliveryId});
      ProcessedKeepsTracks(s, n, now, s', messages);
    }
  }

  lemma SystemStep(s: State, action: Action, s': State, actions: seq<Action>, messages: map<nat, nat>)
    requires LedgerComplete(s, actions) && DeliveriesTrack(s, messages)
    requires SoundTraffic(actions + [action], messages) && Next(s, action, s')
    ensures LedgerComplete(s', actions + [action]) && DeliveriesTrack(s', messages)
  {
    var all := actions + [action];
    assert action in all;
    assert forall a :: a in actions ==> a in all;
    hide Transition, D.Apply, D.ReceiveFeedback, LedgerComplete, DeliveriesTrack, Identified;
    if action.OnDelivery? {
      OtherActionKeepsLedger(s, action, s', actions);
      OnDeliveryKeepsTracks(s, action.id, action.step, s', messages);
    } else {
      NotifyStep(s, action.notification, action.now, s', actions, messages);
    }
  }

  /** The deliveries of the whole system converge step by step, interleaved as they may be. */
  lemma {:induction false} SystemInvariant(states: seq<State>, actions: seq<Action>, messages: map<nat, nat>)
    requires IsRun(states, actions) && SoundTraffic(actions, messages) && ClaimedAtStart(states[0], messages)
    ensures LedgerComplete(states[|actions|], actions) && DeliveriesTrack(states[|actions|], messages)
    decreases |actions|
  {
    if actions == [] {
      forall id | id in messages
        ensures Seen(states[0].ledger, {id}) == []
      {
      }
    } else {
      var n := |actions| - 1;
      var front, last := actions[..n], actions[n];
      assert actions == front + [last];
      assert forall a :: a in front ==> a in actions;
      SystemInvariant(states[..n + 1], front, messages);
      SystemStep(states[n], last, states[n + 1], front, messages);
    }
  }

  /** Delivery convergence for the whole system: whatever notifications of other deliveries, repeats,
      attempts, submission results and lease expiries come in between, a delivery whose notified
      events are settled ends showing the authoritative one. */
  lemma SystemDeliveriesConverge(states: seq<State>, actions: seq<Action>, messages: map<nat, nat>, id: nat, es: seq<Event>)
    requires IsRun(states, actions) && SoundTraffic(actions, messages) && ClaimedAtStart(states[0], messages)
    requires id in messages && es != [] && D.Settled(es)
    requires forall e :: e in es <==> Notified(actions, e) && e.deliveryId == id
    ensures id in states[|actions|].deliveries
    ensures exists e :: D.Authoritative(e, es) && D.Shows(states[|actions|].deliveries[id], e)
  {
    var last := states[|actions|];
    SystemInvariant(states, actions, messages);
    var seen := Seen(last.ledger, {id});
    forall e
      ensures e in seen <==> e in es
    {
      SeenMembers(last.ledger, {id}, e);
    }
    assert es[0] in seen;
    var e :| D.Justified(e, seen) && D.Shows(last.deliveries[id], e);
    D.JustifiedIsAuthoritative(e, seen, es);
  }

  // ----- destinations -----

  predicate Owns(action: Action, owners: set<nat>) {
    action.Notify? && action.notification.event.deliveryId in owners
  }

  predicate Contains(aliases: seq<RecipientHash>, fewer: seq<RecipientHash>) {
    forall k :: k in fewer ==> k in aliases
  }

  predicate WithinMailbox(aliases: seq<RecipientHash>, mailbox: set<RecipientHash>, base: seq<RecipientHash>) {
    (forall k :: k in aliases ==> k in mailbox) && Contains(aliases, base)
  }

  /** The aliases of a mailbox over a run.  Its notifications carry the aliases of the keyring at that
      time; a rotated keyring adds aliases and forgets none, and the base ones are always among them.
      Notifications for other deliveries carry aliases of other mailboxes. */
  ghost predicate Keyring(actions: seq<Action>, owners: set<nat>, mailbox: set<RecipientHash>, base: seq<RecipientHash>) {
    && base != [] && (forall k :: k in base ==> k in mailbox)
    && (forall i :: 0 <= i < |actions| && Owns(actions[i], owners) ==> WithinMailbox(actions[i].notification.aliases, mailbox, base))
    && (forall i, j :: 0 <= i < j < |actions| && Owns(actions[i], owners) && Owns(actions[j], owners) ==>
         Contains(actions[j].notification.aliases, actions[i].notification.aliases))
    && (forall i :: 0 <= i < |actions| && actions[i].Notify? && !Owns(actions[i], owners) ==>
         forall k :: k in actions[i].notification.aliases ==> k !in mailbox)
  }

  /** The aliases of the last notification for the mailbox. */
  function Known(actions: seq<Action>, owners: set<nat>, base: seq<RecipientHash>): seq<RecipientHash> {
    if actions == [] then base
    else
      var last := actions[|actions| - 1];
      if Owns(last, owners) then last.notification.aliases else Known(actions[..|actions| - 1], owners, base)
  }

  lemma {:induction false} KnownIsContained(actions: seq<Action>, owners: set<nat>, base: seq<RecipientHash>, aliases: seq<RecipientHash>)
    requires Contains(aliases, base)
    requires forall i :: 0 <= i < |actions| && Owns(actions[i], owners) ==> Contains(aliases, actions[i].notification.aliases)
    ensures Contains(aliases, Known(actions, owners, base))
  {
    if actions != [] {
      KnownIsContained(actions[..|actions| - 1], owners, base, aliases);
    }
  }

  /** One more notification whose aliases fit what the mailbox has shown so far. */
  ghost predicate FitsKeyring(action: Action, actions: seq<Action>, owners: set<nat>, mailbox: set<RecipientHash>, base: seq<RecipientHash>) {
    && base != [] && (forall k :: k in base ==> k in mailbox)
    && (Owns(action, owners) ==>
         WithinMailbox(action.notification.aliases, mailbox, base) && Contains(action.notification.aliases, Known(actions, owners, base)))
    && (action.Notify? && !Owns(action, owners) ==> forall k :: k in action.notification.aliases ==> k !in mailbox)
  }

  lemma FrontIsKeyring(actions: seq<Action>, owners: set<nat>, mailbox: set<RecipientHash>, base: seq<RecipientHash>)
    requires actions != [] && Keyring(actions, owners, mailbox, base)
    ensures var (front, last) := (actions[..|actions| - 1], actions[|actions| - 1]);
      && Keyring(front, owners, mailbox, base) && FitsKeyring(last, front, owners, mailbox, base)
  {
    hide Contains;
    var front, last := actions[..|actions| - 1], actions[|actions| - 1];
    if Owns(last, owners) {
      KnownIsContained(front, owners, base, last.notification.aliases) by {
        assert WithinMailbox(last.notification.aliases, mailbox, base);
      }
    }
  }

  lemma FrontIsSound(actions: seq<Action>, messages: map<nat, nat>)
    requires actions != [] && SoundTraffic(actions, messages)
    ensures SoundTraffic(actions[..|actions| - 1], messages)
  {
    assert forall a :: a in actions[..|actions| - 1] ==> a in actions;
  }

  lemma KnownGrows(rows: Table, mailbox: set<RecipientHash>, base: seq<RecipientHash>, known: seq<RecipientHash>,
                   more: seq<RecipientHash>, seen: seq<Event>)
    requires MailboxShows(rows, mailbox, base, known, seen) && Contains(more, known)
    ensures MailboxShows(rows, mailbox, base, more, seen)
  {
    hide Summary, Relevant;
  }

  /** What a newly processed event adds to the events of some deliveries. */
  lemma NewEvent(s: State, n: Notification, now: int, s': State, actions: seq<Action>, messages: map<nat, nat>, owners: set<nat>)
    requires SoundTraffic(actions + [Notify(n, now)], messages) && LedgerComplete(s, actions)
    requires !Notified(actions, n.event) && Process(s, n, now, s', Processed)
    requires n.event !in Seen(s.ledger, {n.event.deliveryId})
    ensures Transition(s.rows, n.aliases, n.event, s'.rows)
    ensures Seen(s'.ledger, owners) == if n.event.deliveryId in owners then Seen(s.ledger, owners) + [n.event] else Seen(s.ledger, owners)
    ensures Identified(Seen(s'.ledger, owners)) && n.event !in Seen(s.ledger, owners)
  {
    hide Transition, D.ReceiveFeedback;
    LedgerStaysComplete(s, n, now, s', actions);
    SeenAppend(s.ledger, Stored(n.snsMessageId, n.event), owners);
    assert Seen(s.ledger, owners) + [] == Seen(s.ledger, owners);
    LedgerIdentified(s', actions + [Notify(n, now)], messages, owners);
    SeenMembers(s.ledger, owners, n.event);
    SeenMembers(s.ledger, {n.event.deliveryId}, n.event);
  }

  lemma MailboxStep(s: State, action: Action, s': State, actions: seq<Action>, messages: map<nat, nat>,
                    owners: set<nat>, mailbox: set<RecipientHash>, base: seq<RecipientHash>)
    requires Next(s, action, s') && SoundTraffic(actions + [action], messages)
    requires LedgerComplete(s, actions) && DeliveriesTrack(s, messages)
    requires FitsKeyring(action, actions, owners, mailbox, base)
    requires MailboxShows(s.rows, mailbox, base, Known(actions, owners, base), Seen(s.ledger, owners))
    ensures MailboxShows(s'.rows, mailbox, base, Known(actions + [action], owners, base), Seen(s'.ledger, owners))
  {
    hide Transition, Summary, SoundTraffic, LedgerComplete, DeliveriesTrack, D.ReceiveFeedback;
    assert (actions + [action])[..|actions|] == actions;
    if action.Notify? {
      var Notify(m, now) := action;
      SoundProcess(s, m, now, s', actions, messages);
      if !Notified(actions, m.event) {
        NewEvent(s, m, now, s', actions, messages, owners);
        hide Process, Next;
        if Owns(action, owners) {
          TransitionKeepsMailbox(s.rows, m.aliases, m.event, s'.rows, mailbox, base, Known(actions, owners, base), Seen(s.ledger, owners));
        } else {
          OtherMailboxes(s.rows, m.aliases, m.event, s'.rows, mailbox, base, Known(actions, owners, base), Seen(s.ledger, owners));
        }
      } else {
        hide Process, Next;
        KnownGrows(s.rows, mailbox, base, Known(actions, owners, base), Known(actions + [action], owners, base), Seen(s.ledger, owners));
      }
    }
  }

  lemma {:induction false} MailboxInvariant(states: seq<State>, actions: seq<Action>, messages: map<nat, nat>,
                                            owners: set<nat>, mailbox: set<RecipientHash>, base: seq<RecipientHash>)
    requires IsRun(states, actions) && SoundTraffic(actions, messages) && ClaimedAtStart(states[0], messages)
    requires Keyring(actions, owners, mailbox, base)
    requires forall k :: k in mailbox ==> k !in states[0].rows
    ensures MailboxShows(states[|actions|].rows, mailbox, base, Known(actions, owners, base), Seen(states[|actions|].ledger, owners))
    decreases |actions|
  {
    if actions != [] {
      var n := |actions| - 1;
      var front, last := actions[..n], actions[n];
      assert actions == front + [last];
      assert Next(states[n], last, states[n + 1]);
      FrontIsKeyring(actions, owners, mailbox, base);
      FrontIsSound(actions, messages);
      hide Next, SoundTraffic, ClaimedAtStart, MailboxShows, LedgerComplete, DeliveriesTrack, Keyring;
      MailboxInvariant(states[..n + 1], front, messages, owners, mailbox, base);
      SystemInvariant(states[..n + 1], front, messages);
      MailboxStep(states[n], last, states[n + 1], front, messages, owners, mailbox, base);
    }
  }

  lemma SameAsItself(es: seq<Event>)
    ensures SameMembers(es, es)
  {
  }

  lemma NotifiedIdentified(actions: seq<Action>, messages: map<nat, nat>, es: seq<Event>)
    requires SoundTraffic(actions, messages) && forall e :: e in es ==> Notified(actions, e)
    ensures Identified(es)
  {
    forall e, f | e in es && f in es && e.fingerprint == f.fingerprint
      ensures e == f
    {
      var x :| x in actions && x.Notify? && x.notification.event == e;
      var y :| y in actions && y.Notify? && y.notification.event == f;
      assert SharesIdentity(x.notification, y.notification);
    }
  }

  lemma SummaryOfMembers(row: Destination, p: seq<Event>, q: seq<Event>)
    requires Summary(row, p) && SameMembers(p, q)
    ensures Summary(row, q)
  {
    assert SomeTerminal(p) <==> SomeTerminal(q);
    if SomeTerminal(p) {
      assert Terminals(p) == Terminals(q);
      var t :| LatestTerminal(t, p) && row.facts == FactsOf(t);
      assert LatestTerminal(t, q);
      var u :| u in p && IsTerminal(u) && u.occurredAt == row.suppressedAt.value;
      assert u in q;
    } else {
      var n :| LatestNews(n, p) && row.status == NextStatus(n) && row.facts == FactsOf(n);
      assert LatestNews(n, q);
    }
  }

  lemma MailboxReached(states: seq<State>, actions: seq<Action>, messages: map<nat, nat>,
                       owners: set<nat>, mailbox: set<RecipientHash>, base: seq<RecipientHash>, es: seq<Event>)
    requires IsRun(states, actions) && SoundTraffic(actions, messages) && ClaimedAtStart(states[0], messages)
    requires Keyring(actions, owners, mailbox, base)
    requires forall k :: k in mailbox ==> k !in states[0].rows
    requires forall e :: e in es <==> Notified(actions, e) && e.deliveryId in owners
    ensures var rows := states[|actions|].rows;
      && (forall k :: k in base ==> (k in rows <==> Relevant(es)))
      && (forall k :: k in mailbox && k in rows ==> Summary(rows[k], es))
  {
    var last := states[|actions|];
    SystemInvariant(states, actions, messages);
    MailboxInvariant(states, actions, messages, owners, mailbox, base);
    var seen := Seen(last.ledger, owners);
    forall e
      ensures e in seen <==> e in es
    {
      SeenMembers(last.ledger, owners, e);
    }
    hide Summary, IsRun, SoundTraffic, Keyring, LedgerComplete, DeliveriesTrack;
    assert Relevant(seen) <==> Relevant(es);
    forall k | k in mailbox && k in last.rows
      ensures Summary(last.rows[k], es)
    {
      SummaryOfMembers(last.rows[k], seen, es);
    }
  }

  /** Destination convergence.  Take two runs that notify the same events of a mailbox, in any order and
      with any repeats, under alias lists that may grow in different ways and with any other traffic in
      between.  Every row that either run has for the mailbox is the one row that the set of events calls
      for; rows of the two runs differ at most in the identifier drawn for the event row. */
  lemma DestinationsConverge(states: seq<State>, actions: seq<Action>, messages: map<nat, nat>, es: seq<Event>,
                             states2: seq<State>, actions2: seq<Action>, messages2: map<nat, nat>, es2: seq<Event>,
                             owners: set<nat>, mailbox: set<RecipientHash>, base: seq<RecipientHash>)
    requires IsRun(states, actions) && SoundTraffic(actions, messages) && ClaimedAtStart(states[0], messages)
    requires IsRun(states2, actions2) && SoundTraffic(actions2, messages2) && ClaimedAtStart(states2[0], messages2)
    requires Keyring(actions, owners, mailbox, base) && Keyring(actions2, owners, mailbox, base)
    requires forall k :: k in mailbox ==> k !in states[0].rows && k !in states2[0].rows
    requires forall e :: e in es <==> Notified(actions, e) && e.deliveryId in owners
    requires forall e :: e in es2 <==> Notified(actions2, e) && e.deliveryId in owners
    requires SameUpToIds(es, es2)
    ensures var (a, b) := (states[|actions|].rows, states2[|actions2|].rows);
      && (forall k :: k in base ==> (k in a <==> Relevant(es)) && (k in b <==> Relevant(es)))
      && (forall k :: k in mailbox && k in a ==> Summary(a[k], es))
      && (forall k, l :: k in mailbox && l in mailbox && k in a && l in a ==> a[k] == a[l])
      && (forall k, l :: k in mailbox && l in mailbox && k in a && l in b ==> SameButEventId(a[k], b[l]))
  {
    MailboxReached(states, actions, messages, owners, mailbox, base, es);
    MailboxReached(states2, actions2, messages2, owners, mailbox, base, es2);
    NotifiedIdentified(actions, messages, es);
    NotifiedIdentified(actions2, messages2, es2);
    if Relevant(es) {
      RelevantUpToIds(es, es2);
    }
    if Relevant(es2) {
      RelevantUpToIds(es2, es);
    }
    var a, b := states[|actions|].rows, states2[|actions2|].rows;
    hide *;
    forall k, l | k in mailbox && l in mailbox && k in a && l in a
      ensures a[k] == a[l]
    {
      SameAsItself(es);
      SummaryIsUnique(a[k], a[l], es, es);
    }
    forall k, l | k in mailbox && l in mailbox && k in a && l in b
      ensures SameButEventId(a[k], b[l])
    {
      SummaryUpToIds(a[k], b[l], es, es2);
    }
  }

  /** A single alias list for the whole run is a keyring that never grows. */
  lemma FixedAliasesAreKeyring(actions: seq<Action>, owners: set<nat>, aliases: seq<RecipientHash>)
    requires aliases != []
    requires forall i :: 0 <= i < |actions| && actions[i].Notify? ==>
      if Owns(actions[i], owners) then actions[i].notification.aliases == aliases
      else forall k :: k in actions[i].notification.aliases ==> k !in aliases
    ensures Keyring(actions, owners, (set k | k in aliases), aliases)
  {
  }
}
