/** When the order of notifications matters to a delivery, over runs of the whole system
    (apps/notifications/src/app/feedback/ses-feedback.processor.ts and ses-feedback-transitions.ts). */
module DeliveryOrder {
  import opened Prelude
  import opened Revisions
  import opened FeedbackPolicy
  import opened Destinations
  import opened FeedbackProcessor
  import D = Deliveries

  /** A run that notifies exactly the events `es` of a delivery, with whatever else goes on. */
  ghost predicate Delivers(start: State, states: seq<State>, actions: seq<Action>, messages: map<nat, nat>, id: nat, es: seq<Event>)
    ensures Delivers(start, states, actions, messages, id, es) ==> |states| == |actions| + 1
  {
    && IsRun(states, actions) && states[0] == start && SoundTraffic(actions, messages)
    && forall e :: e in es <==> Notified(actions, e) && e.deliveryId == id
  }

  predicate ShownAlike(a: State, b: State, id: nat) {
    && id in a.deliveries && id in b.deliveries
    && var (d, f) := (a.deliveries[id], b.deliveries[id]);
      d.status == f.status && d.failureCode == f.failureCode && d.last == f.last
  }

  /** Any two runs that notify the same events of the delivery leave it showing the same. */
  ghost predicate OrderIndependent(start: State, messages: map<nat, nat>, id: nat, es: seq<Event>) {
    forall states, actions, states2, actions2 ::
      Delivers(start, states, actions, messages, id, es) && Delivers(start, states2, actions2, messages, id, es) ==>
        ShownAlike(states[|actions|], states2[|actions2|], id)
  }

  // ----- every notification can be processed -----

  lemma StampIrreflexive(stamp: Stamp)
    ensures !StampLess(stamp, stamp)
  {
  }

  /** The database finds a result for every event and every row of an alias. */
  lemma TransitionExists(before: Table, k: RecipientHash, e: Event) returns (after: Table)
    ensures Transition(before, [k], e, after)
  {
    hide NewerEvent, StampLess, FactsOf, IsTerminal, Speaks;
    var stays := HoldsOut(before, k, e);
    var facts := if stays then before[k].facts else FactsOf(e);
    StampIrreflexive(facts.last);
    if IsTerminal(e) {
      var revision := if k in before then before[k].suppressionRevision else 0;
      var since := MinTime(if k in before then before[k].suppressedAt else None, e.occurredAt);
      var row := Destination(Suppressed, facts, Some(since), revision + 1);
      after := before[k := row];
      assert k in [k];
      assert IsMaxRevision(before, [k], revision);
      assert SuppressedOutcome(before, [k], e, row);
    } else if !Speaks(e) || SomeBlocked(before, [k]) {
      after := before;
    } else {
      var status := if stays then before[k].status else NextStatus(e);
      after := before[k := Reported(before, k, status, facts)];
      assert k in [k];
      assert ReportedOutcome(before, [k], e, status, facts, after);
    }
  }

  function Notifications(es: seq<Event>, k: RecipientHash): seq<Action> {
    seq(|es|, i requires 0 <= i < |es| => Notify(Notification(es[i].fingerprint, es[i], [k]), 0))
  }

  predicate EventsOfDelivery(es: seq<Event>, id: nat, messageId: nat) {
    forall x :: x in es ==> x.deliveryId == id && x.messageId == messageId
  }

  lemma NotificationsAreSound(es: seq<Event>, k: RecipientHash, messages: map<nat, nat>, id: nat)
    requires id in messages && Identified(es) && EventsOfDelivery(es, id, messages[id])
    ensures SoundTraffic(Notifications(es, k), messages)
    ensures forall e :: e in es <==> Notified(Notifications(es, k), e)
  {
    var actions := Notifications(es, k);
    forall a | a in actions
      ensures a.Notify? && a.notification.event in es && a.notification.snsMessageId == a.notification.event.fingerprint
    {
      var i :| 0 <= i < |actions| && actions[i] == a;
      assert a.notification.event == es[i];
    }
    forall e | e in es
      ensures Notified(actions, e)
    {
      var i :| 0 <= i < |es| && es[i] == e;
      assert actions[i] in actions && actions[i].notification.event == e;
    }
  }

  lemma NotificationPossible(s: State, n: Notification, k: RecipientHash, actions: seq<Action>, messages: map<nat, nat>) returns (s': State)
    requires LedgerComplete(s, actions) && DeliveriesTrack(s, messages) && n.aliases == [k]
    requires n.event.deliveryId in messages && n.event.messageId == messages[n.event.deliveryId]
    ensures Next(s, Notify(n, 0), s')
  {
    hide Transition, D.Tracks, D.ReceiveFeedback, LedgerComplete;
    var e := n.event;
    assert D.AcceptsMessage(s.deliveries[e.deliveryId], e.messageId);
    if stored :| stored in s.ledger && Matches(stored, n) {
      if SameStoredEvent(stored, n) {
        s' := s.(deliveries := s.deliveries[e.deliveryId := Attach(s.deliveries[e.deliveryId], e.messageId)]);
        assert Process(s, n, 0, s', Duplicate);
      } else {
        s' := s;
        assert Process(s, n, 0, s', Conflicting);
      }
    } else {
      var after := TransitionExists(s.rows, k, e);
      s' := State(s.ledger + [Stored(n.snsMessageId, e)],
                  s.deliveries[e.deliveryId := D.ReceiveFeedback(s.deliveries[e.deliveryId], e, 0)], after);
      assert Process(s, n, 0, s', Processed);
    }
  }

  lemma RunGrows(states: seq<State>, actions: seq<Action>, action: Action, s': State)
    requires IsRun(states, actions) && Next(states[|actions|], action, s')
    ensures IsRun(states + [s'], actions + [action])
  {
    hide Next;
  }

  lemma NotificationsGrow(es: seq<Event>, x: Event, k: RecipientHash)
    ensures Notifications(es + [x], k) == Notifications(es, k) + [Notify(Notification(x.fingerprint, x, [k]), 0)]
  {
  }

  /** The events of a delivery can be notified in any given order. */
  lemma {:induction false} NotificationsRun(start: State, es: seq<Event>, k: RecipientHash, messages: map<nat, nat>, id: nat)
    returns (states: seq<State>)
    requires ClaimedAtStart(start, messages) && id in messages && Identified(es) && EventsOfDelivery(es, id, messages[id])
    ensures IsRun(states, Notifications(es, k)) && states[0] == start
  {
    if es == [] {
      states := [start];
    } else {
      var front, last := es[..|es| - 1], es[|es| - 1];
      assert es == front + [last] && last in es;
      assert Identified(front) && EventsOfDelivery(front, id, messages[id]);
      NotificationsGrow(front, last, k);
      hide Next, ClaimedAtStart, SoundTraffic, LedgerComplete, DeliveriesTrack, Identified, Notified;
      var before := NotificationsRun(start, front, k, messages, id);
      NotificationsAreSound(front, k, messages, id);
      SystemInvariant(before, Notifications(front, k), messages);
      var n := Notification(last.fingerprint, last, [k]);
      var s' := NotificationPossible(before[|front|], n, k, Notifications(front, k), messages);
      states := before + [s'];
      RunGrows(before, Notifications(front, k), Notify(n, 0), s');
    }
  }

  // ----- the first event stays -----

  /** A run that notifies some events of the delivery in the given order, and nothing else. */
  ghost predicate Notifies(start: State, states: seq<State>, es: seq<Event>, k: RecipientHash, messages: map<nat, nat>, id: nat)
    ensures Notifies(start, states, es, k, messages, id) ==> |states| == |es| + 1 && id in messages
  {
    && ClaimedAtStart(start, messages) && id in messages && Identified(es) && EventsOfDelivery(es, id, messages[id])
    && IsRun(states, Notifications(es, k)) && states[0] == start
  }

  lemma SystemBefore(start: State, states: seq<State>, es: seq<Event>, n: nat, k: RecipientHash, messages: map<nat, nat>, id: nat)
    requires Notifies(start, states, es, k, messages, id) && n <= |es|
    ensures LedgerComplete(states[n], Notifications(es[..n], k)) && DeliveriesTrack(states[n], messages)
  {
    hide Next, LedgerComplete, DeliveriesTrack, Notified;
    var actions := Notifications(es, k);
    assert actions[..n] == Notifications(es[..n], k);
    assert IsRun(states[..n + 1], actions[..n]);
    NotificationsAreSound(es[..n], k, messages, id);
    SystemInvariant(states[..n + 1], actions[..n], messages);
  }

  /** One more notification of the delivery: it is received, or it was before and nothing it shows changes. */
  lemma NotificationReceived(s: State, n: Notification, s': State, actions: seq<Action>, messages: map<nat, nat>, id: nat)
    requires SoundTraffic(actions + [Notify(n, 0)], messages) && LedgerComplete(s, actions) && DeliveriesTrack(s, messages)
    requires Next(s, Notify(n, 0), s') && n.event.deliveryId == id && id in messages
    ensures id in s.deliveries && id in s'.deliveries && D.CarriesMessage(s.deliveries[id], n.event.messageId)
    ensures if Notified(actions, n.event)
            then s'.deliveries[id] == Attach(s.deliveries[id], n.event.messageId)
            else s'.deliveries[id] == D.Apply(s.deliveries[id], D.Receive(n.event, 0))
  {
    hide Transition, D.Tracks, D.ReceiveFeedback;
    assert Notify(n, 0) in actions + [Notify(n, 0)];
    SoundProcess(s, n, 0, s', actions, messages);
    hide SoundTraffic, LedgerComplete;
  }

  /** The n-th notification: the row receives the event, or it was received before. */
  lemma DeliveryStep(start: State, states: seq<State>, es: seq<Event>, n: nat, k: RecipientHash, messages: map<nat, nat>, id: nat)
    requires Notifies(start, states, es, k, messages, id) && n < |es|
    ensures es[n].messageId == messages[id] && (n == 0 ==> states[n] == start)
    ensures id in states[n].deliveries && id in states[n + 1].deliveries && D.CarriesMessage(states[n].deliveries[id], messages[id])
    ensures var (before, after) := (states[n].deliveries[id], states[n + 1].deliveries[id]);
      after == D.Apply(before, D.Receive(es[n], 0)) || (n > 0 && after == Attach(before, messages[id]))
  {
    hide Next, LedgerComplete, DeliveriesTrack, SoundTraffic;
    var x := es[n];
    assert x in es;
    SystemBefore(start, states, es, n, k, messages, id);
    NotificationsGrow(es[..n], x, k);
    assert es[..n] + [x] == es[..n + 1];
    NotificationsAreSound(es[..n + 1], k, messages, id);
    NotificationsAreSound(es[..n], k, messages, id);
    assert Next(states[n], Notifications(es, k)[n], states[n + 1]);
    hide Notified, ClaimedAtStart, D.Apply, D.CarriesMessage, IsRun;
    NotificationReceived(states[n], Notification(x.fingerprint, x, [k]), states[n + 1], Notifications(es[..n], k), messages, id);
    assert n == 0 ==> x !in es[..n];
  }

  lemma AttachShows(d: D.Delivery, messageId: nat, e: Event)
    requires D.Shows(d, e)
    ensures D.Shows(Attach(d, messageId), e)
  {
    hide StatusOf, FailureCode;
  }

  lemma NothingShown(start: State, messages: map<nat, nat>, id: nat)
    requires ClaimedAtStart(start, messages) && id in messages
    ensures id in start.deliveries
    ensures start.deliveries[id].last == NO_STAMP && !IsTerminalStatus(start.deliveries[id].status)
  {
    assert D.Tracks(start.deliveries[id], []);
  }

  lemma FirstShown(start: State, states: seq<State>, es: seq<Event>, k: RecipientHash, messages: map<nat, nat>, id: nat)
    requires Notifies(start, states, es, k, messages, id) && es != []
    ensures id in states[1].deliveries && D.Shows(states[1].deliveries[id], es[0])
  {
    hide ClaimedAtStart, IsRun, Identified, EventsOfDelivery, Notifications, D.Shows, D.Apply, D.CarriesMessage, D.KeepsOut;
    assert ClaimedAtStart(start, messages);
    hide *;
    NothingShown(start, messages, id);
    DeliveryStep(start, states, es, 0, k, messages, id);
    D.FirstShows(start.deliveries[id], es[0], messages[id]);
  }

  lemma {:induction false} FirstStays(start: State, states: seq<State>, es: seq<Event>, n: nat, k: RecipientHash, messages: map<nat, nat>, id: nat)
    requires Notifies(start, states, es, k, messages, id) && n < |es|
    requires forall x :: x in es ==> D.KeepsOut(es[0], x)
    ensures id in states[n + 1].deliveries && D.Shows(states[n + 1].deliveries[id], es[0])
  {
    hide *;
    if n == 0 {
      FirstShown(start, states, es, k, messages, id);
    } else {
      assert D.KeepsOut(es[0], es[n]) by { assert es[n] in es; }
      FirstStays(start, states, es, n - 1, k, messages, id);
      DeliveryStep(start, states, es, n, k, messages, id);
      AttachShows(states[n].deliveries[id], messages[id], es[0]);
      D.StaysThrough(states[n].deliveries[id], es[0], es[n]);
    }
  }

  lemma NotifiesDelivers(start: State, states: seq<State>, all: seq<Event>, es: seq<Event>, k: RecipientHash, messages: map<nat, nat>, id: nat)
    requires Notifies(start, states, all, k, messages, id) && forall x :: x in all <==> x in es
    ensures Delivers(start, states, Notifications(all, k), messages, id, es)
  {
    NotificationsAreSound(all, k, messages, id);
    assert forall x :: x in es ==> x.deliveryId == id by { assert forall x :: x in es ==> x in all; }
    hide IsRun, SoundTraffic, Notified, Notifications, ClaimedAtStart, Identified;
  }

  lemma RepeatFirst(e: Event, es: seq<Event>, id: nat, messageId: nat)
    requires e in es && Identified(es) && EventsOfDelivery(es, id, messageId)
    ensures Identified([e] + es) && EventsOfDelivery([e] + es, id, messageId)
    ensures forall x :: x in [e] + es <==> x in es
  {
  }

  /** The run that notifies e and then all events: it ends showing e when e keeps the others out. */
  lemma PinnedRun(start: State, messages: map<nat, nat>, id: nat, e: Event, es: seq<Event>) returns (states: seq<State>, actions: seq<Action>)
    requires ClaimedAtStart(start, messages) && id in messages && Identified(es) && EventsOfDelivery(es, id, messages[id])
    requires e in es && forall x :: x in es ==> D.KeepsOut(e, x)
    ensures Delivers(start, states, actions, messages, id, es)
    ensures id in states[|actions|].deliveries && D.Shows(states[|actions|].deliveries[id], e)
  {
    hide ClaimedAtStart, IsRun, Identified, EventsOfDelivery, D.KeepsOut, D.Shows, Delivers;
    var k := RecipientHash(1, 0);
    var all := [e] + es;
    RepeatFirst(e, es, id, messages[id]);
    states := NotificationsRun(start, all, k, messages, id);
    actions := Notifications(all, k);
    assert Notifies(start, states, all, k, messages, id);
    assert |actions| == |es| + 1 && all[0] == e;
    hide *;
    NotifiesDelivers(start, states, all, es, k, messages, id);
    FirstStays(start, states, all, |es|, k, messages, id);
  }

  /** An unsettled soft bounce notified first, and the authoritative event notified first: two runs over
      the same events that end differently. */
  lemma UnsettledRunsDiverge(start: State, messages: map<nat, nat>, id: nat, es: seq<Event>)
    returns (states: seq<State>, actions: seq<Action>, states2: seq<State>, actions2: seq<Action>)
    requires ClaimedAtStart(start, messages) && id in messages
    requires es != [] && Identified(es) && EventsOfDelivery(es, id, messages[id]) && !D.Settled(es)
    ensures Delivers(start, states, actions, messages, id, es) && Delivers(start, states2, actions2, messages, id, es)
    ensures !ShownAlike(states[|actions|], states2[|actions2|], id)
  {
    hide Delivers, D.Settled, D.KeepsOut, ClaimedAtStart;
    var b, a := D.UnsettledPair(es);
    states, actions := PinnedRun(start, messages, id, b, es);
    states2, actions2 := PinnedRun(start, messages, id, a, es);
  }

  lemma SettledRunsAgree(start: State, messages: map<nat, nat>, id: nat, es: seq<Event>,
                         states: seq<State>, actions: seq<Action>, states2: seq<State>, actions2: seq<Action>)
    requires ClaimedAtStart(start, messages) && id in messages && es != [] && D.Settled(es)
    requires Delivers(start, states, actions, messages, id, es) && Delivers(start, states2, actions2, messages, id, es)
    ensures ShownAlike(states[|actions|], states2[|actions2|], id)
  {
    SystemDeliveriesConverge(states, actions, messages, id, es);
    SystemDeliveriesConverge(states2, actions2, messages, id, es);
    hide IsRun, SoundTraffic, ClaimedAtStart, D.Authoritative, D.Settled;
    var e :| D.Authoritative(e, es) && D.Shows(states[|actions|].deliveries[id], e);
    var f :| D.Authoritative(f, es) && D.Shows(states2[|actions2|].deliveries[id], f);
    D.AuthoritativeIsUnique(e, f, es);
  }

  /** The exact condition over runs of the whole system, where repeats are dropped and anything else
      may go on: the notified events of a delivery decide what it ends up showing if and only if every
      soft bounce among them is settled. */
  lemma OrderIndependenceCondition(start: State, messages: map<nat, nat>, id: nat, es: seq<Event>)
    requires ClaimedAtStart(start, messages) && id in messages
    requires es != [] && Identified(es) && EventsOfDelivery(es, id, messages[id])
    ensures OrderIndependent(start, messages, id, es) <==> D.Settled(es)
  {
    hide Delivers, ShownAlike, D.Settled, ClaimedAtStart, EventsOfDelivery, Identified;
    if D.Settled(es) {
      forall states, actions, states2, actions2 |
        Delivers(start, states, actions, messages, id, es) && Delivers(start, states2, actions2, messages, id, es)
        ensures ShownAlike(states[|actions|], states2[|actions2|], id)
      {
        SettledRunsAgree(start, messages, id, es, states, actions, states2, actions2);
      }
    } else {
      var states, actions, states2, actions2 := UnsettledRunsDiverge(start, messages, id, es);
    }
  }
}
