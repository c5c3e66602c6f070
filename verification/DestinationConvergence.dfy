/** What the destination rows of a mailbox say after any events, in any order
    (apps/notifications/src/app/feedback/ses-feedback-transitions.ts). */
module DestinationConvergence {
  import opened Prelude
  import opened Revisions
  import opened FeedbackPolicy
  import opened Destinations

  ghost predicate Relevant(seen: seq<Event>) {
    exists e :: e in seen && (IsTerminal(e) || Speaks(e))
  }

  ghost predicate LatestTerminal(t: Event, seen: seq<Event>) {
    t in seen && IsTerminal(t) && forall x :: x in seen && IsTerminal(x) ==> x == t || Older(x, t)
  }

  ghost predicate LatestNews(n: Event, seen: seq<Event>) {
    n in seen && Speaks(n) && forall x :: x in seen && Speaks(x) ==> x == n || Older(x, n)
  }

  ghost predicate EarliestTerminal(at: int, seen: seq<Event>) {
    && (exists t :: t in seen && IsTerminal(t) && t.occurredAt == at)
    && forall t :: t in seen && IsTerminal(t) ==> at <= t.occurredAt
  }

  ghost function Terminals(seen: seq<Event>): set<Event> {
    set t | t in seen && IsTerminal(t)
  }

  /** The one row that the processed events call for.  Once a terminal event occurred: suppressed
      with the facts of the latest terminal event, since the earliest one, at a revision that counts
      them.  Before that: the status and facts of the latest event that speaks about the mailbox. */
  ghost predicate Summary(row: Destination, seen: seq<Event>) {
    if SomeTerminal(seen) then
      && row.status == Suppressed
      && (exists t :: LatestTerminal(t, seen) && row.facts == FactsOf(t))
      && row.suppressedAt.Some? && EarliestTerminal(row.suppressedAt.value, seen)
      && row.suppressionRevision == |Terminals(seen)|
    else
      && (exists n :: LatestNews(n, seen) && row.status == NextStatus(n) && row.facts == FactsOf(n))
      && row.suppressedAt == None
      && row.suppressionRevision == 0
  }

  lemma LatestTerminalIsUnique(t: Event, u: Event, p: seq<Event>, q: seq<Event>)
    requires LatestTerminal(t, p) && LatestTerminal(u, q) && SameMembers(p, q)
    ensures t == u
  {
    OlderOrder(t, u, t);
  }

  lemma LatestNewsIsUnique(m: Event, n: Event, p: seq<Event>, q: seq<Event>)
    requires LatestNews(m, p) && LatestNews(n, q) && SameMembers(p, q)
    ensures m == n
  {
    OlderOrder(m, n, m);
  }

  lemma EarliestTerminalIsUnique(m: int, n: int, p: seq<Event>, q: seq<Event>)
    requires EarliestTerminal(m, p) && EarliestTerminal(n, q) && SameMembers(p, q)
    ensures m == n
  {
    var t :| t in p && IsTerminal(t) && t.occurredAt == m;
    var u :| u in q && IsTerminal(u) && u.occurredAt == n;
    assert t in q && u in p;
  }

  /** The summary is a function of the set of events. */
  lemma SummaryIsUnique(a: Destination, b: Destination, p: seq<Event>, q: seq<Event>)
    requires Summary(a, p) && Summary(b, q) && SameMembers(p, q)
    ensures a == b
  {
    if SomeTerminal(p) {
      var t :| LatestTerminal(t, p) && a.facts == FactsOf(t);
      assert SomeTerminal(q) by { assert t in q; }
      var u :| LatestTerminal(u, q) && b.facts == FactsOf(u);
      LatestTerminalIsUnique(t, u, p, q);
      EarliestTerminalIsUnique(a.suppressedAt.value, b.suppressedAt.value, p, q);
      assert Terminals(p) == Terminals(q);
    } else {
      assert !SomeTerminal(q);
      var m :| LatestNews(m, p) && a.status == NextStatus(m) && a.facts == FactsOf(m);
      var n :| LatestNews(n, q) && b.status == NextStatus(n) && b.facts == FactsOf(n);
      LatestNewsIsUnique(m, n, p, q);
    }
  }

  // ----- event rows have fresh identifiers -----

  function WithoutId(e: Event): Event {
    e.(id := 0)
  }

  ghost function WithoutIds(es: seq<Event>): set<Event> {
    set e | e in es :: WithoutId(e)
  }

  /** The same events, stored under other identifiers. */
  ghost predicate SameUpToIds(p: seq<Event>, q: seq<Event>) {
    WithoutIds(p) == WithoutIds(q)
  }

  /** Equal but for the identifier of the event row. */
  predicate SameButEventId(a: Destination, b: Destination) {
    b == a.(facts := a.facts.(lastEventId := b.facts.lastEventId))
  }

  /** Nothing that decides a row depends on the identifier of the event row. */
  lemma TwinsAgree(e: Event, f: Event)
    requires WithoutId(e) == WithoutId(f)
    ensures RevisionOf(e) == RevisionOf(f) && e.occurredAt == f.occurredAt && e.fingerprint == f.fingerprint
    ensures IsTerminal(e) == IsTerminal(f) && Speaks(e) == Speaks(f) && NextStatus(e) == NextStatus(f)
    ensures FactsOf(f) == FactsOf(e).(lastEventId := FactsOf(f).lastEventId)
  {
    assert e.feedback == WithoutId(e).feedback == f.feedback;
    hide IsTerminalMailboxEvent, Precedence, DestinationStatusOf, FailureCode;
  }

  lemma Twin(e: Event, p: seq<Event>, q: seq<Event>) returns (f: Event)
    requires e in p && SameUpToIds(p, q)
    ensures f in q && WithoutId(f) == WithoutId(e)
  {
    assert WithoutId(e) in WithoutIds(p);
    f :| f in q && WithoutId(f) == WithoutId(e);
  }

  lemma {:induction false} CountWithoutIds(s: set<Event>)
    requires forall a, b :: a in s && b in s && a.fingerprint == b.fingerprint ==> a == b
    ensures |set e | e in s :: WithoutId(e)| == |s|
  {
    if s != {} {
      var x :| x in s;
      var rest := s - {x};
      CountWithoutIds(rest);
      assert WithoutId(x) !in (set e | e in rest :: WithoutId(e));
      assert (set e | e in s :: WithoutId(e)) == (set e | e in rest :: WithoutId(e)) + {WithoutId(x)};
    }
  }

  lemma CountTerminals(p: seq<Event>)
    requires Identified(p)
    ensures |Terminals(p)| == |set x | x in WithoutIds(p) && IsTerminal(x)|
    ensures SomeTerminal(p) <==> exists x :: x in WithoutIds(p) && IsTerminal(x)
  {
    hide IsTerminal;
    CountWithoutIds(Terminals(p));
    forall e | e in p
      ensures IsTerminal(WithoutId(e)) == IsTerminal(e) && WithoutId(e) in WithoutIds(p)
    {
      TwinsAgree(e, WithoutId(e));
    }
    assert (set e | e in Terminals(p) :: WithoutId(e)) == (set x | x in WithoutIds(p) && IsTerminal(x));
  }

  lemma SameRevisionsCompare(t: Event, t': Event, u: Event, u': Event)
    requires RevisionOf(t) == RevisionOf(t') && RevisionOf(u) == RevisionOf(u')
    ensures Older(u', t) == Older(u, t') && !(Older(u', t) && Older(t', u))
  {
    OlderOrder(t', u, t');
  }

  lemma LatestTerminalTwin(t: Event, u: Event, p: seq<Event>, q: seq<Event>)
    requires LatestTerminal(t, p) && LatestTerminal(u, q) && SameUpToIds(p, q)
    ensures WithoutId(t) == WithoutId(u)
  {
    hide IsTerminal, WithoutIds, Older;
    var t' := Twin(t, p, q);
    var u' := Twin(u, q, p);
    TwinsAgree(t, t');
    TwinsAgree(u, u');
    SameRevisionsCompare(t, t', u, u');
  }

  lemma LatestNewsTwin(m: Event, n: Event, p: seq<Event>, q: seq<Event>)
    requires LatestNews(m, p) && LatestNews(n, q) && SameUpToIds(p, q)
    ensures WithoutId(m) == WithoutId(n)
  {
    hide Speaks, WithoutIds, Older;
    var m' := Twin(m, p, q);
    var n' := Twin(n, q, p);
    TwinsAgree(m, m');
    TwinsAgree(n, n');
    SameRevisionsCompare(m, m', n, n');
  }

  lemma EarliestTerminalTwin(m: int, n: int, p: seq<Event>, q: seq<Event>)
    requires EarliestTerminal(m, p) && EarliestTerminal(n, q) && SameUpToIds(p, q)
    ensures m == n
  {
    hide IsTerminal, WithoutIds;
    var t :| t in p && IsTerminal(t) && t.occurredAt == m;
    var t' := Twin(t, p, q);
    TwinsAgree(t, t');
    var u :| u in q && IsTerminal(u) && u.occurredAt == n;
    var u' := Twin(u, q, p);
    TwinsAgree(u, u');
  }

  /** The row that the events call for, whatever identifiers their rows were given. */
  lemma SummaryUpToIds(a: Destination, b: Destination, p: seq<Event>, q: seq<Event>)
    requires Summary(a, p) && Summary(b, q) && SameUpToIds(p, q) && Identified(p) && Identified(q)
    ensures SameButEventId(a, b)
  {
    hide IsTerminal, Speaks, Identified, SomeTerminal, LatestTerminal, LatestNews, EarliestTerminal, FactsOf, NextStatus;
    CountTerminals(p);
    CountTerminals(q);
    if SomeTerminal(p) {
      var t :| LatestTerminal(t, p) && a.facts == FactsOf(t);
      var u :| LatestTerminal(u, q) && b.facts == FactsOf(u);
      LatestTerminalTwin(t, u, p, q);
      TwinsAgree(t, u);
      EarliestTerminalTwin(a.suppressedAt.value, b.suppressedAt.value, p, q);
    } else {
      var m :| LatestNews(m, p) && a.status == NextStatus(m) && a.facts == FactsOf(m);
      var n :| LatestNews(n, q) && b.status == NextStatus(n) && b.facts == FactsOf(n);
      LatestNewsTwin(m, n, p, q);
      TwinsAgree(m, n);
    }
  }

  lemma RelevantUpToIds(p: seq<Event>, q: seq<Event>)
    requires SameUpToIds(p, q) && Relevant(p)
    ensures Relevant(q)
  {
    hide SameUpToIds;
    var e :| e in p && (IsTerminal(e) || Speaks(e));
    var f := Twin(e, p, q);
    TwinsAgree(e, f);
  }

  // ----- the mailbox along a run -----

  /** The rows of one mailbox after `seen`: every row it has is the summary, all its rows stand under
      the aliases known so far, and as soon as an event is relevant the base aliases have rows. */
  ghost predicate MailboxShows(rows: Table, mailbox: set<RecipientHash>, base: seq<RecipientHash>, known: seq<RecipientHash>, seen: seq<Event>) {
    && (forall k :: k in mailbox && k in rows ==> k in known && Relevant(seen) && Summary(rows[k], seen))
    && (Relevant(seen) ==> forall k :: k in base ==> k in rows)
  }

  /** The aliases under which an event is processed: all of the mailbox, the base ones among them, and
      none forgotten that was known before; a rotated keyring only adds aliases. */
  ghost predicate GrownAliases(aliases: seq<RecipientHash>, mailbox: set<RecipientHash>, base: seq<RecipientHash>, known: seq<RecipientHash>) {
    && base != []
    && (forall k :: k in aliases ==> k in mailbox)
    && (forall k :: k in base ==> k in aliases)
    && (forall k :: k in known ==> k in aliases)
  }

  lemma SomeTerminalGrows(seen: seq<Event>, e: Event)
    ensures SomeTerminal(seen + [e]) <==> SomeTerminal(seen) || IsTerminal(e)
    ensures Relevant(seen + [e]) <==> Relevant(seen) || IsTerminal(e) || Speaks(e)
    ensures Terminals(seen + [e]) == Terminals(seen) + if IsTerminal(e) then {e} else {}
  {
    var all := seen + [e];
    assert forall x :: x in all <==> x in seen || x == e;
    if SomeTerminal(seen) {
      var t :| t in seen && IsTerminal(t);
      assert t in all;
    }
    if Relevant(seen) {
      var x :| x in seen && (IsTerminal(x) || Speaks(x));
      assert x in all;
    }
    assert e in all;
  }

  /** Which facts win when all rows of the mailbox agree. */
  lemma DecisionIsLatest(rows: Table, aliases: seq<RecipientHash>, e: Event, shown: Event, status: DestinationStatus, facts: Facts)
    requires Decides(rows, aliases, e, status, facts)
    requires e.fingerprint != shown.fingerprint
    requires exists k :: k in aliases && k in rows
    requires forall k :: k in aliases && k in rows ==>
      rows[k].facts == FactsOf(shown) && rows[k].status == NextStatus(shown) && (IsTerminal(e) ==> rows[k].status == Suppressed)
    ensures if Older(shown, e) then status == NextStatus(e) && facts == FactsOf(e)
            else Older(e, shown) && status == NextStatus(shown) && facts == FactsOf(shown)
  {
    OlderOrder(shown, e, e);
    OlderOrder(e, shown, e);
    assert RevisionOf(e) != RevisionOf(shown);
    if Older(e, shown) {
      var k :| k in aliases && k in rows;
      assert HoldsOut(rows, k, e);
    }
  }

  lemma NoHoldOuts(rows: Table, aliases: seq<RecipientHash>, e: Event, status: DestinationStatus, facts: Facts)
    requires Decides(rows, aliases, e, status, facts)
    requires forall k :: k in aliases && k in rows ==> IsTerminal(e) && rows[k].status != Suppressed
    ensures status == NextStatus(e) && facts == FactsOf(e)
  {
  }

  /** The first terminal event of the mailbox. */
  lemma FirstTerminal(rows: Table, aliases: seq<RecipientHash>, e: Event, row: Destination, seen: seq<Event>)
    requires IsTerminal(e) && !SomeTerminal(seen) && e !in seen
    requires forall k :: k in aliases && k in rows ==> Summary(rows[k], seen)
    requires SuppressedOutcome(rows, aliases, e, row)
    ensures Summary(row, seen + [e])
  {
    var all := seen + [e];
    SomeTerminalGrows(seen, e);
    forall k | k in aliases && k in rows
      ensures rows[k].status != Suppressed && rows[k].suppressionRevision == 0 && rows[k].suppressedAt == None
    {
      var n :| LatestNews(n, seen) && rows[k].status == NextStatus(n);
    }
    NoHoldOuts(rows, aliases, e, Suppressed, row.facts);
    assert LatestTerminal(e, all);
    assert Terminals(seen) == {};
    assert row.suppressionRevision == |Terminals(all)|;
    assert e in all;
  }

  lemma EarliestGrows(rows: Table, aliases: seq<RecipientHash>, e: Event, at: int, before: int, key: RecipientHash, seen: seq<Event>)
    requires IsTerminal(e) && EarliestTerminal(before, seen) && IsEarliest(rows, aliases, e.occurredAt, at)
    requires key in aliases && key in rows
    requires forall k :: k in aliases && k in rows ==> rows[k].suppressedAt == Some(before)
    ensures EarliestTerminal(at, seen + [e])
  {
    var all := seen + [e];
    assert forall x :: x in all <==> x in seen || x == e;
    if at == e.occurredAt {
      assert e in all;
    } else {
      var t :| t in seen && IsTerminal(t) && t.occurredAt == before;
      assert t in all;
    }
  }

  lemma FurtherTerminal(rows: Table, aliases: seq<RecipientHash>, e: Event, row: Destination, seen: seq<Event>)
    requires IsTerminal(e) && SomeTerminal(seen) && e !in seen && Identified(seen + [e])
    requires exists k :: k in aliases && k in rows
    requires forall k :: k in aliases && k in rows ==> Summary(rows[k], seen)
    requires SuppressedOutcome(rows, aliases, e, row)
    ensures Summary(row, seen + [e])
  {
    var all := seen + [e];
    SomeTerminalGrows(seen, e);
    assert forall x :: x in all <==> x in seen || x == e;
    var key :| key in aliases && key in rows;
    var t :| LatestTerminal(t, seen) && rows[key].facts == FactsOf(t);
    forall k | k in aliases && k in rows
      ensures rows[k] == rows[key]
    {
      SummaryIsUnique(rows[k], rows[key], seen, seen);
    }
    assert e in all && t in all;
    DecisionIsLatest(rows, aliases, e, t, Suppressed, row.facts);
    var latest := if Older(t, e) then e else t;
    forall x | x in all && IsTerminal(x)
      ensures x == latest || Older(x, latest)
    {
      OlderOrder(x, t, latest);
    }
    assert LatestTerminal(latest, all);
    assert |Terminals(all)| == |Terminals(seen)| + 1;
    assert row.suppressionRevision == |Terminals(seen)| + 1;
    EarliestGrows(rows, aliases, e, row.suppressedAt.value, rows[key].suppressedAt.value, key, seen);
  }

  /** News about a mailbox that is not blocked. */
  lemma FreshNews(rows: Table, aliases: seq<RecipientHash>, e: Event, status: DestinationStatus, facts: Facts, k: RecipientHash, seen: seq<Event>)
    requires Speaks(e) && !SomeTerminal(seen) && e !in seen && Identified(seen + [e])
    requires Relevant(seen) <==> exists x :: x in aliases && x in rows
    requires forall x :: x in aliases && x in rows ==> Summary(rows[x], seen)
    requires Decides(rows, aliases, e, status, facts) && k in aliases
    ensures Summary(Reported(rows, k, status, facts), seen + [e])
  {
    hide IsTerminalMailboxEvent, FailureCode, Precedence, DestinationStatusOf, NewerEvent, StampLess;
    var all := seen + [e];
    SomeTerminalGrows(seen, e);
    assert forall x :: x in all <==> x in seen || x == e;
    if Relevant(seen) {
      var key :| key in aliases && key in rows;
      var n :| LatestNews(n, seen) && rows[key].status == NextStatus(n) && rows[key].facts == FactsOf(n);
      forall x | x in aliases && x in rows
        ensures rows[x] == rows[key]
      {
        SummaryIsUnique(rows[x], rows[key], seen, seen);
      }
      assert e in all && n in all;
      DecisionIsLatest(rows, aliases, e, n, status, facts);
      var latest := if Older(n, e) then e else n;
      forall x | x in all && Speaks(x)
        ensures x == latest || Older(x, latest)
      {
        OlderOrder(x, n, latest);
      }
      assert LatestNews(latest, all);
    } else {
      assert LatestNews(e, all);
    }
  }

  lemma UnmovedSummary(row: Destination, e: Event, seen: seq<Event>)
    requires Summary(row, seen) && !IsTerminal(e) && (SomeTerminal(seen) || !Speaks(e))
    ensures Summary(row, seen + [e])
  {
    var all := seen + [e];
    SomeTerminalGrows(seen, e);
    assert forall x :: x in all <==> x in seen || x == e;
    if SomeTerminal(seen) {
      var t :| LatestTerminal(t, seen) && row.facts == FactsOf(t);
      assert LatestTerminal(t, all);
      var u :| u in seen && IsTerminal(u) && u.occurredAt == row.suppressedAt.value;
      assert u in all;
    } else {
      var n :| LatestNews(n, seen) && row.status == NextStatus(n) && row.facts == FactsOf(n);
      assert LatestNews(n, all);
    }
  }

  lemma NewsIsNotBlocked(rows: Table, aliases: seq<RecipientHash>, seen: seq<Event>)
    requires !SomeTerminal(seen) && forall k :: k in aliases && k in rows ==> Summary(rows[k], seen)
    ensures !SomeBlocked(rows, aliases)
  {
    forall k | k in aliases && k in rows
      ensures !IsBlocked(rows[k].status)
    {
      var n :| LatestNews(n, seen) && rows[k].status == NextStatus(n);
    }
  }

  /** Rows of the mailbox only ever stand under the aliases of the event. */
  lemma RowsUnderAliases(rows: Table, aliases: seq<RecipientHash>, rows': Table,
                         mailbox: set<RecipientHash>, base: seq<RecipientHash>, known: seq<RecipientHash>, seen: seq<Event>)
    requires MailboxShows(rows, mailbox, base, known, seen) && GrownAliases(aliases, mailbox, base, known)
    requires Framed(rows, aliases, rows')
    ensures forall k :: k in mailbox && k in rows' ==> k in aliases
    ensures forall k :: k in aliases && k in rows ==> Summary(rows[k], seen)
    ensures Relevant(seen) <==> exists k :: k in aliases && k in rows
  {
    hide Summary, Relevant;
    if Relevant(seen) {
      assert base[0] in aliases && base[0] in rows;
    }
  }

  lemma TerminalKeepsMailbox(rows: Table, aliases: seq<RecipientHash>, e: Event, rows': Table,
                             mailbox: set<RecipientHash>, base: seq<RecipientHash>, known: seq<RecipientHash>, seen: seq<Event>)
    requires MailboxShows(rows, mailbox, base, known, seen) && GrownAliases(aliases, mailbox, base, known)
    requires Transition(rows, aliases, e, rows') && e !in seen && Identified(seen + [e]) && IsTerminal(e)
    ensures MailboxShows(rows', mailbox, base, aliases, seen + [e])
  {
    hide Summary, SuppressedOutcome, Identified;
    SomeTerminalGrows(seen, e);
    RowsUnderAliases(rows, aliases, rows', mailbox, base, known, seen);
    var row :| SuppressedOutcome(rows, aliases, e, row) && forall k :: k in aliases ==> k in rows' && rows'[k] == row;
    if SomeTerminal(seen) {
      assert Relevant(seen);
      FurtherTerminal(rows, aliases, e, row, seen);
    } else {
      FirstTerminal(rows, aliases, e, row, seen);
    }
    hide IsTerminal, Relevant, SomeTerminal, Terminals, Framed;
  }

  /** The event says nothing about the mailbox or a row is blocked. */
  lemma UnheardKeepsMailbox(rows: Table, aliases: seq<RecipientHash>, e: Event,
                            mailbox: set<RecipientHash>, base: seq<RecipientHash>, known: seq<RecipientHash>, seen: seq<Event>)
    requires MailboxShows(rows, mailbox, base, known, seen) && GrownAliases(aliases, mailbox, base, known)
    requires !IsTerminal(e) && (!Speaks(e) || SomeBlocked(rows, aliases))
    ensures MailboxShows(rows, mailbox, base, aliases, seen + [e])
  {
    hide Summary;
    SomeTerminalGrows(seen, e);
    RowsUnderAliases(rows, aliases, rows, mailbox, base, known, seen);
    if Speaks(e) && !SomeTerminal(seen) {
      NewsIsNotBlocked(rows, aliases, seen);
    }
    forall k | k in mailbox && k in rows
      ensures Summary(rows[k], seen + [e])
    {
      UnmovedSummary(rows[k], e, seen);
    }
    if Speaks(e) {
      assert Relevant(seen) by {
        var t :| t in seen && IsTerminal(t);
      }
    }
  }

  lemma TerminalBlocks(rows: Table, aliases: seq<RecipientHash>, seen: seq<Event>)
    requires SomeTerminal(seen) && (forall k :: k in aliases && k in rows ==> Summary(rows[k], seen))
    requires Relevant(seen) ==> exists k :: k in aliases && k in rows
    ensures SomeBlocked(rows, aliases)
  {
    assert Relevant(seen);
    var k :| k in aliases && k in rows;
    assert Summary(rows[k], seen);
  }

  lemma NewsKeepsMailbox(rows: Table, aliases: seq<RecipientHash>, e: Event, rows': Table,
                         mailbox: set<RecipientHash>, base: seq<RecipientHash>, known: seq<RecipientHash>, seen: seq<Event>)
    requires MailboxShows(rows, mailbox, base, known, seen) && GrownAliases(aliases, mailbox, base, known)
    requires Transition(rows, aliases, e, rows') && e !in seen && Identified(seen + [e])
    requires Speaks(e) && !SomeBlocked(rows, aliases)
    ensures MailboxShows(rows', mailbox, base, aliases, seen + [e])
  {
    hide Summary, Identified, Decides;
    SomeTerminalGrows(seen, e);
    RowsUnderAliases(rows, aliases, rows', mailbox, base, known, seen);
    assert !SomeTerminal(seen) by {
      if SomeTerminal(seen) {
        TerminalBlocks(rows, aliases, seen);
      }
    }
    var status, facts :| ReportedOutcome(rows, aliases, e, status, facts, rows');
    forall k | k in aliases
      ensures Summary(rows'[k], seen + [e])
    {
      FreshNews(rows, aliases, e, status, facts, k, seen);
    }
  }

  /** One event processed for the mailbox, whatever came before it. */
  lemma TransitionKeepsMailbox(rows: Table, aliases: seq<RecipientHash>, e: Event, rows': Table,
                               mailbox: set<RecipientHash>, base: seq<RecipientHash>, known: seq<RecipientHash>, seen: seq<Event>)
    requires MailboxShows(rows, mailbox, base, known, seen) && GrownAliases(aliases, mailbox, base, known)
    requires Transition(rows, aliases, e, rows') && e !in seen && Identified(seen + [e])
    ensures MailboxShows(rows', mailbox, base, aliases, seen + [e])
  {
    hide MailboxShows, GrownAliases, Identified;
    if IsTerminal(e) {
      TerminalKeepsMailbox(rows, aliases, e, rows', mailbox, base, known, seen);
    } else if !Speaks(e) || SomeBlocked(rows, aliases) {
      UnheardKeepsMailbox(rows, aliases, e, mailbox, base, known, seen);
    } else {
      NewsKeepsMailbox(rows, aliases, e, rows', mailbox, base, known, seen);
    }
  }

  /** Events of other mailboxes do not matter. */
  lemma OtherMailboxes(rows: Table, aliases: seq<RecipientHash>, e: Event, rows': Table,
                       mailbox: set<RecipientHash>, base: seq<RecipientHash>, known: seq<RecipientHash>, seen: seq<Event>)
    requires MailboxShows(rows, mailbox, base, known, seen) && Transition(rows, aliases, e, rows')
    requires forall k :: k in aliases ==> k !in mailbox
    requires forall k :: k in base ==> k in mailbox
    ensures MailboxShows(rows', mailbox, base, known, seen)
  {
    assert Framed(rows, aliases, rows');
  }
}
