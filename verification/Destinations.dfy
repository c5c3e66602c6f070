/** The destination rows of a mailbox and the transitions feedback applies to them
    (apps/notifications/src/app/feedback/ses-feedback-transitions.ts).

    A mailbox has one row per recipient hash key; the keys a message is looked up under are its
    aliases, one for each key of the keyring. */
module Destinations {
  import opened Prelude
  import opened Revisions
  import opened FeedbackPolicy

  /** A keyed hash of the recipient; like a fingerprint, the hash is a number here. */
  datatype RecipientHash = RecipientHash(keyVersion: int, value: nat)

  /** The columns copied from the authoritative row. */
  datatype Facts = Facts(reasonCode: Option<string>, lastDeliveryId: Option<nat>, lastEventId: Option<nat>, last: Stamp)

  datatype Destination = Destination(
    status: DestinationStatus,
    facts: Facts,
    suppressedAt: Option<int>,
    suppressionRevision: nat)

  type Table = map<RecipientHash, Destination>

  /** A keyring has one key per version, so a mailbox never has the same alias twice. */
  predicate IsAliasList(aliases: seq<RecipientHash>) {
    aliases != [] && forall i, j :: 0 <= i < j < |aliases| ==> aliases[i] != aliases[j]
  }

  predicate IsBlocked(status: DestinationStatus) {
    status == Suppressed || status == RecoveryPending
  }

  /** An event that is not terminal but says something about the mailbox. */
  predicate Speaks(e: Event) {
    !IsTerminal(e) && DestinationStatusOf(e.feedback).Some?
  }

  function FactsOf(e: Event): Facts {
    var reason := if IsTerminal(e) || DestinationStatusOf(e.feedback) == Some(TemporaryFailure) then FailureCode(e.feedback) else None;
    Facts(reason, Some(e.deliveryId), Some(e.id), StampOf(RevisionOf(e)))
  }

  ghost predicate SomeBlocked(rows: Table, aliases: seq<RecipientHash>) {
    exists k :: k in aliases && k in rows && IsBlocked(rows[k].status)
  }

  // ----- what one event does to arbitrary rows -----

  /** The greatest stored suppression revision, zero when there is none. */
  ghost predicate IsMaxRevision(rows: Table, aliases: seq<RecipientHash>, m: nat) {
    && (forall k :: k in aliases && k in rows ==> rows[k].suppressionRevision <= m)
    && (m == 0 || exists k :: k in aliases && k in rows && rows[k].suppressionRevision == m)
  }

  /** The earliest of the stored suppression times and the event's own. */
  ghost predicate IsEarliest(rows: Table, aliases: seq<RecipientHash>, at: int, m: int) {
    && m <= at
    && (forall k :: k in aliases && k in rows && rows[k].suppressedAt.Some? ==> m <= rows[k].suppressedAt.value)
    && (m == at || exists k :: k in aliases && k in rows && rows[k].suppressedAt == Some(m))
  }

  /** A row that the event does not overwrite. */
  predicate HoldsOut(rows: Table, k: RecipientHash, e: Event) {
    && k in rows
    && !NewerEvent(rows[k].facts.last, RevisionOf(e))
    && (IsTerminal(e) ==> rows[k].status == Suppressed)
  }

  function NextStatus(e: Event): DestinationStatus {
    if IsTerminal(e) then Suppressed
    else match DestinationStatusOf(e.feedback) case Some(status) => status case None => Active
  }

  /** Who decides the aliases: the event, or a row that it does not overwrite, whichever is latest.
      Between equal stamps the database may pick either. */
  ghost predicate Decides(rows: Table, aliases: seq<RecipientHash>, e: Event, status: DestinationStatus, facts: Facts) {
    && (|| (status == NextStatus(e) && facts == FactsOf(e))
        || exists k :: k in aliases && HoldsOut(rows, k, e) && status == rows[k].status && facts == rows[k].facts)
    && (forall k :: k in aliases && HoldsOut(rows, k, e) ==> !StampLess(facts.last, rows[k].facts.last))
  }

  ghost predicate SuppressedOutcome(rows: Table, aliases: seq<RecipientHash>, e: Event, row: Destination) {
    && row.status == Suppressed
    && Decides(rows, aliases, e, Suppressed, row.facts)
    && (exists m: nat :: IsMaxRevision(rows, aliases, m) && row.suppressionRevision == m + 1)
    && row.suppressedAt.Some? && IsEarliest(rows, aliases, e.occurredAt, row.suppressedAt.value)
  }

  ghost predicate Framed(before: Table, aliases: seq<RecipientHash>, after: Table) {
    forall k :: k !in aliases ==> (k in before <==> k in after) && (k in before ==> after[k] == before[k])
  }

  /** A row that takes over the authoritative columns and keeps its own suppression history. */
  function Reported(before: Table, k: RecipientHash, status: DestinationStatus, facts: Facts): Destination {
    if k in before then before[k].(status := status, facts := facts) else Destination(status, facts, None, 0)
  }

  ghost predicate ReportedOutcome(before: Table, aliases: seq<RecipientHash>, e: Event, status: DestinationStatus, facts: Facts, after: Table) {
    && Decides(before, aliases, e, status, facts)
    && forall k :: k in aliases ==> k in after && after[k] == Reported(before, k, status, facts)
  }

  /** One event processed for a mailbox, whatever its rows were before. */
  ghost predicate Transition(before: Table, aliases: seq<RecipientHash>, e: Event, after: Table) {
    && Framed(before, aliases, after)
    && if IsTerminal(e) then
         exists row :: SuppressedOutcome(before, aliases, e, row) && forall k :: k in aliases ==> k in after && after[k] == row
       else if !Speaks(e) || SomeBlocked(before, aliases) then
         after == before
       else
         exists status, facts :: ReportedOutcome(before, aliases, e, status, facts, after)
  }

  function MinTime(a: Option<int>, at: int): int {
    if a.Some? && a.value <= at then a.value else at
  }

  /** One alias after its own suppression, before the aliases converge. */
  function SuppressedRow(before: Table, k: RecipientHash, e: Event, revision: nat): Destination {
    if k !in before then Destination(Suppressed, FactsOf(e), Some(e.occurredAt), revision)
    else Destination(Suppressed, if HoldsOut(before, k, e) then before[k].facts else FactsOf(e),
                     Some(MinTime(before[k].suppressedAt, e.occurredAt)), revision)
  }

  function NewsRow(before: Table, k: RecipientHash, e: Event): Destination {
    if HoldsOut(before, k, e) then before[k]
    else Reported(before, k, NextStatus(e), FactsOf(e))
  }

  lemma NotBlocked(rows: Table, aliases: seq<RecipientHash>)
    requires !SomeBlocked(rows, aliases)
    ensures forall k :: k in aliases && k in rows ==> !IsBlocked(rows[k].status)
  {
  }

  lemma SuppressedDecision(before: Table, middle: Table, aliases: seq<RecipientHash>, e: Event, revision: nat, row: Destination)
    requires IsTerminal(e)
    requires forall k :: k in aliases ==> k in middle && middle[k] == SuppressedRow(before, k, e, revision)
    requires exists k :: k in aliases && middle[k] == row
    requires forall k :: k in aliases ==> !StampLess(row.facts.last, middle[k].facts.last)
    ensures Decides(before, aliases, e, Suppressed, row.facts)
  {
    forall k | k in aliases && HoldsOut(before, k, e)
      ensures !StampLess(row.facts.last, before[k].facts.last)
    {
      assert middle[k].facts == before[k].facts;
    }
  }

  lemma NewsDecision(before: Table, middle: Table, aliases: seq<RecipientHash>, e: Event, row: Destination)
    requires Speaks(e)
    requires forall k :: k in aliases ==> k in middle && middle[k] == NewsRow(before, k, e)
    requires exists k :: k in aliases && middle[k] == row
    requires forall k :: k in aliases ==> !StampLess(row.facts.last, middle[k].facts.last)
    ensures Decides(before, aliases, e, row.status, row.facts)
    ensures forall k :: k in aliases ==> middle[k].(status := row.status, facts := row.facts) == Reported(before, k, row.status, row.facts)
  {
    forall k | k in aliases && HoldsOut(before, k, e)
      ensures !StampLess(row.facts.last, before[k].facts.last)
    {
      assert middle[k] == before[k];
    }
  }

  lemma SingleNews(before: Table, aliases: seq<RecipientHash>, e: Event, middle: Table)
    requires Speaks(e) && |aliases| == 1 && aliases[0] in middle && middle[aliases[0]] == NewsRow(before, aliases[0], e)
    ensures ReportedOutcome(before, aliases, e, middle[aliases[0]].status, middle[aliases[0]].facts, middle)
  {
    hide NewerEvent, FactsOf, IsTerminal, Speaks;
    assert forall k :: k in aliases ==> k == aliases[0];
    NewsDecision(before, middle, aliases, e, middle[aliases[0]]) by { assert aliases[0] in aliases; }
  }

  /** The destination table, changed in place. */
  class DestinationTable {
    var rows: Table

    constructor ()
      ensures rows == map[]
    {
      rows := map[];
    }

    method ApplyDestinationTransition(e: Event, aliases: seq<RecipientHash>)
      requires IsAliasList(aliases)
      modifies this
      ensures Transition(old(rows), aliases, e, rows)
    {
      if IsTerminal(e) {
        SuppressDestinationAliases(e, aliases);
        return;
      }
      if DestinationStatusOf(e.feedback).None? {
        return;
      }
      for i := 0 to |aliases|
        invariant forall j :: 0 <= j < i ==> !(aliases[j] in rows && IsBlocked(rows[aliases[j]].status))
      {
        if aliases[i] in rows && IsBlocked(rows[aliases[i]].status) {
          assert SomeBlocked(rows, aliases);
          return;
        }
      }
      assert !SomeBlocked(rows, aliases);
      ReportOnAliases(e, aliases);
    }

    method SuppressDestinationAliases(e: Event, aliases: seq<RecipientHash>)
      requires IsTerminal(e) && IsAliasList(aliases)
      modifies this
      ensures Framed(old(rows), aliases, rows)
      ensures exists row :: SuppressedOutcome(old(rows), aliases, e, row) && forall k :: k in aliases ==> k in rows && rows[k] == row
    {
      hide NewerEvent, StampLess, HoldsOut, Decides, SuppressedRow, IsMaxRevision, IsEarliest;
      ghost var before := rows;
      var revision, earliest := Aggregate(aliases, e.occurredAt);
      SuppressEachAlias(e, aliases, revision + 1);
      var authoritative := FindAuthoritative(aliases);
      SuppressedDecision(before, rows, aliases, e, revision + 1, authoritative);
      var row := Destination(Suppressed, authoritative.facts, Some(earliest), revision + 1);
      assert SuppressedOutcome(before, aliases, e, row);
      rows := map k | k in rows :: if k in aliases then row else rows[k];
    }

    method SuppressEachAlias(e: Event, aliases: seq<RecipientHash>, revision: nat)
      requires IsTerminal(e) && IsAliasList(aliases)
      modifies this
      ensures Framed(old(rows), aliases, rows)
      ensures forall k :: k in aliases ==> k in rows && rows[k] == SuppressedRow(old(rows), k, e, revision)
    {
      ghost var before := rows;
      for i := 0 to |aliases|
        invariant forall k :: k in aliases[..i] ==> k in rows && rows[k] == SuppressedRow(before, k, e, revision)
        invariant forall k :: k !in aliases[..i] ==> (k in before <==> k in rows) && (k in before ==> rows[k] == before[k])
      {
        var k := aliases[i];
        SuppressDestination(k, e, revision);
        assert forall x :: x in aliases[..i + 1] <==> x in aliases[..i] || x == k;
      }
      assert aliases[..|aliases|] == aliases;
    }

    /** The upsert and the two guarded updates of one alias. */
    method SuppressDestination(k: RecipientHash, e: Event, revision: nat)
      requires IsTerminal(e)
      modifies this
      ensures rows == old(rows)[k := SuppressedRow(old(rows), k, e, revision)]
    {
      hide NewerEvent, FactsOf, IsTerminal;
      ghost var before := rows;
      if k in rows {
        rows := rows[k := rows[k].(suppressionRevision := revision)];
      } else {
        rows := rows[k := Destination(Suppressed, FactsOf(e), Some(e.occurredAt), revision)];
      }
      if rows[k].status != Suppressed || NewerEvent(rows[k].facts.last, RevisionOf(e)) {
        rows := rows[k := rows[k].(status := Suppressed, facts := FactsOf(e))];
      }
      assert rows == before[k := rows[k]];
      if rows[k].suppressedAt.None? || rows[k].suppressedAt.value > e.occurredAt {
        rows := rows[k := rows[k].(suppressedAt := Some(e.occurredAt))];
      }
    }

    /** The aggregate query, with its nulls resolved as the service resolves them. */
    method Aggregate(aliases: seq<RecipientHash>, at: int) returns (revision: nat, earliest: int)
      ensures IsMaxRevision(rows, aliases, revision) && IsEarliest(rows, aliases, at, earliest)
    {
      revision, earliest := 0, at;
      for i := 0 to |aliases|
        invariant IsMaxRevision(rows, aliases[..i], revision) && IsEarliest(rows, aliases[..i], at, earliest)
      {
        var k := aliases[i];
        assert forall x :: x in aliases[..i + 1] <==> x in aliases[..i] || x == k;
        if k in rows {
          if rows[k].suppressionRevision > revision {
            revision := rows[k].suppressionRevision;
          }
          if rows[k].suppressedAt.Some? && rows[k].suppressedAt.value < earliest {
            earliest := rows[k].suppressedAt.value;
          }
        }
      }
      assert aliases[..|aliases|] == aliases;
    }

    /** The first row of the descending query: a row that no other alias exceeds. */
    method FindAuthoritative(aliases: seq<RecipientHash>) returns (row: Destination)
      requires aliases != [] && forall k :: k in aliases ==> k in rows
      ensures exists k :: k in aliases && rows[k] == row
      ensures forall k :: k in aliases ==> !StampLess(row.facts.last, rows[k].facts.last)
    {
      row := rows[aliases[0]];
      for i := 1 to |aliases|
        invariant exists k :: k in aliases && rows[k] == row
        invariant forall j :: 0 <= j < i ==> !StampLess(row.facts.last, rows[aliases[j]].facts.last)
      {
        if StampLess(row.facts.last, rows[aliases[i]].facts.last) {
          row := rows[aliases[i]];
        }
      }
    }

    method ReportOnAliases(e: Event, aliases: seq<RecipientHash>)
      requires Speaks(e) && IsAliasList(aliases) && !SomeBlocked(rows, aliases)
      modifies this
      ensures Framed(old(rows), aliases, rows)
      ensures exists status, facts :: ReportedOutcome(old(rows), aliases, e, status, facts, rows)
    {
      hide NewerEvent, StampLess, HoldsOut, Decides, NewsRow, Reported, Speaks, SomeBlocked, IsTerminal;
      NotBlocked(rows, aliases);
      ghost var before := rows;
      UpdateEachAlias(e, aliases);
      ghost var middle := rows;
      if |aliases| < 2 {
        SingleNews(before, aliases, e, middle);
        return;
      }
      var authoritative := FindAuthoritative(aliases);
      NewsDecision(before, middle, aliases, e, authoritative);
      rows := map k | k in rows :: if k in aliases then rows[k].(status := authoritative.status, facts := authoritative.facts) else rows[k];
      assert ReportedOutcome(before, aliases, e, authoritative.status, authoritative.facts, rows);
    }

    method UpdateEachAlias(e: Event, aliases: seq<RecipientHash>)
      requires Speaks(e) && IsAliasList(aliases) && forall k :: k in aliases && k in rows ==> !IsBlocked(rows[k].status)
      modifies this
      ensures Framed(old(rows), aliases, rows)
      ensures forall k :: k in aliases ==> k in rows && rows[k] == NewsRow(old(rows), k, e)
    {
      hide NewerEvent, FactsOf;
      ghost var before := rows;
      for i := 0 to |aliases|
        invariant forall k :: k in aliases[..i] ==> k in rows && rows[k] == NewsRow(before, k, e)
        invariant forall k :: k !in aliases[..i] ==> (k in before <==> k in rows) && (k in before ==> rows[k] == before[k])
      {
        var k := aliases[i];
        UpdateNonterminalDestination(k, e);
        assert forall x :: x in aliases[..i + 1] <==> x in aliases[..i] || x == k;
      }
      assert aliases[..|aliases|] == aliases;
    }

    method UpdateNonterminalDestination(k: RecipientHash, e: Event)
      requires Speaks(e) && (k in rows ==> !IsBlocked(rows[k].status))
      modifies this
      ensures rows == old(rows)[k := NewsRow(old(rows), k, e)]
    {
      if k !in rows {
        rows := rows[k := Destination(NextStatus(e), FactsOf(e), None, 0)];
      }
      if !IsBlocked(rows[k].status) && NewerEvent(rows[k].facts.last, RevisionOf(e)) {
        rows := rows[k := rows[k].(status := NextStatus(e), facts := FactsOf(e))];
      }
    }
  }
}
