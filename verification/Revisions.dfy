/** The order of provider events
    (apps/notifications/src/app/feedback/ses-feedback-transitions.ts).

    A fingerprint is a SHA-256 value in 64 lower-case hexadecimal digits; strings of that shape sort
    like the numbers they spell, so a fingerprint is a number here. */
module Revisions {
  import opened Prelude

  datatype Revision = Revision(occurredAt: int, rank: int, fingerprint: nat)

  /** The three nullable last-event columns of a row. */
  datatype Stamp = Stamp(at: Option<int>, rank: Option<int>, fingerprint: Option<nat>)

  const NO_STAMP := Stamp(None, None, None)

  function StampOf(r: Revision): Stamp {
    Stamp(Some(r.occurredAt), Some(r.rank), Some(r.fingerprint))
  }

  /** The six alternatives of the guard with which an event overwrites a row. */
  predicate NewerEvent(row: Stamp, r: Revision) {
    || row.at == None
    || (row.at.Some? && row.at.value < r.occurredAt)
    || (row.at == Some(r.occurredAt) && row.rank == None)
    || (row.at == Some(r.occurredAt) && row.rank.Some? && row.rank.value < r.rank)
    || (row.at == Some(r.occurredAt) && row.rank == Some(r.rank) && row.fingerprint == None)
    || (row.at == Some(r.occurredAt) && row.rank == Some(r.rank) && row.fingerprint.Some? && row.fingerprint.value < r.fingerprint)
  }

  /** Descending with nulls last means that a null comes before every value in this order. */
  predicate NullableLess(a: Option<int>, b: Option<int>) {
    b.Some? && (a.None? || a.value < b.value)
  }

  /** The order of the query for the authoritative row. */
  predicate StampLess(a: Stamp, b: Stamp) {
    || NullableLess(a.at, b.at)
    || (a.at == b.at && NullableLess(a.rank, b.rank))
    || (a.at == b.at && a.rank == b.rank && NullableLess(a.fingerprint, b.fingerprint))
  }

  predicate Before(a: Revision, b: Revision) {
    || a.occurredAt < b.occurredAt
    || (a.occurredAt == b.occurredAt && a.rank < b.rank)
    || (a.occurredAt == b.occurredAt && a.rank == b.rank && a.fingerprint < b.fingerprint)
  }

  /** The update guard and the query order are one order: a guard passes exactly when the row's
      stamp precedes the event's, whichever columns are null. */
  lemma GuardIsOrder(row: Stamp, r: Revision)
    ensures NewerEvent(row, r) <==> StampLess(row, StampOf(r))
  {
  }

  lemma RevisionOrder(a: Revision, b: Revision, c: Revision)
    ensures NewerEvent(StampOf(a), b) <==> Before(a, b)
    ensures Before(a, b) || a == b || Before(b, a)
    ensures !(Before(a, b) && Before(b, a)) && !Before(a, a)
    ensures Before(a, b) && Before(b, c) ==> Before(a, c)
  {
  }
}
