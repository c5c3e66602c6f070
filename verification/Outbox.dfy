/** The outbox publisher: claim, send, delete, back off
    (apps/conversion-api/src/app/outbox/outbox-publisher.service.ts). */
module Outbox {
  import opened Admission

  const CLAIM_BATCH_SIZE := 10
  const BACKOFF_STEP_MS := 5_000
  const BACKOFF_LIMIT_MS := 900_000

  function Power(n: nat): nat {
    if n == 0 then 1 else 2 * Power(n - 1)
  }

  /** Five seconds, doubled with every failed attempt up to the tenth, and at most fifteen minutes. */
  function Backoff(attempts: nat): nat {
    var delay := Power(if attempts < 10 then attempts else 10) * BACKOFF_STEP_MS;
    if delay < BACKOFF_LIMIT_MS then delay else BACKOFF_LIMIT_MS
  }

  lemma {:induction false} PowerGrows(m: nat, n: nat)
    requires m <= n
    ensures 1 <= Power(m) <= Power(n)
  {
    if m < n {
      PowerGrows(m, n - 1);
    } else if n > 0 {
      PowerGrows(n - 1, n - 1);
    }
  }

  /** The delay never shrinks, starts at five seconds and has reached its limit after eight failures. */
  lemma BackoffGrows(m: nat, n: nat)
    requires m <= n
    ensures BACKOFF_STEP_MS <= Backoff(m) <= Backoff(n) <= BACKOFF_LIMIT_MS
    ensures Backoff(0) == BACKOFF_STEP_MS && (m >= 8 ==> Backoff(m) == BACKOFF_LIMIT_MS)
  {
    PowerGrows(if m < 10 then m else 10, if n < 10 then n else 10);
    if m >= 8 {
      PowerGrows(8, if m < 10 then m else 10);
      assert Power(8) == 256 by { assert Power(4) == 16; }
    }
  }

  /** It doubles from five seconds until it reaches fifteen minutes. */
  lemma BackoffDoubles(n: nat)
    ensures Backoff(0) == 5_000
    ensures Backoff(n + 1) == if 2 * Backoff(n) < 900_000 then 2 * Backoff(n) else 900_000
  {
    if n >= 8 {
      BackoffGrows(8, n);
      BackoffGrows(8, n + 1);
    }
  }

  predicate DistinctRows(rows: seq<OutboxRow>) {
    forall i, j :: 0 <= i < j < |rows| ==> rows[i].id != rows[j].id
  }

  /** What the claiming query may return: up to ten distinct rows that are due, earliest first, some
      perhaps skipped because another instance has them locked. */
  ghost predicate IsClaim(rows: seq<OutboxRow>, claimed: seq<OutboxRow>, now: int) {
    && |claimed| <= CLAIM_BATCH_SIZE && DistinctRows(claimed)
    && (forall row :: row in claimed ==> row in rows && row.nextAttemptAt <= now)
    && (forall i, j :: 0 <= i < j < |claimed| ==> claimed[i].nextAttemptAt <= claimed[j].nextAttemptAt)
  }

  function Postpone(row: OutboxRow, now: int): OutboxRow {
    row.(attempts := row.attempts + 1, nextAttemptAt := now + Backoff(row.attempts))
  }

  function Without(rows: seq<OutboxRow>, delivered: set<nat>): seq<OutboxRow> {
    if rows == [] then []
    else Without(rows[..|rows| - 1], delivered) + if rows[|rows| - 1].id in delivered then [] else [rows[|rows| - 1]]
  }

  function PostponeAll(rows: seq<OutboxRow>, failed: set<nat>, now: int): seq<OutboxRow> {
    seq(|rows|, i requires 0 <= i < |rows| => if rows[i].id in failed then Postpone(rows[i], now) else rows[i])
  }

  function AfterRound(rows: seq<OutboxRow>, delivered: set<nat>, failed: set<nat>, now: int): seq<OutboxRow> {
    PostponeAll(Without(rows, delivered), failed, now)
  }

  /** The rows that a round sends, by outcome; a round may stop before the last claimed row. */
  function IdsWith(claimed: seq<OutboxRow>, sends: seq<bool>, outcome: bool): (ids: set<nat>)
    requires |sends| <= |claimed|
    ensures forall i :: 0 <= i < |sends| && sends[i] == outcome ==> claimed[i].id in ids
    ensures forall id :: id in ids ==> exists i :: 0 <= i < |sends| && sends[i] == outcome && claimed[i].id == id
  {
    set i | 0 <= i < |sends| && sends[i] == outcome :: claimed[i].id
  }

  /** What one turn of the draining loop meets: the rows claimed, how each send went, the clock, and
      whether the transaction committed. */
  datatype Round = Round(claimed: seq<OutboxRow>, sends: seq<bool>, now: int, committed: bool)

  predicate IsRound(r: Round) {
    |r.sends| <= |r.claimed|
  }

  /** The loop goes on only after a committed round that claimed a full batch. */
  predicate EndsDrain(r: Round) {
    !r.committed || |r.claimed| != CLAIM_BATCH_SIZE
  }

  function AfterRounds(rows: seq<OutboxRow>, rounds: seq<Round>): seq<OutboxRow>
    requires forall i :: 0 <= i < |rounds| ==> IsRound(rounds[i])
  {
    if rounds == [] then rows
    else
      var before, r := AfterRounds(rows, rounds[..|rounds| - 1]), rounds[|rounds| - 1];
      assert IsRound(r);
      if r.committed then AfterRound(before, IdsWith(r.claimed, r.sends, true), IdsWith(r.claimed, r.sends, false), r.now) else before
  }

  class OutboxTable {
    var rows: seq<OutboxRow>

    constructor (rows: seq<OutboxRow>)
      ensures this.rows == rows
    {
      this.rows := rows;
    }

    /** One transaction: sends the claimed rows one by one until the deadline, then deletes what was
        delivered and postpones what failed. */
    method PublishRound(claimed: seq<OutboxRow>, sends: seq<bool>, now: int) returns (delivered: set<nat>, failed: set<nat>)
      requires |sends| <= |claimed|
      modifies this
      ensures delivered == IdsWith(claimed, sends, true) && failed == IdsWith(claimed, sends, false)
      ensures rows == AfterRound(old(rows), delivered, failed, now)
    {
      delivered, failed := {}, {};
      for i := 0 to |sends|
        invariant delivered == IdsWith(claimed, sends[..i], true) && failed == IdsWith(claimed, sends[..i], false)
      {
        if sends[i] {
          delivered := delivered + {claimed[i].id};
        } else {
          failed := failed + {claimed[i].id};
        }
      }
      assert sends[..|sends|] == sends;
      var kept: seq<OutboxRow> := [];
      for i := 0 to |rows|
        invariant kept == Without(rows[..i], delivered)
      {
        assert rows[..i + 1][..i] == rows[..i];
        if rows[i].id !in delivered {
          kept := kept + [rows[i]];
        }
      }
      assert rows[..|rows|] == rows;
      rows := PostponeAll(kept, failed, now);
    }

    /** Publishes rounds until one of them claims less than a full batch or fails. */
    method Drain(rounds: seq<Round>) returns (turns: nat)
      requires forall i :: 0 <= i < |rounds| ==> |rounds[i].sends| <= |rounds[i].claimed|
      requires rounds != [] && EndsDrain(rounds[|rounds| - 1])
      modifies this
      ensures 0 < turns <= |rounds| && (!rounds[turns - 1].committed || |rounds[turns - 1].claimed| != 10)
      ensures forall i :: 0 <= i < turns - 1 ==> rounds[i].committed && |rounds[i].claimed| == 10
      ensures rows == AfterRounds(old(rows), rounds[..turns])
    {
      turns := 0;
      var claimed := CLAIM_BATCH_SIZE;
      while claimed == CLAIM_BATCH_SIZE
        invariant turns <= |rounds|
        invariant forall i :: 0 <= i < turns - 1 ==> !EndsDrain(rounds[i])
        invariant turns > 0 ==> (EndsDrain(rounds[turns - 1]) <==> claimed != CLAIM_BATCH_SIZE)
        invariant turns == 0 ==> claimed == CLAIM_BATCH_SIZE
        invariant rows == AfterRounds(old(rows), rounds[..turns])
        decreases |rounds| - turns
      {
        var r := rounds[turns];
        assert rounds[..turns + 1][..turns] == rounds[..turns];
        turns := turns + 1;
        if !r.committed {
          return;
        }
        var delivered, failed := PublishRound(r.claimed, r.sends, r.now);
        claimed := |r.claimed|;
      }
    }
  }

  lemma {:induction false} WithoutMembers(rows: seq<OutboxRow>, delivered: set<nat>, row: OutboxRow)
    ensures row in Without(rows, delivered) <==> row in rows && row.id !in delivered
  {
    if rows != [] {
      assert rows == rows[..|rows| - 1] + [rows[|rows| - 1]];
      WithoutMembers(rows[..|rows| - 1], delivered, row);
    }
  }

  lemma {:induction false} WithoutKeepsDistinct(rows: seq<OutboxRow>, delivered: set<nat>)
    requires DistinctRows(rows)
    ensures DistinctRows(Without(rows, delivered))
  {
    if rows != [] {
      var front, last := rows[..|rows| - 1], rows[|rows| - 1];
      WithoutKeepsDistinct(front, delivered);
      forall row | row in Without(front, delivered)
        ensures row.id != last.id
      {
        WithoutMembers(front, delivered, row);
      }
    }
  }

  /** A row leaves the outbox only by being delivered; otherwise it stays, at most postponed. */
  lemma RoundKeeps(rows: seq<OutboxRow>, delivered: set<nat>, failed: set<nat>, now: int, row: OutboxRow)
    requires row in rows && row.id !in delivered
    ensures (if row.id in failed then row.(attempts := row.attempts + 1, nextAttemptAt := now + Backoff(row.attempts)) else row)
      in AfterRound(rows, delivered, failed, now)
  {
    hide Backoff;
    var kept, after := Without(rows, delivered), AfterRound(rows, delivered, failed, now);
    WithoutMembers(rows, delivered, row);
    var i :| 0 <= i < |kept| && kept[i] == row;
    assert after[i] in after;
  }

  /** Only the attempts and the time of the next one differ. */
  predicate SameRequest(row: OutboxRow, row': OutboxRow) {
    row' == row.(attempts := row'.attempts, nextAttemptAt := row'.nextAttemptAt)
  }

  /** Nothing else is in the outbox afterwards, and every row still asks for the same conversion. */
  lemma RoundAddsNothing(rows: seq<OutboxRow>, delivered: set<nat>, failed: set<nat>, now: int, row: OutboxRow)
    requires row in AfterRound(rows, delivered, failed, now)
    ensures row.id !in delivered
    ensures exists r :: r in rows && SameRequest(r, row)
                        && (if row.id in failed
                            then row.attempts == r.attempts + 1 && row.nextAttemptAt == now + Backoff(r.attempts)
                            else row == r)
  {
    hide Backoff;
    var kept, after := Without(rows, delivered), AfterRound(rows, delivered, failed, now);
    var i :| 0 <= i < |after| && after[i] == row;
    WithoutMembers(rows, delivered, kept[i]);
    assert SameRequest(kept[i], row);
  }

  lemma RoundKeepsDistinct(rows: seq<OutboxRow>, delivered: set<nat>, failed: set<nat>, now: int)
    requires DistinctRows(rows)
    ensures DistinctRows(AfterRound(rows, delivered, failed, now))
  {
    hide Backoff;
    var kept, after := Without(rows, delivered), AfterRound(rows, delivered, failed, now);
    WithoutKeepsDistinct(rows, delivered);
    assert forall i :: 0 <= i < |after| ==> after[i].id == kept[i].id;
  }
}
