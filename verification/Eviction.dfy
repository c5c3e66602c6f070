/** Which files an admission evicts, and that it evicts no more than it must
    (apps/conversion-api/src/app/admission/admission.service.ts). */
module Eviction {
  import opened Prelude
  import opened Conversions
  import opened BatchRollup
  import opened Admission

  function EvictableBytes(owned: set<nat>, now: int): FileRow -> nat {
    (f: FileRow) => if Evictable(f, owned, now) then Output(f) else 0
  }

  lemma {:induction false} InsertKeepsDistinct(files: Files, f: FileRow, before: (FileRow, FileRow) -> bool)
    requires DistinctIds(files) && forall g :: g in files ==> g.id != f.id
    ensures DistinctIds(Insert(files, f, before))
    ensures forall g :: g in Insert(files, f, before) <==> g in files || g == f
  {
    if files != [] && !before(files[|files| - 1], f) {
      var front, last := files[..|files| - 1], files[|files| - 1];
      assert files == front + [last];
      InsertKeepsDistinct(front, f, before);
      var rest := Insert(front, f, before);
      forall i | 0 <= i < |rest|
        ensures rest[i].id != last.id
      {
        assert rest[i] in rest;
        assert last in files;
      }
    }
  }

  lemma {:induction false} SortKeepsDistinct(files: Files, before: (FileRow, FileRow) -> bool)
    requires DistinctIds(files)
    ensures DistinctIds(Sort(files, before))
    ensures forall g :: g in Sort(files, before) <==> g in files
  {
    if files != [] {
      var front, last := files[..|files| - 1], files[|files| - 1];
      assert files == front + [last];
      SortKeepsDistinct(front, before);
      InsertKeepsDistinct(Sort(front, before), last, before);
    }
  }

  /** The candidates are exactly the evictable files, in the order of expiry and identifier. */
  lemma CandidatesInOrder(files: Files, owned: set<nat>, now: int)
    requires DistinctIds(files)
    ensures Sorted(Candidates(files, owned, now), ByExpiry) && DistinctIds(Candidates(files, owned, now))
    ensures forall f :: f in Candidates(files, owned, now) <==> f in files && Evictable(f, owned, now)
    ensures Total(Candidates(files, owned, now), Output) == Total(files, EvictableBytes(owned, now))
  {
    var p := (f: FileRow) => Evictable(f, owned, now);
    OrdersOfRows();
    FilterKeepsDistinct(files, p);
    SortKeepsDistinct(Filter(files, p), ByExpiry);
    SortSorts(Filter(files, p), ByExpiry);
    SortTotal(Filter(files, p), ByExpiry, Output);
    TotalFilter(files, p, Output, EvictableBytes(owned, now));
    forall f
      ensures f in Candidates(files, owned, now) <==> f in files && Evictable(f, owned, now)
    {
      FilterMembers(files, p, f);
    }
  }

  lemma {:induction false} PrefixTotal(files: Files, k: nat, m: FileRow -> nat)
    requires k <= |files|
    ensures Total(files[..k], m) <= Total(files, m)
  {
    TotalAppend(files[..k], files[k..], m);
    assert files == files[..k] + files[k..];
  }

  lemma {:induction false} CutIsLeast(candidates: Files, deficit: int, k: nat)
    requires k <= |candidates| && forall j :: 0 <= j < k ==> Total(candidates[..j], Output) < deficit
    ensures var cut := Cut(candidates, deficit, k);
      && (forall j :: 0 <= j < cut ==> Total(candidates[..j], Output) < deficit)
      && (Total(candidates[..cut], Output) >= deficit <==> Total(candidates, Output) >= deficit)
    decreases |candidates| - k
  {
    if k == |candidates| {
      assert candidates[..k] == candidates;
    } else if Total(candidates[..k], Output) >= deficit {
      PrefixTotal(candidates, k, Output);
    } else {
      CutIsLeast(candidates, deficit, k + 1);
    }
  }

  /** The loop that picks the files to evict; `remaining` is the deficit it could not cover. */
  method EvictUntilCovered(candidates: Files, deficit: int) returns (evicted: Files, remaining: int)
    requires deficit > 0
    ensures evicted == candidates[..Cut(candidates, deficit, 0)]
    ensures remaining == deficit - Total(evicted, Output)
  {
    evicted, remaining := [], deficit;
    var i := 0;
    while i < |candidates|
      invariant i <= |candidates| && evicted == candidates[..i]
      invariant remaining == deficit - Total(candidates[..i], Output)
      invariant Cut(candidates, deficit, 0) == Cut(candidates, deficit, i)
    {
      if remaining <= 0 {
        return;
      }
      assert candidates[..i + 1][..i] == candidates[..i];
      evicted := evicted + [candidates[i]];
      remaining := remaining - Output(candidates[i]);
      i := i + 1;
    }
  }

  // ----- what eviction frees -----

  function Chosen(rows: Files): FileRow -> nat {
    (f: FileRow) => if Listed(rows, f) then Output(f) else 0
  }

  function Only(row: FileRow): FileRow -> nat {
    (f: FileRow) => if f.id == row.id then Output(row) else 0
  }

  lemma {:induction false} OnlyTotal(files: Files, row: FileRow)
    requires DistinctIds(files) && row in files
    ensures Total(files, Only(row)) == Output(row)
  {
    var front, last := files[..|files| - 1], files[|files| - 1];
    assert files == front + [last];
    if last == row {
      TotalZero(front, Only(row));
    } else {
      assert last.id != row.id;
      OnlyTotal(front, row);
    }
  }

  lemma SameRow(files: Files, f: FileRow, g: FileRow)
    requires DistinctIds(files) && f in files && g in files
    ensures f.id == g.id ==> f == g
  {
  }

  lemma {:induction false} ChosenTotal(files: Files, rows: Files)
    requires DistinctIds(files) && DistinctIds(rows) && forall r :: r in rows ==> r in files
    ensures Total(files, Chosen(rows)) == Total(rows, Output)
  {
    if rows == [] {
      TotalZero(files, Chosen(rows));
    } else {
      var front, last := rows[..|rows| - 1], rows[|rows| - 1];
      assert rows == front + [last];
      ChosenTotal(files, front);
      OnlyTotal(files, last);
      forall i | 0 <= i < |files|
        ensures Chosen(rows)(files[i]) == Chosen(front)(files[i]) + Only(last)(files[i])
      {
        SameRow(files, files[i], last);
        if Listed(front, files[i]) {
          var g :| g in front && g.id == files[i].id;
          assert g in rows;
        }
      }
      TotalSum(files, Chosen(front), Only(last), Chosen(rows));
    }
  }

  /** Expiring rows that were counted frees exactly their output bytes. */
  lemma EvictionFrees(files: Files, rows: Files, owned: set<nat>, now: int)
    requires DistinctIds(files) && DistinctIds(rows)
    requires forall r :: r in rows ==> r in files && Evictable(r, owned, now)
    ensures StorageUsed(ExpireRows(files, rows, now), owned, now) == StorageUsed(files, owned, now) - Total(rows, Output)
  {
    var after := ExpireRows(files, rows, now);
    var rest := (f: FileRow) => if Listed(rows, f) then 0 else UsedBytes(f, owned, now);
    forall i | 0 <= i < |files|
      ensures Used(owned, now)(after[i]) == rest(files[i])
      ensures Used(owned, now)(files[i]) == rest(files[i]) + Chosen(rows)(files[i])
    {
      if Listed(rows, files[i]) {
        var r :| r in rows && r.id == files[i].id;
        SameRow(files, files[i], r);
      }
    }
    TotalEqual(after, files, Used(owned, now), rest);
    TotalSum(files, rest, Chosen(rows), Used(owned, now));
    ChosenTotal(files, rows);
  }

  // ----- eviction is exact -----

  /** The storage check fails exactly when evicting everything evictable would not be enough. */
  lemma EvictionFailsExactly(db: Db, subject: nat, claimed: Files, cap: int, now: int)
    requires DistinctIds(db.files)
    ensures var owned := OwnedBy(db.batches, subject);
      MakeRoom(db, subject, claimed, Some(cap), now) == Err(StorageLimitExceeded) <==>
        StorageUsed(db.files, owned, now) + Total(claimed, Input) - Total(db.files, EvictableBytes(owned, now)) > cap
  {
    var owned := OwnedBy(db.batches, subject);
    var deficit := Deficit(db, subject, claimed, cap, now);
    CandidatesInOrder(db.files, owned, now);
    CutIsLeast(Candidates(db.files, owned, now), deficit, 0);
  }

  /** The evicted files: a prefix of the candidates, and no shorter one covers the deficit. */
  ghost predicate ShortestPrefix(candidates: Files, evicted: Files, deficit: int) {
    && evicted <= candidates
    && Total(evicted, Output) >= deficit
    && forall j :: 0 <= j < |evicted| ==> Total(candidates[..j], Output) < deficit
  }

  lemma NothingEvicted(db: Db, now: int)
    ensures ExpireRows(db.files, [], now) == db.files
    ensures RollTouched(db.files, db.batches, []) == db.batches
  {
  }

  /** Otherwise it evicts the shortest prefix of the (expiry, identifier) order that is enough. */
  lemma EvictionIsShortest(db: Db, subject: nat, claimed: Files, cap: int, now: int) returns (evicted: Files)
    requires DistinctIds(db.files) && MakeRoom(db, subject, claimed, Some(cap), now).Ok?
    ensures var owned := OwnedBy(db.batches, subject);
      var after := MakeRoom(db, subject, claimed, Some(cap), now).value;
      && ShortestPrefix(Candidates(db.files, owned, now), evicted, Deficit(db, subject, claimed, cap, now))
      && after == db.(files := ExpireRows(db.files, evicted, now),
                      batches := RollTouched(ExpireRows(db.files, evicted, now), db.batches, evicted))
      && StorageUsed(after.files, owned, now) + Total(claimed, Input) <= cap
      && DistinctIds(evicted) && (forall r :: r in evicted ==> r in db.files && Evictable(r, owned, now))
  {
    var owned := OwnedBy(db.batches, subject);
    var deficit := Deficit(db, subject, claimed, cap, now);
    var candidates := Candidates(db.files, owned, now);
    CandidatesInOrder(db.files, owned, now);
    if deficit <= 0 {
      evicted := [];
      NothingEvicted(db, now);
    } else {
      evicted := Evicted(db.files, owned, now, deficit);
      CutIsLeast(candidates, deficit, 0);
      forall j | 0 <= j < |evicted|
        ensures Total(candidates[..j], Output) < deficit
      {
      }
      EvictionFrees(db.files, evicted, owned, now);
    }
  }
}
