/** The tables of the conversion service and sums over them
    (apps/conversion-api/prisma/schema.prisma and
    apps/conversion-api/src/app/admission/admission.service.ts). */
module Conversions {
  import opened Prelude

  datatype FileStatus = Uploading | Ready | Queued | Processing | Completed | Failed | Cancelled | Expired

  datatype BatchStatus =
    | BatchUploading | BatchQueued | BatchProcessing
    | BatchCompleted | BatchPartial | BatchFailed | BatchCancelled | BatchExpired

  datatype FileRow = FileRow(
    id: nat,
    batchId: nat,
    status: FileStatus,
    inputBytes: Option<nat>,
    inputEtag: Option<nat>,
    outputBytes: Option<nat>,
    attempt: int,
    expiresAt: int)

  /** `options` stands for the mode and strength of the conversion. */
  datatype BatchRow = BatchRow(
    subject: nat,
    tokenHash: Option<nat>,
    idempotencyKey: nat,
    fileCount: nat,
    options: nat,
    status: BatchStatus,
    expiresAt: int)

  type Files = seq<FileRow>

  type Batches = map<nat, BatchRow>

  predicate DistinctIds(files: Files) {
    forall i, j :: 0 <= i < j < |files| ==> files[i].id != files[j].id
  }

  // ----- filters and sums -----

  function Filter(files: Files, p: FileRow -> bool): Files {
    if files == [] then []
    else Filter(files[..|files| - 1], p) + if p(files[|files| - 1]) then [files[|files| - 1]] else []
  }

  function Total(files: Files, m: FileRow -> nat): nat {
    if files == [] then 0 else Total(files[..|files| - 1], m) + m(files[|files| - 1])
  }

  lemma {:induction false} FilterMembers(files: Files, p: FileRow -> bool, f: FileRow)
    ensures f in Filter(files, p) <==> f in files && p(f)
  {
    if files != [] {
      FilterMembers(files[..|files| - 1], p, f);
      assert files == files[..|files| - 1] + [files[|files| - 1]];
    }
  }

  lemma {:induction false} FilterKeepsDistinct(files: Files, p: FileRow -> bool)
    requires DistinctIds(files)
    ensures DistinctIds(Filter(files, p))
  {
    if files != [] {
      var front, last := files[..|files| - 1], files[|files| - 1];
      FilterKeepsDistinct(front, p);
      forall f | f in Filter(front, p)
        ensures f.id != last.id
      {
        FilterMembers(front, p, f);
      }
    }
  }

  lemma {:induction false} TotalMonotone(a: Files, b: Files, m: FileRow -> nat, k: FileRow -> nat)
    requires |a| == |b| && forall i :: 0 <= i < |a| ==> m(a[i]) <= k(b[i])
    ensures Total(a, m) <= Total(b, k)
  {
    if a != [] {
      TotalMonotone(a[..|a| - 1], b[..|b| - 1], m, k);
    }
  }

  lemma TotalEqual(a: Files, b: Files, m: FileRow -> nat, k: FileRow -> nat)
    requires |a| == |b| && forall i :: 0 <= i < |a| ==> m(a[i]) == k(b[i])
    ensures Total(a, m) == Total(b, k)
  {
    TotalMonotone(a, b, m, k);
    TotalMonotone(b, a, k, m);
  }

  lemma {:induction false} TotalZero(files: Files, m: FileRow -> nat)
    requires forall i :: 0 <= i < |files| ==> m(files[i]) == 0
    ensures Total(files, m) == 0
  {
    if files != [] {
      TotalZero(files[..|files| - 1], m);
    }
  }

  lemma {:induction false} TotalAppend(a: Files, b: Files, m: FileRow -> nat)
    ensures Total(a + b, m) == Total(a, m) + Total(b, m)
  {
    if b == [] {
      assert a + b == a;
    } else {
      assert (a + b)[..|a + b| - 1] == a + b[..|b| - 1];
      TotalAppend(a, b[..|b| - 1], m);
    }
  }

  /** A sum may be split into two. */
  lemma {:induction false} TotalSum(files: Files, m: FileRow -> nat, k: FileRow -> nat, sum: FileRow -> nat)
    requires forall i :: 0 <= i < |files| ==> sum(files[i]) == m(files[i]) + k(files[i])
    ensures Total(files, sum) == Total(files, m) + Total(files, k)
  {
    if files != [] {
      TotalSum(files[..|files| - 1], m, k, sum);
    }
  }

  lemma {:induction false} TotalBound(a: Files, b: Files, c: Files, m: FileRow -> nat, k: FileRow -> nat, l: FileRow -> nat)
    requires |a| == |b| == |c| && forall i :: 0 <= i < |a| ==> m(a[i]) <= k(b[i]) + l(c[i])
    ensures Total(a, m) <= Total(b, k) + Total(c, l)
  {
    if a != [] {
      TotalBound(a[..|a| - 1], b[..|b| - 1], c[..|c| - 1], m, k, l);
    }
  }

  /** Changing one row changes a sum by the difference of that row. */
  lemma {:induction false} TotalOneRow(files: Files, k: nat, f: FileRow, m: FileRow -> nat)
    requires k < |files|
    ensures Total(files[k := f], m) == Total(files, m) - m(files[k]) + m(f)
  {
    var front, last := files[..|files| - 1], files[|files| - 1];
    if k == |files| - 1 {
      assert files[k := f][..|files| - 1] == front;
    } else {
      assert files[k := f][..|files| - 1] == front[k := f];
      TotalOneRow(front, k, f, m);
    }
  }

  /** Summing the rows that pass a filter is summing all with the others counted as zero. */
  lemma {:induction false} TotalFilter(files: Files, p: FileRow -> bool, m: FileRow -> nat, k: FileRow -> nat)
    requires forall i :: 0 <= i < |files| ==> k(files[i]) == if p(files[i]) then m(files[i]) else 0
    ensures Total(Filter(files, p), m) == Total(files, k)
  {
    if files != [] {
      var front, last := files[..|files| - 1], files[|files| - 1];
      TotalFilter(front, p, m, k);
      TotalAppend(Filter(front, p), if p(last) then [last] else [], m);
      assert Total([last], m) == Total([], m) + m(last) by { assert [last][..0] == []; }
    }
  }

  // ----- the order of rows -----

  predicate ById(a: FileRow, b: FileRow) {
    a.id <= b.id
  }

  predicate ByExpiry(a: FileRow, b: FileRow) {
    a.expiresAt < b.expiresAt || (a.expiresAt == b.expiresAt && a.id <= b.id)
  }

  function Insert(files: Files, f: FileRow, before: (FileRow, FileRow) -> bool): Files {
    if files == [] then [f]
    else if before(files[|files| - 1], f) then files + [f]
    else Insert(files[..|files| - 1], f, before) + [files[|files| - 1]]
  }

  function Sort(files: Files, before: (FileRow, FileRow) -> bool): Files {
    if files == [] then [] else Insert(Sort(files[..|files| - 1], before), files[|files| - 1], before)
  }

  ghost predicate IsOrder(before: (FileRow, FileRow) -> bool) {
    && (forall a, b :: before(a, b) || before(b, a))
    && (forall a, b, c :: before(a, b) && before(b, c) ==> before(a, c))
  }

  ghost predicate Sorted(files: Files, before: (FileRow, FileRow) -> bool) {
    forall i, j :: 0 <= i < j < |files| ==> before(files[i], files[j])
  }

  lemma Chained(before: (FileRow, FileRow) -> bool, a: FileRow, b: FileRow, c: FileRow)
    requires IsOrder(before)
    ensures before(a, b) || before(b, a)
    ensures before(a, b) && before(b, c) ==> before(a, c)
  {
  }

  lemma AppendSorted(files: Files, f: FileRow, before: (FileRow, FileRow) -> bool)
    requires Sorted(files, before) && forall i :: 0 <= i < |files| ==> before(files[i], f)
    ensures Sorted(files + [f], before)
  {
  }

  lemma {:induction false} InsertSorts(files: Files, f: FileRow, before: (FileRow, FileRow) -> bool)
    requires IsOrder(before) && Sorted(files, before)
    ensures Sorted(Insert(files, f, before), before)
    ensures multiset(Insert(files, f, before)) == multiset(files) + multiset{f}
  {
    hide IsOrder;
    if files != [] {
      var front, last := files[..|files| - 1], files[|files| - 1];
      assert files == front + [last];
      Chained(before, last, f, f);
      if before(last, f) {
        forall i | 0 <= i < |files|
          ensures before(files[i], f)
        {
          Chained(before, files[i], last, f);
        }
        AppendSorted(files, f, before);
      } else {
        InsertSorts(front, f, before);
        var rest := Insert(front, f, before);
        forall i | 0 <= i < |rest|
          ensures before(rest[i], last)
        {
          assert rest[i] in multiset(front) + multiset{f};
          assert rest[i] == f || rest[i] in front;
        }
        AppendSorted(rest, last, before);
      }
    }
  }

  lemma {:induction false} SortSorts(files: Files, before: (FileRow, FileRow) -> bool)
    requires IsOrder(before)
    ensures Sorted(Sort(files, before), before) && multiset(Sort(files, before)) == multiset(files)
  {
    if files != [] {
      assert files == files[..|files| - 1] + [files[|files| - 1]];
      SortSorts(files[..|files| - 1], before);
      InsertSorts(Sort(files[..|files| - 1], before), files[|files| - 1], before);
    }
  }

  lemma {:induction false} InsertTotal(files: Files, f: FileRow, before: (FileRow, FileRow) -> bool, m: FileRow -> nat)
    ensures Total(Insert(files, f, before), m) == Total(files, m) + m(f)
  {
    if files != [] && !before(files[|files| - 1], f) {
      var rest := Insert(files[..|files| - 1], f, before);
      InsertTotal(files[..|files| - 1], f, before, m);
      assert (rest + [files[|files| - 1]])[..|rest|] == rest;
    } else {
      assert (files + [f])[..|files|] == files && [f][..0] == [];
    }
  }

  /** Sorting changes no sum. */
  lemma {:induction false} SortTotal(files: Files, before: (FileRow, FileRow) -> bool, m: FileRow -> nat)
    ensures Total(Sort(files, before), m) == Total(files, m)
  {
    if files != [] {
      SortTotal(files[..|files| - 1], before, m);
      InsertTotal(Sort(files[..|files| - 1], before), files[|files| - 1], before, m);
    }
  }

  lemma OrdersOfRows()
    ensures IsOrder(ById) && IsOrder(ByExpiry)
  {
  }
}
