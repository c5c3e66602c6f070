/** The walk that recognises an AVIF file without metadata items
    (apps/conversion-worker/src/app/pipeline/image-compressor.service.ts), over the boxes of
    ISO/IEC 14496-12, section 4.2.

    As in the source, an `iinf` child is bounded by the file and not by its `meta` box, and its
    version byte is read even where the child has no payload. */
module AvifWalk {
  import opened Bytes

  const ISOBMFF_FULL_BOX_HEADER := 12
  const BOX_HEADER := 8
  const FTYP: Buffer := [0x66, 0x74, 0x79, 0x70]
  const META: Buffer := [0x6d, 0x65, 0x74, 0x61]
  const MDAT: Buffer := [0x6d, 0x64, 0x61, 0x74]
  const FREE: Buffer := [0x66, 0x72, 0x65, 0x65]
  const SKIP: Buffer := [0x73, 0x6b, 0x69, 0x70]
  const IINF: Buffer := [0x69, 0x69, 0x6e, 0x66]
  const INFE: Buffer := [0x69, 0x6e, 0x66, 0x65]
  const AV01: Buffer := [0x61, 0x76, 0x30, 0x31]
  const GRID: Buffer := [0x67, 0x72, 0x69, 0x64]

  predicate CleanBox(t: Buffer) {
    t == FTYP || t == META || t == MDAT || t == FREE || t == SKIP
  }

  predicate CleanItem(t: Buffer) {
    t == AV01 || t == GRID
  }

  function Min(a: nat, b: nat): nat {
    if a <= b then a else b
  }

  /** The size field of the box at `at`; 0 where the file ends before it. */
  function SizeAt(x: Buffer, at: nat): nat {
    if at + 4 <= |x| then ReadU32BE(x, at) else 0
  }

  function TypeAt(x: Buffer, at: nat): Buffer {
    Subarray(x, at + 4, at + 8)
  }

  function ByteIs(x: Buffer, at: nat, b: Byte): bool {
    at < |x| && x[at] == b
  }

  function ItemTypeAt(x: Buffer, entry: nat): Buffer {
    var typeAt := entry + ISOBMFF_FULL_BOX_HEADER + (if ByteIs(x, entry + 8, 2) then 2 else 4) + 2;
    Subarray(x, typeAt, typeAt + 4)
  }

  function FirstEntry(x: Buffer, iinf: nat): nat {
    iinf + ISOBMFF_FULL_BOX_HEADER + if ByteIs(x, iinf + 8, 0) then 2 else 4
  }

  function BoxEnd(x: Buffer, box: nat): nat {
    Min(box + SizeAt(x, box), |x|)
  }

  // ----- what the three nested loops ask of the file -----

  predicate EntryOk(x: Buffer, entry: nat) {
    TypeAt(x, entry) == INFE && SizeAt(x, entry) >= ISOBMFF_FULL_BOX_HEADER + 8
  }

  predicate EntriesFrom(x: Buffer, entry: nat, end: nat)
    decreases end - entry
  {
    entry + ISOBMFF_FULL_BOX_HEADER > end
    || (EntryOk(x, entry) && CleanItem(ItemTypeAt(x, entry)) && EntriesFrom(x, entry + SizeAt(x, entry), end))
  }

  predicate ChildOk(x: Buffer, child: nat) {
    && SizeAt(x, child) >= 8
    && (TypeAt(x, child) == IINF ==> EntriesFrom(x, FirstEntry(x, child), BoxEnd(x, child)))
  }

  predicate ChildrenFrom(x: Buffer, child: nat, end: nat)
    decreases end - child
  {
    child + BOX_HEADER > end || (ChildOk(x, child) && ChildrenFrom(x, child + SizeAt(x, child), end))
  }

  predicate BoxOk(x: Buffer, box: nat) {
    && SizeAt(x, box) >= 8
    && CleanBox(TypeAt(x, box))
    && (TypeAt(x, box) == META ==> ChildrenFrom(x, box + ISOBMFF_FULL_BOX_HEADER, BoxEnd(x, box)))
  }

  predicate BoxesFrom(x: Buffer, box: nat)
    decreases |x| - box
  {
    if box + BOX_HEADER > |x| then box == |x| else BoxOk(x, box) && BoxesFrom(x, box + SizeAt(x, box))
  }

  /** A child that lists items: an `iinf` with room for at least one entry. */
  predicate ListsItem(x: Buffer, child: nat) {
    TypeAt(x, child) == IINF && FirstEntry(x, child) + ISOBMFF_FULL_BOX_HEADER <= BoxEnd(x, child)
  }

  predicate SomeItemFrom(x: Buffer, child: nat, end: nat)
    decreases end - child
  {
    child + BOX_HEADER <= end && SizeAt(x, child) >= 8
    && (ListsItem(x, child) || SomeItemFrom(x, child + SizeAt(x, child), end))
  }

  predicate SomeItemInBoxes(x: Buffer, box: nat)
    decreases |x| - box
  {
    box + BOX_HEADER <= |x| && SizeAt(x, box) >= 8
    && ((TypeAt(x, box) == META && SomeItemFrom(x, box + ISOBMFF_FULL_BOX_HEADER, BoxEnd(x, box)))
        || SomeItemInBoxes(x, box + SizeAt(x, box)))
  }

  predicate AllClean(items: seq<Buffer>) {
    forall item :: item in items ==> CleanItem(item)
  }

  lemma AllCleanAppend(a: seq<Buffer>, b: seq<Buffer>)
    ensures AllClean(a + b) <==> AllClean(a) && AllClean(b)
  {
    assert forall item :: item in a || item in b <==> item in a + b;
  }

  lemma AllCleanOne(item: Buffer)
    ensures AllClean([item]) <==> CleanItem(item)
  {
    assert item in [item];
  }

  /** One turn of the middle loop. */
  lemma ChildCases(x: Buffer, child: nat, end: nat)
    ensures child + BOX_HEADER > end ==> ChildrenFrom(x, child, end) && !SomeItemFrom(x, child, end)
    ensures child + BOX_HEADER <= end ==>
      && (ChildrenFrom(x, child, end) <==> ChildOk(x, child) && ChildrenFrom(x, child + SizeAt(x, child), end))
      && (SomeItemFrom(x, child, end) <==>
           SizeAt(x, child) >= 8 && (ListsItem(x, child) || SomeItemFrom(x, child + SizeAt(x, child), end)))
  {
  }

  /** One turn of the inner loop. */
  lemma EntryCases(x: Buffer, entry: nat, end: nat)
    ensures entry + ISOBMFF_FULL_BOX_HEADER > end ==> EntriesFrom(x, entry, end)
    ensures entry + ISOBMFF_FULL_BOX_HEADER <= end ==>
      (EntriesFrom(x, entry, end) <==>
        EntryOk(x, entry) && CleanItem(ItemTypeAt(x, entry)) && EntriesFrom(x, entry + SizeAt(x, entry), end))
  {
  }

  /** One turn of the outer loop. */
  lemma BoxCases(x: Buffer, box: nat)
    ensures box + BOX_HEADER > |x| ==> (BoxesFrom(x, box) <==> box == |x|) && !SomeItemInBoxes(x, box)
    ensures box + BOX_HEADER <= |x| ==>
      && (BoxesFrom(x, box) <==> BoxOk(x, box) && BoxesFrom(x, box + SizeAt(x, box)))
      && (SomeItemInBoxes(x, box) <==>
           SizeAt(x, box) >= 8
           && ((TypeAt(x, box) == META && SomeItemFrom(x, box + ISOBMFF_FULL_BOX_HEADER, BoxEnd(x, box)))
               || SomeItemInBoxes(x, box + SizeAt(x, box))))
  {
    hide SizeAt, ChildrenFrom, SomeItemFrom;
  }

  /** The inner loop: the entries of an `iinf` child. */
  method WalkEntries(input: Buffer, child: nat) returns (complete: bool, items: seq<Buffer>)
    requires child + 8 <= |input|
    ensures complete && AllClean(items) <==> EntriesFrom(input, FirstEntry(input, child), BoxEnd(input, child))
    ensures complete ==>
      (items != [] <==> FirstEntry(input, child) + ISOBMFF_FULL_BOX_HEADER <= BoxEnd(input, child))
  {
    hide EntriesFrom, CleanItem;
    items := [];
    assert AllClean(items);
    hide AllClean;
    var countBytes := if ByteIs(input, child + 8, 0) then 2 else 4;
    var iinfEnd := Min(child + ReadU32BE(input, child), |input|);
    var entry := child + ISOBMFF_FULL_BOX_HEADER + countBytes;
    while entry + ISOBMFF_FULL_BOX_HEADER <= iinfEnd
      invariant EntriesFrom(input, FirstEntry(input, child), iinfEnd) <==> AllClean(items) && EntriesFrom(input, entry, iinfEnd)
      invariant if items == [] then entry == FirstEntry(input, child)
                else FirstEntry(input, child) + ISOBMFF_FULL_BOX_HEADER <= iinfEnd
      decreases iinfEnd - entry
    {
      EntryCases(input, entry, iinfEnd);
      var entryLength := ReadU32BE(input, entry);
      if input[entry + 4..entry + 8] != INFE || entryLength < ISOBMFF_FULL_BOX_HEADER + 8 {
        return false, items;
      }
      var item := ItemTypeAt(input, entry);
      AllCleanAppend(items, [item]);
      AllCleanOne(item);
      items := items + [item];
      entry := entry + entryLength;
    }
    EntryCases(input, entry, iinfEnd);
    return true, items;
  }

  /** The middle loop: the children of a `meta` box. */
  method WalkMeta(input: Buffer, box: nat) returns (listed: bool, items: seq<Buffer>)
    requires box + 8 <= |input|
    ensures listed && AllClean(items) <==> ChildrenFrom(input, box + ISOBMFF_FULL_BOX_HEADER, BoxEnd(input, box))
    ensures listed && AllClean(items) ==>
      (items != [] <==> SomeItemFrom(input, box + ISOBMFF_FULL_BOX_HEADER, BoxEnd(input, box)))
  {
    hide EntriesFrom, FirstEntry, CleanItem, ChildrenFrom, SomeItemFrom;
    items := [];
    var boxEnd := Min(box + ReadU32BE(input, box), |input|);
    var child := box + ISOBMFF_FULL_BOX_HEADER;
    while child + 8 <= boxEnd
      invariant ChildrenFrom(input, box + ISOBMFF_FULL_BOX_HEADER, boxEnd)
           <==> ChildrenFrom(input, child, boxEnd) && AllClean(items)
      invariant AllClean(items) ==>
        (SomeItemFrom(input, box + ISOBMFF_FULL_BOX_HEADER, boxEnd) <==> items != [] || SomeItemFrom(input, child, boxEnd))
      decreases boxEnd - child
    {
      ChildCases(input, child, boxEnd);
      var childLength := ReadU32BE(input, child);
      if childLength < 8 {
        return false, items;
      }
      if input[child + 4..child + 8] == IINF {
        var complete, more := WalkEntries(input, child);
        if !complete {
          return false, items;
        }
        AllCleanAppend(items, more);
        items := items + more;
      }
      child := child + childLength;
    }
    ChildCases(input, child, boxEnd);
    return true, items;
  }

  /** The three nested loops.  Every 32-bit read is in bounds and every loop ends. */
  method CarriesOnlyAllowedTypes(input: Buffer) returns (clean: bool)
    ensures clean <==> BoxesFrom(input, 0) && SomeItemInBoxes(input, 0)
  {
    hide BoxesFrom, SomeItemInBoxes, ChildrenFrom, SomeItemFrom, CleanItem;
    var items: seq<Buffer> := [];
    var offset := 0;
    while offset + 8 <= |input|
      invariant BoxesFrom(input, 0) && SomeItemInBoxes(input, 0)
           <==> BoxesFrom(input, offset) && AllClean(items) && (items != [] || SomeItemInBoxes(input, offset))
      decreases |input| - offset
    {
      BoxCases(input, offset);
      var length := ReadU32BE(input, offset);
      var boxType := input[offset + 4..offset + 8];
      if !CleanBox(boxType) || length < 8 {
        return false;
      }
      if boxType == META {
        var listed, more := WalkMeta(input, offset);
        if !listed {
          return false;
        }
        AllCleanAppend(items, more);
        items := items + more;
      }
      offset := offset + length;
    }
    BoxCases(input, offset);
    return offset == |input| && |items| > 0 && forall item :: item in items ==> CleanItem(item);
  }

  // ----- the meaning of the walk -----

  /** `cuts` are the starts of the boxes met from `from` on, and the place where the walk stops:
      each box begins where the one before it ends, as long as a header of its level fits. */
  ghost predicate IsWalk(x: Buffer, from: nat, limit: nat, header: nat, cuts: seq<nat>) {
    && |cuts| > 0
    && cuts[0] == from
    && (forall i :: 0 <= i < |cuts| - 1 ==> cuts[i] + header <= limit && cuts[i + 1] == cuts[i] + SizeAt(x, cuts[i]))
    && cuts[|cuts| - 1] + header > limit
  }

  lemma WalkTail(x: Buffer, from: nat, limit: nat, header: nat, cuts: seq<nat>)
    requires IsWalk(x, from, limit, header, cuts) && from + header <= limit
    ensures |cuts| > 1 && IsWalk(x, from + SizeAt(x, from), limit, header, cuts[1..])
  {
  }

  ghost predicate EntriesListed(x: Buffer, iinf: nat, cuts: seq<nat>) {
    && IsWalk(x, FirstEntry(x, iinf), BoxEnd(x, iinf), ISOBMFF_FULL_BOX_HEADER, cuts)
    && forall i :: 0 <= i < |cuts| - 1 ==> EntryOk(x, cuts[i]) && CleanItem(ItemTypeAt(x, cuts[i]))
  }

  ghost predicate ChildAccepted(x: Buffer, child: nat) {
    && SizeAt(x, child) >= 8
    && (TypeAt(x, child) == IINF ==> exists cuts :: EntriesListed(x, child, cuts))
  }

  ghost predicate ChildrenListed(x: Buffer, meta: nat, cuts: seq<nat>) {
    && IsWalk(x, meta + ISOBMFF_FULL_BOX_HEADER, BoxEnd(x, meta), BOX_HEADER, cuts)
    && forall i :: 0 <= i < |cuts| - 1 ==> ChildAccepted(x, cuts[i])
  }

  ghost predicate BoxAccepted(x: Buffer, box: nat) {
    && SizeAt(x, box) >= 8
    && CleanBox(TypeAt(x, box))
    && (TypeAt(x, box) == META ==> exists cuts :: ChildrenListed(x, box, cuts))
  }

  /** The top-level boxes tile the file exactly and each is acceptable. */
  ghost predicate BoxesTile(x: Buffer, cuts: seq<nat>) {
    && IsWalk(x, 0, |x|, BOX_HEADER, cuts)
    && cuts[|cuts| - 1] == |x|
    && forall i :: 0 <= i < |cuts| - 1 ==> BoxAccepted(x, cuts[i])
  }

  ghost predicate HoldsItem(x: Buffer, box: nat) {
    TypeAt(x, box) == META
    && exists cuts, i :: ChildrenListed(x, box, cuts) && 0 <= i < |cuts| - 1 && ListsItem(x, cuts[i])
  }

  lemma {:induction false} EntriesMeaning(x: Buffer, entry: nat, end: nat) returns (cuts: seq<nat>)
    requires EntriesFrom(x, entry, end)
    ensures IsWalk(x, entry, end, ISOBMFF_FULL_BOX_HEADER, cuts)
    ensures forall i :: 0 <= i < |cuts| - 1 ==> EntryOk(x, cuts[i]) && CleanItem(ItemTypeAt(x, cuts[i]))
    decreases end - entry
  {
    if entry + ISOBMFF_FULL_BOX_HEADER > end {
      return [entry];
    }
    var rest := EntriesMeaning(x, entry + SizeAt(x, entry), end);
    cuts := [entry] + rest;
  }

  lemma {:induction false} EntriesListedAreClean(x: Buffer, entry: nat, end: nat, cuts: seq<nat>)
    requires IsWalk(x, entry, end, ISOBMFF_FULL_BOX_HEADER, cuts)
    requires forall i :: 0 <= i < |cuts| - 1 ==> EntryOk(x, cuts[i]) && CleanItem(ItemTypeAt(x, cuts[i]))
    ensures EntriesFrom(x, entry, end)
    decreases |cuts|
  {
    hide SizeAt, TypeAt, ItemTypeAt, CleanItem;
    if entry + ISOBMFF_FULL_BOX_HEADER <= end {
      WalkTail(x, entry, end, ISOBMFF_FULL_BOX_HEADER, cuts);
      EntriesListedAreClean(x, entry + SizeAt(x, entry), end, cuts[1..]);
    }
  }

  lemma ChildMeaning(x: Buffer, child: nat)
    ensures ChildOk(x, child) <==> ChildAccepted(x, child)
  {
    if SizeAt(x, child) >= 8 && TypeAt(x, child) == IINF {
      var from, end := FirstEntry(x, child), BoxEnd(x, child);
      if EntriesFrom(x, from, end) {
        var cuts := EntriesMeaning(x, from, end);
        assert EntriesListed(x, child, cuts);
      } else if ChildAccepted(x, child) {
        var cuts :| EntriesListed(x, child, cuts);
        EntriesListedAreClean(x, from, end, cuts);
      }
    }
  }

  lemma {:induction false} ChildrenMeaning(x: Buffer, child: nat, end: nat) returns (cuts: seq<nat>)
    requires ChildrenFrom(x, child, end)
    ensures IsWalk(x, child, end, BOX_HEADER, cuts)
    ensures forall i :: 0 <= i < |cuts| - 1 ==> ChildAccepted(x, cuts[i])
    ensures SomeItemFrom(x, child, end) ==> exists i :: 0 <= i < |cuts| - 1 && ListsItem(x, cuts[i])
    decreases end - child
  {
    hide EntriesFrom, ChildAccepted, ListsItem, SizeAt, TypeAt, BoxEnd, FirstEntry;
    if child + BOX_HEADER > end {
      return [child];
    }
    ChildMeaning(x, child);
    var rest := ChildrenMeaning(x, child + SizeAt(x, child), end);
    cuts := [child] + rest;
    if SomeItemFrom(x, child, end) {
      if ListsItem(x, child) {
        assert ListsItem(x, cuts[0]);
      } else {
        var i :| 0 <= i < |rest| - 1 && ListsItem(x, rest[i]);
        assert ListsItem(x, cuts[i + 1]);
      }
    }
  }

  lemma {:induction false} ChildrenListedAreOk(x: Buffer, child: nat, end: nat, cuts: seq<nat>)
    requires IsWalk(x, child, end, BOX_HEADER, cuts)
    requires forall i :: 0 <= i < |cuts| - 1 ==> ChildAccepted(x, cuts[i])
    ensures ChildrenFrom(x, child, end)
    ensures (exists i :: 0 <= i < |cuts| - 1 && ListsItem(x, cuts[i])) ==> SomeItemFrom(x, child, end)
    decreases |cuts|
  {
    hide EntriesFrom, ChildAccepted, ListsItem, SizeAt, TypeAt, BoxEnd, FirstEntry;
    if child + BOX_HEADER <= end {
      ChildMeaning(x, child);
      WalkTail(x, child, end, BOX_HEADER, cuts);
      var rest := cuts[1..];
      ChildrenListedAreOk(x, child + SizeAt(x, child), end, rest);
      if exists i :: 0 <= i < |cuts| - 1 && ListsItem(x, cuts[i]) {
        var i :| 0 <= i < |cuts| - 1 && ListsItem(x, cuts[i]);
        assert i > 0 ==> ListsItem(x, rest[i - 1]);
      }
    }
  }

  lemma BoxMeaning(x: Buffer, box: nat)
    ensures BoxOk(x, box) <==> BoxAccepted(x, box)
    ensures BoxOk(x, box) && TypeAt(x, box) == META ==>
      (SomeItemFrom(x, box + ISOBMFF_FULL_BOX_HEADER, BoxEnd(x, box)) <==> HoldsItem(x, box))
    ensures HoldsItem(x, box) ==> TypeAt(x, box) == META
  {
    if SizeAt(x, box) >= 8 && TypeAt(x, box) == META {
      var from, end := box + ISOBMFF_FULL_BOX_HEADER, BoxEnd(x, box);
      if ChildrenFrom(x, from, end) {
        var cuts := ChildrenMeaning(x, from, end);
        assert ChildrenListed(x, box, cuts);
        if HoldsItem(x, box) {
          var other, i :| ChildrenListed(x, box, other) && 0 <= i < |other| - 1 && ListsItem(x, other[i]);
          ChildrenListedAreOk(x, from, end, other);
        }
      } else if BoxAccepted(x, box) {
        var cuts :| ChildrenListed(x, box, cuts);
        ChildrenListedAreOk(x, from, end, cuts);
      }
    }
  }

  lemma {:induction false} BoxesMeaning(x: Buffer, box: nat) returns (cuts: seq<nat>)
    requires BoxesFrom(x, box)
    ensures IsWalk(x, box, |x|, BOX_HEADER, cuts) && cuts[|cuts| - 1] == |x|
    ensures forall i :: 0 <= i < |cuts| - 1 ==> BoxAccepted(x, cuts[i])
    ensures SomeItemInBoxes(x, box) ==> exists i :: 0 <= i < |cuts| - 1 && HoldsItem(x, cuts[i])
    decreases |x| - box
  {
    hide ChildrenFrom, SomeItemFrom, HoldsItem, BoxAccepted, SizeAt, TypeAt, CleanBox, BoxEnd;
    if box + BOX_HEADER > |x| {
      return [box];
    }
    BoxMeaning(x, box);
    var rest := BoxesMeaning(x, box + SizeAt(x, box));
    cuts := [box] + rest;
    if SomeItemInBoxes(x, box) {
      if HoldsItem(x, box) {
        assert HoldsItem(x, cuts[0]);
      } else {
        var i :| 0 <= i < |rest| - 1 && HoldsItem(x, rest[i]);
        assert HoldsItem(x, cuts[i + 1]);
      }
    }
  }

  lemma {:induction false} BoxesTilingIsOk(x: Buffer, box: nat, cuts: seq<nat>)
    requires IsWalk(x, box, |x|, BOX_HEADER, cuts) && cuts[|cuts| - 1] == |x|
    requires forall i :: 0 <= i < |cuts| - 1 ==> BoxAccepted(x, cuts[i])
    ensures BoxesFrom(x, box)
    ensures (exists i :: 0 <= i < |cuts| - 1 && HoldsItem(x, cuts[i])) ==> SomeItemInBoxes(x, box)
    decreases |cuts|
  {
    hide ChildrenFrom, SomeItemFrom, HoldsItem, BoxAccepted, SizeAt, TypeAt, CleanBox, BoxEnd;
    if box + BOX_HEADER <= |x| {
      BoxMeaning(x, box);
      WalkTail(x, box, |x|, BOX_HEADER, cuts);
      var rest := cuts[1..];
      BoxesTilingIsOk(x, box + SizeAt(x, box), rest);
      if exists i :: 0 <= i < |cuts| - 1 && HoldsItem(x, cuts[i]) {
        var i :| 0 <= i < |cuts| - 1 && HoldsItem(x, cuts[i]);
        assert i > 0 ==> HoldsItem(x, rest[i - 1]);
      }
    }
  }

  /** The walk answers true exactly for the files whose top-level boxes tile them, are of allowed
      types and carry well-formed item lists in which at least one item stands and all are images. */
  lemma WalkMeaning(x: Buffer)
    ensures BoxesFrom(x, 0) && SomeItemInBoxes(x, 0)
       <==> exists cuts, i :: BoxesTile(x, cuts) && 0 <= i < |cuts| - 1 && HoldsItem(x, cuts[i])
  {
    if BoxesFrom(x, 0) && SomeItemInBoxes(x, 0) {
      var cuts := BoxesMeaning(x, 0);
      var i :| 0 <= i < |cuts| - 1 && HoldsItem(x, cuts[i]);
      assert BoxesTile(x, cuts);
    }
    if exists cuts, i :: BoxesTile(x, cuts) && 0 <= i < |cuts| - 1 && HoldsItem(x, cuts[i]) {
      var cuts, i :| BoxesTile(x, cuts) && 0 <= i < |cuts| - 1 && HoldsItem(x, cuts[i]);
      BoxesTilingIsOk(x, 0, cuts);
    }
  }
}
