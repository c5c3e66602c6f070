/** What the AVIF walk accepts, spelled out on the bytes of ISO boxes
    (apps/conversion-worker/src/app/pipeline/image-compressor.service.ts), after ISO/IEC 14496-12,
    sections 4.2 and 8.11.6. */
module AvifMeaning {
  import opened Bytes
  import opened AvifWalk

  /** The boxes and items that may stand in a clean file, and the three types that the walk looks into. */
  lemma TypesMean(t: Buffer)
    ensures CleanBox(t) <==> IsText(t, "ftyp") || IsText(t, "meta") || IsText(t, "mdat") || IsText(t, "free") || IsText(t, "skip")
    ensures CleanItem(t) <==> IsText(t, "av01") || IsText(t, "grid")
    ensures (t == META <==> IsText(t, "meta")) && (t == IINF <==> IsText(t, "iinf")) && (t == INFE <==> IsText(t, "infe"))
  {
    SameText(t, FTYP, "ftyp");
    SameText(t, META, "meta");
    SameText(t, MDAT, "mdat");
    SameText(t, FREE, "free");
    SameText(t, SKIP, "skip");
    SameText(t, AV01, "av01");
    SameText(t, GRID, "grid");
    SameText(t, IINF, "iinf");
    SameText(t, INFE, "infe");
    hide IsText;
  }

  /** Every box starts with its size, high byte first, and its type; it ends there or with the file. */
  lemma BoxHeader(x: Buffer, box: nat)
    requires box + 8 <= |x|
    ensures SizeAt(x, box) == 0x100_0000 * x[box] as int + 0x1_0000 * x[box + 1] as int + 256 * x[box + 2] as int + x[box + 3] as int
    ensures TypeAt(x, box) == [x[box + 4], x[box + 5], x[box + 6], x[box + 7]]
    ensures BoxEnd(x, box) == if box + SizeAt(x, box) <= |x| then box + SizeAt(x, box) else |x|
  {
  }

  /** The entries of an item list follow a count of two bytes in version 0 and of four bytes otherwise. */
  lemma ListHeader(x: Buffer, iinf: nat)
    requires iinf + 12 <= |x|
    ensures FirstEntry(x, iinf) == iinf + if x[iinf + 8] == 0 then 14 else 16
  {
  }

  /** An entry is accepted if it is an item entry of at least twenty bytes; its item type stands behind
      an identifier of two bytes in version 2 and of four bytes otherwise, and a protection index. */
  lemma EntryMeans(x: Buffer, entry: nat)
    requires entry + 22 <= |x|
    ensures EntryOk(x, entry) <==> IsText(x[entry + 4..entry + 8], "infe") && SizeAt(x, entry) >= 20
    ensures ItemTypeAt(x, entry) == if x[entry + 8] == 2 then x[entry + 16..entry + 20] else x[entry + 18..entry + 22]
  {
    TypesMean(x[entry + 4..entry + 8]);
    hide IsText;
  }
}
