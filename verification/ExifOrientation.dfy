/** The EXIF block with which the image worker keeps nothing but an orientation
    (apps/conversion-worker/src/app/pipeline/image-compressor.service.ts). */
module ExifOrientation {
  import opened Prelude
  import opened Bytes

  const EXIF_ORIENTATION_TAG := 0x0112

  type Orientation = o: nat | o < 0x1_0000

  const TIFF_HEADER: Buffer := [0x49, 0x49, 42, 0, 8, 0, 0, 0]
  const ENTRY_HEADER: Buffer := [1, 0, 0x12, 0x01, 3, 0, 1, 0, 0, 0]

  /** A little-endian TIFF file whose only entry is the orientation. */
  function ExifOrientationBlock(o: Orientation): Buffer {
    TIFF_HEADER + ENTRY_HEADER + [(o % 256) as Byte, (o / 256) as Byte] + [0, 0, 0, 0, 0, 0]
  }

  method WriteTiffHeader(tiff: array<Byte>)
    requires tiff.Length == 26 && forall k :: 0 <= k < 26 ==> tiff[k] == 0
    modifies tiff
    ensures tiff[0] == 0x49 && tiff[1] == 0x49 && tiff[2] == 42 && tiff[4] == 8 && tiff[8] == 1
    ensures forall k :: 0 <= k < 26 && k !in {0, 1, 2, 4, 8} ==> tiff[k] == 0
  {
    tiff[0], tiff[1] := 0x49, 0x49;
    WriteU16LE(tiff, 2, 42);
    WriteU32LE(tiff, 4, 8);
    WriteU16LE(tiff, 8, 1);
  }

  method WriteExifOrientationBlock(o: Orientation) returns (tiff: array<Byte>)
    ensures fresh(tiff) && tiff.Length == 26 && tiff[..] == ExifOrientationBlock(o)
  {
    tiff := new Byte[26](_ => 0);
    WriteTiffHeader(tiff);
    WriteU16LE(tiff, 10, EXIF_ORIENTATION_TAG);
    WriteU16LE(tiff, 12, 3);
    WriteU32LE(tiff, 14, 1);
    assert forall k :: 18 <= k < 26 ==> tiff[k] == 0;
    assert tiff[..8] == TIFF_HEADER && tiff[8..18] == ENTRY_HEADER;
    assert tiff[..18] == tiff[..8] + tiff[8..18];
    label header:
    WriteU16LE(tiff, 18, o);
    assert tiff[..18] == old@header(tiff[..18]);
    label entry:
    WriteU32LE(tiff, 22, 0);
    assert tiff[..18] == old@entry(tiff[..18]);
    assert tiff[18..] == [(o % 256) as Byte, (o / 256) as Byte, 0, 0, 0, 0, 0, 0];
    assert tiff[..] == tiff[..18] + tiff[18..];
  }

  function EntryOrientation(tiff: Buffer, at: nat, entries: nat): Option<nat>
    decreases entries
  {
    if entries == 0 || at + 12 > |tiff| then None
    else if tiff[at..at + 8] == [0x12, 0x01, 3, 0, 1, 0, 0, 0] then Some(tiff[at + 8] as int + 256 * tiff[at + 9] as int)
    else EntryOrientation(tiff, at + 12, entries - 1)
  }

  /** How a reader of the TIFF structure finds the orientation: it follows the offset in the header
      to the first directory and looks for the tag, with one value of two bytes, among its entries. */
  function ReadOrientation(tiff: Buffer): Option<nat> {
    if |tiff| < 8 || tiff[..2] != [0x49, 0x49] || tiff[2..4] != [42, 0] then None
    else
      var directory := ReadU32LE(tiff, 4);
      if directory + 2 > |tiff| then None
      else EntryOrientation(tiff, directory + 2, tiff[directory] as int + 256 * tiff[directory + 1] as int)
  }

  lemma HeaderBytes(tiff: Buffer)
    requires |tiff| == 26 && tiff[..8] == TIFF_HEADER && tiff[8..18] == ENTRY_HEADER
    ensures tiff[..2] == [0x49, 0x49] && tiff[2..4] == [42, 0] && ReadU32LE(tiff, 4) == 8
    ensures tiff[8] == 1 && tiff[9] == 0 && tiff[10..18] == [0x12, 0x01, 3, 0, 1, 0, 0, 0]
  {
    assert tiff[..2] == TIFF_HEADER[..2] && tiff[2..4] == TIFF_HEADER[2..4];
    assert tiff[10..18] == ENTRY_HEADER[2..];
    assert tiff[4] == TIFF_HEADER[4] && tiff[5] == TIFF_HEADER[5] && tiff[6] == TIFF_HEADER[6] && tiff[7] == TIFF_HEADER[7];
    assert tiff[8] == ENTRY_HEADER[0] && tiff[9] == ENTRY_HEADER[1];
  }

  /** The block reads back as the orientation, and holds nothing else: one entry, the padding of its
      value, and no further directory. */
  lemma OrientationRoundTrip(o: Orientation)
    ensures ReadOrientation(ExifOrientationBlock(o)) == Some(o)
    ensures var tiff := ExifOrientationBlock(o);
      |tiff| == 26 && tiff[8] == 1 && tiff[9] == 0 && tiff[20] == 0 && tiff[21] == 0 && ReadU32LE(tiff, 22) == 0
  {
    var tiff := ExifOrientationBlock(o);
    assert tiff[..8] == TIFF_HEADER && tiff[8..18] == ENTRY_HEADER && tiff[20..] == [0, 0, 0, 0, 0, 0];
    assert tiff[18] as int == o % 256 && tiff[19] as int == o / 256;
    hide ExifOrientationBlock;
    HeaderBytes(tiff);
  }
}
