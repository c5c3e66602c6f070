/** What the WebP stripper keeps, spelled out on types and bits
    (apps/conversion-worker/src/app/pipeline/image-compressor.service.ts), after RFC 9649, section 2.7. */
module WebpMeaning {
  import opened Prelude
  import opened Bytes
  import opened ExifOrientation
  import opened WebpStrip

  /** The chunks that may stay are image data, the features, the alpha channel and the colour profile. */
  lemma TypesMean(t: Buffer)
    ensures CleanType(t) <==> IsText(t, "VP8 ") || IsText(t, "VP8L") || IsText(t, "VP8X") || IsText(t, "ALPH") || IsText(t, "ICCP")
    ensures ImageType(t) <==> IsText(t, "VP8 ") || IsText(t, "VP8L")
    ensures t == VP8X <==> IsText(t, "VP8X")
    ensures t == EXIF <==> IsText(t, "EXIF")
  {
    SameText(t, VP8, "VP8 ");
    SameText(t, VP8L, "VP8L");
    SameText(t, VP8X, "VP8X");
    SameText(t, ALPH, "ALPH");
    SameText(t, ICCP, "ICCP");
    SameText(t, EXIF, "EXIF");
    hide IsText;
  }

  function Bit(b: Byte, weight: int): int
    requires weight > 0
  {
    b as int / weight % 2
  }

  /** Only the bits that announce XMP (4) and EXIF (8) may differ. */
  predicate SameOtherBits(b: Byte, c: Byte) {
    && Bit(b, 1) == Bit(c, 1) && Bit(b, 2) == Bit(c, 2) && Bit(b, 16) == Bit(c, 16)
    && Bit(b, 32) == Bit(c, 32) && Bit(b, 64) == Bit(c, 64) && Bit(b, 128) == Bit(c, 128)
  }

  /** A byte from its high nibble, the EXIF bit, the XMP bit and its two low bits. */
  lemma NibbleBits(high: int, exif: int, xmp: int, low: int)
    requires 0 <= high < 16 && 0 <= exif < 2 && 0 <= xmp < 2 && 0 <= low < 4
    ensures var n := 16 * high + 8 * exif + 4 * xmp + low;
      && n / 16 == high && n / 8 % 2 == exif && n / 4 % 2 == xmp && n % 4 == low
      && n / 2 % 2 == low / 2 && n % 2 == low % 2
      && n / 32 == high / 2 && n / 64 == high / 4 && n / 128 == high / 8
  {
    var n := 16 * high + 8 * exif + 4 * xmp + low;
    assert n / 16 == high;
    assert n / 8 == 2 * high + exif;
    assert n / 4 == 4 * high + 2 * exif + xmp;
    assert n / 2 == 8 * high + 4 * exif + 2 * xmp + low / 2;
  }

  lemma ByteParts(b: Byte) returns (high: int, exif: int, xmp: int, low: int)
    ensures 0 <= high < 16 && 0 <= exif < 2 && 0 <= xmp < 2 && 0 <= low < 4
    ensures b as int == 16 * high + 8 * exif + 4 * xmp + low
  {
    var nibble := b as int % 16;
    var rest := nibble % 8;
    high, exif, xmp, low := b as int / 16, nibble / 8, rest / 4, rest % 4;
  }

  /** Clearing the flags clears the two bits, setting the flag sets the one, and no other bit moves. */
  lemma FlagBits(b: Byte)
    ensures Bit(ClearMetadataFlags(b), 4) == 0 && Bit(ClearMetadataFlags(b), 8) == 0
    ensures SameOtherBits(ClearMetadataFlags(b), b)
    ensures Bit(SetExifFlag(b), 8) == 1 && Bit(SetExifFlag(b), 4) == Bit(b, 4) && SameOtherBits(SetExifFlag(b), b)
  {
    var high, exif, xmp, low := ByteParts(b);
    NibbleBits(high, exif, xmp, low);
    NibbleBits(high, 0, 0, low);
    NibbleBits(high, 1, xmp, low);
    assert ClearMetadataFlags(b) as int == 16 * high + low;
    assert SetExifFlag(b) as int == 16 * high + 8 + 4 * xmp + low;
  }

  // ----- when and how a file is rewritten -----

  predicate IsKind(c: Buffer, text: string) {
    |c| >= 8 && IsText(c[..4], text)
  }

  ghost predicate HasKind(chunks: seq<Buffer>, text: string) {
    exists c :: c in chunks && IsKind(c, text)
  }

  lemma KindsMean(c: Buffer)
    requires IsChunk(c)
    ensures IsImage(c) <==> IsKind(c, "VP8 ") || IsKind(c, "VP8L")
    ensures IsFeatures(c) <==> IsKind(c, "VP8X")
    ensures Clean(c) <==>
      IsKind(c, "VP8 ") || IsKind(c, "VP8L") || IsKind(c, "VP8X") || IsKind(c, "ALPH") || IsKind(c, "ICCP")
  {
    TypesMean(c[..4]);
    hide CleanType, ImageType, IsText;
  }

  lemma {:induction false} SomeFeatures(chunks: seq<Buffer>)
    requires forall c :: c in chunks ==> IsChunk(c)
    ensures LastFeatures(ScrubAll(KeepClean(chunks))).Some? <==> HasKind(chunks, "VP8X")
  {
    var kept := KeepClean(chunks);
    var scrubbed := ScrubAll(kept);
    forall c | c in chunks
      ensures IsFeatures(c) <==> IsKind(c, "VP8X")
      ensures IsFeatures(c) ==> c in kept
    {
      KindsMean(c);
      KeptChunks(chunks, c);
    }
    forall i | 0 <= i < |kept|
      ensures kept[i] in chunks && (IsFeatures(scrubbed[i]) <==> IsFeatures(kept[i]))
    {
      KeptChunks(chunks, kept[i]);
      FlagsOnly(kept[i]);
      SameButFlagsKeeps(kept[i], Scrub(kept[i]));
    }
    hide IsFeatures, IsKind, KeepClean, Scrub;
    var last := LastFeatures(scrubbed);
    if last.Some? {
      assert kept[last.value] in chunks && IsKind(kept[last.value], "VP8X");
    }
    if HasKind(chunks, "VP8X") {
      var c :| c in chunks && IsKind(c, "VP8X");
      var i :| 0 <= i < |kept| && kept[i] == c;
      assert IsFeatures(scrubbed[i]);
    }
  }

  /** The exact condition under which the stripper touches a file: complete chunks tile it, one is image
      data, and to keep an orientation there is a features chunk that can announce it. */
  lemma RewritesExactly(x: Buffer, o: Orientation)
    ensures if Chunks(x, WEBP_HEADER).None? then !Rewrites(x, o)
            else var chunks := Chunks(x, WEBP_HEADER).value;
              Rewrites(x, o) <==>
                (HasKind(chunks, "VP8 ") || HasKind(chunks, "VP8L")) && (o == 1 || HasKind(chunks, "VP8X"))
    ensures !Rewrites(x, o) ==> Strip(x, o) == Ok(x)
  {
    if Chunks(x, WEBP_HEADER).Some? {
      var chunks := Chunks(x, WEBP_HEADER).value;
      ChunksTile(x, WEBP_HEADER);
      SomeFeatures(chunks);
      forall c | c in chunks
        ensures IsImage(c) <==> IsKind(c, "VP8 ") || IsKind(c, "VP8L")
      {
        KindsMean(c);
      }
      hide IsImage, IsKind, LastFeatures, KeepClean, ScrubAll, Chunks;
    }
  }

  /** A file that is touched is written, unless its size would not fit into four bytes. */
  lemma WritesExactly(x: Buffer, o: Orientation)
    requires Rewrites(x, o)
    ensures var body := Concat(Stripped(Chunks(x, WEBP_HEADER).value, o));
      if |body| + 4 > 0xffff_ffff then Strip(x, o) == Err(SizeOutOfRange)
      else Strip(x, o).Ok? && |x| >= 12 && |Strip(x, o).value| == 12 + |body| && Strip(x, o).value[12..] == body
  {
    hide Chunks, Stripped, Concat, HasImage, LastFeatures;
  }

  /** The chunks of allowed types stay, one by one and in order. */
  lemma {:induction false} KeptExactly(chunks: seq<Buffer>, c: Buffer)
    requires IsChunk(c)
    ensures KeepClean(chunks + [c]) == KeepClean(chunks) +
      if IsKind(c, "VP8 ") || IsKind(c, "VP8L") || IsKind(c, "VP8X") || IsKind(c, "ALPH") || IsKind(c, "ICCP") then [c] else []
  {
    KeepCleanAppend(chunks, [c]);
    KindsMean(c);
    hide Clean, IsKind;
    assert KeepClean([c]) == if Clean(c) then [c] else [];
  }

  /** What may differ between a features chunk of the input and the one written. */
  predicate Reannounced(before: Buffer, after: Buffer, exif: int) {
    && |before| > 8 && |after| == |before|
    && (forall i :: 0 <= i < |before| && i != 8 ==> after[i] == before[i])
    && SameOtherBits(before[8], after[8]) && Bit(after[8], 4) == 0 && Bit(after[8], 8) == exif
  }

  /** Features chunk i announces the orientation: one is kept and this is the last features chunk. */
  predicate Announces(kept: seq<Buffer>, i: nat, o: Orientation) {
    o != 1 && forall j :: i < j < |kept| ==> !IsFeatures(kept[j])
  }

  lemma ScrubMeans(c: Buffer)
    ensures !IsFeatures(c) ==> Scrub(c) == c
    ensures IsFeatures(c) ==> IsFeatures(Scrub(c)) && Reannounced(c, Scrub(c), 0)
  {
    FlagsOnly(c);
    SameButFlagsKeeps(c, Scrub(c));
    if IsFeatures(c) {
      FlagBits(c[8]);
    }
    hide ClearMetadataFlags, Bit;
  }

  lemma AnnouncedMeans(c: Buffer)
    requires IsFeatures(c)
    ensures Reannounced(c, Scrub(c)[8 := SetExifFlag(Scrub(c)[8])], 1)
  {
    ScrubMeans(c);
    FlagBits(Scrub(c)[8]);
    hide SetExifFlag, Bit, Scrub;
  }

  lemma {:induction false} LastFeaturesIsLast(chunks: seq<Buffer>)
    ensures LastFeatures(chunks).Some? ==>
      forall j :: LastFeatures(chunks).value < j < |chunks| ==> !IsFeatures(chunks[j])
  {
    hide IsFeatures;
    if chunks != [] && !IsFeatures(chunks[|chunks| - 1]) {
      LastFeaturesIsLast(chunks[..|chunks| - 1]);
      assert forall j :: 0 <= j < |chunks| - 1 ==> chunks[j] == chunks[..|chunks| - 1][j];
    }
  }

  /** What is written, chunk by chunk: every kept chunk as it was, but for the features chunks, which no
      longer announce XMP, and announce EXIF exactly if an orientation is kept and they are the last of
      their kind; and after them, if an orientation is kept, the chunk that holds it. */
  lemma StrippedExactly(chunks: seq<Buffer>, o: Orientation) returns (written: seq<Buffer>)
    ensures Stripped(chunks, o) == written + if o == 1 then [] else [ExifChunk(o)]
    ensures |written| == |KeepClean(chunks)|
    ensures forall i :: 0 <= i < |written| ==>
      if IsFeatures(KeepClean(chunks)[i])
      then Reannounced(KeepClean(chunks)[i], written[i], if Announces(KeepClean(chunks), i, o) then 1 else 0)
      else written[i] == KeepClean(chunks)[i]
  {
    var kept := KeepClean(chunks);
    var scrubbed := ScrubAll(kept);
    written := if o == 1 then scrubbed else AnnounceExif(scrubbed);
    LastFeaturesIsLast(scrubbed);
    forall i | 0 <= i < |kept|
      ensures IsFeatures(scrubbed[i]) <==> IsFeatures(kept[i])
    {
      FlagsOnly(kept[i]);
      SameButFlagsKeeps(kept[i], Scrub(kept[i]));
    }
    var last := LastFeatures(scrubbed);
    hide IsFeatures, Scrub, SetExifFlag, KeepClean, Reannounced, LastFeatures;
    forall i | 0 <= i < |written|
      ensures if IsFeatures(kept[i]) then Reannounced(kept[i], written[i], if Announces(kept, i, o) then 1 else 0)
              else written[i] == kept[i]
    {
      ScrubMeans(kept[i]);
      if o != 1 && last == Some(i) {
        AnnouncedMeans(kept[i]);
        assert Announces(kept, i, o);
      } else if IsFeatures(kept[i]) {
        assert written[i] == scrubbed[i];
        assert o != 1 ==> i < last.value;
      }
    }
  }
}
