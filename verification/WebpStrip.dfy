/** The lossless WebP metadata stripper of the conversion worker and the walk that recognises a clean
    WebP file (apps/conversion-worker/src/app/pipeline/image-compressor.service.ts), over the RIFF
    chunks of RFC 9649, sections 2.3 and 2.7. */
module WebpStrip {
  import opened Prelude
  import opened Bytes
  import opened ExifOrientation

  const WEBP_HEADER := 12
  const WEBP_FEATURES_LENGTH := 10
  const WEBP_FEATURES_AT := 8
  const VP8: Buffer := [0x56, 0x50, 0x38, 0x20]
  const VP8L: Buffer := [0x56, 0x50, 0x38, 0x4c]
  const VP8X: Buffer := [0x56, 0x50, 0x38, 0x58]
  const ALPH: Buffer := [0x41, 0x4c, 0x50, 0x48]
  const ICCP: Buffer := [0x49, 0x43, 0x43, 0x50]
  const EXIF: Buffer := [0x45, 0x58, 0x49, 0x46]

  datatype WebpError = ReadOutOfRange | SizeOutOfRange

  /** Bits 2 and 3, announcing XMP and EXIF, are cleared: `&= ~0x0c`. */
  function ClearMetadataFlags(b: Byte): Byte {
    b / 16 * 16 + b % 4
  }

  /** Bit 3 is set: `|= 0x08`. */
  function SetExifFlag(b: Byte): Byte {
    if b / 8 % 2 == 1 then b else b + 8
  }

  predicate CleanType(t: Buffer) {
    t == VP8 || t == VP8L || t == VP8X || t == ALPH || t == ICCP
  }

  predicate ImageType(t: Buffer) {
    t == VP8 || t == VP8L
  }

  // ----- chunks -----

  /** A complete chunk: type, length, payload and the padding byte of an odd length. */
  predicate IsChunk(c: Buffer) {
    && |c| >= 8
    && |c| == 8 + ReadU32LE(c, 4) + ReadU32LE(c, 4) % 2
    && (c[..4] == VP8X ==> ReadU32LE(c, 4) == WEBP_FEATURES_LENGTH)
  }

  predicate IsFeatures(c: Buffer) {
    |c| > WEBP_FEATURES_AT && c[..4] == VP8X
  }

  function Follow(chunks: seq<Buffer>, rest: Option<seq<Buffer>>): Option<seq<Buffer>> {
    if rest.None? then None else Some(chunks + rest.value)
  }

  /** The chunks that tile the file from `offset` to its end, if they do. */
  function Chunks(x: Buffer, offset: nat): (r: Option<seq<Buffer>>)
    ensures r.Some? ==> offset <= |x|
    decreases |x| - offset
  {
    if offset + 8 > |x| then
      if offset == |x| then Some([]) else None
    else
      var length := ReadU32LE(x, offset + 4);
      var end := offset + 8 + length + length % 2;
      if end > |x| || (x[offset..offset + 4] == VP8X && length != WEBP_FEATURES_LENGTH) then None
      else Follow([x[offset..end]], Chunks(x, end))
  }

  predicate Clean(c: Buffer) {
    |c| >= 8 && CleanType(c[..4])
  }

  predicate IsImage(c: Buffer) {
    |c| >= 8 && ImageType(c[..4])
  }

  predicate HasImage(chunks: seq<Buffer>) {
    exists c :: c in chunks && IsImage(c)
  }

  function KeepClean(chunks: seq<Buffer>): seq<Buffer> {
    if chunks == [] then []
    else (if Clean(chunks[0]) then [chunks[0]] else []) + KeepClean(chunks[1..])
  }

  /** A features chunk stops announcing metadata; every other chunk stays as it is. */
  function Scrub(c: Buffer): Buffer {
    if IsFeatures(c) then c[WEBP_FEATURES_AT := ClearMetadataFlags(c[WEBP_FEATURES_AT])] else c
  }

  function ScrubAll(chunks: seq<Buffer>): seq<Buffer> {
    seq(|chunks|, i requires 0 <= i < |chunks| => Scrub(chunks[i]))
  }

  /** The place of the last features chunk. */
  function LastFeatures(chunks: seq<Buffer>): (at: Option<nat>)
    ensures at.Some? ==> at.value < |chunks| && IsFeatures(chunks[at.value])
    ensures at.None? ==> forall i :: 0 <= i < |chunks| ==> !IsFeatures(chunks[i])
  {
    if chunks == [] then None
    else if IsFeatures(chunks[|chunks| - 1]) then Some(|chunks| - 1)
    else LastFeatures(chunks[..|chunks| - 1])
  }

  function AnnounceExif(chunks: seq<Buffer>): seq<Buffer> {
    match LastFeatures(chunks)
    case None => chunks
    case Some(at) =>
      chunks[at := chunks[at][WEBP_FEATURES_AT := SetExifFlag(chunks[at][WEBP_FEATURES_AT])]]
  }

  function ExifChunk(o: Orientation): Buffer {
    EXIF + U32LE(26) + ExifOrientationBlock(o)
  }

  /** The chunks of the stripped file. */
  function Stripped(chunks: seq<Buffer>, o: Orientation): seq<Buffer> {
    var kept := ScrubAll(KeepClean(chunks));
    if o == 1 then kept else AnnounceExif(kept) + [ExifChunk(o)]
  }

  /** Whether the stripper rewrites the file at all: its chunks tile it, one of them is an image, and
      an orientation to keep has a features chunk to announce it. */
  predicate Rewrites(x: Buffer, o: Orientation) {
    && Chunks(x, WEBP_HEADER).Some?
    && HasImage(Chunks(x, WEBP_HEADER).value)
    && (o != 1 ==> LastFeatures(ScrubAll(KeepClean(Chunks(x, WEBP_HEADER).value))).Some?)
  }

  /** The header of `x` with the size field set for the new body. */
  function Framed(x: Buffer, body: Buffer): Buffer
    requires |x| >= WEBP_HEADER && |body| + 4 < 0x1_0000_0000
  {
    x[..4] + U32LE(|body| + 4) + x[8..WEBP_HEADER] + body
  }

  function Strip(x: Buffer, o: Orientation): Result<Buffer, WebpError> {
    if !Rewrites(x, o) then Ok(x)
    else
      var body := Concat(Stripped(Chunks(x, WEBP_HEADER).value, o));
      if |body| + 4 >= 0x1_0000_0000 then Err(SizeOutOfRange)
      else Ok(Framed(x, body))
  }

  lemma ChunkCases(x: Buffer, offset: nat)
    ensures offset + 8 > |x| ==> Chunks(x, offset) == if offset == |x| then Some([]) else None
    ensures offset + 8 <= |x| ==>
      var length := ReadU32LE(x, offset + 4);
      var end := offset + 8 + length + length % 2;
      var broken := end > |x| || (x[offset..offset + 4] == VP8X && length != WEBP_FEATURES_LENGTH);
      && (broken ==> Chunks(x, offset).None?)
      && (!broken ==>
        && IsChunk(x[offset..end])
        && x[offset..end][..4] == x[offset..offset + 4]
        && Chunks(x, offset) == Follow([x[offset..end]], Chunks(x, end)))
  {
    if offset + 8 <= |x| {
      var length := ReadU32LE(x, offset + 4);
      var end := offset + 8 + length + length % 2;
      if end <= |x| {
        assert x[offset..end][..4] == x[offset..offset + 4];
        assert ReadU32LE(x[offset..end], 4) == length;
      }
    }
  }

  lemma EmptyWalk(whole: Option<seq<Buffer>>)
    ensures whole == Follow([], whole)
    ensures ScrubAll(KeepClean([])) == [] && !HasImage([]) && LastFeatures([]) == None
  {
    if whole.Some? {
      assert [] + whole.value == whole.value;
    }
  }

  lemma SeenFollows(seen: seq<Buffer>, c: Buffer, rest: Option<seq<Buffer>>)
    ensures Follow(seen, Follow([c], rest)) == Follow(seen + [c], rest)
  {
    if rest.Some? {
      assert seen + ([c] + rest.value) == seen + [c] + rest.value;
    }
  }

  lemma SeenImage(seen: seq<Buffer>, c: Buffer)
    ensures HasImage(seen + [c]) <==> HasImage(seen) || IsImage(c)
  {
    hide IsImage;
    if HasImage(seen) {
      var d :| d in seen && IsImage(d);
      assert d in seen + [c];
    }
    if IsImage(c) {
      assert c in seen + [c];
    }
  }

  lemma {:induction false} KeepCleanAppend(a: seq<Buffer>, b: seq<Buffer>)
    ensures KeepClean(a + b) == KeepClean(a) + KeepClean(b)
  {
    hide Clean;
    if a == [] {
      assert a + b == b;
    } else {
      assert (a + b)[1..] == a[1..] + b;
      KeepCleanAppend(a[1..], b);
    }
  }

  lemma SeenKept(seen: seq<Buffer>, c: Buffer)
    ensures ScrubAll(KeepClean(seen + [c])) == ScrubAll(KeepClean(seen)) + if Clean(c) then [Scrub(c)] else []
  {
    hide Clean, Scrub;
    KeepCleanAppend(seen, [c]);
    assert KeepClean([c]) == if Clean(c) then [c] else [];
  }

  lemma SeenFeatures(kept: seq<Buffer>, c: Buffer)
    requires IsChunk(c)
    ensures LastFeatures(kept + [Scrub(c)]) == if c[..4] == VP8X then Some(|kept|) else LastFeatures(kept)
  {
    hide ClearMetadataFlags;
    assert (kept + [Scrub(c)])[..|kept|] == kept;
    assert Scrub(c)[..4] == c[..4];
  }

  /** One more chunk keeps the loop invariants. */
  lemma SeenChunk(seen: seq<Buffer>, c: Buffer, rest: Option<seq<Buffer>>)
    requires IsChunk(c)
    ensures Follow(seen, Follow([c], rest)) == Follow(seen + [c], rest)
    ensures ScrubAll(KeepClean(seen + [c])) == ScrubAll(KeepClean(seen)) + if Clean(c) then [Scrub(c)] else []
    ensures HasImage(seen + [c]) <==> HasImage(seen) || IsImage(c)
    ensures Clean(c) ==>
      LastFeatures(ScrubAll(KeepClean(seen)) + [Scrub(c)])
        == if c[..4] == VP8X then Some(|ScrubAll(KeepClean(seen))|) else LastFeatures(ScrubAll(KeepClean(seen)))
    ensures if c[..4] == VP8X then |c| > WEBP_FEATURES_AT && Scrub(c) == c[WEBP_FEATURES_AT := ClearMetadataFlags(c[WEBP_FEATURES_AT])]
            else Scrub(c) == c
  {
    SeenFollows(seen, c, rest);
    SeenImage(seen, c);
    SeenKept(seen, c);
    if Clean(c) {
      SeenFeatures(ScrubAll(KeepClean(seen)), c);
    }
  }

  /** The loop of the service. */
  method StripWebpMetadata(input: Buffer, o: Orientation) returns (r: Result<Buffer, WebpError>)
    ensures r == Strip(input, o)
  {
    hide Chunks, KeepClean, ScrubAll, Scrub, IsChunk, LastFeatures, Concat, HasImage, ExifOrientationBlock, ClearMetadataFlags, SetExifFlag;
    var kept: seq<Buffer> := [];
    var keptImage := false;
    var features: Option<nat> := None;
    var offset := WEBP_HEADER;
    ghost var seen: seq<Buffer> := [];
    EmptyWalk(Chunks(input, WEBP_HEADER));
    while offset + 8 <= |input|
      invariant Chunks(input, WEBP_HEADER) == Follow(seen, Chunks(input, offset))
      invariant kept == ScrubAll(KeepClean(seen))
      invariant keptImage <==> HasImage(seen)
      invariant features == LastFeatures(kept)
      decreases |input| - offset
    {
      ChunkCases(input, offset);
      var chunkType := input[offset..offset + 4];
      var length := ReadU32LE(input, offset + 4);
      var end := offset + 8 + length + length % 2;
      if end > |input| {
        return Ok(input);
      }
      if chunkType == VP8X && length != WEBP_FEATURES_LENGTH {
        return Ok(input);
      }
      ghost var whole := input[offset..end];
      SeenChunk(seen, whole, Chunks(input, end));
      if CleanType(chunkType) {
        var chunk := input[offset..end];
        if chunkType == VP8X {
          chunk := chunk[WEBP_FEATURES_AT := ClearMetadataFlags(chunk[WEBP_FEATURES_AT])];
          features := Some(|kept|);
        }
        kept := kept + [chunk];
        keptImage := keptImage || ImageType(chunkType);
      }
      seen := seen + [whole];
      offset := end;
    }
    ChunkCases(input, offset);
    assert seen + [] == seen;
    if offset != |input| || !keptImage {
      return Ok(input);
    }
    if o != 1 {
      if features.None? {
        return Ok(input);
      }
      var chunk := kept[features.value];
      kept := kept[features.value := chunk[WEBP_FEATURES_AT := SetExifFlag(chunk[WEBP_FEATURES_AT])]];
      var tiff := WriteExifOrientationBlock(o);
      var header := EXIF + U32LE(|tiff[..]|);
      ConcatPush(kept, header);
      ConcatPush(kept + [header], tiff[..]);
      ConcatPush(kept, header + tiff[..]);
      assert kept + [header, tiff[..]] == kept + [header] + [tiff[..]];
      kept := kept + [header, tiff[..]];
    }
    var body := Concat(kept);
    assert body == Concat(Stripped(seen, o));
    if |body| + 4 >= 0x1_0000_0000 {
      return Err(SizeOutOfRange);
    }
    return Ok(input[..4] + U32LE(|body| + 4) + input[8..WEBP_HEADER] + body);
  }

  // ----- the laws -----

  lemma {:induction false} ChunksTile(x: Buffer, offset: nat)
    requires Chunks(x, offset).Some?
    ensures offset <= |x| && Concat(Chunks(x, offset).value) == x[offset..]
    ensures forall c :: c in Chunks(x, offset).value ==> IsChunk(c)
    decreases |x| - offset
  {
    ChunkCases(x, offset);
    if offset + 8 <= |x| {
      var length := ReadU32LE(x, offset + 4);
      var end := offset + 8 + length + length % 2;
      var c, rest := x[offset..end], Chunks(x, end).value;
      ChunksTile(x, end);
      assert Chunks(x, offset).value == [c] + rest;
      assert ([c] + rest)[1..] == rest;
      assert c + x[end..] == x[offset..];
    }
  }

  lemma FirstChunk(p: Buffer, c: Buffer, tail: Buffer)
    requires IsChunk(c)
    ensures Chunks(p + c + tail, |p|) == Follow([c], Chunks(p + c + tail, |p| + |c|))
  {
    hide Chunks;
    var x := p + c + tail;
    ChunkCases(x, |p|);
    assert x[|p|..|p| + |c|] == c;
    assert x[|p|..|p| + 4] == c[..4];
    assert x[|p| + 4] == c[4] && x[|p| + 5] == c[5] && x[|p| + 6] == c[6] && x[|p| + 7] == c[7];
  }

  /** Serialising complete chunks and walking them again gives the same chunks. */
  lemma {:induction false} ChunksOfConcat(p: Buffer, chunks: seq<Buffer>)
    requires forall c :: c in chunks ==> IsChunk(c)
    ensures Chunks(p + Concat(chunks), |p|) == Some(chunks)
    decreases |chunks|
  {
    hide Chunks;
    if chunks == [] {
      ChunkCases(p, |p|);
      assert p + Concat(chunks) == p;
    } else {
      var c, tail := chunks[0], Concat(chunks[1..]);
      assert c in chunks;
      assert p + Concat(chunks) == p + c + tail;
      FirstChunk(p, c, tail);
      ChunksOfConcat(p + c, chunks[1..]);
      assert [c] + chunks[1..] == chunks;
    }
  }

  lemma {:induction false} KeptChunks(chunks: seq<Buffer>, c: Buffer)
    ensures c in KeepClean(chunks) <==> c in chunks && Clean(c)
  {
    if chunks != [] {
      KeptChunks(chunks[1..], c);
      assert chunks == [chunks[0]] + chunks[1..];
    }
  }

  lemma {:induction false} KeepCleanOfClean(chunks: seq<Buffer>)
    requires forall i :: 0 <= i < |chunks| ==> Clean(chunks[i])
    ensures KeepClean(chunks) == chunks
  {
    if chunks != [] {
      KeepCleanOfClean(chunks[1..]);
      assert chunks == [chunks[0]] + chunks[1..];
    }
  }

  /** Two chunks with the same bytes, except for the metadata flags of a features chunk. */
  predicate SameButFlags(a: Buffer, b: Buffer) {
    || a == b
    || (IsFeatures(a) && IsFeatures(b)
      && b == a[WEBP_FEATURES_AT := b[WEBP_FEATURES_AT]]
      && ClearMetadataFlags(a[WEBP_FEATURES_AT]) == ClearMetadataFlags(b[WEBP_FEATURES_AT]))
  }

  predicate AllSameButFlags(a: seq<Buffer>, b: seq<Buffer>) {
    |a| == |b| && forall i :: 0 <= i < |a| ==> SameButFlags(a[i], b[i])
  }

  lemma SameButFlagsKeeps(a: Buffer, b: Buffer)
    requires SameButFlags(a, b)
    ensures |a| == |b| && Scrub(a) == Scrub(b)
    ensures IsChunk(a) ==> IsChunk(b)
    ensures Clean(a) <==> Clean(b)
    ensures IsImage(a) <==> IsImage(b)
    ensures IsFeatures(a) <==> IsFeatures(b)
  {
    if a != b {
      assert a[..4] == b[..4];
      assert ReadU32LE(a, 4) == ReadU32LE(b, 4);
      assert Scrub(a) == Scrub(b);
    }
  }

  lemma NibbleArithmetic(high: int, middle: int, low: int)
    requires 0 <= high < 16 && 0 <= middle < 4 && 0 <= low < 4
    ensures var b := 16 * high + 4 * middle + low;
      b / 16 == high && b % 16 == 4 * middle + low && b % 4 == low && b / 8 % 2 == middle / 2
  {
  }

  lemma FlagArithmetic(b: Byte)
    ensures ClearMetadataFlags(ClearMetadataFlags(b)) == ClearMetadataFlags(b)
    ensures ClearMetadataFlags(SetExifFlag(b)) == ClearMetadataFlags(b)
  {
    var high, middle, low := b as int / 16, b as int % 16 / 4, b as int % 4;
    NibbleArithmetic(high, middle, low);
    NibbleArithmetic(high, 0, low);
    assert b as int == 16 * high + 4 * middle + low;
    if b / 8 % 2 != 1 {
      assert middle < 2;
      NibbleArithmetic(high, middle + 2, low);
    }
  }

  lemma FlagsOnly(c: Buffer)
    ensures SameButFlags(c, Scrub(c)) && Scrub(Scrub(c)) == Scrub(c)
    ensures IsFeatures(c) ==> SameButFlags(c, c[WEBP_FEATURES_AT := SetExifFlag(c[WEBP_FEATURES_AT])])
  {
    if IsFeatures(c) {
      hide ClearMetadataFlags, SetExifFlag;
      FlagArithmetic(c[WEBP_FEATURES_AT]);
      assert Scrub(c)[..4] == c[..4];
      var d := c[WEBP_FEATURES_AT := SetExifFlag(c[WEBP_FEATURES_AT])];
      assert d[..4] == c[..4];
    }
  }

  /** A chunk that is scrubbed and perhaps announces EXIF. */
  lemma KeptChunk(c: Buffer, kept: Buffer)
    requires || kept == Scrub(c)
             || (IsFeatures(Scrub(c)) && kept == Scrub(c)[WEBP_FEATURES_AT := SetExifFlag(Scrub(c)[WEBP_FEATURES_AT])])
    ensures SameButFlags(c, kept) && Scrub(kept) == Scrub(c)
  {
    FlagsOnly(c);
    if kept != Scrub(c) {
      FlagsOnly(Scrub(c));
    }
    SameButFlagsKeeps(c, kept);
  }

  /** The chunks kept, flags aside, are the clean chunks of the input byte for byte in order. */
  lemma KeptPart(chunks: seq<Buffer>, o: Orientation) returns (kept: seq<Buffer>)
    ensures Stripped(chunks, o) == kept + if o == 1 then [] else [ExifChunk(o)]
    ensures AllSameButFlags(KeepClean(chunks), kept)
    ensures ScrubAll(kept) == ScrubAll(KeepClean(chunks))
  {
    hide KeepClean, SameButFlags, Scrub, IsFeatures, SetExifFlag;
    var scrubbed := ScrubAll(KeepClean(chunks));
    kept := if o == 1 then scrubbed else AnnounceExif(scrubbed);
    forall i | 0 <= i < |kept|
      ensures SameButFlags(KeepClean(chunks)[i], kept[i]) && Scrub(kept[i]) == scrubbed[i]
    {
      KeptChunk(KeepClean(chunks)[i], kept[i]);
    }
  }

  lemma FramedHeader(x: Buffer, body: Buffer)
    requires |x| >= WEBP_HEADER && |body| + 4 < 0x1_0000_0000
    ensures var y := Framed(x, body);
      && |y| == WEBP_HEADER + |body| && y == y[..WEBP_HEADER] + body
      && y[..4] == x[..4] && y[8..WEBP_HEADER] == x[8..WEBP_HEADER]
      && ReadU32LE(y, 4) + 8 == |y|
  {
    var y := Framed(x, body);
    assert y[4..8] == U32LE(|body| + 4);
    assert ReadU32LE(y, 4) == ReadU32LE(y[4..8], 0);
  }

  lemma ExifIsChunk(o: Orientation)
    ensures IsChunk(ExifChunk(o)) && !Clean(ExifChunk(o)) && |ExifChunk(o)| == 34
  {
    var c := ExifChunk(o);
    assert c[..4] == EXIF;
    assert c[4..8] == U32LE(26);
    assert ReadU32LE(c, 4) == ReadU32LE(U32LE(26), 0);
  }

  lemma StrippedAreChunks(x: Buffer, o: Orientation)
    requires Chunks(x, WEBP_HEADER).Some?
    ensures forall c :: c in Stripped(Chunks(x, WEBP_HEADER).value, o) ==> IsChunk(c)
  {
    hide Stripped, Chunks;
    var chunks := Chunks(x, WEBP_HEADER).value;
    ChunksTile(x, WEBP_HEADER);
    var kept := KeptPart(chunks, o);
    ExifIsChunk(o);
    forall c | c in kept
      ensures IsChunk(c)
    {
      var i :| 0 <= i < |kept| && kept[i] == c;
      KeptChunks(chunks, KeepClean(chunks)[i]);
      SameButFlagsKeeps(KeepClean(chunks)[i], kept[i]);
    }
  }

  /** The stripped file walks to exactly the stripped chunks and keeps the two header words. */
  lemma StrippedContents(x: Buffer, o: Orientation)
    requires Rewrites(x, o) && Strip(x, o).Ok?
    ensures |x| >= WEBP_HEADER && |Strip(x, o).value| >= WEBP_HEADER
    ensures var (y, chunks) := (Strip(x, o).value, Chunks(x, WEBP_HEADER).value);
      && y[..4] == x[..4] && y[8..WEBP_HEADER] == x[8..WEBP_HEADER]
      && ReadU32LE(y, 4) + 8 == |y|
      && Chunks(y, WEBP_HEADER) == Some(Stripped(chunks, o))
  {
    hide Chunks, Stripped, HasImage, LastFeatures, Concat;
    var chunks := Chunks(x, WEBP_HEADER).value;
    var stripped := Stripped(chunks, o);
    assert |x| >= WEBP_HEADER;
    assert Strip(x, o) == Ok(Framed(x, Concat(stripped)));
    hide *;
    StrippedAreChunks(x, o);
    FramedHeader(x, Concat(stripped));
    ChunksOfConcat(Framed(x, Concat(stripped))[..WEBP_HEADER], stripped);
  }

  /** Stripping the stripped chunks again, for any orientation, forgets the first stripping. */
  lemma StrippedAgain(chunks: seq<Buffer>, o: Orientation, p: Orientation)
    ensures Stripped(Stripped(chunks, o), p) == Stripped(chunks, p)
    ensures ScrubAll(KeepClean(Stripped(chunks, o))) == ScrubAll(KeepClean(chunks))
  {
    var kept := KeptPart(chunks, o);
    ExifIsChunk(o);
    forall i | 0 <= i < |kept|
      ensures Clean(kept[i])
    {
      KeptChunks(chunks, KeepClean(chunks)[i]);
      SameButFlagsKeeps(KeepClean(chunks)[i], kept[i]);
    }
    KeepCleanAppend(kept, if o == 1 then [] else [ExifChunk(o)]);
    KeepCleanOfClean(kept);
    assert KeepClean([ExifChunk(o)]) == [];
    assert KeepClean(Stripped(chunks, o)) == kept;
  }

  lemma StrippedHasImage(x: Buffer, o: Orientation)
    requires Chunks(x, WEBP_HEADER).Some? && HasImage(Chunks(x, WEBP_HEADER).value)
    ensures HasImage(Stripped(Chunks(x, WEBP_HEADER).value, o))
  {
    var chunks := Chunks(x, WEBP_HEADER).value;
    var kept := KeptPart(chunks, o);
    var c :| c in chunks && IsImage(c);
    KeptChunks(chunks, c);
    var i :| 0 <= i < |KeepClean(chunks)| && KeepClean(chunks)[i] == c;
    SameButFlagsKeeps(c, kept[i]);
    assert kept[i] in Stripped(chunks, o);
  }

  lemma StripAbsorbsOne(x: Buffer, o: Orientation, p: Orientation)
    requires Rewrites(x, o) && Strip(x, o).Ok?
    ensures Rewrites(Strip(x, o).value, p) <==> Rewrites(x, p)
    ensures Rewrites(x, p) ==> Strip(Strip(x, o).value, p) == Strip(x, p)
  {
    hide Chunks, Stripped, HasImage, LastFeatures;
    var chunks := Chunks(x, WEBP_HEADER).value;
    StrippedContents(x, o);
    StrippedHasImage(x, o);
    StrippedAgain(chunks, o, p);
  }

  /** Absorption: whatever the stripper does to the input it does to its own output, so stripping is
      idempotent, and stripping for the upright orientation undoes any orientation kept before. */
  lemma StripAbsorbs(x: Buffer, o: Orientation, p: Orientation)
    requires Strip(x, o).Ok?
    ensures var y := Strip(x, o).value;
      && (Rewrites(y, p) <==> Rewrites(x, p))
      && (Rewrites(x, p) ==> Strip(y, p) == Strip(x, p))
      && Strip(y, o) == Strip(x, o)
      && Strip(y, 1) == Strip(x, 1)
  {
    if Rewrites(x, o) {
      StripAbsorbsOne(x, o, p);
      StripAbsorbsOne(x, o, o);
      StripAbsorbsOne(x, o, 1);
    }
  }

  lemma {:induction false} KeepCleanLength(chunks: seq<Buffer>)
    ensures |Concat(KeepClean(chunks))| <= |Concat(chunks)|
  {
    if chunks != [] {
      KeepCleanLength(chunks[1..]);
      if Clean(chunks[0]) {
        assert ([chunks[0]] + KeepClean(chunks[1..]))[1..] == KeepClean(chunks[1..]);
      } else {
        assert [] + KeepClean(chunks[1..]) == KeepClean(chunks[1..]);
      }
    }
  }

  lemma {:induction false} ScrubLength(chunks: seq<Buffer>)
    ensures |Concat(ScrubAll(chunks))| == |Concat(chunks)|
  {
    if chunks != [] {
      ScrubLength(chunks[1..]);
      assert ScrubAll(chunks)[1..] == ScrubAll(chunks[1..]);
    }
  }

  /** Without an orientation to keep, a rewritten file is no longer than its input. */
  lemma UprightNoLonger(x: Buffer)
    requires Strip(x, 1).Ok?
    ensures |Strip(x, 1).value| <= |x|
  {
    if Rewrites(x, 1) {
      var chunks := Chunks(x, WEBP_HEADER).value;
      ChunksTile(x, WEBP_HEADER);
      KeepCleanLength(chunks);
      ScrubLength(KeepClean(chunks));
    }
  }

  // ----- the walk that recognises a clean file -----

  predicate CleanFrom(x: Buffer, offset: nat)
    decreases |x| - offset
  {
    if offset + 8 > |x| then offset == |x|
    else
      var length := ReadU32LE(x, offset + 4);
      && CleanType(x[offset..offset + 4])
      && !(x[offset..offset + 4] == VP8X && length != WEBP_FEATURES_LENGTH)
      && CleanFrom(x, offset + 8 + length + length % 2)
  }

  /** The walk accepts exactly the files that complete chunks of allowed types tile. */
  lemma {:induction false} CleanMeaning(x: Buffer, offset: nat)
    ensures CleanFrom(x, offset)
       <==> Chunks(x, offset).Some? && forall c :: c in Chunks(x, offset).value ==> Clean(c)
    decreases |x| - offset
  {
    ChunkCases(x, offset);
    if offset + 8 <= |x| {
      var length := ReadU32LE(x, offset + 4);
      var end := offset + 8 + length + length % 2;
      CleanMeaning(x, end);
      if end <= |x| && Chunks(x, offset).Some? {
        var c := x[offset..end];
        assert c in Chunks(x, offset).value;
        assert forall d :: d in Chunks(x, offset).value <==> d == c || d in Chunks(x, end).value;
      }
    }
  }

  /** Reading the size of a file shorter than eight bytes throws. */
  method CarriesOnlyAllowedTypes(input: Buffer) returns (r: Result<bool, WebpError>)
    ensures |input| < 8 ==> r == Err(ReadOutOfRange)
    ensures |input| >= 8 ==>
      r == Ok(ReadU32LE(input, 4) + 8 == |input| && Chunks(input, WEBP_HEADER).Some?
              && forall c :: c in Chunks(input, WEBP_HEADER).value ==> Clean(c))
  {
    if |input| < 8 {
      return Err(ReadOutOfRange);
    }
    if ReadU32LE(input, 4) + 8 != |input| {
      return Ok(false);
    }
    var offset := WEBP_HEADER;
    CleanMeaning(input, offset);
    while offset + 8 <= |input|
      invariant CleanFrom(input, WEBP_HEADER) == CleanFrom(input, offset)
      decreases |input| - offset
    {
      var chunkType := input[offset..offset + 4];
      if !CleanType(chunkType) {
        return Ok(false);
      }
      var length := ReadU32LE(input, offset + 4);
      if chunkType == VP8X && length != WEBP_FEATURES_LENGTH {
        return Ok(false);
      }
      offset := offset + 8 + length + length % 2;
    }
    return Ok(offset == |input|);
  }

  /** A rewritten upright file passes the walk. */
  lemma UprightIsClean(x: Buffer)
    requires Rewrites(x, 1) && Strip(x, 1).Ok?
    ensures var y := Strip(x, 1).value;
      && |y| >= 8 && ReadU32LE(y, 4) + 8 == |y| && Chunks(y, WEBP_HEADER).Some?
      && forall c :: c in Chunks(y, WEBP_HEADER).value ==> Clean(c)
  {
    hide Chunks;
    StrippedContents(x, 1);
    var chunks := Chunks(x, WEBP_HEADER).value;
    var kept := KeptPart(chunks, 1);
    forall c | c in kept
      ensures Clean(c)
    {
      var i :| 0 <= i < |kept| && kept[i] == c;
      KeptChunks(chunks, KeepClean(chunks)[i]);
      SameButFlagsKeeps(KeepClean(chunks)[i], kept[i]);
    }
  }
}
