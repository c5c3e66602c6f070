/** The lossless JPEG metadata rewriter of the conversion worker
    (apps/conversion-worker/src/app/pipeline/image-compressor.service.ts), over the marker segments
    of ITU-T T.81, sections B.1.1.2 and B.1.1.4. */
module JpegRewriter {
  import opened Prelude
  import opened Bytes
  import opened ExifOrientation

  const APP0: Byte := 0xe0
  const APP1: Byte := 0xe1
  const APP2: Byte := 0xe2
  const APP14: Byte := 0xee
  const APP15: Byte := 0xef
  const COMMENT: Byte := 0xfe
  const SCAN: Byte := 0xda
  const FILL: Byte := 0xff
  const ICC_PREFIX: Buffer := [0x49, 0x43, 0x43, 0x5f, 0x50, 0x52, 0x4f, 0x46, 0x49, 0x4c, 0x45, 0]
  const ADOBE_PREFIX: Buffer := [0x41, 0x64, 0x6f, 0x62, 0x65]
  const EXIF_PREFIX: Buffer := [0x45, 0x78, 0x69, 0x66, 0, 0]
  const JFIF_PREFIX: Buffer := [0x4a, 0x46, 0x49, 0x46, 0]
  const JFIF_FIXED_LENGTH := 14
  const JFIF_THUMB_AT := 12
  datatype JpegError = MarkerExpected | EndNotFound | ScanNotFound

  /** The marker segments before the scan, each from its marker to its last byte, and the scan from
      its marker to the first end marker. */
  datatype Jpeg = Jpeg(segments: seq<Buffer>, scan: Buffer)

  // ----- the orientation segment -----

  /** The APP1 segment that carries an orientation, or nothing for the upright one. */
  function OrientationSegments(o: Orientation): seq<Buffer> {
    if o == 1 then []
    else
      var body := EXIF_PREFIX + ExifOrientationBlock(o);
      [[0xff, APP1] + U16BE(|body| + 2) + body]
  }

  // ----- which segments stay -----

  /** A JFIF segment whose length is exactly what its thumbnail size declares. */
  predicate IsCanonicalJfif(payload: Buffer) {
    && Subarray(payload, 0, |JFIF_PREFIX|) == JFIF_PREFIX
    && |payload| > JFIF_THUMB_AT + 1
    && |payload| == JFIF_FIXED_LENGTH + 3 * payload[JFIF_THUMB_AT] as int * payload[JFIF_THUMB_AT + 1] as int
  }

  predicate HasPrefix(payload: Buffer, prefix: Buffer) {
    Subarray(payload, 0, |prefix|) == prefix
  }

  predicate AllowedPayload(marker: Byte, payload: Buffer) {
    || (!(APP0 <= marker <= APP15) && marker != COMMENT)
    || (marker == APP0 && IsCanonicalJfif(payload))
    || (marker == APP2 && HasPrefix(payload, ICC_PREFIX))
    || (marker == APP14 && HasPrefix(payload, ADOBE_PREFIX))
  }

  /** Application segments and comments go, except the three that a decoder needs. */
  predicate Allowed(segment: Buffer) {
    |segment| >= 2 && AllowedPayload(segment[1], Subarray(segment, 4, |segment|))
  }

  function KeepAllowed(segments: seq<Buffer>): seq<Buffer> {
    if segments == [] then []
    else (if Allowed(segments[0]) then [segments[0]] else []) + KeepAllowed(segments[1..])
  }

  // ----- parsing -----

  /** The place of the first end marker at or after `from`. */
  function IndexOfEnd(x: Buffer, from: nat): (at: Option<nat>)
    ensures at.Some? ==> from <= at.value && at.value + 2 <= |x| && x[at.value] == 0xff && x[at.value + 1] == 0xd9
    decreases |x| - from
  {
    if from + 2 > |x| then None
    else if x[from] == 0xff && x[from + 1] == 0xd9 then Some(from)
    else IndexOfEnd(x, from + 1)
  }

  function WithSegments(segments: seq<Buffer>, rest: Result<Jpeg, JpegError>): Result<Jpeg, JpegError> {
    match rest
    case Err(error) => Err(error)
    case Ok(jpeg) => Ok(Jpeg(segments + jpeg.segments, jpeg.scan))
  }

  function Parse(x: Buffer, offset: nat): Result<Jpeg, JpegError>
    decreases |x| - offset
  {
    if offset + 4 > |x| then Err(ScanNotFound)
    else if x[offset] != 0xff then Err(MarkerExpected)
    else if x[offset + 1] == FILL then Parse(x, offset + 1)
    else if x[offset + 1] == SCAN then
      match IndexOfEnd(x, offset)
      case None => Err(EndNotFound)
      case Some(end) => Ok(Jpeg([], x[offset..end + 2]))
    else
      var segment := Subarray(x, offset, offset + 2 + ReadU16BE(x, offset + 2));
      WithSegments([segment], Parse(x, offset + |segment|))
  }

  function Metadata(o: Orientation, segments: seq<Buffer>): Buffer {
    Concat(OrientationSegments(o) + KeepAllowed(segments))
  }

  /** The rewritten file: the start marker, the orientation, the allowed segments and the scan. */
  function Rewrite(x: Buffer, o: Orientation): Result<Buffer, JpegError> {
    match Parse(x, 2)
    case Err(error) => Err(error)
    case Ok(jpeg) => Ok(Subarray(x, 0, 2) + Metadata(o, jpeg.segments) + jpeg.scan)
  }

  lemma {:induction false} KeepAllowedAppend(a: seq<Buffer>, b: seq<Buffer>)
    ensures KeepAllowed(a + b) == KeepAllowed(a) + KeepAllowed(b)
  {
    if a == [] {
      assert a + b == b;
    } else {
      assert (a + b)[1..] == a[1..] + b;
      KeepAllowedAppend(a[1..], b);
    }
  }

  method OrientationParts(o: Orientation) returns (header: Buffer, body: Buffer)
    requires o != 1
    ensures [header + body] == OrientationSegments(o)
  {
    var tiff := WriteExifOrientationBlock(o);
    body := EXIF_PREFIX + tiff[..];
    header := [0xff, APP1] + U16BE(|body| + 2);
  }

  lemma StartOfWalk(input: Buffer, o: Orientation, kept: seq<Buffer>)
    requires o == 1 ==> kept == [Subarray(input, 0, 2)]
    requires o != 1 ==> |kept| == 3 && kept[0] == Subarray(input, 0, 2) && [kept[1] + kept[2]] == OrientationSegments(o)
    ensures Parse(input, 2) == WithSegments([], Parse(input, 2))
    ensures Concat(kept) == Subarray(input, 0, 2) + Metadata(o, [])
  {
    if Parse(input, 2).Ok? {
      assert [] + Parse(input, 2).value.segments == Parse(input, 2).value.segments;
    }
    assert OrientationSegments(o) + KeepAllowed([]) == OrientationSegments(o);
    ConcatPush([], Subarray(input, 0, 2));
    if o == 1 {
      assert kept == [] + [Subarray(input, 0, 2)];
    } else {
      assert kept == [kept[0], kept[1], kept[2]];
      ConcatThree(kept[0], kept[1], kept[2]);
    }
  }

  lemma EndOfWalk(input: Buffer, o: Orientation, seen: seq<Buffer>, scan: Buffer)
    requires Parse(input, 2) == WithSegments(seen, Ok(Jpeg([], scan)))
    ensures Rewrite(input, o) == Ok(Subarray(input, 0, 2) + Metadata(o, seen) + scan)
  {
    assert seen + [] == seen;
  }

  lemma MetadataPush(o: Orientation, seen: seq<Buffer>, segment: Buffer)
    ensures Metadata(o, seen + [segment]) == Metadata(o, seen) + if Allowed(segment) then segment else []
  {
    KeepAllowedAppend(seen, [segment]);
    var before := OrientationSegments(o) + KeepAllowed(seen);
    if Allowed(segment) {
      assert KeepAllowed([segment]) == [segment];
      ConcatPush(before, segment);
      assert before + [segment] == OrientationSegments(o) + KeepAllowed(seen + [segment]);
    } else {
      assert KeepAllowed([segment]) == [];
      assert before == OrientationSegments(o) + KeepAllowed(seen + [segment]);
    }
  }

  /** What the walk finds at an offset, case by case. */
  lemma ParseCases(x: Buffer, offset: nat)
    ensures offset + 4 > |x| ==> Parse(x, offset) == Err(ScanNotFound)
    ensures offset + 4 <= |x| && x[offset] != 0xff ==> Parse(x, offset) == Err(MarkerExpected)
    ensures offset + 4 <= |x| && x[offset] == 0xff && x[offset + 1] == FILL ==> Parse(x, offset) == Parse(x, offset + 1)
    ensures offset + 4 <= |x| && x[offset] == 0xff && x[offset + 1] == SCAN ==>
      Parse(x, offset) == match IndexOfEnd(x, offset)
        case None => Err(EndNotFound)
        case Some(end) => Ok(Jpeg([], x[offset..end + 2]))
    ensures offset + 4 <= |x| && x[offset] == 0xff && x[offset + 1] != FILL && x[offset + 1] != SCAN ==>
      var segment := Subarray(x, offset, offset + 2 + ReadU16BE(x, offset + 2));
      |segment| > 0 && Parse(x, offset) == WithSegments([segment], Parse(x, offset + |segment|))
  {
  }

  lemma SeenSegment(seen: seq<Buffer>, segment: Buffer, rest: Result<Jpeg, JpegError>)
    ensures WithSegments(seen, WithSegments([segment], rest)) == WithSegments(seen + [segment], rest)
  {
    if rest.Ok? {
      assert seen + ([segment] + rest.value.segments) == seen + [segment] + rest.value.segments;
    }
  }

  /** The walk of the service, segment by segment. */
  method RewriteJpegMetadata(input: Buffer, o: Orientation) returns (r: Result<Buffer, JpegError>)
    ensures r == Rewrite(input, o)
  {
    hide Parse, Metadata, Allowed, Concat, OrientationSegments;
    var kept := [Subarray(input, 0, 2)];
    if o != 1 {
      var header, body := OrientationParts(o);
      kept := kept + [header, body];
    }
    StartOfWalk(input, o, kept);
    ghost var seen: seq<Buffer> := [];
    var offset := 2;
    while offset + 4 <= |input|
      invariant Parse(input, 2) == WithSegments(seen, Parse(input, offset))
      invariant Concat(kept) == Subarray(input, 0, 2) + Metadata(o, seen)
      decreases |input| - offset
    {
      ParseCases(input, offset);
      if input[offset] != 0xff {
        return Err(MarkerExpected);
      }
      var marker := input[offset + 1];
      if marker == FILL {
        offset := offset + 1;
        continue;
      }
      if marker == SCAN {
        var end := IndexOfEnd(input, offset);
        if end.None? {
          return Err(EndNotFound);
        }
        ConcatPush(kept, input[offset..end.value + 2]);
        kept := kept + [input[offset..end.value + 2]];
        EndOfWalk(input, o, seen, input[offset..end.value + 2]);
        return Ok(Concat(kept));
      }
      var segment := Subarray(input, offset, offset + 2 + ReadU16BE(input, offset + 2));
      SeenSegment(seen, segment, Parse(input, offset + |segment|));
      MetadataPush(o, seen, segment);
      if Allowed(segment) {
        ConcatPush(kept, segment);
        kept := kept + [segment];
      }
      seen := seen + [segment];
      offset := offset + |segment|;
    }
    ParseCases(input, offset);
    return Err(ScanNotFound);
  }

  // ----- the laws -----

  /** A complete marker segment: its length field counts exactly its bytes after the marker. */
  predicate IsSegment(s: Buffer) {
    |s| >= 4 && s[0] == 0xff && s[1] != FILL && s[1] != SCAN && |s| == 2 + ReadU16BE(s, 2)
  }

  /** A complete scan: it starts with the scan marker and its first end marker is its end. */
  predicate IsScan(s: Buffer) {
    |s| >= 4 && s[0] == 0xff && s[1] == SCAN && IndexOfEnd(s, 0) == Some(|s| - 2)
  }

  lemma {:induction false} IndexOfEndShift(p: Buffer, s: Buffer, from: nat)
    requires from <= |s|
    ensures IndexOfEnd(p + s, |p| + from)
         == match IndexOfEnd(s, from) { case None => None case Some(at) => Some(|p| + at) }
    decreases |s| - from
  {
    if from + 2 <= |s| {
      assert (p + s)[|p| + from] == s[from] && (p + s)[|p| + from + 1] == s[from + 1];
      IndexOfEndShift(p, s, from + 1);
    }
  }

  /** The first end marker does not depend on what follows it. */
  lemma {:induction false} IndexOfEndPrefix(s: Buffer, from: nat, end: nat)
    requires IndexOfEnd(s, from) == Some(end)
    ensures IndexOfEnd(s[..end + 2], from) == Some(end)
    decreases |s| - from
  {
    if from < end {
      IndexOfEndPrefix(s, from + 1, end);
    }
  }

  lemma EndOfSlice(x: Buffer, offset: nat, end: nat)
    requires IndexOfEnd(x, offset) == Some(end)
    ensures IndexOfEnd(x[offset..end + 2], 0) == Some(end - offset)
  {
    hide IndexOfEnd;
    IndexOfEndPrefix(x, offset, end);
    assert x[..offset] + x[offset..end + 2] == x[..end + 2];
    IndexOfEndShift(x[..offset], x[offset..end + 2], 0);
  }

  /** A length field below two would make the next marker start inside the field itself. */
  lemma FollowedSegment(x: Buffer, offset: nat, length: nat)
    requires offset + 4 <= |x| && x[offset] == 0xff && x[offset + 1] != FILL && x[offset + 1] != SCAN
    requires length == 2 + ReadU16BE(x, offset + 2) && offset + length < |x| && x[offset + length] == 0xff
    ensures IsSegment(Subarray(x, offset, offset + length))
  {
    var s := x[offset..offset + length];
    assert length >= 4 by {
      assert x[offset + 2] == 0 ==> length == 2 + x[offset + 3] as int;
    }
    assert s[2] == x[offset + 2] && s[3] == x[offset + 3];
  }

  lemma ParsedSegmentShape(x: Buffer, offset: nat)
    requires Parse(x, offset).Ok? && x[offset + 1] != FILL && x[offset + 1] != SCAN
    ensures IsSegment(Subarray(x, offset, offset + 2 + ReadU16BE(x, offset + 2)))
  {
    ParseCases(x, offset);
    var length := 2 + ReadU16BE(x, offset + 2);
    var next := offset + |Subarray(x, offset, offset + length)|;
    ParseCases(x, next);
    hide Parse;
    assert next + 4 <= |x| && x[next] == 0xff;
    assert next == offset + length;
    FollowedSegment(x, offset, length);
  }

  lemma ParsedScanShape(x: Buffer, offset: nat)
    requires Parse(x, offset).Ok? && x[offset + 1] == SCAN
    ensures Parse(x, offset).value.segments == [] && IsScan(Parse(x, offset).value.scan)
  {
    ParseCases(x, offset);
    hide Parse, IndexOfEnd;
    var end := IndexOfEnd(x, offset).value;
    var scan := x[offset..end + 2];
    assert end > offset + 1;
    assert scan[0] == 0xff && scan[1] == SCAN;
    EndOfSlice(x, offset, end);
  }

  /** Only complete segments survive a successful parse: a truncated or short one makes the walk
      fail right behind it. */
  lemma {:induction false} ParsedShapes(x: Buffer, offset: nat)
    requires Parse(x, offset).Ok?
    ensures forall s :: s in Parse(x, offset).value.segments ==> IsSegment(s)
    ensures IsScan(Parse(x, offset).value.scan)
    decreases |x| - offset
  {
    ParseCases(x, offset);
    hide Parse, IsSegment, IsScan;
    if x[offset + 1] == FILL {
      ParsedShapes(x, offset + 1);
    } else if x[offset + 1] == SCAN {
      ParsedScanShape(x, offset);
    } else {
      var segment := Subarray(x, offset, offset + 2 + ReadU16BE(x, offset + 2));
      ParsedSegmentShape(x, offset);
      assert Parse(x, offset) == WithSegments([segment], Parse(x, offset + |segment|));
      ParsedShapes(x, offset + |segment|);
    }
  }

  lemma ParseScanAlone(p: Buffer, scan: Buffer)
    requires IsScan(scan)
    ensures Parse(p + scan, |p|) == Ok(Jpeg([], scan))
  {
    hide Parse, IndexOfEnd;
    var x := p + scan;
    ParseCases(x, |p|);
    assert x[|p|] == scan[0] && x[|p| + 1] == scan[1];
    IndexOfEndShift(p, scan, 0);
    assert x[|p|..|p| + |scan|] == scan;
  }

  lemma ParseFirstSegment(p: Buffer, s: Buffer, tail: Buffer)
    requires IsSegment(s)
    ensures Parse(p + s + tail, |p|) == WithSegments([s], Parse(p + s + tail, |p| + |s|))
  {
    hide Parse;
    var x := p + s + tail;
    ParseCases(x, |p|);
    assert x[|p|..|p| + |s|] == s;
    assert x[|p|] == s[0] && x[|p| + 1] == s[1] && x[|p| + 2] == s[2] && x[|p| + 3] == s[3];
  }

  /** Serialising and parsing again gives the same segments and scan. */
  lemma {:induction false} ParseSerialized(p: Buffer, segments: seq<Buffer>, scan: Buffer)
    requires forall s :: s in segments ==> IsSegment(s)
    requires IsScan(scan)
    ensures Parse(p + Concat(segments) + scan, |p|) == Ok(Jpeg(segments, scan))
    decreases |segments|
  {
    hide Parse, IsSegment, IsScan;
    if segments == [] {
      assert p + Concat(segments) + scan == p + scan;
      ParseScanAlone(p, scan);
    } else {
      var s, tail := segments[0], Concat(segments[1..]);
      assert s in segments;
      assert p + Concat(segments) + scan == p + s + (tail + scan) == (p + s) + tail + scan;
      ParseFirstSegment(p, s, tail + scan);
      ParseSerialized(p + s, segments[1..], scan);
      assert [s] + segments[1..] == segments;
    }
  }

  lemma {:induction false} KeptSegments(segments: seq<Buffer>, s: Buffer)
    ensures s in KeepAllowed(segments) <==> s in segments && Allowed(s)
  {
    if segments != [] {
      KeptSegments(segments[1..], s);
      assert segments == [segments[0]] + segments[1..];
    }
  }

  lemma {:induction false} KeepAllowedIdempotent(segments: seq<Buffer>)
    requires forall s :: s in segments ==> Allowed(s)
    ensures KeepAllowed(segments) == segments
  {
    if segments != [] {
      KeepAllowedIdempotent(segments[1..]);
      assert segments == [segments[0]] + segments[1..];
    }
  }

  lemma {:induction false} KeepAllowedDropsAll(segments: seq<Buffer>)
    requires forall s :: s in segments ==> !Allowed(s)
    ensures KeepAllowed(segments) == []
  {
    if segments != [] {
      KeepAllowedDropsAll(segments[1..]);
    }
  }

  lemma OrientationIsSegment(o: Orientation, s: Buffer)
    requires s in OrientationSegments(o)
    ensures IsSegment(s) && !Allowed(s)
  {
  }

  lemma KeptAreSegments(segments: seq<Buffer>, o: Orientation)
    requires forall s :: s in segments ==> IsSegment(s)
    ensures forall s :: s in OrientationSegments(o) + KeepAllowed(segments) ==> IsSegment(s)
  {
    forall s | s in OrientationSegments(o) + KeepAllowed(segments)
      ensures IsSegment(s)
    {
      if s in OrientationSegments(o) {
        OrientationIsSegment(o, s);
      } else {
        KeptSegments(segments, s);
      }
    }
  }

  lemma RewriteShape(x: Buffer, o: Orientation)
    requires Rewrite(x, o).Ok?
    ensures Parse(x, 2).Ok? && |x| >= 2
    ensures var jpeg := Parse(x, 2).value;
      Rewrite(x, o).value == x[..2] + Concat(OrientationSegments(o) + KeepAllowed(jpeg.segments)) + jpeg.scan
  {
    hide OrientationSegments, KeepAllowed, Concat;
    ParseCases(x, 2);
  }

  /** What a rewritten file contains: the same start, one orientation segment if any, exactly the
      allowed segments of the input in their order, and the same scan bytes. */
  lemma RewrittenContents(x: Buffer, o: Orientation)
    requires Rewrite(x, o).Ok?
    ensures Parse(x, 2).Ok? && |x| >= 2
    ensures var (y, jpeg) := (Rewrite(x, o).value, Parse(x, 2).value);
      && y[..2] == x[..2]
      && Parse(y, 2) == Ok(Jpeg(OrientationSegments(o) + KeepAllowed(jpeg.segments), jpeg.scan))
  {
    hide *;
    RewriteShape(x, o);
    var jpeg := Parse(x, 2).value;
    ParsedShapes(x, 2);
    KeptAreSegments(jpeg.segments, o);
    ParseSerialized(x[..2], OrientationSegments(o) + KeepAllowed(jpeg.segments), jpeg.scan);
  }

  /** Absorption: a second rewrite, with any orientation, acts as if the first had not happened. */
  lemma RewriteAbsorbs(x: Buffer, o: Orientation, p: Orientation)
    requires Rewrite(x, o).Ok?
    ensures Rewrite(Rewrite(x, o).value, p).Ok?
    ensures Rewrite(Rewrite(x, o).value, p) == Rewrite(x, p)
  {
    RewrittenContents(x, o);
    var segments := Parse(x, 2).value.segments;
    KeepAllowedAppend(OrientationSegments(o), KeepAllowed(segments));
    KeepAllowedDropsAll(OrientationSegments(o));
    forall s
      ensures s in KeepAllowed(segments) ==> Allowed(s)
    {
      KeptSegments(segments, s);
    }
    KeepAllowedIdempotent(KeepAllowed(segments));
    assert [] + KeepAllowed(segments) == KeepAllowed(segments);
  }

  lemma ParsedPiece(x: Buffer, offset: nat, segment: Buffer, rest: Jpeg)
    requires offset + |segment| <= |x| && segment == x[offset..offset + |segment|]
    ensures Concat([segment] + rest.segments) == segment + Concat(rest.segments)
    ensures Concat(rest.segments) + rest.scan == x[offset + |segment|..] ==>
      Concat([segment] + rest.segments) + rest.scan == x[offset..]
  {
    assert ([segment] + rest.segments)[1..] == rest.segments;
    assert segment + Concat(rest.segments) + rest.scan == segment + (Concat(rest.segments) + rest.scan);
    assert x[offset..] == segment + x[offset + |segment|..];
  }

  /** The parsed bytes never exceed the input, and reach it only by tiling it exactly. */
  lemma {:induction false} ParsedLength(x: Buffer, offset: nat)
    requires Parse(x, offset).Ok?
    ensures var jpeg := Parse(x, offset).value;
      var n := |Concat(jpeg.segments)| + |jpeg.scan|;
      && n <= |x| - offset
      && (n == |x| - offset ==> Concat(jpeg.segments) + jpeg.scan == x[offset..])
    decreases |x| - offset
  {
    ParseCases(x, offset);
    hide Parse, ReadU16BE;
    if x[offset + 1] == FILL {
      ParsedLength(x, offset + 1);
    } else if x[offset + 1] != SCAN {
      var segment := Subarray(x, offset, offset + 2 + ReadU16BE(x, offset + 2));
      ParsedLength(x, offset + |segment|);
      ParsedPiece(x, offset, segment, Parse(x, offset + |segment|).value);
    }
  }

  lemma {:induction false} KeepAllowedLength(segments: seq<Buffer>)
    requires forall s :: s in segments ==> |s| >= 2
    ensures |Concat(KeepAllowed(segments))| <= |Concat(segments)|
    ensures |Concat(KeepAllowed(segments))| == |Concat(segments)| ==> KeepAllowed(segments) == segments
  {
    if segments != [] {
      KeepAllowedLength(segments[1..]);
      ConcatAppend(if Allowed(segments[0]) then [segments[0]] else [], KeepAllowed(segments[1..]));
      assert Concat([segments[0]]) == segments[0] + Concat([]);
      assert segments == [segments[0]] + segments[1..];
    }
  }

  lemma KeptTiles(x: Buffer, segments: seq<Buffer>, scan: Buffer)
    requires Parse(x, 2) == Ok(Jpeg(segments, scan))
    ensures var y := Subarray(x, 0, 2) + Concat(KeepAllowed(segments)) + scan;
      y == x || |y| < |x|
  {
    ParsedLength(x, 2);
    ParsedShapes(x, 2);
    KeepAllowedLength(segments);
    var kept := Concat(KeepAllowed(segments));
    if |kept| + |scan| == |x| - 2 {
      assert x == x[..2] + (Concat(segments) + scan);
      assert x[..2] + kept + scan == x[..2] + (kept + scan);
    }
  }

  /** Without an orientation to keep, the result is the input itself or strictly shorter. */
  lemma UprightShrinks(x: Buffer)
    requires Rewrite(x, 1).Ok?
    ensures Rewrite(x, 1).value == x || |Rewrite(x, 1).value| < |x|
  {
    var Jpeg(segments, scan) := Parse(x, 2).value;
    assert OrientationSegments(1) + KeepAllowed(segments) == KeepAllowed(segments);
    KeptTiles(x, segments, scan);
  }

  /** The rewriter fails on exactly the inputs whose walk fails, whatever the orientation. */
  lemma OrientationNeverFails(x: Buffer, o: Orientation, p: Orientation)
    ensures Rewrite(x, o).Ok? <==> Rewrite(x, p).Ok?
    ensures Rewrite(x, o).Err? ==> Rewrite(x, p) == Rewrite(x, o)
  {
  }

  /** The cost of carrying an orientation is a fixed 36 bytes. */
  lemma OrientationCosts(x: Buffer, o: Orientation)
    requires Rewrite(x, o).Ok? && o != 1
    ensures |Rewrite(x, o).value| == |Rewrite(x, 1).value| + 36
  {
    var kept := KeepAllowed(Parse(x, 2).value.segments);
    ConcatAppend(OrientationSegments(o), kept);
    ConcatAppend(OrientationSegments(1), kept);
    var segment := OrientationSegments(o)[0];
    assert OrientationSegments(o) == [segment];
    assert Concat([segment]) == segment + Concat([]);
  }
}
