/** Which segments the JPEG rewriter keeps and where its walk stops, spelled out on the bytes
    (apps/conversion-worker/src/app/pipeline/image-compressor.service.ts), after ITU-T T.81, section B.1.1. */
module JpegMeaning {
  import opened Prelude
  import opened Bytes
  import opened ExifOrientation
  import opened JpegRewriter

  predicate StartsWith(payload: Buffer, text: string) {
    |payload| >= |text| && IsText(payload[..|text|], text)
  }

  /** A JFIF payload that is as long as its thumbnail, three bytes a pixel, requires. */
  predicate IsExactJfif(payload: Buffer) {
    StartsWith(payload, "JFIF\0") && |payload| >= 14 && |payload| == 14 + 3 * (payload[12] as int * payload[13] as int)
  }

  /** Application data and comments. */
  predicate IsMetadataMarker(marker: Byte) {
    0xe0 <= marker <= 0xef || marker == 0xfe
  }

  lemma PrefixMeans(payload: Buffer, prefix: Buffer, text: string)
    requires IsText(prefix, text)
    ensures HasPrefix(payload, prefix) <==> StartsWith(payload, text)
  {
    if |payload| >= |prefix| {
      SameText(payload[..|prefix|], prefix, text);
    }
  }

  lemma JfifMeans(payload: Buffer)
    ensures IsCanonicalJfif(payload) <==> IsExactJfif(payload)
  {
    PrefixMeans(payload, JFIF_PREFIX, "JFIF\0");
    hide StartsWith, IsText;
  }

  lemma PayloadMeans(marker: Byte, payload: Buffer)
    ensures AllowedPayload(marker, payload) <==>
      || !IsMetadataMarker(marker)
      || (marker == 0xe0 && IsExactJfif(payload))
      || (marker == 0xe2 && StartsWith(payload, "ICC_PROFILE\0"))
      || (marker == 0xee && StartsWith(payload, "Adobe"))
  {
    PrefixMeans(payload, ICC_PREFIX, "ICC_PROFILE\0");
    PrefixMeans(payload, ADOBE_PREFIX, "Adobe");
    JfifMeans(payload);
    hide StartsWith, HasPrefix, IsCanonicalJfif, IsExactJfif;
  }

  /** What follows the marker and the length field. */
  function Payload(s: Buffer): Buffer {
    if |s| >= 4 then s[4..] else []
  }

  /** A segment stays exactly if it is neither application data nor a comment, or it is an exact JFIF
      header, a colour profile or an Adobe segment. */
  lemma AllowedMeans(s: Buffer)
    requires |s| >= 2
    ensures Allowed(s) <==>
      || !IsMetadataMarker(s[1])
      || (s[1] == 0xe0 && IsExactJfif(Payload(s)))
      || (s[1] == 0xe2 && StartsWith(Payload(s), "ICC_PROFILE\0"))
      || (s[1] == 0xee && StartsWith(Payload(s), "Adobe"))
  {
    PayloadMeans(s[1], Payload(s));
    hide StartsWith, AllowedPayload, IsExactJfif;
  }

  /** The segments that stay, one by one and in order. */
  lemma KeptExactly(segments: seq<Buffer>, s: Buffer)
    ensures KeepAllowed(segments + [s]) == KeepAllowed(segments) + if Allowed(s) then [s] else []
  {
    KeepAllowedAppend(segments, [s]);
    hide Allowed;
    assert KeepAllowed([s]) == if Allowed(s) then [s] else [];
  }

  /** A segment that carries an orientation: APP1, its length, the EXIF prefix, and a block that reads
      back as the orientation. */
  predicate Carries(s: Buffer, o: Orientation) {
    && |s| == 36 && s[0] == 0xff && s[1] == 0xe1 && s[2] == 0 && s[3] == 34
    && StartsWith(s[4..], "Exif\0\0") && ReadOrientation(s[10..]) == Some(o)
  }

  lemma BlockCarries(o: Orientation)
    ensures Carries([0xff, 0xe1, 0, 34] + EXIF_PREFIX + ExifOrientationBlock(o), o)
  {
    OrientationRoundTrip(o);
    var block := ExifOrientationBlock(o);
    assert |block| == 26;
    hide ExifOrientationBlock, ReadOrientation;
    var s := [0xff, 0xe1, 0, 34] + EXIF_PREFIX + block;
    assert s[10..] == block;
    assert s[4..][..6] == EXIF_PREFIX;
  }

  /** The one segment that is added; none for the upright orientation. */
  lemma OrientationSegment(o: Orientation)
    ensures if o == 1 then OrientationSegments(o) == []
            else |OrientationSegments(o)| == 1 && Carries(OrientationSegments(o)[0], o)
  {
    if o != 1 {
      var block := ExifOrientationBlock(o);
      assert |EXIF_PREFIX + block| + 2 == 34 && U16BE(34) == [0, 34];
      BlockCarries(o);
      hide ExifOrientationBlock, Carries, U16BE;
      assert [0xff, 0xe1] + [0, 34] + (EXIF_PREFIX + block) == [0xff, 0xe1, 0, 34] + EXIF_PREFIX + block;
    }
  }

  // ----- the end of the image -----

  predicate EndsAt(x: Buffer, at: nat) {
    at + 2 <= |x| && x[at] == 0xff && x[at + 1] == 0xd9
  }

  /** The scan ends at the first end marker. */
  lemma {:induction false} FirstEnd(x: Buffer, from: nat)
    ensures match IndexOfEnd(x, from)
      case None => forall at: nat :: from <= at ==> !EndsAt(x, at)
      case Some(end) => from <= end && EndsAt(x, end) && forall at: nat :: from <= at < end ==> !EndsAt(x, at)
    decreases |x| - from
  {
    if from + 2 <= |x| {
      FirstEnd(x, from + 1);
    }
  }

  // ----- where the walk stops -----

  /** The walk goes on from here. */
  predicate GoesOn(x: Buffer, at: nat) {
    at + 4 <= |x| && x[at] == 0xff && x[at + 1] != 0xda
  }

  /** Past a fill byte, or past a segment, which the end of the file cuts off. */
  function NextAt(x: Buffer, at: nat): nat
    requires GoesOn(x, at)
  {
    if x[at + 1] == 0xff then at + 1
    else
      var end := at + 2 + 256 * x[at + 2] as int + x[at + 3] as int;
      if end <= |x| then end else |x|
  }

  /** The places that the walk visits. */
  ghost predicate IsWalk(x: Buffer, from: nat, places: seq<nat>) {
    && places != [] && places[0] == from
    && (forall i :: 0 <= i < |places| - 1 ==> GoesOn(x, places[i]) && places[i + 1] == NextAt(x, places[i]))
    && !GoesOn(x, places[|places| - 1])
  }

  /** What the place where the walk stops calls for. */
  predicate StopsWith(x: Buffer, at: nat, reply: Result<Jpeg, JpegError>) {
    if at + 4 > |x| then reply == Err(ScanNotFound)
    else if x[at] != 0xff then reply == Err(MarkerExpected)
    else if IndexOfEnd(x, at).None? then reply == Err(EndNotFound)
    else reply.Ok? && reply.value.scan == x[at..IndexOfEnd(x, at).value + 2]
  }

  lemma WalkGrows(x: Buffer, from: nat, places: seq<nat>)
    requires GoesOn(x, from) && IsWalk(x, NextAt(x, from), places)
    ensures IsWalk(x, from, [from] + places)
  {
    hide GoesOn, NextAt;
  }

  /** The walk from marker to marker, both ways: it stops where no marker is left to pass, and that place
      alone decides the error or the scan. */
  lemma {:induction false} WalkExactly(x: Buffer, from: nat) returns (places: seq<nat>)
    ensures IsWalk(x, from, places) && StopsWith(x, places[|places| - 1], Parse(x, from))
    decreases |x| - from
  {
    ParseCases(x, from);
    if GoesOn(x, from) {
      hide Parse, IndexOfEnd;
      places := WalkExactly(x, NextAt(x, from));
      WalkGrows(x, from, places);
      places := [from] + places;
    } else {
      places := [from];
    }
  }
}
