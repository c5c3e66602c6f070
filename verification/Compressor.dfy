/** How the image compressor picks and labels its result
    (apps/conversion-worker/src/app/pipeline/image-compressor.service.ts).

    What the image library answers is an input of the model: the decoded metadata and the bytes each
    encoder returns, where `None` is an encoder that throws. */
module Compressor {
  import opened Prelude
  import opened Bytes
  import opened ExifOrientation
  import JpegRewriter
  import WebpStrip
  import AvifWalk

  datatype Format = Jpeg | Png | Webp | Avif

  datatype Mode = Lossless | Lossy

  datatype FailureCode = InputTooLarge | DecodeFailed | UnsupportedFormat | AnimatedUnsupported | PixelsExceeded

  datatype Kind = Saved | NoSavings | SanitizedLarger

  datatype Outcome = Failed(code: FailureCode) | Done(kind: Kind, bytes: Buffer)

  datatype Metadata = Metadata(format: Option<Format>, pages: nat, pixels: nat, orientation: Orientation, embeds: bool)

  /** The answers of the image library for one input. */
  datatype Library = Library(
    metadata: Option<Metadata>,
    lossy: Option<Buffer>,
    pngLossless: Option<Buffer>,
    pngIsPalette: bool,
    pngIsClean: bool)

  datatype Limits = Limits(maxInputBytes: nat, maxPixels: nat)

  /** At least ten percent smaller than the input. */
  predicate BuysEnough(input: Buffer, candidate: Buffer) {
    10 * |candidate| <= 9 * |input|
  }

  predicate WebpAllowed(input: Buffer)
    requires |input| >= 8
  {
    && ReadU32LE(input, 4) + 8 == |input|
    && WebpStrip.CleanFrom(input, WebpStrip.WEBP_HEADER)
  }

  /** The walk of the source, where `None` is an exception it throws. */
  function OnlyAllowedTypes(format: Format, input: Buffer, library: Library): Option<bool> {
    match format
    case Jpeg =>
      (match JpegRewriter.Rewrite(input, 1)
       case Ok(bytes) => Some(bytes == input)
       case Err(_) => None)
    case Png => Some(library.pngIsClean)
    case Webp => if |input| < 8 then None else Some(WebpAllowed(input))
    case Avif => Some(AvifWalk.BoxesFrom(input, 0) && AvifWalk.SomeItemInBoxes(input, 0))
  }

  function CarriesMetadata(format: Format, metadata: Metadata, input: Buffer, library: Library): Option<bool> {
    if metadata.orientation != 1 || metadata.embeds then Some(true)
    else
      match OnlyAllowedTypes(format, input, library)
      case Some(allowed) => Some(!allowed)
      case None => None
  }

  function FromResult<E>(r: Result<Buffer, E>): Option<Buffer> {
    match r
    case Ok(bytes) => Some(bytes)
    case Err(_) => None
  }

  function EncodeLossless(format: Format, metadata: Metadata, input: Buffer, library: Library): Option<Buffer> {
    match format
    case Jpeg => FromResult(JpegRewriter.Rewrite(input, metadata.orientation))
    case Png => library.pngLossless
    case Webp => FromResult(WebpStrip.Strip(input, metadata.orientation))
    case Avif => Some(input)
  }

  function EncodeLossy(format: Format, metadata: Metadata, input: Buffer, library: Library): Option<Buffer> {
    var lossless := EncodeLossless(format, metadata, input, library);
    match format
    case Jpeg =>
      if library.lossy.None? then None
      else if BuysEnough(input, library.lossy.value) then library.lossy
      else lossless
    case Png =>
      if lossless.None? || library.pngIsPalette then lossless
      else if library.lossy.None? then None
      else if |library.lossy.value| < |lossless.value| && BuysEnough(input, library.lossy.value) then library.lossy
      else lossless
    case _ =>
      if library.lossy.None? || lossless.None? then None
      else if BuysEnough(input, library.lossy.value) then
        if |lossless.value| <= |library.lossy.value| then lossless else library.lossy
      else if lossless.value != input then lossless
      else
        match CarriesMetadata(format, metadata, input, library)
        case None => None
        case Some(carries) => if carries then library.lossy else lossless
  }

  /** The label of an encoder's answer, or the failure when the metadata walk throws. */
  function Label(format: Format, metadata: Metadata, input: Buffer, data: Buffer, library: Library): Outcome {
    if |data| < |input| then Done(Saved, data)
    else if data == input then Done(NoSavings, input)
    else
      match CarriesMetadata(format, metadata, input, library)
      case None => Failed(DecodeFailed)
      case Some(carries) => if carries then Done(SanitizedLarger, data) else Done(NoSavings, input)
  }

  function Compress(limits: Limits, mode: Mode, input: Buffer, library: Library): Outcome {
    if |input| > limits.maxInputBytes then Failed(InputTooLarge)
    else if library.metadata.None? then Failed(DecodeFailed)
    else
      var metadata := library.metadata.value;
      if metadata.format.None? then Failed(UnsupportedFormat)
      else if metadata.pages > 1 then Failed(AnimatedUnsupported)
      else if metadata.pixels > limits.maxPixels then Failed(PixelsExceeded)
      else
        var format := metadata.format.value;
        var data := if mode.Lossy? then EncodeLossy(format, metadata, input, library)
                    else EncodeLossless(format, metadata, input, library);
        if data.None? then Failed(DecodeFailed) else Label(format, metadata, input, data.value, library)
  }

  predicate Decodes(library: Library, format: Format, orientation: Orientation) {
    library.metadata.Some? && library.metadata.value.format == Some(format) && library.metadata.value.orientation == orientation
  }

  /** A lossless JPEG answer is always exactly the rewritten input. */
  lemma LosslessJpegIsRewrite(limits: Limits, input: Buffer, library: Library, o: Orientation)
    requires Decodes(library, Jpeg, o)
    ensures match Compress(limits, Lossless, input, library)
      case Failed(_) => true
      case Done(_, bytes) => JpegRewriter.Rewrite(input, o) == Ok(bytes)
  {
    if JpegRewriter.Rewrite(input, o).Ok? && o == 1 {
      JpegRewriter.UprightShrinks(input);
    }
  }

  /** An upright JPEG is only ever saved, unchanged or refused, in either mode. */
  lemma UprightJpegNeverGrows(limits: Limits, mode: Mode, input: Buffer, library: Library)
    requires Decodes(library, Jpeg, 1)
    ensures match Compress(limits, mode, input, library)
      case Failed(_) => true
      case Done(kind, bytes) => kind != SanitizedLarger
  {
    if JpegRewriter.Rewrite(input, 1).Ok? {
      JpegRewriter.UprightShrinks(input);
    }
  }

  /** The upright JPEG answer of the lossless mode passes the cleanliness walk. */
  lemma UprightJpegIsClean(limits: Limits, input: Buffer, library: Library)
    requires Decodes(library, Jpeg, 1)
    ensures match Compress(limits, Lossless, input, library)
      case Failed(_) => true
      case Done(_, bytes) => OnlyAllowedTypes(Jpeg, bytes, library) == Some(true)
  {
    LosslessJpegIsRewrite(limits, input, library, 1);
    if JpegRewriter.Rewrite(input, 1).Ok? {
      JpegRewriter.RewriteAbsorbs(input, 1, 1);
    }
  }

  /** Compressing a lossless JPEG or WebP answer again, read with the same orientation, changes
      nothing and reports no savings. */
  lemma LosslessIsIdempotent(limits: Limits, input: Buffer, library: Library, format: Format, o: Orientation, again: Library)
    requires format == Jpeg || format == Webp
    requires Decodes(library, format, o) && Decodes(again, format, o)
    requires again.metadata.value.pages <= 1 && again.metadata.value.pixels <= limits.maxPixels
    requires Compress(limits, Lossless, input, library).Done?
    requires format == Webp ==>
      EncodeLossless(format, library.metadata.value, input, library) == Some(Compress(limits, Lossless, input, library).bytes)
    requires |Compress(limits, Lossless, input, library).bytes| <= limits.maxInputBytes
    ensures var bytes := Compress(limits, Lossless, input, library).bytes;
      Compress(limits, Lossless, bytes, again) == Done(NoSavings, bytes)
  {
    if format == Jpeg {
      LosslessJpegIsRewrite(limits, input, library, o);
      JpegRewriter.RewriteAbsorbs(input, o, o);
    } else {
      WebpStrip.StripAbsorbs(input, o, o);
    }
  }

  /** An upright lossless WebP answer never exceeds its input: a "larger" one has the same length. */
  lemma UprightWebpNeverGrows(limits: Limits, input: Buffer, library: Library)
    requires Decodes(library, Webp, 1)
    ensures match Compress(limits, Lossless, input, library)
      case Failed(_) => true
      case Done(kind, bytes) => |bytes| <= |input| && (kind == SanitizedLarger ==> |bytes| == |input|)
  {
    if WebpStrip.Strip(input, 1).Ok? {
      WebpStrip.UprightNoLonger(input);
    }
  }
}
