/** What the compressor answers in each case, for every format and both modes
    (apps/conversion-worker/src/app/pipeline/image-compressor.service.ts). */
module CompressorMeaning {
  import opened Prelude
  import opened Bytes
  import opened ExifOrientation
  import opened Compressor
  import JpegRewriter
  import WebpStrip
  import AvifWalk

  /** Why a file is refused before any encoder runs, in the order of the checks. */
  lemma RefusedExactly(limits: Limits, mode: Mode, input: Buffer, library: Library)
    ensures var (reply, decoded) := (Compress(limits, mode, input, library), library.metadata.Some?);
      && (reply == Failed(InputTooLarge) <==> |input| > limits.maxInputBytes)
      && (|input| <= limits.maxInputBytes && !decoded ==> reply == Failed(DecodeFailed))
      && (reply == Failed(UnsupportedFormat) <==>
           |input| <= limits.maxInputBytes && decoded && library.metadata.value.format == None)
      && (reply == Failed(AnimatedUnsupported) <==>
           |input| <= limits.maxInputBytes && decoded && library.metadata.value.format.Some? && library.metadata.value.pages > 1)
      && (reply == Failed(PixelsExceeded) <==>
           |input| <= limits.maxInputBytes && decoded && library.metadata.value.format.Some? && library.metadata.value.pages <= 1
           && library.metadata.value.pixels > limits.maxPixels)
  {
    hide EncodeLossy, EncodeLossless, CarriesMetadata;
  }

  /** The file passes the checks. */
  predicate IsAccepted(limits: Limits, input: Buffer, library: Library) {
    && |input| <= limits.maxInputBytes && library.metadata.Some?
    && library.metadata.value.format.Some?
    && library.metadata.value.pages <= 1 && library.metadata.value.pixels <= limits.maxPixels
  }

  /** What the encoders of the mode came to. */
  function Encoded(mode: Mode, input: Buffer, library: Library): Option<Buffer>
    requires library.metadata.Some? && library.metadata.value.format.Some?
  {
    var (format, metadata) := (library.metadata.value.format.value, library.metadata.value);
    if mode.Lossless? then EncodeLossless(format, metadata, input, library) else EncodeLossy(format, metadata, input, library)
  }

  function Carries(input: Buffer, library: Library): Option<bool>
    requires library.metadata.Some? && library.metadata.value.format.Some?
  {
    CarriesMetadata(library.metadata.value.format.value, library.metadata.value, input, library)
  }

  /** The label, both ways: a shorter file is saved; the same bytes, or a file that is not shorter where the
      input carries no metadata, are answered with the input; and only an input that carries metadata is
      replaced by a file that is not shorter. */
  lemma LabelledExactly(limits: Limits, mode: Mode, input: Buffer, library: Library)
    requires IsAccepted(limits, input, library)
    ensures var (reply, encoded) := (Compress(limits, mode, input, library), Encoded(mode, input, library));
      if encoded == None then reply == Failed(DecodeFailed)
      else if |encoded.value| < |input| then reply == Done(Saved, encoded.value)
      else if encoded.value == input || Carries(input, library) == Some(false) then reply == Done(NoSavings, input)
      else if Carries(input, library) == Some(true) then reply == Done(SanitizedLarger, encoded.value)
      else reply == Failed(DecodeFailed)
  {
    hide EncodeLossy, EncodeLossless, CarriesMetadata;
  }

  /** An input that carries metadata is never handed back, unless the encoder itself returned it. */
  lemma MetadataIsRemoved(limits: Limits, mode: Mode, input: Buffer, library: Library)
    requires Compress(limits, mode, input, library).Done?
    requires IsAccepted(limits, input, library) && Carries(input, library) == Some(true)
    ensures Encoded(mode, input, library) == Some(Compress(limits, mode, input, library).bytes)
  {
    LabelledExactly(limits, mode, input, library);
    hide Compress, Encoded, Carries;
  }

  /** Complete chunks of allowed types tile the file, and its size field counts them. */
  ghost predicate IsCleanWebp(input: Buffer) {
    && |input| >= 8 && ReadU32LE(input, 4) + 8 == |input| && WebpStrip.Chunks(input, 12).Some?
    && forall c :: c in WebpStrip.Chunks(input, 12).value ==> WebpStrip.Clean(c)
  }

  /** An input carries metadata if it is not upright, embeds metadata, or fails the walk of its format. */
  lemma CarriesExactly(input: Buffer, library: Library)
    requires library.metadata.Some? && library.metadata.value.format.Some?
    ensures var metadata := library.metadata.value;
      if metadata.orientation != 1 || metadata.embeds then Carries(input, library) == Some(true)
      else match metadata.format.value
        case Jpeg => Carries(input, library) == (match JpegRewriter.Rewrite(input, 1)
                                                 case Ok(bytes) => Some(bytes != input)
                                                 case Err(_) => None)
        case Png => Carries(input, library) == Some(!library.pngIsClean)
        case Webp => Carries(input, library) == if |input| < 8 then None else Some(!IsCleanWebp(input))
        case Avif => Carries(input, library) == Some(!(AvifWalk.BoxesFrom(input, 0) && AvifWalk.SomeItemInBoxes(input, 0)))
  {
    WebpStrip.CleanMeaning(input, 12);
    hide JpegRewriter.Rewrite, WebpStrip.Chunks, WebpStrip.CleanFrom, AvifWalk.BoxesFrom, AvifWalk.SomeItemInBoxes;
  }

  /** What each lossless encoder returns. */
  lemma LosslessExactly(metadata: Metadata, input: Buffer, library: Library)
    ensures EncodeLossless(Jpeg, metadata, input, library)
         == (match JpegRewriter.Rewrite(input, metadata.orientation) case Ok(bytes) => Some(bytes) case Err(_) => None)
    ensures EncodeLossless(Png, metadata, input, library) == library.pngLossless
    ensures EncodeLossless(Webp, metadata, input, library)
         == (match WebpStrip.Strip(input, metadata.orientation) case Ok(bytes) => Some(bytes) case Err(_) => None)
    ensures EncodeLossless(Avif, metadata, input, library) == Some(input)
  {
    hide JpegRewriter.Rewrite, WebpStrip.Strip;
  }

  /** The candidate saves at least a tenth of the input. */
  predicate Pays(input: Buffer, candidate: Buffer) {
    10 * (|input| - |candidate|) >= |input|
  }

  /** The lossy mode, both ways.  JPEG: the lossy candidate if it pays.  PNG: the lossy candidate if the
      input has no palette, and the candidate is shorter than the lossless one and pays.  WebP and AVIF:
      if the lossy candidate pays, the shorter of the two; otherwise the lossless one, unless that is the
      input itself and carries metadata. */
  lemma LossyExactly(format: Format, metadata: Metadata, input: Buffer, library: Library)
    requires library.lossy.Some? && EncodeLossless(format, metadata, input, library).Some?
    requires CarriesMetadata(format, metadata, input, library).Some?
    ensures var (lossy, lossless) := (library.lossy.value, EncodeLossless(format, metadata, input, library).value);
      EncodeLossy(format, metadata, input, library) == Some(
        if match format
           case Jpeg => Pays(input, lossy)
           case Png => !library.pngIsPalette && |lossy| < |lossless| && Pays(input, lossy)
           case _ => (Pays(input, lossy) && |lossy| < |lossless|)
                     || (!Pays(input, lossy) && lossless == input && CarriesMetadata(format, metadata, input, library) == Some(true))
        then lossy else lossless)
  {
    hide EncodeLossless, CarriesMetadata;
  }

  /** When the lossy mode fails: the lossy encoder throws, but for a PNG with a palette; or the lossless
      one throws, but for a JPEG whose candidate pays; or the choice hangs on a walk that throws. */
  lemma LossyFailsExactly(format: Format, metadata: Metadata, input: Buffer, library: Library)
    ensures var lossless := EncodeLossless(format, metadata, input, library);
      EncodeLossy(format, metadata, input, library) == None <==>
        || (library.lossy == None && !(format == Png && library.pngIsPalette && lossless.Some?))
        || (lossless == None && !(format == Jpeg && library.lossy.Some? && Pays(input, library.lossy.value)))
        || ((format == Webp || format == Avif) && library.lossy.Some? && !Pays(input, library.lossy.value)
            && lossless == Some(input) && CarriesMetadata(format, metadata, input, library) == None)
  {
    hide EncodeLossless, CarriesMetadata;
  }

  /** Outside JPEG a lossy answer is never longer than the lossless one, but where nothing else would
      remove the metadata. */
  lemma LossyIsNoLonger(format: Format, metadata: Metadata, input: Buffer, library: Library)
    requires library.lossy.Some? && EncodeLossless(format, metadata, input, library).Some?
    requires CarriesMetadata(format, metadata, input, library).Some? && format != Jpeg
    ensures EncodeLossy(format, metadata, input, library).Some?
    ensures var (answer, lossless) :=
        (EncodeLossy(format, metadata, input, library).value, EncodeLossless(format, metadata, input, library).value);
      || |answer| <= |lossless|
      || (lossless == input && CarriesMetadata(format, metadata, input, library) == Some(true))
  {
    LossyExactly(format, metadata, input, library);
    hide EncodeLossy, EncodeLossless, CarriesMetadata;
  }
}
