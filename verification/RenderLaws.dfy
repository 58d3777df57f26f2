/**
 What the writer makes of a frame, in every case: which frames are passed on, which are turned and scaled, and which
 fail. The engine's theorems speak of renderings; these say what a rendering is.
 */
module RenderLaws {
  import opened Bytes
  import opened FrameLimits
  import opened Nv21Geometry
  import opened ImageTransform
  import opened EngineSteps
  import JpegHeader
  import FrameWire
  import MjpegSplitter
  import CommandGrammar
  import SC = StartCommand

  const FULL: Size := Size(1280, 720)

  lemma ValidOutput(c: SC.Config)
    requires SC.Validate(c).Success?
    ensures OutputSize(c) == FULL && Drawable(FULL) && OutputOrientation(c).Legal()
    ensures Pixels(FULL) == 921600 && Nv21Length(FULL) == 1382400
  {
    hide SC.Validate;
    CommandGrammar.ValidMeansRunnable(c);
    FullSize();
  }

  lemma FullSize()
    ensures Drawable(FULL) && Pixels(FULL) == 921600 && Nv21Length(FULL) == 1382400
  {
  }

  /** The header declares this size. */
  predicate DeclaredAs(jpeg: seq<byte>, size: Size)
  {
    var declared := JpegHeader.Read(jpeg);
    declared.Some? && size.width == declared.value.width && size.height == declared.value.height
  }

  /** A frame is passed on unchanged only when the transform would have changed nothing. */
  lemma PassedOnNeedsNoTransform(c: SC.Config, jpeg: seq<byte>, rgb: Rgb)
    requires SC.Validate(c).Success? && PassesThrough(c, jpeg) && |jpeg| <= MAX_FRAME_BYTES
    requires rgb.Valid() && DeclaredAs(jpeg, rgb.size)
    ensures rgb.size == FULL
    ensures JpegTransformed(jpeg, Some(rgb), OutputSize(c), OutputOrientation(c))
            == Success(Converted(rgb, FULL, IDENTITY))
  {
    hide Converted, JpegHeader.Read;
    ValidOutput(c);
    DecodableIsABox(JpegHeader.Dimensions(1280, 720));
  }

  /** When a JPEG is decoded at all: it declares a size of at most 3840x2160, and decodes to it. */
  predicate DecodesAsDeclared(codec: Codec, jpeg: seq<byte>)
  {
    var declared := JpegHeader.Read(jpeg);
    && declared.Some? && declared.value.width <= 3840 && declared.value.height <= 2160
    && codec.Decoded(jpeg).Some?
    && codec.Decoded(jpeg).value.size == Size(declared.value.width, declared.value.height)
  }

  predicate IsPassedOn(c: SC.Config, jpeg: seq<byte>)
  {
    JpegHeader.Read(jpeg) == Some(JpegHeader.Dimensions(1280, 720)) && c.rotation == 0 && !c.mirror
  }

  /** Every outcome of a JPEG: passed on, turned and scaled from its decoded picture, or nothing. */
  lemma JpegRendering(codec: Codec, c: SC.Config, jpeg: seq<byte>)
    requires SC.Validate(c).Success? && Acceptable(JpegFrame(jpeg))
    ensures IsPassedOn(c, jpeg) ==> Render(codec, c, JpegFrame(jpeg)) == Some(jpeg)
    ensures !IsPassedOn(c, jpeg) && DecodesAsDeclared(codec, jpeg) ==>
              Render(codec, c, JpegFrame(jpeg))
              == codec.encode(Converted(codec.Decoded(jpeg).value, FULL, Orientation(c.rotation, c.mirror)), FULL)
    ensures !IsPassedOn(c, jpeg) && !DecodesAsDeclared(codec, jpeg) ==> Render(codec, c, JpegFrame(jpeg)) == None
  {
    hide Converted, JpegHeader.Read;
    ValidOutput(c);
    CommandGrammar.ValidMeansRunnable(c);
    var declared := JpegHeader.Read(jpeg);
    if declared.Some? {
      DecodableIsABox(declared.value);
    }
  }

  /** A JPEG of the full size that is decoded comes out turned exactly as configured. */
  lemma FullSizeJpegIsTurned(codec: Codec, c: SC.Config, jpeg: seq<byte>)
    requires SC.Validate(c).Success? && Acceptable(JpegFrame(jpeg)) && DecodesAsDeclared(codec, jpeg)
    requires OutputOrientation(c).Oriented(codec.Decoded(jpeg).value.size) == FULL && !IsPassedOn(c, jpeg)
    requires Drawable(codec.Decoded(jpeg).value.size)
    ensures var rgb, o := codec.Decoded(jpeg).value, Orientation(c.rotation, c.mirror);
            Render(codec, c, JpegFrame(jpeg))
            == codec.encode(Resampled(Converted(rgb, rgb.size, IDENTITY), rgb.size, FULL, o), FULL)
  {
    hide Converted, Resampled, JpegHeader.Read, DecodesAsDeclared;
    ValidOutput(c);
    JpegRendering(codec, c, jpeg);
    Decodes(codec, jpeg);
    ConversionCommutesWithTransform(codec.Decoded(jpeg).value, OutputOrientation(c));
  }

  lemma Decodes(codec: Codec, jpeg: seq<byte>)
    requires DecodesAsDeclared(codec, jpeg)
    ensures codec.Decoded(jpeg).Some?
  {
  }

  /** An NV21 frame reaches the encoder, turned and scaled, iff its metadata is what a push must have. */
  lemma Nv21Rendering(codec: Codec, c: SC.Config, payload: seq<byte>, size: Size)
    requires SC.Validate(c).Success?
    ensures WellFormed(Nv21Frame(payload, size)) ==>
              && Drawable(size)
              && Render(codec, c, Nv21Frame(payload, size))
                 == codec.encode(Resampled(payload, size, FULL, Orientation(c.rotation, c.mirror)), FULL)
    ensures !WellFormed(Nv21Frame(payload, size)) ==> Render(codec, c, Nv21Frame(payload, size)) == None
  {
    hide Resampled;
    ValidOutput(c);
    AreasAgree(size);
  }

  lemma AreasAgree(size: Size)
    ensures Pixels(size) <= MAX_PIXELS ==> Nv21Length(size) <= MAX_FRAME_BYTES
  {
  }

  /** A full-size NV21 frame that needs no turn is encoded as it is. */
  lemma UnturnedNv21(codec: Codec, c: SC.Config, payload: seq<byte>)
    requires SC.Validate(c).Success? && c.rotation == 0 && !c.mirror && |payload| == 1382400
    ensures Render(codec, c, Nv21Frame(payload, FULL)) == codec.encode(payload, FULL)
  {
    hide Resampled;
    ValidOutput(c);
    Nv21Rendering(codec, c, payload, FULL);
    IdentityTransform(payload, FULL);
  }

  /** The daemon's own first frame is black in every orientation. */
  lemma StartFrameIsBlack(codec: Codec, c: SC.Config)
    requires SC.Validate(c).Success?
    ensures WellFormed(StartFrame(c))
    ensures Render(codec, c, StartFrame(c)) == codec.encode(Placeholder(FULL), FULL)
  {
    hide Resampled, Placeholder;
    ValidOutput(c);
    PlaceholderSize(FULL);
    Nv21Rendering(codec, c, Placeholder(FULL), FULL);
    PlaceholderStays(FULL, FULL, OutputOrientation(c));
  }

  lemma PlaceholderSize(size: Size)
    requires Drawable(size)
    ensures |Placeholder(size)| == Nv21Length(size)
  {
    Areas(size);
  }

  lemma PlaceholderStays(source: Size, size: Size, o: Orientation)
    requires Drawable(source) && Drawable(size)
    ensures Resampled(Placeholder(source), source, size, o) == Placeholder(size)
  {
    hide Resampled, LumaCell, ChromaCell, Placeholder;
    ResampledAt(Placeholder(source), source, size, o);
    PlaceholderSize(size);
    forall at: Cell | at.In(size.width, size.height)
      ensures LumaAt(Resampled(Placeholder(source), source, size, o), size, at) == LumaAt(Placeholder(size), size, at) {
      LumaCellInside(at, size, source, o);
      PlaceholderLuma(source, LumaCell(at, size, source, o));
      PlaceholderLuma(size, at);
    }
    forall block: Cell, k | block.In(size.width / 2, size.height / 2) && 0 <= k < 2
      ensures ChromaAt(Resampled(Placeholder(source), source, size, o), size, block, k)
              == ChromaAt(Placeholder(size), size, block, k) {
      ChromaCellInside(block, size, source, o);
      var cell := ChromaCell(block, size, source, o);
      PlaceholderChroma(source, Cell(cell.x / 2, cell.y / 2), k);
      PlaceholderChroma(size, block, k);
    }
    ImagesEqual(Resampled(Placeholder(source), source, size, o), Placeholder(size), size);
  }

  lemma PlaceholderLuma(size: Size, at: Cell)
    requires Drawable(size) && at.In(size.width, size.height)
    ensures LumaAt(Placeholder(size), size, at) == 16
  {
    LumaIndexInside(size, at);
    Areas(size);
  }

  lemma PlaceholderChroma(size: Size, block: Cell, k: int)
    requires Drawable(size) && block.In(size.width / 2, size.height / 2) && 0 <= k < 2
    ensures ChromaAt(Placeholder(size), size, block, k) == 128
  {
    ChromaIndexInside(size, block);
    Areas(size);
  }

  /** Every frame the splitter delivers is published unless it is over the limit; the shortest is. */
  lemma SplitFramesAreAcceptable(stream: seq<byte>, frame: seq<byte>)
    requires frame in MjpegSplitter.Split(stream).frames
    ensures Acceptable(JpegFrame(frame)) <==> |frame| <= 16 * 1024 * 1024
  {
    hide MjpegSplitter.Split;
    MjpegSplitter.SplitShape(stream);
  }

  lemma ShortestFrame()
    ensures var frame: seq<byte> := [0xff, 0xd8, 0xff, 0xd9];
            && MjpegSplitter.WellFormed(frame) && Acceptable(JpegFrame(frame))
            && forall f: Frame :: |f.payload| < |frame| ==> !Acceptable(f)
  {
    var frame: seq<byte> := [0xff, 0xd8, 0xff, 0xd9];
    assert MjpegSplitter.MarkerAt(frame, 0, 0xd8) && MjpegSplitter.MarkerAt(frame, 2, 0xd9);
  }
}
