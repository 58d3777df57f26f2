# VCamES: a verified model of the camera-frame pipeline

VCamES replaces the cameras of a phone. A controller app sends frames or a stream address to a daemon; the daemon
keeps the latest frame, turns and scales it, and writes it to a loopback video device at a fixed rate; a root script
takes the vendor's camera service down, supervises the daemon, a replacement provider and a socket proxy, and puts the
vendor's service back. This project states in Dafny what those parts do and proves what they promise.

`dafny verify dfyconfig.toml` verifies everything. The modules, each after one component:

| module | component | form |
|---|---|---|
| `Bytes`, `FrameLimits` | bytes, big-endian integers, option and result types; the limits on one frame | functions |
| `MjpegSplitter` | the incremental splitter of an MJPEG byte stream | class proved against a one-shot scan |
| `Yuv420Converter` | YUV_420_888 planes to NV21 | array loops over one flat memory, so that aliasing of planes is real |
| `Nv21Geometry` | where each output pixel is read from | functions over exact reals |
| `JpegHeader` | the search for a JPEG's dimensions | loop proved against a grammar |
| `ImageTransform` | NV21 to NV21, decoded JPEG to NV21 | array loops proved against images described sample by sample |
| `FrameWire`, `WireExactness` | the VCF2 printer of the app, the VCF1/VCF2 reader of the daemon | two classes and a decoder, proved exact inverses |
| `JsonString` | JSON string escaping | loop proved against a reader of RFC 8259, section 7 |
| `StreamSource`, `StartCommand`, `CommandGrammar` | stream addresses, the START command's printer and parser, the grammar of requests | functions and a loop |
| `SocketRelay` | the byte relay of the socket proxy | classes with short, interrupted and failing calls |
| `FramePath` | a frame's whole way: app, proxy, daemon | a method that joins the three |
| `Pacing`, `EngineSteps`, `SessionLaws`, `RenderLaws`, `Engine` | the mailbox, the paced writer, Start and Stop | a step system over all interleavings, and a class whose methods append its steps to a trace |
| `Supervisor` | the takeover script | class with an event log; every run |

How the pieces fit. Each loop or class method ends in an `ensures` that names a function of the inputs or of the old
state (`Feed`, `Nv21Image`, `Read`, `Resampled`, `Converted`, `Decode`, `Escape`, `Parse`), or, in the engine, says which
step it appends to the trace that the fields are the outcome of. The lemmas about
those functions carry the main results: the function has a second, independent description (a grammar, a multiplexer,
a printer, a group of orientations, an event log) and the lemma connects the two for all inputs. The engine's writer
calls the transforms and the header walk, so `EngineSteps.Render` is the same image function as in `ImageTransform`.

Where nondeterminism is meant (what `read`, `send`, `poll`, the device, thread creation, process death, signals and the
system's answers do), the methods use `*`, and the contracts hold for every outcome.

## What the proofs found

- Cutting an MJPEG stream into more calls can turn success into a size failure, never the reverse; it happens exactly
  when some received prefix ends in an over-long half frame (`MjpegSplitter.FeedAllSucceedsIff`). The streams safe under
  every chunking are those whose frames have at most limit + 1 bytes and whose tail is within the limit
  (`MjpegSplitter.SafeUnderEveryChunking`).
- The sender of NV21 frames accepts frames up to 16 MiB, the daemon at most 3840*2160 pixels. A frame between the two
  limits is sent whole and then ends the connection, with every later frame lost (`FrameWire.OversizedFrameEndsConnection`,
  with a concrete frame in `FrameWire.SenderAcceptsMoreThanDaemon`).
- The last guard on a stream address's scheme can never refuse: every supported scheme already has the characters it
  asks for (`StreamSource.NoSchemeIsMalformed`).
- The product test on a JPEG's size can never refuse what its two side tests accept (`ImageTransform.DecodableIsABox`).
- Both clamps of the NV21 transform never change which sample is taken, as long as the coordinate computed is less than
  half an output pixel away from the exact one (`Nv21Geometry.ClampsAreRedundant`). How far the program's floats are
  from it is not modelled.
- The writer's interval is 1e9/30 rounded down, 33333333 ns, so thirty intervals fall ten nanoseconds short of a second:
  the rate bound is one write per interval, not thirty per second to the nanosecond (`EngineSteps.SessionRate`).
- A pushed frame is published in the session that admitted it, perhaps after its Stop, iff no new session was committed
  between its admission and its publication (`EngineSteps.PublishedInItsSession`); there are runs where one was
  (`EngineSteps.FrameCrossesSessions`), but with the daemon's one frame thread at most one frame for each commit
  (`EngineSteps.OneFrameCrosses`). The accounting holds all the same.

## Model

| member | source | states |
|---|---|---|
| `Bytes.BigEndianRoundTrip` | daemon/src/main.cpp:376-390 | reading the big-endian bytes of any number that fits gives the number back |
| `Bytes.BytesRoundTrip` | daemon/src/image_transform.cpp:52-54 | and writing the number read from any bytes gives the bytes back |
| `MjpegSplitter.Search` | daemon/src/mjpeg_parser.cpp:28-30 | the leftmost marker at or after an offset, or the end when there is none |
| `MjpegSplitter.SplitAppend` | daemon/src/mjpeg_parser.cpp:26-61 | scanning a+b delivers the frames of a, then those of (residue of a)+b, and keeps the latter's residue: for every cut, also inside a marker |
| `MjpegSplitter.SplitShape` | daemon/src/mjpeg_parser.cpp:31-60 | the residue is empty, a lone 0xFF or a half frame without end marker; every delivered frame is well formed |
| `MjpegSplitter.ChunkingInvariance` | daemon/src/mjpeg_parser.cpp:14-62 | after a successful call, a second call gives with it the frames, order, residue and success of one joined call |
| `MjpegSplitter.FeedAllIsOneScan` | daemon/src/mjpeg_parser.cpp:14-62 | every successful list of calls delivers exactly the one-shot leftmost scan of the whole stream |
| `MjpegSplitter.AnyChunkingOfABoundedStream` | daemon/src/mjpeg_parser.cpp:46-55 | when every frame of a stream has at most limit + 1 bytes and its tail is within the limit, no chunking fails and each delivers the one-shot scan |
| `MjpegSplitter.FeedAllSucceedsIff` | daemon/src/mjpeg_parser.cpp:46-55 | a list of calls succeeds iff no received prefix ends in an over-long half frame |
| `MjpegSplitter.SplittingCanAddAFailure` | daemon/src/mjpeg_parser.cpp:47-53 | a frame over the limit passes in one call and fails when cut anywhere after the limit, also before its last byte |
| `MjpegSplitter.LongFrameHasALongHalf` | daemon/src/mjpeg_parser.cpp:46-55 | a stream with a frame of more than limit + 1 bytes has a prefix that ends in an over-long half frame |
| `MjpegSplitter.SafeUnderEveryChunking` | daemon/src/mjpeg_parser.cpp:46-55 | every chunking of a stream succeeds iff its frames have at most limit + 1 bytes and its tail is within the limit |
| `MjpegSplitter.SplitInvertsMux` | daemon/src/mjpeg_parser.cpp:26-61 | well-formed frames muxed with any garbage free of start markers, before any frameless tail, come back exactly |
| `MjpegSplitter.SplitDecomposes` | daemon/src/mjpeg_parser.cpp:26-61 | conversely every stream is such a mux of the frames delivered, with a frameless tail |
| `MjpegSplitter.FeedBounds` | daemon/src/mjpeg_parser.cpp:46-60 | frames have 4 to max(1, limit) + chunk bytes, and the residue stays within the limit |
| `MjpegSplitter.MjpegParser.constructor` | daemon/src/mjpeg_parser.cpp:9-12 | starts with no residue and nothing delivered |
| `MjpegSplitter.MjpegParser.Append` | daemon/src/mjpeg_parser.cpp:14-62 | the in-place loop delivers, keeps and returns what the scan of residue+chunk says; a null input changes nothing |
| `MjpegSplitter.MjpegParser.KeepLoneMarker` | daemon/src/mjpeg_parser.cpp:31-37 | without a start marker exactly a trailing 0xFF is kept |
| `MjpegSplitter.MjpegParser.EmitFrame` | daemon/src/mjpeg_parser.cpp:57-60 | one frame moves from the front of the buffer to the callback |
| `MjpegSplitter.MjpegParser.Reset` | daemon/src/mjpeg_parser.cpp:64-66 | forgets the residue and nothing else |
| `Yuv420Converter.Advance` | native/yuv420_converter.cpp:26-39 | the division guard fails exactly when base + count*stride would wrap, for every word size |
| `Yuv420Converter.CheckedOffset` | native/yuv420_converter.cpp:16-45 | succeeds iff the plane is usable and the unbounded offset of the last sample is below the limit, and then returns the unbounded first offset |
| `Yuv420Converter.WrapDetected` | native/yuv420_converter.cpp:65-69 | dividing the wrapped product by the width gives the height iff the product did not wrap |
| `Yuv420Converter.SizeTest` | native/yuv420_converter.cpp:65-69 | the size guard on wrapped products accepts exactly the unbounded NV21 size |
| `Yuv420Converter.LastRowDecides` | native/yuv420_converter.cpp:71-76 | all rows fit below the limit iff the last one does |
| `Yuv420Converter.ColumnCovered` | native/yuv420_converter.cpp:80-82 | each sample of an accepted row lies below the limit |
| `Yuv420Converter.NextRowIndex` | native/yuv420_converter.cpp:73-73 | after an accepted row the next row index is still a size_t |
| `Yuv420Converter.Nv21LumaAt` | native/yuv420_converter.cpp:71-84 | byte row*width+col of the NV21 image is sample (left+col, top+row) of Y |
| `Yuv420Converter.Nv21ChromaAt` | native/yuv420_converter.cpp:86-114 | after the Y image the V and U samples of each 2x2 block follow as a pair, V first, taken exactly at the block's first pixel |
| `Yuv420Converter.InterleavedRow` | native/yuv420_converter.cpp:102-109 | when V's next byte is U's sample and both strides are 2, V's raw bytes are the interleaved row, for any other fields |
| `Yuv420Converter.Memcpy` | native/yuv420_converter.cpp:78-78 | copies plane bytes, read below the limit, and touches no other output byte |
| `Yuv420Converter.CopyLumaRow` | native/yuv420_converter.cpp:76-83 | both paths write the same row of samples and nothing else |
| `Yuv420Converter.CopySamples` | native/yuv420_converter.cpp:110-113 | the per-sample loop writes the interleaved row and nothing else |
| `Yuv420Converter.CopyChromaRow` | native/yuv420_converter.cpp:100-113 | the aliasing fast path and the per-sample loop write the same row, each reading below the limits |
| `Yuv420Converter.ConvertLuma` | native/yuv420_converter.cpp:71-84 | succeeds iff the last row is covered, and then the output starts with the Y image |
| `Yuv420Converter.ConvertChroma` | native/yuv420_converter.cpp:86-114 | succeeds iff both last chroma rows are covered, and then the whole output is Y image and chroma image |
| `Yuv420Converter.ConvertYuv420ToNv21` | native/yuv420_converter.cpp:49-116 | the result code is decided by unbounded arithmetic alone; on success the output is the NV21 image of the crop; no byte past its size changes |
| `Yuv420Converter.ConvertsIff` | native/yuv420_converter.cpp:49-116 | success iff crop and size are right and every row of Y, U and V, not only the last, lies below its limit |
| `Nv21Geometry.CoverMapStaysInside` | daemon/src/image_transform.cpp:117-146 | every output pixel maps strictly inside (-1/2, w-1/2) x (-1/2, h-1/2), for all sizes, rotations and flags |
| `Nv21Geometry.CoverMapMargin` | daemon/src/image_transform.cpp:117-146 | and by at least half an output pixel, measured in source pixels |
| `Nv21Geometry.MapIsAffine` | daemon/src/image_transform.cpp:117-146 | the whole map in closed form: centre to centre, neighbours one spacing apart, in directions turned back by a clockwise rotation, mirrored across |
| `Nv21Geometry.CoverIsTight` | daemon/src/image_transform.cpp:132-140 | the spacing fits the output into the oriented source on both axes and fills it on one: the largest crop, scaled down or up |
| `Nv21Geometry.RoundIsNearest` | daemon/src/image_transform.cpp:541-544 | the sample taken is the nearest, and of two equally near the one further from zero |
| `Nv21Geometry.MirrorReversesRows` | daemon/src/image_transform.cpp:135-143 | mirroring is reading the output row backwards, at every scale: the crop is centred |
| `Nv21Geometry.ClampsAreRedundant` | daemon/src/image_transform.cpp:541-562 | neither the luma clamp nor the chroma clamp changes an index, for the exact coordinate and for any computed one less than half an output pixel away from it |
| `Nv21Geometry.ChromaCellInside` | daemon/src/image_transform.cpp:557-564 | the chroma read is at an even position with its pair inside the source |
| `Nv21Geometry.MapIsTurn` | daemon/src/image_transform.cpp:70-146 | at scale one the real-valued map is the integer quarter turn and mirror of the pixel grid |
| `Nv21Geometry.LumaCellIsTurn` | daemon/src/image_transform.cpp:538-546 | the luma index taken is the turned pixel |
| `Nv21Geometry.ChromaCellIsTurn` | daemon/src/image_transform.cpp:554-564 | the w-2 clamp and the cleared low bit make chroma blocks turn like the half-size grid |
| `Nv21Geometry.TurnMovesBlocks` | daemon/src/image_transform.cpp:467-472 | the four pixels of an output block come from the four pixels of one source block |
| `Nv21Geometry.TurnsCompose` | daemon/src/image_transform.cpp:70-88 | turning a turned grid is one turn by the composed orientation, whose angle is the sum, or after a mirror the difference, modulo 360 |
| `Nv21Geometry.OrientationsFormAGroup` | daemon/src/image_transform.cpp:70-88 | orientations compose associatively, with identity and two-sided inverses |
| `JpegHeader.SkipFill` | daemon/src/image_transform.cpp:210-212 | stops at the first byte that is not 0xFF |
| `JpegHeader.MarkerTable` | daemon/src/image_transform.cpp:31-50 | start-of-frame, standalone and terminal markers are exactly the codes of ITU-T T.81, table B.1 |
| `JpegHeader.ReadJpegDimensions` | daemon/src/image_transform.cpp:197-247 | the offset loop terminates on every input, indexes only inside the buffer, and returns what the walk over the remaining bytes returns |
| `JpegHeader.WalkPastSegment` | daemon/src/image_transform.cpp:216-226 | a standalone marker or a non-frame segment, with any fill bytes, is stepped over as a whole |
| `JpegHeader.WalkReadsFrame` | daemon/src/image_transform.cpp:227-240 | a frame header segment yields its width and height, whatever follows |
| `JpegHeader.WalkFindsFrame` | daemon/src/image_transform.cpp:209-242 | the frame size is found past any list of skippable segments |
| `JpegHeader.WalkIsSound` | daemon/src/image_transform.cpp:209-242 | any size reported comes from such a list and such a frame header, which are returned |
| `JpegHeader.ReadDecidesGrammar` | daemon/src/image_transform.cpp:197-247 | a size is returned iff the buffer is SOI, skippable segments, a valid frame header of that size, anything |
| `ImageTransform.ImagesEqual` | daemon/src/image_transform.cpp:550-569 | an NV21 image is determined by its luma pixels and its chroma pairs |
| `ImageTransform.ResampledAt` | daemon/src/image_transform.cpp:536-570 | every luma byte and every chroma byte of the transform's result is the source sample the map names |
| `ImageTransform.TurnedAt` | daemon/src/image_transform.cpp:536-570 | at scale one luma and chroma are those of the turned grids |
| `ImageTransform.IdentityTransform` | daemon/src/image_transform.cpp:527-531 | the shortcut that copies the input gives what the loops would |
| `ImageTransform.TransformsCompose` | daemon/src/image_transform.cpp:496-572 | two transforms at scale one are one by the composed orientation, on the whole buffer, luma and chroma alike |
| `ImageTransform.Nv21TransformsCompose` | daemon/src/image_transform.cpp:496-572 | the same for the whole operation: an error of the first is the error of the composed one |
| `ImageTransform.TransformUndone` | daemon/src/image_transform.cpp:496-572 | the inverse orientation gives every frame back |
| `ImageTransform.RepeatIsOneTransform` | daemon/src/image_transform.cpp:496-572 | repeating a transform at scale one any number of times is one transform by the power of its orientation |
| `ImageTransform.RepeatsGiveBack` | daemon/src/image_transform.cpp:496-572 | every legal orientation applied four times gives the frame back, and every mirrored one, like a half turn, after two |
| `ImageTransform.DrawResampledLuma` | daemon/src/image_transform.cpp:536-548 | the luma loops fill the luma plane of the described image, in bounds |
| `ImageTransform.DrawResampledChroma` | daemon/src/image_transform.cpp:550-570 | the chroma loops complete it |
| `ImageTransform.TransformNv21` | daemon/src/image_transform.cpp:496-572 | each error branch, or a fresh buffer equal to the described image |
| `ImageTransform.SampleBetweenTaps` | daemon/src/image_transform.cpp:90-111 | a bilinear sample lies between the least and greatest of its four taps |
| `ImageTransform.CornersSurround` | daemon/src/image_transform.cpp:97-104 | the four taps are source pixels around the point, less than one pixel away |
| `ImageTransform.SampleAtPixel` | daemon/src/image_transform.cpp:90-111 | at a pixel centre the sample is that pixel's byte |
| `ImageTransform.SampleIsWeighed` | daemon/src/image_transform.cpp:90-111 | a sample is the four bytes around it, each weighed by the area on the far side of the point |
| `ImageTransform.ColoursAreBt601` | daemon/src/image_transform.cpp:482-483 | luma and both chroma values of every colour are within two of those of ITU-R BT.601 |
| `ImageTransform.OneColourConverts` | daemon/src/image_transform.cpp:447-491 | a picture of one colour becomes a frame with that colour's luma at every pixel and its V, then U, in every pair |
| `ImageTransform.DecodableIsABox` | daemon/src/image_transform.cpp:409-413 | a size is decoded iff it fits in 3840x2160: the product test adds nothing |
| `ImageTransform.VideoRange` | daemon/src/image_transform.cpp:447-491 | converted luma lies in 16..235 and chroma in 16..240, at every byte |
| `ImageTransform.ConversionCommutesWithTransform` | daemon/src/image_transform.cpp:447-491 | converting with a turn equals converting without and then applying the NV21 transform, byte for byte |
| `ImageTransform.BlackGivesPlaceholder` | daemon/src/engine.cpp:56-60 | the daemon's own first frame is what a black picture converts to, at any size and orientation |
| `ImageTransform.BlockTotals` | daemon/src/image_transform.cpp:465-485 | the inner loops sum the chroma of the block's four pixels |
| `ImageTransform.DrawConvertedLuma` | daemon/src/image_transform.cpp:448-462 | the luma loops draw the luma of the described image |
| `ImageTransform.DrawConvertedChroma` | daemon/src/image_transform.cpp:463-491 | the chroma loops complete it |
| `ImageTransform.TransformJpegToNv21` | daemon/src/image_transform.cpp:385-494 | each error branch in order, or a fresh buffer equal to the described image of the decoded picture |
| `FrameWire.ExpectedLengthIsExact` | app/src/main/java/io/github/gushu101/vcames/FramePushClient.java:35-37 | the 64-bit product, wrap-around included, equals an array length iff the unbounded NV21 size does |
| `FrameWire.FramePushClient.constructor` | app/src/main/java/io/github/gushu101/vcames/FramePushClient.java:19-28 | a connection opens with the VCF2 magic |
| `FrameWire.FramePushClient.SendNv21` | app/src/main/java/io/github/gushu101/vcames/FramePushClient.java:30-49 | appends the frame's encoding iff the frame is sendable in unbounded arithmetic, else writes nothing; the stream is always the magic and the encodings of the frames sent |
| `FrameWire.ParseOfPrefix` | daemon/src/main.cpp:364-435 | a decision on a frame never depends on bytes that arrive later |
| `FrameWire.ParseEncoded` | daemon/src/main.cpp:371-414 | the reader takes back every sent frame, any int64 timestamp included, iff it is within the pixel limit, and else rejects it |
| `FrameWire.DecodePrefix` | daemon/src/main.cpp:364-416 | any prefix of a stream of encodings decodes to exactly the frames it fully contains, up to the first over the limit |
| `FrameWire.ConnectionPrefix` | daemon/src/main.cpp:349-416 | the same from the magic on, for every cut |
| `FrameWire.ConnectionRoundTrip` | daemon/src/main.cpp:349-416 | a whole connection decodes to exactly the frames sent |
| `FrameWire.DeliveredIsPrefix` | daemon/src/main.cpp:364-416 | what a cut stream delivers is a prefix of what was sent |
| `FrameWire.OversizedFrameEndsConnection` | daemon/src/engine.cpp:161-171 | the frames before a frame arrive, and that frame and everything after it is lost, exactly when it exceeds the daemon's limit |
| `FrameWire.SenderAcceptsMoreThanDaemon` | daemon/src/engine.cpp:164-171 | a concrete frame the sender accepts and the daemon refuses |
| `WireExactness.ParseIsExact` | daemon/src/main.cpp:371-414 | a typed frame is only ever read from exactly the bytes it is printed as: format, strides, size and timestamp |
| `WireExactness.BodyIsExact` | daemon/src/main.cpp:364-416 | what is read from any stream, printed again, is how the stream begins |
| `WireExactness.JpegPrefix` | daemon/src/main.cpp:417-435 | any prefix of a VCF1 stream decodes to exactly the JPEGs it fully contains |
| `WireExactness.LegacyRoundTrip` | daemon/src/main.cpp:355-363 | a whole VCF1 connection decodes to exactly its JPEGs |
| `WireExactness.JpegIsExact` | daemon/src/main.cpp:417-434 | a JPEG is only ever read from its length and its bytes |
| `WireExactness.OnlyKnownMagic` | daemon/src/main.cpp:359-363 | frames come only from a connection that opens with VCF1 or VCF2 |
| `FrameWire.FrameSession.ReadExact` | daemon/src/main.cpp:209-229 | fills the buffer under any fragmentation, or stops with the bytes it did take in front, only on end, error or stop |
| `FrameWire.FrameSession.Push` | daemon/src/engine.cpp:121-181 | accepts iff the engine is active and the metadata is right |
| `FrameWire.FrameSession.ReceiveTyped` | daemon/src/main.cpp:371-415 | one turn takes one frame's bytes and pushes what they parse to |
| `FrameWire.FrameSession.ReceiveLegacy` | daemon/src/main.cpp:417-434 | the same for a length-prefixed JPEG |
| `FrameWire.FrameSession.ReceiveOne` | daemon/src/main.cpp:364-435 | after one turn the frames handed over are those the bytes so far decode to, or the connection has ended with them |
| `FrameWire.FrameSession.ReceiveFrames` | daemon/src/main.cpp:364-435 | the loop hands over exactly the frames that the bytes after the magic decode to |
| `FrameWire.FrameSession.HandleFrameClient` | daemon/src/main.cpp:349-436 | the engine gets exactly the frames the consumed bytes decode to, under any fragmentation; uninterrupted, those of everything sent; an inactive engine loses at most one, the last |
| `FramePath.DecodedIsPrefix` | daemon/src/main.cpp:349-416 | whatever part of a controller's stream arrives decodes to the first of its frames |
| `FramePath.Deliver` | daemon/src/main.cpp:349-436 | from the app's stream through the relay to the reader, the engine gets the first of the frames sent, in order and unaltered; all of them when undisturbed and within the limit |
| `JsonString.JsonEscape` | daemon/src/config.cpp:226-251 | the loop writes the escape of each byte in order |
| `JsonString.ReadEscapedByte` | daemon/src/config.cpp:230-248 | a reader of RFC 8259 takes the escape of any byte as that one byte |
| `JsonString.EscapeRoundTrip` | daemon/src/engine.cpp:190-205 | reading quote, escape, quote, rest gives exactly the string and the rest, for every byte string |
| `JsonString.EscapeIsInjective` | daemon/src/config.cpp:226-251 | different strings have different escapes |
| `JsonString.PlainIsKept` | daemon/src/config.cpp:230-248 | what needs no escape is left as it is |
| `JsonString.EscapeIsShortest` | daemon/src/config.cpp:230-248 | no other way of writing a byte that a reader takes is shorter, so every short form is used |
| `JsonString.DigitsAreLowerCase` | daemon/src/config.cpp:229-243 | the digits of a \u escape are the lower-case ones |
| `JsonString.EscapedIsClean` | daemon/src/config.cpp:240-243 | an escaped string holds no control character |
| `StreamSource.AcceptedUrlIsPlain` | daemon/src/stream_source.cpp:54-56 | an accepted address is non-empty, at most 4096 bytes and free of control characters |
| `StreamSource.NoSchemeIsMalformed` | daemon/src/stream_source.cpp:66-74 | the character guard after the scheme lookup never refuses |
| `StreamSource.SchemesAgree` | app/src/main/java/io/github/gushu101/vcames/VCamConfig.java:16-19 | controller and daemon know the same schemes |
| `StreamSource.AcceptedAddresses` | daemon/src/stream_source.cpp:41-87 | an address is accepted iff it is a known scheme in any case, "://", an authority of 1 to 1024 bytes and nothing or a path, query or fragment, at most 4096 bytes without control characters |
| `StartCommand.ParseDecimal` | daemon/src/config.cpp:14-25 | every 32-bit integer's decimal text is read back as that integer |
| `StartCommand.GetLineOf` | daemon/src/config.cpp:126-129 | a line printed with a newline is read back, less one trailing carriage return, with the rest untouched |
| `StartCommand.OptionLine` | daemon/src/config.cpp:134-142 | key=value splits at the first equals sign, so values may contain more |
| `StartCommand.ParseCommand` | daemon/src/config.cpp:82-224 | the line loop with its early exits computes the parse of the whole request, each error included |
| `StartCommand.AddOptionsCommute` | daemon/src/config.cpp:143-148 | two option lines may be swapped |
| `StartCommand.FillIsOrderFree` | daemon/src/config.cpp:126-149 | the option map, or failure, depends only on the multiset of lines |
| `StartCommand.OptionOrderIsIrrelevant` | daemon/src/config.cpp:82-224 | permuting the option lines of any request gives the same command, or fails both times |
| `StartCommand.FillPrinted` | daemon/src/config.cpp:126-149 | printed options with distinct keys are all read back, and nothing else |
| `StartCommand.StartRoundTrip` | app/src/main/java/io/github/gushu101/vcames/VCamConfig.java:78-85 | for every accepted address (with '=' too), any rotation and either flag, the printed command parses to a start with that address, geometry, normalised rotation and flag |
| `StartCommand.StartRoundTripAnyOrder` | app/src/main/java/io/github/gushu101/vcames/VCamConfig.java:78-85 | the same for every order of the printed lines |
| `StartCommand.AcceptedStartIsValid` | daemon/src/config.cpp:218-223 | any accepted START asks for an accepted address, 1280x720 at 30, a legal rotation and a safe device path |
| `CommandGrammar.FirstLineDecides` | daemon/src/config.cpp:96-121 | for every request within the size, the first line, with or without a carriage return, alone decides between stop, status, start and unknown |
| `CommandGrammar.SizeDecides` | daemon/src/config.cpp:89-95 | a request is refused for its size iff empty or over 16 KiB |
| `CommandGrammar.ControllerRequests` | app/src/main/java/io/github/gushu101/vcames/DaemonClient.java:21-27 | the controller's stop and status requests are parsed as what they were printed for |
| `CommandGrammar.OptionsEndInADot` | daemon/src/config.cpp:125-155 | options are read iff they end in a dot on a line of its own and fill the map |
| `CommandGrammar.OptionsMean` | daemon/src/config.cpp:157-218 | each option sets its own field, one left out leaves the default, there are no others, and the result can be run: exactly then a configuration is made |
| `CommandGrammar.ValidMeansRunnable` | daemon/src/config.cpp:52-80 | validation accepts exactly the fixed geometry, a quarter turn, a safe device and a reserved address or a stream with a safe FFmpeg path |
| `CommandGrammar.NumbersMean` | daemon/src/config.cpp:14-25 | a text is read as a number iff it is its decimal text, possibly after zeros, and fits in 32 bits |
| `CommandGrammar.ReservedAreNotStreams` | daemon/src/config.cpp:59-63 | the two reserved addresses are not stream addresses |
| `SocketRelay.WriteAll` | daemon/src/socket_proxy.cpp:145-159 | sends all bytes, or a prefix of them when it fails, through partial and interrupted sends |
| `SocketRelay.Forward` | daemon/src/socket_proxy.cpp:177-185 | one direction of one round moves some bytes or half-closes; sent equals read, or is a prefix of it on a failed send |
| `SocketRelay.Round` | daemon/src/socket_proxy.cpp:177-198 | after a completed round both directions are exact, every ready direction has moved bytes or ended, the others are untouched; only a failed send or a broken socket ends the relay |
| `SocketRelay.Relay` | daemon/src/socket_proxy.cpp:161-202 | at the end each side was sent a prefix of the bytes read from the other, everything when that direction closed cleanly; undisturbed, the relay ends only with both directions half-closed; both sockets are closed |
| `Pacing.IterationStarts` | daemon/src/engine.cpp:365-365 | an iteration whose clock is read no earlier than next_write keeps the rate and the burst bound; that it is not read earlier is part of the engine invariant |
| `Pacing.NextWriteKeepsSchedule` | daemon/src/engine.cpp:365-389 | every way next_write is moved, restart included, carries both bounds to the next iteration |
| `Pacing.BurstBoundIsTight` | daemon/src/engine.cpp:385-389 | a run of writing iterations, each waiting for its deadline, whose first comes two intervals late attains the burst bound at every later iteration |
| `Pacing.NoDrift` | daemon/src/engine.cpp:386-389 | a writer never more than two intervals late keeps exactly to the grid of its start |
| `Pacing.LateStartsAnew` | daemon/src/engine.cpp:387-389 | a later one starts a new grid one interval on |
| `EngineSteps.StepKeepsInv` | daemon/src/engine.cpp:30-410 | every step of every thread keeps the lifecycle, mailbox, accounting, freshness, order and pacing invariants |
| `EngineSteps.RunKeepsInv` | daemon/src/engine.cpp:30-410 | hence every reachable state has them, for all interleavings |
| `EngineSteps.FrameAccounting` | daemon/src/engine.cpp:264-363 | generation = received + 1, and at the writer's loop head and in its waits received + 1 + rejected = dropped + rendered + (generation - consumed) |
| `EngineSteps.TakesOnlyWhenDue` | daemon/src/engine.cpp:271-294 | the two-stage wait takes a frame only at the deadline or later and without a stop; a wake by a new frame before it only holds |
| `EngineSteps.WritesAreFreshAndOrdered` | daemon/src/engine.cpp:371-384 | each device write is the rendering of a published frame of the session, generations never decrease, and the written counter counts them |
| `EngineSteps.IterationConsumesLatest` | daemon/src/engine.cpp:290-363 | whatever other threads do meanwhile, an iteration consumes the generation that was latest under its lock; it then holds that frame's rendering or nothing, or, without a new frame, what it held before |
| `EngineSteps.WhatIsHeldIsWritten` | daemon/src/engine.cpp:365-379 | what the iteration holds is written in that very iteration, under its generation; with nothing held nothing is written |
| `EngineSteps.WriterIsPaced` | daemon/src/engine.cpp:264-289 | iteration k reads a clock of at least t0 + k*D, and any j-i iterations take at least (j-i-2)*D, failures and restarts included |
| `EngineSteps.SessionRate` | daemon/src/engine.cpp:264-264 | rate times interval is at most a second, and equal to it iff the rate divides a second's nanoseconds; every valid session has 33333333 ns at 30 a second, thirty of which are 10 ns short of one |
| `EngineSteps.FirstFrameWait` | daemon/src/engine.cpp:86-102 | the wait answers yes iff a device write of the session has been counted, whose first was a genuine rendering; no only on timeout, without a session, or after a device failure |
| `EngineSteps.ReadyFollowsDevice` | daemon/src/engine.cpp:371-384 | the readiness flag holds iff a session runs and its last device write, if any, succeeded |
| `EngineSteps.NoWriteAfterStop` | daemon/src/engine.cpp:104-119 | between the return of Stop and the creation of a later session's writer the device is never written |
| `EngineSteps.SessionsAreCommits` | daemon/src/engine.cpp:121-143 | every frame in flight was admitted by an earlier step, in the session its tag names |
| `EngineSteps.PublishedInItsSession` | daemon/src/engine.cpp:121-143 | a pushed frame is published in the session that admitted it iff no new session was committed in between |
| `EngineSteps.FrameCrossesSessions` | daemon/src/engine.cpp:121-143 | a run, for any local configuration and well-formed frame, that admits the frame in one session and publishes it in the next |
| `EngineSteps.OneFrameCrosses` | daemon/src/main.cpp:438-453 | with one frame thread, which admits a frame only after publishing the last, each commit is crossed by at most one pushed frame |
| `EngineSteps.AtMostOneInFlight` | daemon/src/main.cpp:438-453 | with one frame thread at most one frame is ever between its admission and its publication |
| `EngineSteps.LocalConfigExists` | daemon/src/config.cpp:52-80 | such a configuration and such a frame exist |
| `SessionLaws.SourceFollowsAddress` | daemon/src/engine.cpp:71-75 | every session runs a valid configuration, and once started has a source thread iff its address is a stream address |
| `SessionLaws.StopLeavesNothing` | daemon/src/engine.cpp:104-119 | when Stop returns no thread runs, no frame is held and the device is closed |
| `SessionLaws.CommitNeedsDevice` | daemon/src/engine.cpp:35-39 | a session is committed only when the device has just been opened for it |
| `SessionLaws.WakesInTime` | daemon/src/engine.cpp:271-277 | a waiting writer can go on at a stop, at the deadline, and, without output, at a frame it has not seen |
| `SessionLaws.WriterIsPrompt` | daemon/src/engine.cpp:264-289 | between iterations the writer waits at most one interval from its last clock read, and at first not at all |
| `RenderLaws.PassedOnNeedsNoTransform` | daemon/src/engine.cpp:311-321 | a JPEG is passed on unchanged only when transforming it would have changed nothing |
| `RenderLaws.JpegRendering` | daemon/src/engine.cpp:311-349 | every outcome of a JPEG: passed on iff it declares 1280x720 and needs no turn; else the encoding of its picture turned and scaled as configured; nothing iff it does not decode as declared within 3840x2160 |
| `RenderLaws.FullSizeJpegIsTurned` | daemon/src/engine.cpp:322-349 | a JPEG whose turned size is the output's comes out turned exactly as configured |
| `RenderLaws.Nv21Rendering` | daemon/src/engine.cpp:332-349 | an NV21 frame reaches the encoder, turned and scaled as configured, iff its metadata is what a push must have |
| `RenderLaws.UnturnedNv21` | daemon/src/engine.cpp:332-349 | a full-size NV21 frame that needs no turn is encoded as it is |
| `RenderLaws.StartFrameIsBlack` | daemon/src/engine.cpp:56-63 | the daemon's own first frame is a well-formed frame, and black in every orientation |
| `RenderLaws.SplitFramesAreAcceptable` | daemon/src/engine.cpp:393-399 | every frame the splitter delivers is published unless it exceeds 16 MiB |
| `RenderLaws.ShortestFrame` | daemon/src/engine.cpp:393-399 | the shortest JPEG frame is published, and nothing shorter |
| `Engine.Engine.constructor` | daemon/src/engine.cpp:30-84 | a new engine is the initial state, with an empty trace |
| `Engine.Engine.Accounting` | daemon/src/engine.cpp:290-363 | at any moment of the object, generation = received + 1 and, outside an iteration, received + 1 + rejected = dropped + rendered + unseen |
| `Engine.Engine.Freshness` | daemon/src/engine.cpp:371-384 | what the device took are renderings of published frames, in generation order, counted by the written counter |
| `Engine.Engine.Pace` | daemon/src/engine.cpp:264-289 | the object's iterations are never early and catch up by at most two intervals |
| `Engine.Engine.AdmitFrame` | daemon/src/engine.cpp:122-135 | admits iff a local session is running and the metadata is right, as one step; else nothing changes |
| `Engine.Engine.PublishFrame` | daemon/src/engine.cpp:393-410 | a bad size only counts a drop; otherwise the slot, the generation and the received counter move together |
| `Engine.Engine.PublishPushed` | daemon/src/engine.cpp:137-143 | publication after admission, in whatever session it then is: the publishing step, after which the fields are the state of the longer trace |
| `Engine.Engine.PublishFromSource` | daemon/src/engine.cpp:228-235 | publication by the network source is the same step |
| `Engine.Engine.LeaveSourceLoop` | daemon/src/engine.cpp:219-258 | the source thread ends only on a stop |
| `Engine.Engine.BeginWriting` | daemon/src/engine.cpp:265-265 | the schedule starts at the clock the writer thread reads |
| `Engine.Engine.LoopHead` | daemon/src/engine.cpp:267-273 | the loop head leaves on a stop and waits otherwise |
| `Engine.Engine.WakeUp` | daemon/src/engine.cpp:272-289 | after the first wait, over on a stop, a new frame or the deadline, the writer leaves, holds when early, or takes |
| `Engine.Engine.ResumeAtDeadline` | daemon/src/engine.cpp:283-289 | after the second wait, over on a stop or the deadline, it leaves or takes |
| `Engine.Engine.TakeLatest` | daemon/src/engine.cpp:290-295 | takes the latest frame and counts the generations skipped |
| `Engine.Engine.RenderFrame` | daemon/src/engine.cpp:297-349 | passes a fitting JPEG through, transforms anything else, or fails: the image function of `ImageTransform` |
| `Engine.Engine.TransformTaken` | daemon/src/engine.cpp:297-363 | the rendering step of the system, with its status section |
| `Engine.Engine.ReadTheClock` | daemon/src/engine.cpp:365-369 | the clock-reading step; without output the schedule restarts |
| `Engine.Engine.WriteToSink` | daemon/src/engine.cpp:371-372 | the device-writing step, for either answer |
| `Engine.Engine.AccountForWrite` | daemon/src/engine.cpp:373-389 | the counting step, with the three ways next_write moves |
| `Engine.Engine.BeginStart` | daemon/src/engine.cpp:30-34 | an invalid configuration is refused with nothing changed; a valid one asks for the stop of the old session |
| `Engine.Engine.BeginStop` | daemon/src/engine.cpp:104-106 | asks for a stop |
| `Engine.Engine.JoinThreads` | daemon/src/engine.cpp:107-112 | returns only when both threads have ended |
| `Engine.Engine.OpenDevice` | daemon/src/engine.cpp:35-38 | a device that does not open ends the Start |
| `Engine.Engine.FinishStopping` | daemon/src/engine.cpp:113-118 | the end of Stop |
| `Engine.Engine.CommitStart` | daemon/src/engine.cpp:39-70 | the committing section of Start |
| `Engine.Engine.InstallSession` | daemon/src/engine.cpp:41-68 | configuration, counters, first frame and generation of the new session |
| `Engine.Engine.CreateWriterThread` | daemon/src/engine.cpp:71-72 | the writer thread is created and may run at once, a network source is then due; a failure asks for a stop |
| `Engine.Engine.CreateSourceThread` | daemon/src/engine.cpp:73-82 | the source thread is created while the writer may already have consumed and written; a failure asks for a stop |
| `Engine.Engine.WaitForFirstFrameWritten` | daemon/src/engine.cpp:86-102 | yes only when the device has taken the rendering of a published frame of this session; no only on the timeout, without a session or after a device failure, and then no write has been counted |
| `Supervisor.EveryEventAllowed` | root-module/template/service.sh:335-392 | in a safe log every event was allowed by the events before it |
| `Supervisor.LiveMeansSpawnedAndNotDead` | root-module/template/service.sh:58-62 | the live set is exactly the children spawned by some event and reported dead by no later one |
| `Supervisor.FlagsComeFromEvents` | root-module/template/service.sh:335-363 | each flag holds iff its event is in the log |
| `Supervisor.StartsComeFromEvents` | root-module/template/service.sh:356-358 | a role counts as started iff a successful start of it is in the log |
| `Supervisor.StartedIsLatest` | root-module/template/service.sh:267-305 | the child held for a role is exactly that of its latest successful start |
| `Supervisor.StartedOutlivedItsWait` | root-module/template/service.sh:285-305 | a daemon or proxy counts as started only if it was alive after its start-up wait |
| `Supervisor.RestoreIsSafe` | root-module/template/service.sh:84-112 | ctl.start is issued at most once, after a confirmed stop, with no child alive |
| `Supervisor.NoOrphanAtCheckpoints` | root-module/template/service.sh:267-318 | at every checkpoint each live child is recorded, and all that is recorded are the latest started children of the three roles |
| `Supervisor.StartsAreOrdered` | root-module/template/service.sh:345-358 | no child is spawned before the vendor's interface was seen gone or after the restore; the provider only after a daemon start, the proxy only after the provider |
| `Supervisor.ReadyIsEarned` | root-module/template/service.sh:359-391 | READY is only written with all three children started and nothing restored, and by a monitor tick only after that tick found all three alive, the registration its own and the device there |
| `Supervisor.AnswersComeFromEvents` | root-module/template/service.sh:362-380 | the answers a verdict rests on are exactly those given since its tick began |
| `Supervisor.ProbesAreTruthful` | root-module/template/service.sh:58-62 | a tick finds a role alive iff the latest started child of that role was spawned and has not died |
| `Supervisor.FaultsAreFound` | root-module/template/service.sh:364-386 | every loss, restart or safe-mode status names something a probe of the same tick found wrong, and a role found down had no live child at that moment |
| `Supervisor.StatusesAreReported` | root-module/template/service.sh:21-28 | the status sequence of a log holds exactly the statuses its events write |
| `Supervisor.TicksFitTheirAnswers` | root-module/template/service.sh:362-392 | each completed tick of a log ends at one of its events, within a tick begun and not ended before, and is good, lost or failed as the answers since its start say |
| `Supervisor.InTickComesFromEvents` | root-module/template/service.sh:362-392 | a tick is under way iff one has begun and no event since has ended it |
| `Supervisor.FailuresAreNamed` | root-module/template/service.sh:341-358 | each failure status of the takeover is written only at its stage: what precedes it was done and what it names was not |
| `Supervisor.StopAnswersDecide` | root-module/template/service.sh:336-345 | the stop counts as confirmed only on init's last word that the service has stopped; it fails only on its last word that it has not, after more than twenty such words or a stop taken back |
| `Supervisor.InterfaceAnswersDecide` | root-module/template/service.sh:346-354 | the interface counts as gone or as still there by the last answer, and the restore waits for it to go or ten seconds |
| `Supervisor.StartsAreAnswered` | root-module/template/service.sh:267-305 | a start counts only for a child alive after its wait, and for the provider only when the last answer says that it serves the interface |
| `Supervisor.OutlivedIsTrue` | root-module/template/service.sh:58-62 | whether a child outlived its start is answered truthfully |
| `Supervisor.GivenUpStartsFailed` | root-module/template/service.sh:356-358 | a start is given up only when its last child had died in its wait or, for the provider, did not serve the interface |
| `Supervisor.KillsAreLast` | root-module/template/service.sh:74-82 | a child is killed only when it was the last told to end, was given five seconds and is still alive |
| `Supervisor.ReapingComesFromEvents` | root-module/template/service.sh:74-82 | who was told to end, and how long was waited, are what the events say |
| `Supervisor.CounterMeansThreeInARow` | root-module/template/service.sh:381-391 | the counter reaches three iff this tick and the two before it failed |
| `Supervisor.TickAdded` | root-module/template/service.sh:362-392 | the first tick to give up is the last one |
| `Supervisor.ReadyCountsGoodTicks` | root-module/template/service.sh:388-391 | READY is written once for each good tick and for no other |
| `Supervisor.VerdictIsWritten` | root-module/template/service.sh:364-388 | a loss or a safe mode is written iff the monitor gives up, as its last report, naming what it gave up on |
| `Supervisor.Takeover.StopAndReap` | root-module/template/service.sh:74-82 | the child is told to end, given five seconds, and only then killed; afterwards it is dead |
| `Supervisor.Takeover.RestoreOemProvider` | root-module/template/service.sh:84-106 | ctl.start is issued exactly when the flag is set, after waiting for the interface to go; the flag is cleared only when the service is back and identified |
| `Supervisor.Takeover.Cleanup` | root-module/template/service.sh:108-116 | the proxy, then the daemon, then the provider are told to end; no child is left alive, and the service is restored exactly when the flag was set |
| `Supervisor.Takeover.Boundary` | root-module/template/service.sh:117-122 | at a checkpoint children may die and a signal may arrive, which writes its status; no orphan either way |
| `Supervisor.Takeover.StartProvider` | root-module/template/service.sh:267-283 | on success the provider is recorded; else it had died or another served the interface, and no orphan is left |
| `Supervisor.Takeover.AwaitInterface` | root-module/template/service.sh:272-276 | waits until the interface is as wanted or the limit has passed |
| `Supervisor.Takeover.StartDaemon` | root-module/template/service.sh:285-295 | on success the daemon is recorded; a candidate found dead is not, and is why it failed |
| `Supervisor.Takeover.StartProxy` | root-module/template/service.sh:297-305 | the same for the proxy |
| `Supervisor.Takeover.StartDaemonWithRetry` | root-module/template/service.sh:307-318 | succeeds iff a daemon is recorded; at most three children are spawned, exactly three when it gives up, none an orphan |
| `Supervisor.Takeover.StartProxyWithRetry` | root-module/template/service.sh:307-318 | the same for the proxy |
| `Supervisor.Takeover.CheckProvider` | root-module/template/service.sh:364-368 | lost iff the provider is dead, or alive with a registration that is not its own; it may die, or a signal arrive, after each question |
| `Supervisor.Takeover.AskAlive` | root-module/template/service.sh:58-62 | the answer is whether the latest started child of the role is live, and it is counted for the tick |
| `Supervisor.Takeover.CheckChildren` | root-module/template/service.sh:369-380 | good iff device, daemon and proxy are all there; else the first thing missing names the fault, and exactly the child found dead is started again |
| `Supervisor.Takeover.RestartDaemon` | root-module/template/service.sh:372-375 | the dead daemon is forgotten and started again, which the tick's record shows |
| `Supervisor.Takeover.RestartProxy` | root-module/template/service.sh:376-379 | the same for the proxy |
| `Supervisor.Takeover.MonitorTick` | root-module/template/service.sh:362-392 | a completed tick is classified by what it found, writes what that calls for, and leaves the loop exactly when it must; a tick cut by a signal leaves one of four short tails |
| `Supervisor.Takeover.Monitor` | root-module/template/service.sh:361-392 | the loop is left at tick n iff n is the first tick with the provider lost or a third failure in a row; statuses and ticks are those of the safe log |
| `Supervisor.Takeover.StopOem` | root-module/template/service.sh:335-354 | goes on only with the stop confirmed and the interface seen gone; else it ends early, with one failure, a stop, or both |
| `Supervisor.Takeover.ConfirmStop` | root-module/template/service.sh:335-345 | goes on only on init's word that the service has stopped, and sets the flag; else it ends early |
| `Supervisor.Takeover.PollStop` | root-module/template/service.sh:336-340 | asks until the service has stopped, at least twenty-one times otherwise, open to a signal in every wait |
| `Supervisor.Takeover.PollInterface` | root-module/template/service.sh:346-350 | the same for the interface |
| `Supervisor.Takeover.GiveUp` | root-module/template/service.sh:341-358 | a failure of the takeover writes its status unless a signal comes first; one may also follow |
| `Supervisor.Takeover.StartAll` | root-module/template/service.sh:356-358 | goes on only with all three started; else it ends early, with one failure, a stop, or both |
| `Supervisor.Takeover.Run` | root-module/template/service.sh:335-392 | on every run all children end dead, ctl.start was issued iff the stop was confirmed, the flag survives iff the restore was not verified, the log is safe, statuses and ticks are those of the log; monitored, the statuses are READY, the ticks' reports and the tail of a signal; else one failure, a stop, or both |

## Left out

- JPEG decoding and encoding: a library; the decoded picture and the encoder are parameters that may fail. The pixel loops of TransformJpeg, CreateSolidJpeg and Nv21ToJpeg would only repeat the ones modelled.
- Float rounding: coordinates and samples are exact reals. At scale one, where the group laws are stated, all values are half-integers that the program's floats hold exactly for the sizes it allows.
- Nv21Geometry.MapOutputToSource: at other scales the program's float result may differ from the real one by rounding, whose size is not modelled.
- Nv21Geometry.ClampsAreRedundant: assumes the computed coordinate within half an output pixel of the exact one; that the program's floats stay within it is not proved.
- Error message texts, null out-parameters and reported source sizes; errors are values of a datatype.
- FFmpeg processes, the V4L2 device, sockets, peer credentials and privileges: their answers are nondeterministic or parameters.
- The bodies of HandleControlClient, StartGlobalPlaceholder and StatusJson: they only drive the Start and Stop steps, which the engine's control state allows in any order, and print fields. SourceLoop's backoff is left out with its process.
- EngineSteps.Status: keeps the counters and the two session flags, not the source size, label, error text, source_connected or frame time.
- Engine.Engine: the writer's sections are separate methods; the order in which the loop runs them is carried by the writer's program counter `at`, not by one method with a loop, because other threads act between sections.
- EngineSteps.Next: a generation is unbounded where the program has 64 bits; the wake-ups of condition variables are the enabling of a step, so liveness (that a waiting writer does wake) is not stated. A wake that finds nothing to do changes nothing and is not a step.
- FrameWire.Pushable: the pixel product is unbounded; with a 64-bit size_t it cannot wrap for two positive ints.
- FrameWire.FrameSession.HandleFrameClient: interruptions of read are finitely many, by a budget; a run interrupted for ever never returns.
- SocketRelay.Relay: the rounds before a stop request and the interruptions of send are finitely many, by a budget of arbitrary size.
- StartCommand.OptionOrderIsIrrelevant: which of several errors is reported may depend on the order of the lines; the success result does not.
- StartCommand.StartRoundTrip: one char stands for one byte; the controller's own URI validation and trimming are replaced by the daemon's acceptance, which is what the result needs. The daemon's later override of the FFmpeg path is not part of it.
- Supervisor.Takeover.Run: starts at the request to stop the vendor's service; the profile, package and device checks before it, signals inside the start functions and inside the cleanup itself, process-number reuse, the kernel module and the status file's suppression of repeated writes are not modelled. When the stop is never confirmed nothing is restored, as in the script.
- Supervisor.Takeover.Monitor: `limit` is the number of ticks before a final signal, any number; it stands for every finite run.
- Android UI, services, packaging, signing and diagnostics: field checks, I/O and configuration.
