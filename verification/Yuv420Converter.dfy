/**
 YUV_420_888 to NV21 conversion over strided plane views. Planes are address ranges of one flat memory, so
 that the aliasing test of the interleaved fast path means what it means in the program. A size_t has
 `word` values, and every size_t expression that could wrap is written with its remainder.
 */
module Yuv420Converter {
  import opened Bytes

  const UINT32_COUNT: nat := 0x1_0000_0000

  /** Address 0 is the null pointer. */
  datatype Plane = Plane(data: nat, limit: nat, position: nat, rowStride: nat, pixelStride: nat)
  {
    predicate Usable()
    {
      data != 0 && rowStride != 0 && pixelStride != 0 && position <= limit
    }

    predicate IsWords(word: nat)
    {
      data < word && limit < word && position < word && rowStride < word && pixelStride < word
    }

    /** The offset of sample (x, y), in unbounded arithmetic. */
    function Offset(x: nat, y: nat): nat
    {
      position + y * rowStride + x * pixelStride
    }

    /** Row y holds `samples` samples from column x on, all below the limit. */
    predicate Covers(x: nat, y: nat, samples: nat)
    {
      Usable() && samples != 0 && Offset(x + samples - 1, y) < limit
    }

    /** The caller's duty: a non-null pointer designates `limit` readable bytes. */
    predicate Within(memory: seq<byte>)
    {
      data != 0 ==> data + limit <= |memory|
    }

    /** The only way the model reads a plane: strictly below its limit. */
    function Read(memory: seq<byte>, offset: nat): byte
      requires data != 0 && Within(memory)
      requires offset < limit
    {
      memory[data + offset]
    }
  }

  lemma DivGuard(count: nat, stride: nat, room: nat)
    requires stride > 0
    ensures count > room / stride <==> count * stride > room
  {
    var q := room / stride;
    assert room == q * stride + room % stride;
    if count <= q {
      assert count * stride <= q * stride;
    } else {
      assert count * stride >= (q + 1) * stride == q * stride + stride;
    }
  }

  /** base + count * stride with the guard that keeps every size_t intermediate from wrapping. */
  function Advance(word: nat, base: nat, count: nat, stride: nat): (r: Option<nat>)
    requires base < word && stride > 0
    ensures r == if base + count * stride < word then Some(base + count * stride) else None
  {
    DivGuard(count, stride, word - 1 - base);
    if count > (word - 1 - base) / stride then
      None
    else
      var step := count * stride;
      SmallModulus(step, word);
      SmallModulus(base + step, word);
      Some((base + step % word) % word)
  }

  lemma SpanSplits(base: nat, x: nat, samples: nat, stride: nat)
    requires samples > 0
    ensures base + (x + samples - 1) * stride == (base + x * stride) + (samples - 1) * stride
    ensures base <= base + x * stride <= base + (x + samples - 1) * stride
  {
  }

  /** Succeeds exactly when the row fits in unbounded arithmetic, for every word size. */
  method CheckedOffset(word: nat, plane: Plane, x: nat, y: nat, samples: nat) returns (offset: Option<nat>)
    requires plane.IsWords(word) && x < word && y < word && samples < word
    ensures offset == if plane.Covers(x, y, samples) then Some(plane.Offset(x, y)) else None
  {
    if !plane.Usable() || samples == 0 {
      return None;
    }
    SpanSplits(plane.position + y * plane.rowStride, x, samples, plane.pixelStride);
    var row := Advance(word, plane.position, y, plane.rowStride);
    if row.None? {
      return None;
    }
    var first := Advance(word, row.value, x, plane.pixelStride);
    if first.None? {
      return None;
    }
    var last := Advance(word, first.value, samples - 1, plane.pixelStride);
    if last.None? || last.value >= plane.limit {
      return None;
    }
    return first;
  }

  /** A wrapped product is always caught by dividing it back. */
  lemma WrapDetected(word: nat, width: nat, height: nat)
    requires 0 < width < word && height < word
    ensures (width * height % word) / width == height <==> width * height < word
  {
    var area := width * height;
    if area < word {
      SmallModulus(area, word);
      DivGuard(height, width, area);
      DivGuard(height + 1, width, area);
      assert (height + 1) * width == area + width;
    } else {
      DivGuard(height, width, area % word);
    }
  }

  ghost predicate RowsCovered(plane: Plane, x: nat, top: nat, samples: nat, rows: nat)
  {
    forall y: nat | top <= y < top + rows :: plane.Covers(x, y, samples)
  }

  /** All rows fit iff the last one does. */
  lemma LastRowDecides(plane: Plane, x: nat, top: nat, samples: nat, rows: nat)
    requires rows > 0
    ensures plane.Covers(x, top + rows - 1, samples) <==> RowsCovered(plane, x, top, samples, rows)
  {
    var last := top + rows - 1;
    if plane.Covers(x, last, samples) {
      forall y: nat | top <= y <= last ensures plane.Covers(x, y, samples) {
        assert y * plane.rowStride <= last * plane.rowStride;
      }
    }
  }

  /** Each sample of a covered row lies below the limit. */
  lemma ColumnCovered(plane: Plane, x: nat, y: nat, samples: nat, column: nat)
    requires plane.Covers(x, y, samples) && column < samples
    ensures plane.Offset(x, y) + column * plane.pixelStride == plane.Offset(x + column, y) < plane.limit
  {
    assert (x + column) * plane.pixelStride == x * plane.pixelStride + column * plane.pixelStride;
    assert (x + column) * plane.pixelStride <= (x + samples - 1) * plane.pixelStride;
  }

  // ----- The NV21 image of a crop

  datatype Crop = Crop(left: nat, top: nat, width: nat, height: nat)
  {
    predicate IsUint32()
    {
      left < UINT32_COUNT && top < UINT32_COUNT && width < UINT32_COUNT && height < UINT32_COUNT
    }

    predicate IsEven()
    {
      width != 0 && height != 0 && width % 2 == 0 && height % 2 == 0 && left % 2 == 0 && top % 2 == 0
    }
  }

  function Peek(memory: seq<byte>, address: nat): byte
  {
    if address < |memory| then memory[address] else 0
  }

  function Sample(memory: seq<byte>, plane: Plane, x: nat, y: nat): byte
  {
    Peek(memory, plane.data + plane.Offset(x, y))
  }

  function LumaRow(memory: seq<byte>, y: Plane, x: nat, row: nat, width: nat): (s: seq<byte>)
    ensures |s| == width
  {
    seq<byte>(width, c requires 0 <= c => Sample(memory, y, x + c, row))
  }

  /** V and U alternate, each at half the horizontal resolution. */
  function ChromaRow(memory: seq<byte>, u: Plane, v: Plane, x: nat, row: nat, width: nat): (s: seq<byte>)
    ensures |s| == width
  {
    seq<byte>(width, c requires 0 <= c => Sample(memory, if c % 2 == 0 then v else u, x + c / 2, row))
  }

  function LumaImage(memory: seq<byte>, y: Plane, crop: Crop, rows: nat): (s: seq<byte>)
    ensures |s| == rows * crop.width
  {
    if rows == 0 then []
    else LumaImage(memory, y, crop, rows - 1) + LumaRow(memory, y, crop.left, crop.top + rows - 1, crop.width)
  }

  function ChromaImage(memory: seq<byte>, u: Plane, v: Plane, crop: Crop, rows: nat): (s: seq<byte>)
    ensures |s| == rows * crop.width
  {
    if rows == 0 then []
    else ChromaImage(memory, u, v, crop, rows - 1)
         + ChromaRow(memory, u, v, crop.left / 2, crop.top / 2 + rows - 1, crop.width)
  }

  /** The whole output buffer: the Y image, then the interleaved chroma image. */
  function Nv21Image(memory: seq<byte>, y: Plane, u: Plane, v: Plane, crop: Crop): seq<byte>
  {
    LumaImage(memory, y, crop, crop.height) + ChromaImage(memory, u, v, crop, crop.height / 2)
  }

  lemma IndexBelow(width: nat, row: nat, column: nat, rows: nat)
    requires column < width && row < rows
    ensures 0 <= row * width <= row * width + column < rows * width
  {
    assert (row + 1) * width <= rows * width;
    assert (row + 1) * width == row * width + width;
  }

  lemma {:induction false} LumaImageAt(
    memory: seq<byte>, y: Plane, crop: Crop, rows: nat, row: nat, column: nat)
    requires row < rows && column < crop.width
    ensures row * crop.width + column < rows * crop.width
    ensures LumaImage(memory, y, crop, rows)[row * crop.width + column]
            == Sample(memory, y, crop.left + column, crop.top + row)
  {
    IndexBelow(crop.width, row, column, rows);
    if row == rows - 1 {
    } else {
      IndexBelow(crop.width, row, column, rows - 1);
      LumaImageAt(memory, y, crop, rows - 1, row, column);
    }
  }

  lemma {:induction false} ChromaImageAt(
    memory: seq<byte>, u: Plane, v: Plane, crop: Crop, rows: nat, row: nat, column: nat)
    requires row < rows && column < crop.width
    ensures row * crop.width + column < rows * crop.width
    ensures ChromaImage(memory, u, v, crop, rows)[row * crop.width + column]
            == Sample(memory, if column % 2 == 0 then v else u, crop.left / 2 + column / 2, crop.top / 2 + row)
  {
    IndexBelow(crop.width, row, column, rows);
    if row == rows - 1 {
    } else {
      IndexBelow(crop.width, row, column, rows - 1);
      ChromaImageAt(memory, u, v, crop, rows - 1, row, column);
    }
  }

  lemma ChromaArea(width: nat, height: nat)
    requires height % 2 == 0
    ensures width * height + (height / 2) * width == width * height * 3 / 2
    ensures height * width == width * height
  {
    var half := height / 2;
    assert height == 2 * half;
    assert width * height == 2 * (half * width);
  }

  /** The Y byte of pixel (column, row) is at row * width + column. */
  lemma Nv21LumaAt(memory: seq<byte>, y: Plane, u: Plane, v: Plane, crop: Crop, row: nat, column: nat)
    requires row < crop.height && column < crop.width
    ensures var image, at := Nv21Image(memory, y, u, v, crop), row * crop.width + column;
            && at < |image|
            && image[at] == Sample(memory, y, crop.left + column, crop.top + row)
  {
    hide LumaImage, ChromaImage;
    LumaImageAt(memory, y, crop, crop.height, row, column);
  }

  /** The V and U bytes of 2x2 block (column, row) follow the Y image, as a pair, V first. */
  lemma Nv21ChromaAt(memory: seq<byte>, y: Plane, u: Plane, v: Plane, crop: Crop, row: nat, column: nat)
    requires crop.IsEven()
    requires row < crop.height / 2 && column < crop.width / 2
    ensures var image := Nv21Image(memory, y, u, v, crop);
            var at := crop.width * crop.height + (row * crop.width + 2 * column);
            && |image| == crop.width * crop.height * 3 / 2
            && at + 1 < |image|
            && image[at] == Sample(memory, v, crop.left / 2 + column, crop.top / 2 + row)
            && image[at + 1] == Sample(memory, u, crop.left / 2 + column, crop.top / 2 + row)
    ensures 2 * (crop.left / 2 + column) == crop.left + 2 * column
    ensures 2 * (crop.top / 2 + row) == crop.top + 2 * row
  {
    hide LumaImage, ChromaImage, Sample;
    ChromaArea(crop.width, crop.height);
    var luma := LumaImage(memory, y, crop, crop.height);
    var chroma := ChromaImage(memory, u, v, crop, crop.height / 2);
    var at := row * crop.width + 2 * column;
    ChromaImageAt(memory, u, v, crop, crop.height / 2, row, 2 * column);
    ChromaImageAt(memory, u, v, crop, crop.height / 2, row, 2 * column + 1);
    PairIndex(column);
    assert (luma + chroma)[|luma| + at] == chroma[at] && (luma + chroma)[|luma| + (at + 1)] == chroma[at + 1];
  }

  lemma PairIndex(column: nat)
    ensures 2 * column / 2 == column == (2 * column + 1) / 2
    ensures 2 * column % 2 == 0 && (2 * column + 1) % 2 == 1
  {
  }

  // ----- Copying one row

  /** `out` with the bytes from `to` on replaced by `row`. */
  ghost predicate Spliced(before: seq<byte>, after: seq<byte>, to: nat, row: seq<byte>)
  {
    && |after| == |before| && to + |row| <= |before|
    && forall i :: 0 <= i < |after| ==> after[i] == if to <= i < to + |row| then row[i - to] else before[i]
  }

  /** The bytes of a plane from an offset on. */
  function Run(memory: seq<byte>, plane: Plane, source: nat, count: nat): seq<byte>
  {
    seq<byte>(count, i requires 0 <= i => Peek(memory, plane.data + source + i))
  }

  method Memcpy(memory: seq<byte>, plane: Plane, source: nat, output: array<byte>, to: nat, count: nat)
    requires plane.data != 0 && plane.Within(memory)
    requires source + count <= plane.limit
    requires to + count <= output.Length
    modifies output
    ensures Spliced(old(output[..]), output[..], to, Run(memory, plane, source, count))
  {
    ghost var row := Run(memory, plane, source, count);
    for i := 0 to count
      invariant forall k :: 0 <= k < output.Length ==>
                  output[k] == if to <= k < to + i then row[k - to] else old(output[k])
    {
      output[to + i] := plane.Read(memory, source + i);
    }
  }

  method CopyLumaRow(
    memory: seq<byte>, y: Plane, x: nat, row: nat, width: nat, source: nat, output: array<byte>, to: nat)
    requires y.Within(memory) && y.Covers(x, row, width)
    requires source == y.Offset(x, row)
    requires to + width <= output.Length
    modifies output
    ensures Spliced(old(output[..]), output[..], to, LumaRow(memory, y, x, row, width))
  {
    ghost var line := LumaRow(memory, y, x, row, width);
    if y.pixelStride == 1 {
      ColumnCovered(y, x, row, width, width - 1);
      forall c | 0 <= c < width ensures Run(memory, y, source, width)[c] == line[c] {
        ColumnCovered(y, x, row, width, c);
      }
      assert Run(memory, y, source, width) == line;
      Memcpy(memory, y, source, output, to, width);
    } else {
      for column := 0 to width
        invariant forall k :: 0 <= k < output.Length ==>
                    output[k] == if to <= k < to + column then line[k - to] else old(output[k])
      {
        ColumnCovered(y, x, row, width, column);
        assert line[column] == Sample(memory, y, x + column, row);
        output[to + column] := y.Read(memory, source + column * y.pixelStride);
      }
    }
  }

  /** When V's row already holds VU pairs, its bytes are the interleaved row. */
  lemma InterleavedRow(memory: seq<byte>, u: Plane, v: Plane, x: nat, row: nat, chromaWidth: nat)
    requires u.pixelStride == 2 && v.pixelStride == 2
    requires v.data + v.Offset(x, row) + 1 == u.data + u.Offset(x, row)
    ensures Run(memory, v, v.Offset(x, row), 2 * chromaWidth)
            == ChromaRow(memory, u, v, x, row, 2 * chromaWidth)
  {
    forall c | 0 <= c < 2 * chromaWidth
      ensures v.data + v.Offset(x, row) + c
              == (if c % 2 == 0 then v else u).data + (if c % 2 == 0 then v else u).Offset(x + c / 2, row)
    {
      assert c == 2 * (c / 2) + c % 2;
    }
  }

  /** Both paths write the same row, and each reads its planes only below their limits. */
  method CopyChromaRow(
    memory: seq<byte>, u: Plane, v: Plane, x: nat, row: nat, chromaWidth: nat,
    uSource: nat, vSource: nat, output: array<byte>, to: nat)
    requires u.Within(memory) && u.Covers(x, row, chromaWidth) && uSource == u.Offset(x, row)
    requires v.Within(memory) && v.Covers(x, row, chromaWidth) && vSource == v.Offset(x, row)
    requires to + 2 * chromaWidth <= output.Length
    modifies output
    ensures Spliced(old(output[..]), output[..], to, ChromaRow(memory, u, v, x, row, 2 * chromaWidth))
  {
    var width := 2 * chromaWidth;
    if u.pixelStride == 2 && v.pixelStride == 2
       && v.data + vSource + 1 == u.data + uSource
       && vSource <= v.limit && width <= v.limit - vSource {
      InterleavedRow(memory, u, v, x, row, chromaWidth);
      Memcpy(memory, v, vSource, output, to, width);
      return;
    }
    CopySamples(memory, u, v, x, row, chromaWidth, uSource, vSource, output, to);
  }

  method CopySamples(
    memory: seq<byte>, u: Plane, v: Plane, x: nat, row: nat, chromaWidth: nat,
    uSource: nat, vSource: nat, output: array<byte>, to: nat)
    requires u.Within(memory) && u.Covers(x, row, chromaWidth) && uSource == u.Offset(x, row)
    requires v.Within(memory) && v.Covers(x, row, chromaWidth) && vSource == v.Offset(x, row)
    requires to + 2 * chromaWidth <= output.Length
    modifies output
    ensures Spliced(old(output[..]), output[..], to, ChromaRow(memory, u, v, x, row, 2 * chromaWidth))
  {
    ghost var line := ChromaRow(memory, u, v, x, row, 2 * chromaWidth);
    for column := 0 to chromaWidth
      invariant forall k :: 0 <= k < output.Length ==>
                  output[k] == if to <= k < to + 2 * column then line[k - to] else old(output[k])
    {
      PairAt(memory, u, v, x, row, chromaWidth, column);
      output[to + column * 2] := v.Read(memory, vSource + column * v.pixelStride);
      output[to + column * 2 + 1] := u.Read(memory, uSource + column * u.pixelStride);
    }
  }

  lemma PairAt(memory: seq<byte>, u: Plane, v: Plane, x: nat, row: nat, chromaWidth: nat, column: nat)
    requires u.Within(memory) && u.Covers(x, row, chromaWidth)
    requires v.Within(memory) && v.Covers(x, row, chromaWidth)
    requires column < chromaWidth
    ensures u.Offset(x, row) + column * u.pixelStride < u.limit
    ensures v.Offset(x, row) + column * v.pixelStride < v.limit
    ensures var line := ChromaRow(memory, u, v, x, row, 2 * chromaWidth);
            && line[2 * column] == v.Read(memory, v.Offset(x, row) + column * v.pixelStride)
            && line[2 * column + 1] == u.Read(memory, u.Offset(x, row) + column * u.pixelStride)
  {
    ColumnCovered(u, x, row, chromaWidth, column);
    ColumnCovered(v, x, row, chromaWidth, column);
    assert 2 * column / 2 == column && (2 * column + 1) / 2 == column;
  }

  // ----- The converter

  datatype Outcome = Converted | BadDimensions | BadOutputSize | LumaOutOfBounds | ChromaOutOfBounds

  predicate LumaCovered(plane: Plane, crop: Crop)
    requires crop.IsEven()
  {
    plane.Covers(crop.left, crop.top + crop.height - 1, crop.width)
  }

  predicate ChromaCovered(plane: Plane, crop: Crop)
    requires crop.IsEven()
  {
    plane.Covers(crop.left / 2, crop.top / 2 + crop.height / 2 - 1, crop.width / 2)
  }

  predicate SizeFits(word: nat, crop: Crop, outputSize: nat)
  {
    crop.width * crop.height * 3 < word && outputSize == crop.width * crop.height * 3 / 2
  }

  /** Which result the caller gets, decided in unbounded arithmetic. */
  function Verdict(word: nat, y: Plane, u: Plane, v: Plane, crop: Crop, hasOutput: bool, outputSize: nat): Outcome
  {
    if !hasOutput || !crop.IsEven() then BadDimensions
    else if !SizeFits(word, crop, outputSize) then BadOutputSize
    else if !LumaCovered(y, crop) then LumaOutOfBounds
    else if !ChromaCovered(u, crop) || !ChromaCovered(v, crop) then ChromaOutOfBounds
    else Converted
  }

  /** Conversion succeeds iff crop and size are right and every row of all three planes lies below its limit. */
  lemma ConvertsIff(word: nat, y: Plane, u: Plane, v: Plane, crop: Crop, hasOutput: bool, outputSize: nat)
    ensures Verdict(word, y, u, v, crop, hasOutput, outputSize) == Converted
       <==> && hasOutput && crop.IsEven() && SizeFits(word, crop, outputSize)
            && RowsCovered(y, crop.left, crop.top, crop.width, crop.height)
            && RowsCovered(u, crop.left / 2, crop.top / 2, crop.width / 2, crop.height / 2)
            && RowsCovered(v, crop.left / 2, crop.top / 2, crop.width / 2, crop.height / 2)
    ensures Verdict(word, y, u, v, crop, hasOutput, outputSize) == LumaOutOfBounds ==>
              !RowsCovered(y, crop.left, crop.top, crop.width, crop.height)
    ensures Verdict(word, y, u, v, crop, hasOutput, outputSize) == ChromaOutOfBounds ==>
              || !RowsCovered(u, crop.left / 2, crop.top / 2, crop.width / 2, crop.height / 2)
              || !RowsCovered(v, crop.left / 2, crop.top / 2, crop.width / 2, crop.height / 2)
  {
    hide RowsCovered, Plane.Covers, SizeFits;
    if crop.IsEven() {
      LastRowDecides(y, crop.left, crop.top, crop.width, crop.height);
      LastRowDecides(u, crop.left / 2, crop.top / 2, crop.width / 2, crop.height / 2);
      LastRowDecides(v, crop.left / 2, crop.top / 2, crop.width / 2, crop.height / 2);
    }
  }

  /** The program's size test on wrapped products is the unbounded one. */
  lemma SizeTest(word: nat, crop: Crop, outputSize: nat)
    requires 0 < crop.width < word && crop.height < word
    ensures var pixels := crop.width * crop.height % word;
            (pixels / crop.width != crop.height || pixels > (word - 1) / 3 || outputSize != (pixels * 3 % word) / 2)
            <==> !SizeFits(word, crop, outputSize)
  {
    WrapDetected(word, crop.width, crop.height);
    var area := crop.width * crop.height;
    if area < word {
      SmallModulus(area, word);
      DivGuard(area, 3, word - 1);
      if area * 3 < word {
        SmallModulus(area * 3, word);
      }
    }
  }

  /** Once row y has been accepted, the next row index is still a size_t. */
  lemma NextRowIndex(word: nat, plane: Plane, x: nat, y: nat, samples: nat)
    requires plane.IsWords(word) && plane.Covers(x, y, samples) && samples >= 2
    ensures y + 1 < word
  {
    Scaled(y, plane.rowStride);
    Scaled(x + samples - 1, plane.pixelStride);
  }

  lemma Scaled(count: nat, stride: nat)
    requires stride >= 1
    ensures count * stride >= count
  {
  }

  lemma RowIndices(word: nat, plane: Plane, x: nat, top: nat, samples: nat, row: nat)
    requires word >= UINT32_COUNT && plane.IsWords(word) && top < UINT32_COUNT
    requires RowsCovered(plane, x, top, samples, row)
    requires samples >= 2
    ensures (top + row) % word == top + row
  {
    if row > 0 {
      NextRowIndex(word, plane, x, top + row - 1, samples);
    }
  }

  /** The first `to` bytes are `image`, and nothing past outputSize has changed. */
  ghost predicate Progress(image: seq<byte>, first: seq<byte>, now: seq<byte>, to: nat, outputSize: nat)
  {
    && |now| == |first| && to <= outputSize <= |now|
    && now[..to] == image && now[outputSize..] == first[outputSize..]
  }

  /** One more row. */
  lemma ProgressStep(
    image: seq<byte>, first: seq<byte>, before: seq<byte>, after: seq<byte>, to: nat, outputSize: nat, row: seq<byte>)
    requires Progress(image, first, before, to, outputSize)
    requires to + |row| <= outputSize
    requires Spliced(before, after, to, row)
    ensures Progress(image + row, first, after, to + |row|, outputSize)
  {
    assert |image| == to;
    forall i | 0 <= i < to + |row| ensures after[i] == (image + row)[i] {
      if i < to {
        assert image[i] == before[i];
      }
    }
    forall i | outputSize <= i < |after| ensures after[i] == before[i] {}
    assert after[outputSize..] == before[outputSize..];
  }

  function Area(rows: nat, width: nat): nat
  {
    rows * width
  }

  lemma RowFits(width: nat, row: nat, rows: nat)
    requires row < rows
    ensures Area(0, width) == 0
    ensures Area(row + 1, width) == Area(row, width) + width <= Area(rows, width)
  {
    assert (row + 1) * width == row * width + width;
    assert (row + 1) * width <= rows * width;
  }

  lemma CropSizes(word: nat, crop: Crop, outputSize: nat)
    requires word >= UINT32_COUNT && crop.IsUint32() && crop.IsEven() && SizeFits(word, crop, outputSize)
    ensures outputSize == Area(crop.height, crop.width) + Area(crop.height / 2, crop.width)
    ensures Area(crop.height, crop.width) == crop.width * crop.height == crop.height * crop.width
    ensures 2 * (crop.width / 2) == crop.width >= 2 && crop.height >= 2
    ensures crop.left < word && crop.width < word && crop.top / 2 + crop.height / 2 <= word
    ensures crop.left / 2 < word && crop.width / 2 < word && crop.top < UINT32_COUNT
  {
    ChromaArea(crop.width, crop.height);
  }

  method ConvertLuma(word: nat, memory: seq<byte>, y: Plane, crop: Crop, output: array<byte>, outputSize: nat)
    returns (ok: bool)
    requires word >= UINT32_COUNT && y.IsWords(word) && y.Within(memory)
    requires crop.IsUint32() && crop.IsEven() && SizeFits(word, crop, outputSize)
    requires outputSize <= output.Length
    modifies output
    ensures ok <==> LumaCovered(y, crop)
    ensures ok ==> Progress(LumaImage(memory, y, crop, crop.height), old(output[..]), output[..],
                            crop.width * crop.height, outputSize)
    ensures output[outputSize..] == old(output[outputSize..])
  {
    hide Progress, Spliced, Plane.Covers, LumaRow, Area, RowsCovered, SizeFits, Crop.IsUint32, Plane.IsWords;
    ghost var first := output[..];
    var width, height := crop.width, crop.height;
    CropSizes(word, crop, outputSize);
    LastRowDecides(y, crop.left, crop.top, width, height);
    NothingCovered(y, crop.left, crop.top, width);
    var to := 0;
    ProgressStarts(first, outputSize);
    for row := 0 to height
      invariant to == Area(row, width)
      invariant RowsCovered(y, crop.left, crop.top, width, row)
      invariant Progress(LumaImage(memory, y, crop, row), first, output[..], to, outputSize)
    {
      RowFits(width, row, height);
      RowIndices(word, y, crop.left, crop.top, width, row);
      ghost var before, image := output[..], LumaImage(memory, y, crop, row);
      ProgressKeepsTail(image, first, before, to, outputSize);
      var copied := ConvertLumaRow(word, memory, y, crop.left, (crop.top + row) % word, width, output, to);
      OneMoreCovered(y, crop.left, crop.top, width, row, height);
      if !copied {
        return false;
      }
      ghost var line := LumaRow(memory, y, crop.left, crop.top + row, width);
      ProgressStep(image, first, before, output[..], to, outputSize, line);
      assert image + line == LumaImage(memory, y, crop, row + 1);
      to := to + width;
    }
    ProgressKeepsTail(LumaImage(memory, y, crop, height), first, output[..], to, outputSize);
    return true;
  }

  lemma ProgressStarts(first: seq<byte>, outputSize: nat)
    requires outputSize <= |first|
    ensures Progress([], first, first, 0, outputSize)
    ensures Area(0, 0) == 0 && forall width: nat :: Area(0, width) == 0
  {
  }

  lemma ProgressKeepsTail(image: seq<byte>, first: seq<byte>, now: seq<byte>, to: nat, outputSize: nat)
    requires Progress(image, first, now, to, outputSize)
    ensures outputSize <= |first| == |now| && now[outputSize..] == first[outputSize..]
    ensures to == outputSize ==> now[..outputSize] == image
  {
  }

  lemma NothingCovered(plane: Plane, x: nat, top: nat, samples: nat)
    ensures RowsCovered(plane, x, top, samples, 0)
  {
  }

  lemma OneMoreCovered(plane: Plane, x: nat, top: nat, samples: nat, row: nat, rows: nat)
    requires RowsCovered(plane, x, top, samples, row) && row < rows
    ensures RowsCovered(plane, x, top, samples, row + 1) <==> plane.Covers(x, top + row, samples)
    ensures RowsCovered(plane, x, top, samples, rows) ==> plane.Covers(x, top + row, samples)
  {
  }

  method ConvertLumaRow(
    word: nat, memory: seq<byte>, y: Plane, x: nat, row: nat, width: nat, output: array<byte>, to: nat)
    returns (ok: bool)
    requires y.IsWords(word) && x < word && row < word && width < word
    requires y.Within(memory)
    requires to + width <= output.Length
    modifies output
    ensures ok <==> y.Covers(x, row, width)
    ensures ok ==> Spliced(old(output[..]), output[..], to, LumaRow(memory, y, x, row, width))
    ensures !ok ==> output[..] == old(output[..])
  {
    var source := CheckedOffset(word, y, x, row, width);
    if source.None? {
      return false;
    }
    CopyLumaRow(memory, y, x, row, width, source.value, output, to);
    return true;
  }

  method ConvertChromaRow(
    word: nat, memory: seq<byte>, u: Plane, v: Plane, x: nat, row: nat, chromaWidth: nat,
    output: array<byte>, to: nat)
    returns (ok: bool)
    requires u.IsWords(word) && v.IsWords(word) && x < word && row < word && chromaWidth < word
    requires u.Within(memory) && v.Within(memory)
    requires to + 2 * chromaWidth <= output.Length
    modifies output
    ensures ok <==> u.Covers(x, row, chromaWidth) && v.Covers(x, row, chromaWidth)
    ensures ok ==> Spliced(old(output[..]), output[..], to, ChromaRow(memory, u, v, x, row, 2 * chromaWidth))
    ensures !ok ==> output[..] == old(output[..])
  {
    var uSource := CheckedOffset(word, u, x, row, chromaWidth);
    if uSource.None? {
      return false;
    }
    var vSource := CheckedOffset(word, v, x, row, chromaWidth);
    if vSource.None? {
      return false;
    }
    CopyChromaRow(memory, u, v, x, row, chromaWidth, uSource.value, vSource.value, output, to);
    return true;
  }

  method ConvertChroma(
    word: nat, memory: seq<byte>, u: Plane, v: Plane, crop: Crop, output: array<byte>, outputSize: nat,
    ghost first: seq<byte>, ghost luma: seq<byte>)
    returns (ok: bool)
    requires word >= UINT32_COUNT && u.IsWords(word) && v.IsWords(word)
    requires u.Within(memory) && v.Within(memory)
    requires crop.IsUint32() && crop.IsEven() && SizeFits(word, crop, outputSize)
    requires outputSize <= output.Length
    requires Progress(luma, first, output[..], crop.width * crop.height, outputSize)
    modifies output
    ensures ok <==> ChromaCovered(u, crop) && ChromaCovered(v, crop)
    ensures |first| == output.Length && output[outputSize..] == first[outputSize..]
    ensures ok ==> output[..outputSize] == luma + ChromaImage(memory, u, v, crop, crop.height / 2)
  {
    hide Progress, Spliced, Plane.Covers, ChromaRow, Area, RowsCovered, SizeFits, Crop.IsUint32, Plane.IsWords;
    var half, rows := crop.width / 2, crop.height / 2;
    var left, top := crop.left / 2, crop.top / 2;
    CropSizes(word, crop, outputSize);
    LastRowDecides(u, left, top, half, rows);
    LastRowDecides(v, left, top, half, rows);
    NothingCovered(u, left, top, half);
    NothingCovered(v, left, top, half);
    ghost var start := crop.width * crop.height;
    var to := crop.width * crop.height;
    RowFits(crop.width, 0, rows);
    assert luma + ChromaImage(memory, u, v, crop, 0) == luma;
    for row := 0 to rows
      invariant to == start + Area(row, crop.width)
      invariant RowsCovered(u, left, top, half, row) && RowsCovered(v, left, top, half, row)
      invariant Progress(luma + ChromaImage(memory, u, v, crop, row), first, output[..], to, outputSize)
    {
      RowFits(crop.width, row, rows);
      SmallModulus(top + row, word);
      ghost var before, image := output[..], luma + ChromaImage(memory, u, v, crop, row);
      ProgressKeepsTail(image, first, before, to, outputSize);
      var copied := ConvertChromaRow(word, memory, u, v, left, (top + row) % word, half, output, to);
      OneMoreCovered(u, left, top, half, row, rows);
      OneMoreCovered(v, left, top, half, row, rows);
      if !copied {
        return false;
      }
      ghost var line := ChromaRow(memory, u, v, left, top + row, crop.width);
      ProgressStep(image, first, before, output[..], to, outputSize, line);
      assert image + line == luma + ChromaImage(memory, u, v, crop, row + 1);
      to := to + crop.width;
    }
    ProgressKeepsTail(luma + ChromaImage(memory, u, v, crop, rows), first, output[..], to, outputSize);
    return true;
  }

  /**
   The result code is decided by unbounded arithmetic alone, a successful conversion writes exactly the NV21
   image of the crop, and no byte past outputSize is ever touched.
   */
  method ConvertYuv420ToNv21(
    word: nat, memory: seq<byte>, y: Plane, u: Plane, v: Plane, crop: Crop, output: array?<byte>, outputSize: nat)
    returns (outcome: Outcome)
    requires word >= UINT32_COUNT
    requires y.IsWords(word) && u.IsWords(word) && v.IsWords(word)
    requires y.Within(memory) && u.Within(memory) && v.Within(memory)
    requires crop.IsUint32()
    requires output != null ==> outputSize <= output.Length
    modifies output
    ensures outcome == Verdict(word, y, u, v, crop, output != null, outputSize)
    ensures outcome == Converted ==> output[..outputSize] == Nv21Image(memory, y, u, v, crop)
    ensures output != null ==> output[outputSize..] == old(output[outputSize..])
  {
    if output == null || crop.width == 0 || crop.height == 0
       || crop.width % 2 != 0 || crop.height % 2 != 0 || crop.left % 2 != 0 || crop.top % 2 != 0 {
      return BadDimensions;
    }
    ghost var first := output[..];
    SizeTest(word, crop, outputSize);
    var pixels := crop.width * crop.height % word;
    if pixels / crop.width != crop.height || pixels > (word - 1) / 3 || outputSize != (pixels * 3 % word) / 2 {
      return BadOutputSize;
    }
    var luma := ConvertLuma(word, memory, y, crop, output, outputSize);
    if !luma {
      return LumaOutOfBounds;
    }
    ghost var image := LumaImage(memory, y, crop, crop.height);
    var chroma := ConvertChroma(word, memory, u, v, crop, output, outputSize, first, image);
    if !chroma {
      return ChromaOutOfBounds;
    }
    return Converted;
  }
}
