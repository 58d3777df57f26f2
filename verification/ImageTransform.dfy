/**
 The pixel transforms of the daemon: NV21 to NV21 with nearest samples, and decoded RGB to NV21 with bilinear
 samples. JPEG decoding itself is a parameter.
 */
module ImageTransform {
  import opened Bytes
  import opened FrameLimits
  import opened Nv21Geometry
  import JpegHeader

  // ----- NV21 images

  function Pixels(size: Size): int { size.width * size.height }

  function Nv21Length(size: Size): int { Pixels(size) * 3 / 2 }

  function At(s: seq<byte>, i: int): byte
  {
    if 0 <= i < |s| then s[i] else 0
  }

  function LumaIndex(size: Size, at: Cell): int
  {
    at.y * size.width + at.x
  }

  function LumaAt(image: seq<byte>, size: Size, at: Cell): byte
  {
    At(image, LumaIndex(size, at))
  }

  /** Byte k of a block's chroma pair: V for 0, U for 1. */
  function ChromaIndex(size: Size, block: Cell, k: int): int
  {
    Pixels(size) + (block.y * size.width + (2 * block.x + k))
  }

  function ChromaAt(image: seq<byte>, size: Size, block: Cell, k: int): byte
  {
    At(image, ChromaIndex(size, block, k))
  }

  predicate Drawable(size: Size) { size.Positive() && size.Even() }

  lemma IndexInside(width: int, rows: int, x: int, y: int)
    requires 0 <= x < width && 0 <= y < rows
    ensures 0 <= y * width + x < rows * width
  {
    assert (y + 1) * width <= rows * width;
    assert (y + 1) * width == y * width + width;
  }

  lemma IndexSplits(width: int, x: int, y: int)
    requires 0 <= x < width && 0 <= y
    ensures (y * width + x) / width == y && (y * width + x) % width == x
  {
    var i := y * width + x;
    DivisionParts(i, width);
    var d := i / width - y;
    assert d * width == (i / width) * width - y * width;
    MultipleGrows(d, width);
  }

  lemma DivisionParts(i: int, width: int)
    requires width > 0
    ensures i == (i / width) * width + i % width
  {
  }

  lemma MultipleGrows(d: int, width: int)
    requires width > 0
    ensures d >= 1 ==> d * width >= width
    ensures d <= -1 ==> d * width <= -width
  {
    if d >= 1 {
      assert (d - 1) * width >= 0;
    } else if d <= -1 {
      assert (d + 1) * width <= 0;
    }
  }

  lemma Areas(size: Size)
    requires Drawable(size)
    ensures Pixels(size) == size.height * size.width > 0
    ensures Nv21Length(size) == Pixels(size) + (size.height / 2) * size.width
  {
    var half := size.height / 2;
    assert size.height == 2 * half;
    assert Pixels(size) == 2 * (half * size.width);
  }

  /** Two images that agree at every pixel and every chroma byte are equal. */
  lemma ImagesEqual(a: seq<byte>, b: seq<byte>, size: Size)
    requires Drawable(size) && |a| == |b| == Nv21Length(size)
    requires forall at: Cell :: at.In(size.width, size.height) ==> LumaAt(a, size, at) == LumaAt(b, size, at)
    requires forall block: Cell, k :: block.In(size.width / 2, size.height / 2) && 0 <= k < 2
               ==> ChromaAt(a, size, block, k) == ChromaAt(b, size, block, k)
    ensures a == b
  {
    forall i | 0 <= i < |a| ensures a[i] == b[i] {
      if i < Pixels(size) {
        var at := CellOf(i, size);
        assert LumaAt(a, size, at) == LumaAt(b, size, at);
      } else {
        var block, k := BlockOf(i, size);
        assert ChromaAt(a, size, block, k) == ChromaAt(b, size, block, k);
      }
    }
  }

  lemma CellOf(i: int, size: Size) returns (at: Cell)
    requires Drawable(size) && 0 <= i < Pixels(size)
    ensures at.In(size.width, size.height) && LumaIndex(size, at) == i
  {
    at := Cell(i % size.width, i / size.width);
    Areas(size);
    RowBelow(i, size.width, size.height);
  }

  lemma RowBelow(i: int, width: int, rows: int)
    requires width > 0 && 0 <= i < rows * width
    ensures 0 <= i / width < rows && i == (i / width) * width + i % width
  {
    DivisionParts(i, width);
    var d := i / width - rows;
    assert d * width == (i / width) * width - rows * width;
    MultipleGrows(d, width);
  }

  lemma BlockOf(i: int, size: Size) returns (block: Cell, k: int)
    requires Drawable(size) && Pixels(size) <= i < Nv21Length(size)
    ensures block.In(size.width / 2, size.height / 2) && 0 <= k < 2 && ChromaIndex(size, block, k) == i
  {
    var j := i - Pixels(size);
    Areas(size);
    RowBelow(j, size.width, size.height / 2);
    var x := j % size.width;
    block, k := Cell(x / 2, j / size.width), x % 2;
  }

  // ----- An image described by its samples

  /** Where the bytes of an output image come from, pixel by pixel and block by block. */
  ghost predicate Depicts(image: seq<byte>, size: Size, luma: Cell -> byte, chroma: (Cell, int) -> byte)
  {
    && |image| == Nv21Length(size)
    && (forall at: Cell :: at.In(size.width, size.height) ==> LumaAt(image, size, at) == luma(at))
    && (forall block: Cell, k :: block.In(size.width / 2, size.height / 2) && 0 <= k < 2
          ==> ChromaAt(image, size, block, k) == chroma(block, k))
  }

  /** The image with those samples. */
  function Draw(size: Size, luma: Cell -> byte, chroma: (Cell, int) -> byte): seq<byte>
    requires Drawable(size)
  {
    Areas(size);
    seq<byte>(Nv21Length(size), i requires 0 <= i =>
      if i < Pixels(size) then
        luma(Cell(i % size.width, i / size.width))
      else
        var j := i - Pixels(size);
        chroma(Cell(j % size.width / 2, j / size.width), j % size.width % 2))
  }

  lemma DrawDepicts(size: Size, luma: Cell -> byte, chroma: (Cell, int) -> byte)
    requires Drawable(size)
    ensures Depicts(Draw(size, luma, chroma), size, luma, chroma)
  {
    Areas(size);
    var image := Draw(size, luma, chroma);
    forall at: Cell | at.In(size.width, size.height) ensures LumaAt(image, size, at) == luma(at) {
      IndexInside(size.width, size.height, at.x, at.y);
      IndexSplits(size.width, at.x, at.y);
    }
    forall block: Cell, k | block.In(size.width / 2, size.height / 2) && 0 <= k < 2
      ensures ChromaAt(image, size, block, k) == chroma(block, k) {
      var x := 2 * block.x + k;
      IndexInside(size.width, size.height / 2, x, block.y);
      IndexSplits(size.width, x, block.y);
      assert x / 2 == block.x && x % 2 == k;
    }
  }

  // ----- NV21 to NV21

  datatype TransformError = BadDimensions | BadPayload | BadRotation | BadJpeg | DecodeFailed

  /** Nearest samples: a whole-pixel luma byte, and the chroma pair of an even-aligned block. */
  function ResampledLuma(input: seq<byte>, source: Size, size: Size, o: Orientation, at: Cell): byte
    requires Drawable(source) && Drawable(size)
  {
    LumaAt(input, source, LumaCell(at, size, source, o))
  }

  function ResampledChroma(input: seq<byte>, source: Size, size: Size, o: Orientation, block: Cell, k: int): byte
    requires Drawable(source) && Drawable(size)
  {
    var cell := ChromaCell(block, size, source, o);
    ChromaAt(input, source, Cell(cell.x / 2, cell.y / 2), k)
  }

  function Resampled(input: seq<byte>, source: Size, size: Size, o: Orientation): seq<byte>
    requires Drawable(source) && Drawable(size)
  {
    Draw(size,
         at => ResampledLuma(input, source, size, o, at),
         (block, k) => ResampledChroma(input, source, size, o, block, k))
  }

  /** The result the transform must give. The pixel limit is on the source only, as in the program. */
  function Nv21Transformed(input: seq<byte>, source: Size, size: Size, o: Orientation)
    : Result<seq<byte>, TransformError>
  {
    if !Drawable(source) || !Drawable(size) then Failure(BadDimensions)
    else if Pixels(source) > MAX_PIXELS || |input| != Nv21Length(source) then Failure(BadPayload)
    else if !o.Legal() then Failure(BadRotation)
    else Success(Resampled(input, source, size, o))
  }

  lemma ResampledAt(input: seq<byte>, source: Size, size: Size, o: Orientation)
    requires Drawable(source) && Drawable(size)
    ensures |Resampled(input, source, size, o)| == Nv21Length(size)
    ensures forall at: Cell :: at.In(size.width, size.height) ==>
              LumaAt(Resampled(input, source, size, o), size, at) == ResampledLuma(input, source, size, o, at)
    ensures forall block: Cell, k :: block.In(size.width / 2, size.height / 2) && 0 <= k < 2 ==>
              ChromaAt(Resampled(input, source, size, o), size, block, k)
              == ResampledChroma(input, source, size, o, block, k)
  {
    hide Draw, ResampledLuma, ResampledChroma;
    DrawDepicts(size,
                at => ResampledLuma(input, source, size, o, at),
                (block, k) => ResampledChroma(input, source, size, o, block, k));
  }

  /** At scale one the samples are those of the turned grids. */
  lemma TurnedAt(input: seq<byte>, source: Size, o: Orientation)
    requires Drawable(source) && o.Legal()
    ensures var size := o.Oriented(source); var image := Resampled(input, source, size, o);
            && |image| == Nv21Length(size)
            && (forall at: Cell :: at.In(size.width, size.height) ==>
                  LumaAt(image, size, at) == LumaAt(input, source, Turn(at, source, o)))
            && (forall block: Cell, k :: block.In(size.width / 2, size.height / 2) && 0 <= k < 2 ==>
                  ChromaAt(image, size, block, k) == ChromaAt(input, source, Turn(block, Halved(source), o), k))
  {
    hide Resampled, LumaCell, ChromaCell, Turn, LumaAt, ChromaAt;
    var size := o.Oriented(source);
    var image := Resampled(input, source, size, o);
    ResampledAt(input, source, size, o);
    forall at: Cell | at.In(size.width, size.height)
      ensures LumaAt(image, size, at) == LumaAt(input, source, Turn(at, source, o)) {
      LumaCellIsTurn(at, source, o);
    }
    forall block: Cell, k | block.In(size.width / 2, size.height / 2) && 0 <= k < 2
      ensures ChromaAt(image, size, block, k) == ChromaAt(input, source, Turn(block, Halved(source), o), k) {
      ChromaCellIsTurn(block, source, o);
    }
  }

  /** A transform without turn, mirror or scaling changes nothing, so the program's shortcut is sound. */
  lemma IdentityTransform(input: seq<byte>, source: Size)
    requires Drawable(source) && |input| == Nv21Length(source)
    ensures Resampled(input, source, source, IDENTITY) == input
  {
    hide Resampled, LumaAt, ChromaAt;
    TurnedAt(input, source, IDENTITY);
    ImagesEqual(Resampled(input, source, source, IDENTITY), input, source);
  }

  /** Luma and chroma turn together: two transforms at scale one are one by the composed orientation. */
  lemma TransformsCompose(input: seq<byte>, source: Size, first: Orientation, next: Orientation)
    requires Drawable(source) && first.Legal() && next.Legal()
    ensures first.Then(next).Legal()
    ensures var middle := first.Oriented(source);
            var last := next.Oriented(middle);
            && last == first.Then(next).Oriented(source)
            && Resampled(Resampled(input, source, middle, first), middle, last, next)
               == Resampled(input, source, last, first.Then(next))
  {
    hide Resampled, LumaAt, ChromaAt, Turn;
    var middle, both := first.Oriented(source), first.Then(next);
    var last := next.Oriented(middle);
    ThenIsLegal(first, next);
    TurnsCompose(Cell(0, 0), source, first, next);
    var once := Resampled(input, source, middle, first);
    var twice := Resampled(once, middle, last, next);
    var direct := Resampled(input, source, last, both);
    TurnedAt(input, source, first);
    TurnedAt(once, middle, next);
    TurnedAt(input, source, both);
    forall at: Cell | at.In(last.width, last.height) ensures LumaAt(twice, last, at) == LumaAt(direct, last, at) {
      TurnInside(at, middle, next);
      TurnsCompose(at, source, first, next);
    }
    forall block: Cell, k | block.In(last.width / 2, last.height / 2) && 0 <= k < 2
      ensures ChromaAt(twice, last, block, k) == ChromaAt(direct, last, block, k) {
      TurnInside(block, Halved(middle), next);
      HalvedOriented(source, first);
      HalvedOriented(middle, next);
      TurnsCompose(block, Halved(source), first, next);
    }
    ImagesEqual(twice, direct, last);
  }

  lemma HalvedOriented(source: Size, o: Orientation)
    ensures Halved(o.Oriented(source)) == o.Oriented(Halved(source))
  {
  }

  /** The composition law for the whole operation, errors included. */
  lemma Nv21TransformsCompose(input: seq<byte>, source: Size, first: Orientation, next: Orientation)
    requires first.Legal() && next.Legal()
    ensures var middle := first.Oriented(source);
            var last := next.Oriented(middle);
            var direct := Nv21Transformed(input, source, last, first.Then(next));
            match Nv21Transformed(input, source, middle, first)
            case Success(once) => Nv21Transformed(once, middle, last, next) == direct
            case Failure(error) => direct == Failure(error)
  {
    hide Resampled;
    if Drawable(source) {
      TransformsCompose(input, source, first, next);
      ResampledAt(input, source, first.Oriented(source), first);
    }
    ThenIsLegal(first, next);
  }

  /** Every transform at scale one is undone by the one with the inverse orientation. */
  lemma TransformUndone(input: seq<byte>, source: Size, o: Orientation)
    requires Drawable(source) && |input| == Nv21Length(source) && o.Legal()
    ensures var turned := o.Oriented(source);
            && o.Inverse().Oriented(turned) == source
            && Resampled(Resampled(input, source, turned, o), turned, source, o.Inverse()) == input
  {
    hide Resampled;
    OrientationsFormAGroup(o, o, o);
    TransformsCompose(input, source, o, o.Inverse());
    IdentityTransform(input, source);
  }

  function Repeat(input: seq<byte>, source: Size, o: Orientation, times: nat): (r: (seq<byte>, Size))
    requires Drawable(source)
    ensures Drawable(r.1)
  {
    if times == 0 then (input, source)
    else
      var (image, size) := Repeat(input, source, o, times - 1);
      (Resampled(image, size, o.Oriented(size), o), o.Oriented(size))
  }

  /** The orientation of a transform applied so many times. */
  function Power(o: Orientation, times: nat): Orientation
  {
    if times == 0 then IDENTITY else Power(o, times - 1).Then(o)
  }

  /** Repeating a transform at scale one is one transform by the power of its orientation. */
  lemma {:induction false} RepeatIsOneTransform(input: seq<byte>, source: Size, o: Orientation, times: nat)
    requires Drawable(source) && |input| == Nv21Length(source) && o.Legal()
    ensures Power(o, times).Legal()
    ensures var last := Power(o, times).Oriented(source);
            Repeat(input, source, o, times) == (Resampled(input, source, last, Power(o, times)), last)
  {
    hide Resampled;
    if times == 0 {
      IdentityTransform(input, source);
    } else {
      RepeatIsOneTransform(input, source, o, times - 1);
      TransformsCompose(input, source, Power(o, times - 1), o);
      TurnsCompose(Cell(0, 0), source, Power(o, times - 1), o);
    }
  }

  /** Every transform at scale one has an order dividing four, and every mirroring one gives back after two. */
  lemma RepeatsGiveBack(input: seq<byte>, source: Size, o: Orientation)
    requires Drawable(source) && |input| == Nv21Length(source) && o.Legal()
    ensures Repeat(input, source, o, 4) == (input, source)
    ensures o.mirror || o.rotation == 180 ==> Repeat(input, source, o, 2) == (input, source)
  {
    hide Resampled, Repeat;
    RepeatIsOneTransform(input, source, o, 4);
    RepeatIsOneTransform(input, source, o, 2);
    IdentityTransform(input, source);
    Orders(o);
  }

  lemma Orders(o: Orientation)
    requires o.Legal()
    ensures Power(o, 4) == IDENTITY
    ensures o.mirror || o.rotation == 180 ==> Power(o, 2) == IDENTITY
  {
    assert Power(o, 1) == IDENTITY.Then(o) == o;
    assert Power(o, 2) == o.Then(o);
    assert Power(o, 3) == o.Then(o).Then(o);
    assert Power(o, 4) == o.Then(o).Then(o).Then(o);
  }

  // ----- The loops

  /** The first `n` bytes of the output are final. */
  ghost predicate Drawn(output: seq<byte>, image: seq<byte>, n: int)
  {
    |output| == |image| && 0 <= n <= |image| && output[..n] == image[..n]
  }

  lemma DrawnNext(before: seq<byte>, after: seq<byte>, image: seq<byte>, n: int)
    requires Drawn(before, image, n) && n < |image|
    requires after == before[n := image[n]]
    ensures Drawn(after, image, n + 1)
  {
    assert after[..n + 1] == after[..n] + [after[n]];
    assert image[..n + 1] == image[..n] + [image[n]];
  }

  lemma DrawnAll(output: seq<byte>, image: seq<byte>)
    requires Drawn(output, image, |image|)
    ensures output == image
  {
  }

  lemma LumaIndexInside(size: Size, at: Cell)
    requires Drawable(size) && at.In(size.width, size.height)
    ensures 0 <= LumaIndex(size, at) < Pixels(size) < Nv21Length(size)
  {
    IndexInside(size.width, size.height, at.x, at.y);
    Areas(size);
    assert (size.height / 2) * size.width > 0;
  }

  lemma ChromaIndexInside(size: Size, block: Cell)
    requires Drawable(size) && block.In(size.width / 2, size.height / 2)
    ensures 0 < Pixels(size) <= ChromaIndex(size, block, 0)
    ensures ChromaIndex(size, block, 1) == ChromaIndex(size, block, 0) + 1 < Nv21Length(size)
  {
    IndexInside(size.width, size.height / 2, 2 * block.x, block.y);
    IndexInside(size.width, size.height / 2, 2 * block.x + 1, block.y);
    Areas(size);
  }

  method DrawResampledLuma(input: seq<byte>, source: Size, size: Size, o: Orientation, output: array<byte>)
    requires Drawable(source) && Drawable(size) && |input| == Nv21Length(source)
    requires Drawn(output[..], Resampled(input, source, size, o), 0)
    modifies output
    ensures Drawn(output[..], Resampled(input, source, size, o), Pixels(size))
  {
    hide Drawn, Resampled, LumaCell, LumaIndex, Pixels, Nv21Length;
    ghost var image := Resampled(input, source, size, o);
    ResampledAt(input, source, size, o);
    ghost var n := 0;
    RowStarts(size);
    for y := 0 to size.height
      invariant n == LumaIndex(size, Cell(0, y))
      invariant Drawn(output[..], image, n)
    {
      RowStep(size, y);
      for x := 0 to size.width
        invariant n == LumaIndex(size, Cell(x, y))
        invariant Drawn(output[..], image, n)
      {
        var at := Cell(x, y);
        LumaIndexInside(size, at);
        var cell := LumaCell(at, size, source, o);
        LumaCellInside(at, size, source, o);
        LumaIndexInside(source, cell);
        DrawnLength(output[..], image, n);
        ghost var before := output[..];
        output[LumaIndex(size, at)] := input[LumaIndex(source, cell)];
        assert LumaAt(image, size, at) == image[n];
        DrawnNext(before, output[..], image, n);
        ColumnStep(size, at);
        n := n + 1;
      }
    }
  }

  lemma DrawnLength(output: seq<byte>, image: seq<byte>, n: int)
    requires Drawn(output, image, n)
    ensures |output| == |image|
  {
  }

  lemma RowStarts(size: Size)
    requires Drawable(size)
    ensures LumaIndex(size, Cell(0, 0)) == 0
    ensures LumaIndex(size, Cell(0, size.height)) == Pixels(size)
  {
    Areas(size);
  }

  lemma RowStep(size: Size, y: int)
    ensures LumaIndex(size, Cell(size.width, y)) == LumaIndex(size, Cell(0, y + 1))
  {
    assert (y + 1) * size.width == y * size.width + size.width;
  }

  lemma ColumnStep(size: Size, at: Cell)
    ensures LumaIndex(size, Cell(at.x + 1, at.y)) == LumaIndex(size, at) + 1
  {
  }

  lemma BlockRowStarts(size: Size)
    requires Drawable(size)
    ensures ChromaIndex(size, Cell(0, 0), 0) == Pixels(size)
    ensures ChromaIndex(size, Cell(0, size.height / 2), 0) == Nv21Length(size)
  {
    Areas(size);
  }

  lemma BlockRowStep(size: Size, y: int)
    requires Drawable(size)
    ensures ChromaIndex(size, Cell(size.width / 2, y), 0) == ChromaIndex(size, Cell(0, y + 1), 0)
  {
    assert (y + 1) * size.width == y * size.width + size.width;
  }

  lemma BlockStep(size: Size, block: Cell)
    ensures ChromaIndex(size, Cell(block.x + 1, block.y), 0) == ChromaIndex(size, block, 0) + 2
  {
  }

  method DrawResampledChroma(input: seq<byte>, source: Size, size: Size, o: Orientation, output: array<byte>)
    requires Drawable(source) && Drawable(size) && |input| == Nv21Length(source)
    requires Drawn(output[..], Resampled(input, source, size, o), Pixels(size))
    modifies output
    ensures Drawn(output[..], Resampled(input, source, size, o), Nv21Length(size))
  {
    hide Drawn, Resampled, ChromaCell, ChromaIndex, Pixels, Nv21Length;
    ghost var image := Resampled(input, source, size, o);
    ResampledAt(input, source, size, o);
    ghost var n := Pixels(size);
    BlockRowStarts(size);
    for y := 0 to size.height / 2
      invariant n == ChromaIndex(size, Cell(0, y), 0)
      invariant Drawn(output[..], image, n)
    {
      BlockRowStep(size, y);
      for x := 0 to size.width / 2
        invariant n == ChromaIndex(size, Cell(x, y), 0)
        invariant Drawn(output[..], image, n)
      {
        var block := Cell(x, y);
        ChromaIndexInside(size, block);
        var cell := ChromaCell(block, size, source, o);
        ChromaCellInside(block, size, source, o);
        var from := Cell(cell.x / 2, cell.y / 2);
        ChromaIndexInside(source, from);
        DrawnLength(output[..], image, n);
        ghost var before := output[..];
        output[ChromaIndex(size, block, 0)] := input[ChromaIndex(source, from, 0)];
        assert ChromaAt(image, size, block, 0) == image[n];
        DrawnNext(before, output[..], image, n);
        ghost var between := output[..];
        output[ChromaIndex(size, block, 1)] := input[ChromaIndex(source, from, 1)];
        assert ChromaAt(image, size, block, 1) == image[n + 1];
        DrawnNext(between, output[..], image, n + 1);
        BlockStep(size, block);
        n := n + 2;
      }
    }
  }

  method TransformNv21(input: seq<byte>, source: Size, size: Size, o: Orientation)
    returns (r: Result<array<byte>, TransformError>)
    ensures match r
            case Failure(error) => Nv21Transformed(input, source, size, o) == Failure(error)
            case Success(output) =>
              fresh(output) && Nv21Transformed(input, source, size, o) == Success(output[..])
  {
    hide Resampled, Drawn;
    if source.width <= 0 || source.height <= 0 || size.width <= 0 || size.height <= 0
       || source.width % 2 != 0 || source.height % 2 != 0 || size.width % 2 != 0 || size.height % 2 != 0 {
      return Failure(BadDimensions);
    }
    var sourcePixels := source.width * source.height;
    if sourcePixels > MAX_PIXELS || |input| != sourcePixels * 3 / 2 {
      return Failure(BadPayload);
    }
    if o.rotation != 0 && o.rotation != 90 && o.rotation != 180 && o.rotation != 270 {
      return Failure(BadRotation);
    }
    if o.rotation == 0 && !o.mirror && size.width == source.width && size.height == source.height {
      var copy := new byte[|input|](i requires 0 <= i < |input| => input[i]);
      assert copy[..] == input;
      IdentityTransform(input, source);
      return Success(copy);
    }
    ResampledAt(input, source, size, o);
    Areas(size);
    var output := new byte[Nv21Length(size)](_ => 0);
    DrawnNothing(output[..], Resampled(input, source, size, o));
    DrawResampledLuma(input, source, size, o, output);
    DrawResampledChroma(input, source, size, o, output);
    DrawnAll(output[..], Resampled(input, source, size, o));
    return Success(output);
  }

  lemma DrawnNothing(output: seq<byte>, image: seq<byte>)
    requires |output| == |image|
    ensures Drawn(output, image, 0)
  {
  }

  // ----- Decoded RGB to NV21

  datatype Rgb = Rgb(size: Size, samples: seq<byte>)
  {
    predicate Valid() { size.Positive() && |samples| == Pixels(size) * 3 }

    function Tap(x: int, y: int, channel: int): byte
    {
      At(samples, (y * size.width + x) * 3 + channel)
    }
  }

  datatype Color = Color(red: int, green: int, blue: int)
  {
    predicate InBytes() { 0 <= red < 0x100 && 0 <= green < 0x100 && 0 <= blue < 0x100 }

    function Luma(): byte
    {
      ClampByte((66 * red + 129 * green + 25 * blue + 128) / 0x100 + 16)
    }

    /** One pixel's share of a chroma byte: V for 0, U for 1. */
    function Chroma(k: int): int
    {
      if k == 0 then (112 * red - 94 * green - 18 * blue + 128) / 0x100 + 128
      else (-38 * red - 74 * green + 112 * blue + 128) / 0x100 + 128
    }
  }

  function ClampByte(value: int): byte
  {
    Clamp(value, 0, 255)
  }

  function ClampReal(value: real, low: real, high: real): real
  {
    if value < low then low else if value > high then high else value
  }

  function Lerp(a: byte, b: byte, f: real): real
  {
    a as real + (b as real - a as real) * f
  }

  function Bilinear(a: byte, b: byte, c: byte, d: byte, fx: real, fy: real): real
  {
    var top := Lerp(a, b, fx);
    var bottom := Lerp(c, d, fx);
    top + (bottom - top) * fy
  }

  /** The cell left of and above a clamped coordinate, and the one right of and below it. */
  function Corners(size: Size, p: Point): (Cell, Cell)
    requires size.Positive()
  {
    var x0 := ClampReal(p.x, 0.0, (size.width - 1) as real).Floor;
    var y0 := ClampReal(p.y, 0.0, (size.height - 1) as real).Floor;
    (Cell(x0, y0), Cell(Min(x0 + 1, size.width - 1), Min(y0 + 1, size.height - 1)))
  }

  function Fraction(value: real, size: int): real
  {
    var v := ClampReal(value, 0.0, (size - 1) as real);
    v - v.Floor as real
  }

  function Cut(value: real): byte
  {
    ClampReal(value, 0.0, 255.0).Floor
  }

  /** Bilinear interpolation between four taps, cut to a byte. */
  function SampleChannel(rgb: Rgb, p: Point, channel: int): byte
    requires rgb.size.Positive()
  {
    var (c0, c1) := Corners(rgb.size, p);
    Cut(Bilinear(rgb.Tap(c0.x, c0.y, channel), rgb.Tap(c1.x, c0.y, channel),
                 rgb.Tap(c0.x, c1.y, channel), rgb.Tap(c1.x, c1.y, channel),
                 Fraction(p.x, rgb.size.width), Fraction(p.y, rgb.size.height)))
  }

  lemma BetweenWeights(a: real, b: real, f: real, low: real, high: real)
    requires low <= a <= high && low <= b <= high && 0.0 <= f <= 1.0
    ensures low <= a + (b - a) * f <= high
  {
    Weighted(a - low, b - low, f);
    Distance(a, b, f, low);
    Weighted(high - a, high - b, f);
    Distance(a, b, f, high);
  }

  lemma Distance(a: real, b: real, f: real, c: real)
    ensures a + (b - a) * f - c == (a - c) * (1.0 - f) + (b - c) * f
    ensures c - (a + (b - a) * f) == (c - a) * (1.0 - f) + (c - b) * f
  {
  }

  lemma Weighted(x: real, y: real, f: real)
    requires x >= 0.0 && y >= 0.0 && 0.0 <= f <= 1.0
    ensures x * (1.0 - f) + y * f >= 0.0
  {
    Product(x, 1.0 - f);
    Product(y, f);
  }

  lemma Product(x: real, f: real)
    requires x >= 0.0 && f >= 0.0
    ensures x * f >= 0.0
  {
  }

  lemma LerpBetween(a: byte, b: byte, f: real, low: byte, high: byte)
    requires low <= a <= high && low <= b <= high && 0.0 <= f <= 1.0
    ensures low as real <= Lerp(a, b, f) <= high as real
  {
    BetweenWeights(a as real, b as real, f, low as real, high as real);
  }

  lemma BilinearBetween(a: byte, b: byte, c: byte, d: byte, fx: real, fy: real, low: byte, high: byte)
    requires low <= a <= high && low <= b <= high && low <= c <= high && low <= d <= high
    requires 0.0 <= fx <= 1.0 && 0.0 <= fy <= 1.0
    ensures low <= Cut(Bilinear(a, b, c, d, fx, fy)) <= high
  {
    hide Lerp;
    LerpBetween(a, b, fx, low, high);
    LerpBetween(c, d, fx, low, high);
    BetweenWeights(Lerp(a, b, fx), Lerp(c, d, fx), fy, low as real, high as real);
  }

  /** A sample never leaves the range of the four source bytes around it. */
  lemma SampleBetweenTaps(rgb: Rgb, p: Point, channel: int, low: byte, high: byte)
    requires rgb.size.Positive()
    requires var (c0, c1) := Corners(rgb.size, p);
             && low <= rgb.Tap(c0.x, c0.y, channel) <= high && low <= rgb.Tap(c1.x, c0.y, channel) <= high
             && low <= rgb.Tap(c0.x, c1.y, channel) <= high && low <= rgb.Tap(c1.x, c1.y, channel) <= high
    ensures low <= SampleChannel(rgb, p, channel) <= high
  {
    hide Rgb.Tap, Bilinear, Cut;
    var (c0, c1) := Corners(rgb.size, p);
    BilinearBetween(rgb.Tap(c0.x, c0.y, channel), rgb.Tap(c1.x, c0.y, channel),
                    rgb.Tap(c0.x, c1.y, channel), rgb.Tap(c1.x, c1.y, channel),
                    Fraction(p.x, rgb.size.width), Fraction(p.y, rgb.size.height), low, high);
  }

  /** Those four bytes are source pixels, at distance below one from the sampled point. */
  lemma CornersSurround(size: Size, p: Point)
    requires size.Positive() && 0.0 <= p.x <= (size.width - 1) as real && 0.0 <= p.y <= (size.height - 1) as real
    ensures var (c0, c1) := Corners(size, p);
            && c0.In(size.width, size.height) && c1.In(size.width, size.height)
            && c0.x as real <= p.x < c0.x as real + 1.0 && c0.y as real <= p.y < c0.y as real + 1.0
            && p.x <= c1.x as real && p.y <= c1.y as real
  {
  }

  lemma SampleAtPixel(rgb: Rgb, at: Cell, channel: int)
    requires rgb.size.Positive() && at.In(rgb.size.width, rgb.size.height)
    ensures SampleChannel(rgb, Point(at.x as real, at.y as real), channel) == rgb.Tap(at.x, at.y, channel)
  {
    hide Rgb.Tap;
    assert (at.x as real).Floor == at.x && (at.y as real).Floor == at.y;
    var (c0, c1) := Corners(rgb.size, Point(at.x as real, at.y as real));
    assert c0 == at;
    assert Fraction(at.x as real, rgb.size.width) == 0.0 == Fraction(at.y as real, rgb.size.height);
    BilinearAtCorner(rgb.Tap(c0.x, c0.y, channel), rgb.Tap(c1.x, c0.y, channel),
                     rgb.Tap(c0.x, c1.y, channel), rgb.Tap(c1.x, c1.y, channel));
  }

  lemma BilinearAtCorner(a: byte, b: byte, c: byte, d: byte)
    ensures Cut(Bilinear(a, b, c, d, 0.0, 0.0)) == a
  {
  }

  /** Each of four values weighs as much as the area on the far side of the point. */
  function Weighed(a: byte, b: byte, c: byte, d: byte, fx: real, fy: real): real
  {
    a as real * ((1.0 - fx) * (1.0 - fy)) + b as real * (fx * (1.0 - fy))
    + c as real * ((1.0 - fx) * fy) + d as real * (fx * fy)
  }

  lemma BilinearIsWeighed(a: byte, b: byte, c: byte, d: byte, fx: real, fy: real)
    ensures Bilinear(a, b, c, d, fx, fy) == Weighed(a, b, c, d, fx, fy)
  {
  }

  lemma FractionInside(value: real, size: int)
    requires size > 0 && 0.0 <= value <= (size - 1) as real
    ensures Fraction(value, size) == value - value.Floor as real
    ensures ClampReal(value, 0.0, (size - 1) as real) == value
  {
  }

  /** A sample is the four bytes around it, weighed by its distances from them. */
  lemma SampleIsWeighed(rgb: Rgb, p: Point, channel: int)
    requires rgb.size.Positive()
    requires 0.0 <= p.x <= (rgb.size.width - 1) as real && 0.0 <= p.y <= (rgb.size.height - 1) as real
    ensures var (c0, c1) := Corners(rgb.size, p);
            SampleChannel(rgb, p, channel)
            == Cut(Weighed(rgb.Tap(c0.x, c0.y, channel), rgb.Tap(c1.x, c0.y, channel),
                           rgb.Tap(c0.x, c1.y, channel), rgb.Tap(c1.x, c1.y, channel),
                           p.x - c0.x as real, p.y - c0.y as real))
  {
    hide Rgb.Tap, Bilinear, Cut, Weighed, Fraction;
    FractionInside(p.x, rgb.size.width);
    FractionInside(p.y, rgb.size.height);
    var (c0, c1) := Corners(rgb.size, p);
    BilinearIsWeighed(rgb.Tap(c0.x, c0.y, channel), rgb.Tap(c1.x, c0.y, channel),
                      rgb.Tap(c0.x, c1.y, channel), rgb.Tap(c1.x, c1.y, channel),
                      p.x - c0.x as real, p.y - c0.y as real);
  }

  /** The colour of one output pixel. */
  function ColorAt(rgb: Rgb, size: Size, o: Orientation, at: Cell): Color
    requires rgb.size.Positive() && size.Positive()
  {
    var p := MapOutputToSource(at, size, rgb.size, o);
    Color(SampleChannel(rgb, p, 0), SampleChannel(rgb, p, 1), SampleChannel(rgb, p, 2))
  }

  /** The sum over the first n pixels of a 2x2 block, row by row. */
  function BlockSum(rgb: Rgb, size: Size, o: Orientation, block: Cell, k: int, n: nat): int
    requires rgb.size.Positive() && size.Positive()
  {
    if n == 0 then 0
    else
      var pixel := Cell(2 * block.x + (n - 1) % 2, 2 * block.y + (n - 1) / 2);
      BlockSum(rgb, size, o, block, k, n - 1) + ColorAt(rgb, size, o, pixel).Chroma(k)
  }

  function ConvertedLuma(rgb: Rgb, size: Size, o: Orientation, at: Cell): byte
    requires rgb.size.Positive() && size.Positive()
  {
    ColorAt(rgb, size, o, at).Luma()
  }

  function ConvertedChroma(rgb: Rgb, size: Size, o: Orientation, block: Cell, k: int): byte
    requires rgb.size.Positive() && size.Positive()
  {
    ClampByte(BlockSum(rgb, size, o, block, k, 4) / 4)
  }

  function Converted(rgb: Rgb, size: Size, o: Orientation): seq<byte>
    requires rgb.size.Positive() && Drawable(size)
  {
    Draw(size, at => ConvertedLuma(rgb, size, o, at), (block, k) => ConvertedChroma(rgb, size, o, block, k))
  }

  lemma ConvertedAt(rgb: Rgb, size: Size, o: Orientation)
    requires rgb.size.Positive() && Drawable(size)
    ensures |Converted(rgb, size, o)| == Nv21Length(size)
    ensures forall at: Cell :: at.In(size.width, size.height) ==>
              LumaAt(Converted(rgb, size, o), size, at) == ConvertedLuma(rgb, size, o, at)
    ensures forall block: Cell, k :: block.In(size.width / 2, size.height / 2) && 0 <= k < 2 ==>
              ChromaAt(Converted(rgb, size, o), size, block, k) == ConvertedChroma(rgb, size, o, block, k)
  {
    hide Draw, ConvertedLuma, ConvertedChroma;
    DrawDepicts(size, at => ConvertedLuma(rgb, size, o, at), (block, k) => ConvertedChroma(rgb, size, o, block, k));
  }

  // ----- What the conversion keeps

  lemma ColorInBytes(rgb: Rgb, size: Size, o: Orientation, at: Cell)
    requires rgb.size.Positive() && size.Positive()
    ensures ColorAt(rgb, size, o, at).InBytes()
  {
    hide SampleChannel, MapOutputToSource;
  }

  lemma ColorRanges(c: Color, k: int)
    requires c.InBytes()
    ensures 16 <= c.Luma() <= 235
    ensures 16 <= c.Chroma(k) <= 240
  {
  }

  predicate Within(value: int, thousandths: int, bound: int)
  {
    -1000 * bound <= 1000 * value - thousandths <= 1000 * bound
  }

  /** Luma and chroma are those of ITU-R BT.601 in the video range, to within two. */
  lemma ColoursAreBt601(c: Color)
    requires c.InBytes()
    ensures Within(c.Luma(), 16000 + 257 * c.red + 504 * c.green + 98 * c.blue, 2)
    ensures Within(c.Chroma(0), 128000 + 439 * c.red - 368 * c.green - 71 * c.blue, 2)
    ensures Within(c.Chroma(1), 128000 - 148 * c.red - 291 * c.green + 439 * c.blue, 2)
  {
  }

  predicate OneColour(rgb: Rgb, c: Color)
  {
    forall x, y :: 0 <= x < rgb.size.width && 0 <= y < rgb.size.height ==>
                     rgb.Tap(x, y, 0) == c.red && rgb.Tap(x, y, 1) == c.green && rgb.Tap(x, y, 2) == c.blue
  }

  lemma OneColourIsSampled(rgb: Rgb, size: Size, o: Orientation, at: Cell, c: Color)
    requires rgb.size.Positive() && size.Positive() && OneColour(rgb, c) && c.InBytes()
    ensures ColorAt(rgb, size, o, at) == c
  {
    hide MapOutputToSource, SampleChannel, Rgb.Tap;
    var p := MapOutputToSource(at, size, rgb.size, o);
    var (c0, c1) := Corners(rgb.size, p);
    assert c0.In(rgb.size.width, rgb.size.height) && c1.In(rgb.size.width, rgb.size.height);
    SampleBetweenTaps(rgb, p, 0, c.red, c.red);
    SampleBetweenTaps(rgb, p, 1, c.green, c.green);
    SampleBetweenTaps(rgb, p, 2, c.blue, c.blue);
  }

  /** A picture of one colour becomes a frame of that colour's luma and, V first, chroma. */
  lemma OneColourConverts(rgb: Rgb, size: Size, o: Orientation, c: Color)
    requires rgb.size.Positive() && Drawable(size) && OneColour(rgb, c) && c.InBytes()
    ensures var image := Converted(rgb, size, o);
            && (forall at: Cell :: at.In(size.width, size.height) ==> LumaAt(image, size, at) == c.Luma())
            && (forall block: Cell, k :: block.In(size.width / 2, size.height / 2) && 0 <= k < 2 ==>
                  ChromaAt(image, size, block, k) == c.Chroma(k))
  {
    hide Converted, OneColour, ColorAt, Color.Luma, Color.Chroma, LumaAt, ChromaAt, BlockSum;
    ConvertedAt(rgb, size, o);
    forall at: Cell ensures ColorAt(rgb, size, o, at) == c {
      OneColourIsSampled(rgb, size, o, at, c);
    }
    forall block: Cell, k ensures ConvertedChroma(rgb, size, o, block, k) == c.Chroma(k) {
      FourTerms(rgb, size, o, block, k);
      ColorRanges(c, k);
    }
  }

  lemma {:induction false} BlockSumBounds(rgb: Rgb, size: Size, o: Orientation, block: Cell, k: int, n: nat)
    requires rgb.size.Positive() && size.Positive()
    ensures 16 * n <= BlockSum(rgb, size, o, block, k, n) <= 240 * n
  {
    hide ColorAt, Color.Chroma;
    if n == 0 {
    } else {
      var pixel := Cell(2 * block.x + (n - 1) % 2, 2 * block.y + (n - 1) / 2);
      ColorInBytes(rgb, size, o, pixel);
      ColorRanges(ColorAt(rgb, size, o, pixel), k);
      BlockSumBounds(rgb, size, o, block, k, n - 1);
    }
  }

  /** Every converted frame is in the video range: luma 16..235, chroma 16..240. */
  lemma VideoRange(rgb: Rgb, size: Size, o: Orientation, i: int)
    requires rgb.size.Positive() && Drawable(size) && 0 <= i < Nv21Length(size)
    ensures |Converted(rgb, size, o)| == Nv21Length(size)
    ensures 16 <= Converted(rgb, size, o)[i] <= if i < Pixels(size) then 235 else 240
  {
    hide Converted, ColorAt, BlockSum, Color.Luma, Color.Chroma;
    ConvertedAt(rgb, size, o);
    var image := Converted(rgb, size, o);
    if i < Pixels(size) {
      var at := CellOf(i, size);
      assert image[i] == LumaAt(image, size, at);
      ColorInBytes(rgb, size, o, at);
      ColorRanges(ColorAt(rgb, size, o, at), 0);
    } else {
      var block, k := BlockOf(i, size);
      assert image[i] == ChromaAt(image, size, block, k);
      BlockSumBounds(rgb, size, o, block, k, 4);
    }
  }

  /** The colour of a turned pixel is that of the source pixel it comes from. */
  lemma ColorTurns(rgb: Rgb, o: Orientation, at: Cell)
    requires rgb.size.Positive() && o.Legal()
    requires at.In(o.Oriented(rgb.size).width, o.Oriented(rgb.size).height)
    ensures ColorAt(rgb, o.Oriented(rgb.size), o, at)
            == ColorAt(rgb, rgb.size, IDENTITY, Turn(at, rgb.size, o))
  {
    hide MapOutputToSource, SampleChannel;
    MapIsTurn(at, rgb.size, o);
    MapIsTurn(Turn(at, rgb.size, o), rgb.size, IDENTITY);
  }

  lemma BlockSumTurns(rgb: Rgb, o: Orientation, block: Cell, k: int)
    requires Drawable(rgb.size) && o.Legal()
    requires block.In(o.Oriented(rgb.size).width / 2, o.Oriented(rgb.size).height / 2)
    ensures BlockSum(rgb, o.Oriented(rgb.size), o, block, k, 4)
            == BlockSum(rgb, rgb.size, IDENTITY, Turn(block, Halved(rgb.size), o), k, 4)
  {
    hide ColorAt, Color.Chroma, Turn, BlockSum, TurnedOffset;
    var size, from := o.Oriented(rgb.size), Turn(block, Halved(rgb.size), o);
    forall dx, dy | 0 <= dx < 2 && 0 <= dy < 2
      ensures ColorAt(rgb, size, o, BlockPixel(block, Cell(dx, dy)))
              == ColorAt(rgb, rgb.size, IDENTITY, BlockPixel(from, TurnedOffset(Cell(dx, dy), o))) {
      ColorTurns(rgb, o, BlockPixel(block, Cell(dx, dy)));
      TurnMovesBlocks(block, dx, dy, rgb.size, o);
    }
    FourTerms(rgb, size, o, block, k);
    FourTerms(rgb, rgb.size, IDENTITY, from, k);
    SumPermuted(offset => ColorAt(rgb, rgb.size, IDENTITY, BlockPixel(from, offset)).Chroma(k), o);
  }

  lemma FourTerms(rgb: Rgb, size: Size, o: Orientation, block: Cell, k: int)
    requires rgb.size.Positive() && size.Positive()
    ensures BlockSum(rgb, size, o, block, k, 4)
            == ColorAt(rgb, size, o, BlockPixel(block, Cell(0, 0))).Chroma(k)
             + ColorAt(rgb, size, o, BlockPixel(block, Cell(1, 0))).Chroma(k)
             + ColorAt(rgb, size, o, BlockPixel(block, Cell(0, 1))).Chroma(k)
             + ColorAt(rgb, size, o, BlockPixel(block, Cell(1, 1))).Chroma(k)
  {
    hide ColorAt, Color.Chroma;
    assert BlockSum(rgb, size, o, block, k, 1) == ColorAt(rgb, size, o, BlockPixel(block, Cell(0, 0))).Chroma(k);
    assert BlockSum(rgb, size, o, block, k, 2) == BlockSum(rgb, size, o, block, k, 1)
             + ColorAt(rgb, size, o, BlockPixel(block, Cell(1, 0))).Chroma(k);
    assert BlockSum(rgb, size, o, block, k, 3) == BlockSum(rgb, size, o, block, k, 2)
             + ColorAt(rgb, size, o, BlockPixel(block, Cell(0, 1))).Chroma(k);
  }

  /** A turn only permutes the four pixels of a block. */
  lemma SumPermuted(f: Cell -> int, o: Orientation)
    requires o.Legal()
    ensures f(TurnedOffset(Cell(0, 0), o)) + f(TurnedOffset(Cell(1, 0), o))
            + f(TurnedOffset(Cell(0, 1), o)) + f(TurnedOffset(Cell(1, 1), o))
            == f(Cell(0, 0)) + f(Cell(1, 0)) + f(Cell(0, 1)) + f(Cell(1, 1))
  {
  }

  /** Converting and turning commute: a turned conversion is the NV21 transform of the unturned one. */
  lemma ConversionCommutesWithTransform(rgb: Rgb, o: Orientation)
    requires Drawable(rgb.size) && o.Legal()
    ensures var size := o.Oriented(rgb.size);
            Converted(rgb, size, o) == Resampled(Converted(rgb, rgb.size, IDENTITY), rgb.size, size, o)
  {
    hide Converted, Resampled, LumaAt, ChromaAt, BlockSum, ColorAt, Turn, Color.Luma, Color.Chroma;
    var size := o.Oriented(rgb.size);
    var plain := Converted(rgb, rgb.size, IDENTITY);
    var turned, moved := Converted(rgb, size, o), Resampled(plain, rgb.size, size, o);
    ConvertedAt(rgb, rgb.size, IDENTITY);
    ConvertedAt(rgb, size, o);
    TurnedAt(plain, rgb.size, o);
    forall at: Cell | at.In(size.width, size.height) ensures LumaAt(turned, size, at) == LumaAt(moved, size, at) {
      ColorTurns(rgb, o, at);
      TurnInside(at, rgb.size, o);
    }
    forall block: Cell, k | block.In(size.width / 2, size.height / 2) && 0 <= k < 2
      ensures ChromaAt(turned, size, block, k) == ChromaAt(moved, size, block, k) {
      BlockSumTurns(rgb, o, block, k);
      TurnInside(block, Halved(rgb.size), o);
    }
    ImagesEqual(turned, moved, size);
  }

  // ----- The placeholder

  /** The daemon's start frame: luma 16, chroma 128. */
  function Placeholder(size: Size): seq<byte>
    requires Drawable(size)
  {
    Areas(size);
    seq<byte>(Pixels(size), _ => 16) + seq<byte>(Nv21Length(size) - Pixels(size), _ => 128)
  }

  /** It is what a black picture converts to, at any scale and orientation. */
  lemma BlackGivesPlaceholder(rgb: Rgb, size: Size, o: Orientation)
    requires rgb.size.Positive() && Drawable(size)
    requires forall i :: 0 <= i < |rgb.samples| ==> rgb.samples[i] == 0
    ensures Converted(rgb, size, o) == Placeholder(size)
  {
    hide Converted, BlockSum, ColorAt, Color.Luma, Color.Chroma;
    ConvertedAt(rgb, size, o);
    Areas(size);
    var image := Converted(rgb, size, o);
    forall i | 0 <= i < |image| ensures image[i] == Placeholder(size)[i] {
      if i < Pixels(size) {
        var at := CellOf(i, size);
        assert image[i] == LumaAt(image, size, at);
        BlackColor(rgb, size, o, at);
      } else {
        var block, k := BlockOf(i, size);
        assert image[i] == ChromaAt(image, size, block, k);
        FourTerms(rgb, size, o, block, k);
        BlackColor(rgb, size, o, BlockPixel(block, Cell(0, 0)));
        BlackColor(rgb, size, o, BlockPixel(block, Cell(1, 0)));
        BlackColor(rgb, size, o, BlockPixel(block, Cell(0, 1)));
        BlackColor(rgb, size, o, BlockPixel(block, Cell(1, 1)));
      }
    }
  }

  lemma BlackColor(rgb: Rgb, size: Size, o: Orientation, at: Cell)
    requires rgb.size.Positive() && size.Positive()
    requires forall i :: 0 <= i < |rgb.samples| ==> rgb.samples[i] == 0
    ensures ColorAt(rgb, size, o, at).Luma() == 16
    ensures forall k :: ColorAt(rgb, size, o, at).Chroma(k) == 128
  {
    hide MapOutputToSource, SampleChannel;
    var p := MapOutputToSource(at, size, rgb.size, o);
    SampleBetweenTaps(rgb, p, 0, 0, 0);
    SampleBetweenTaps(rgb, p, 1, 0, 0);
    SampleBetweenTaps(rgb, p, 2, 0, 0);
  }

  // ----- The conversion loops

  method DrawConvertedLuma(rgb: Rgb, size: Size, o: Orientation, output: array<byte>)
    requires rgb.size.Positive() && Drawable(size)
    requires Drawn(output[..], Converted(rgb, size, o), 0)
    modifies output
    ensures Drawn(output[..], Converted(rgb, size, o), Pixels(size))
  {
    hide Drawn, Converted, LumaIndex, Pixels, Nv21Length, SampleChannel, MapOutputToSource;
    ghost var image := Converted(rgb, size, o);
    ConvertedAt(rgb, size, o);
    ghost var n := 0;
    RowStarts(size);
    for y := 0 to size.height
      invariant n == LumaIndex(size, Cell(0, y))
      invariant Drawn(output[..], image, n)
    {
      RowStep(size, y);
      for x := 0 to size.width
        invariant n == LumaIndex(size, Cell(x, y))
        invariant Drawn(output[..], image, n)
      {
        var at := Cell(x, y);
        LumaIndexInside(size, at);
        DrawnLength(output[..], image, n);
        ghost var before := output[..];
        var point := MapOutputToSource(at, size, rgb.size, o);
        var red := SampleChannel(rgb, point, 0);
        var green := SampleChannel(rgb, point, 1);
        var blue := SampleChannel(rgb, point, 2);
        output[LumaIndex(size, at)] := Color(red, green, blue).Luma();
        assert LumaAt(image, size, at) == image[n];
        DrawnNext(before, output[..], image, n);
        ColumnStep(size, at);
        n := n + 1;
      }
    }
  }

  lemma BlockSumStep(rgb: Rgb, size: Size, o: Orientation, block: Cell, k: int, row: nat, column: nat)
    requires rgb.size.Positive() && size.Positive() && column < 2
    ensures BlockSum(rgb, size, o, block, k, 2 * row + column + 1)
            == BlockSum(rgb, size, o, block, k, 2 * row + column)
             + ColorAt(rgb, size, o, Cell(2 * block.x + column, 2 * block.y + row)).Chroma(k)
  {
    hide ColorAt, Color.Chroma;
    assert (2 * row + column) % 2 == column && (2 * row + column) / 2 == row;
  }

  lemma BlockSumStarts(rgb: Rgb, size: Size, o: Orientation, block: Cell, k: int)
    requires rgb.size.Positive() && size.Positive()
    ensures BlockSum(rgb, size, o, block, k, 0) == 0
  {
  }

  /** The two inner loops: the chroma totals of one 2x2 block. */
  method BlockTotals(rgb: Rgb, size: Size, o: Orientation, block: Cell) returns (uTotal: int, vTotal: int)
    requires rgb.size.Positive() && size.Positive()
    ensures vTotal == BlockSum(rgb, size, o, block, 0, 4) && uTotal == BlockSum(rgb, size, o, block, 1, 4)
  {
    hide SampleChannel, MapOutputToSource, BlockSum, Color.Chroma;
    uTotal, vTotal := 0, 0;
    BlockSumStarts(rgb, size, o, block, 0);
    BlockSumStarts(rgb, size, o, block, 1);
    for row := 0 to 2
      invariant vTotal == BlockSum(rgb, size, o, block, 0, 2 * row)
      invariant uTotal == BlockSum(rgb, size, o, block, 1, 2 * row)
    {
      for column := 0 to 2
        invariant vTotal == BlockSum(rgb, size, o, block, 0, 2 * row + column)
        invariant uTotal == BlockSum(rgb, size, o, block, 1, 2 * row + column)
      {
        var point := MapOutputToSource(Cell(2 * block.x + column, 2 * block.y + row), size, rgb.size, o);
        var red := SampleChannel(rgb, point, 0);
        var green := SampleChannel(rgb, point, 1);
        var blue := SampleChannel(rgb, point, 2);
        BlockSumStep(rgb, size, o, block, 0, row, column);
        BlockSumStep(rgb, size, o, block, 1, row, column);
        uTotal := uTotal + Color(red, green, blue).Chroma(1);
        vTotal := vTotal + Color(red, green, blue).Chroma(0);
      }
    }
  }

  method DrawConvertedChroma(rgb: Rgb, size: Size, o: Orientation, output: array<byte>)
    requires rgb.size.Positive() && Drawable(size)
    requires Drawn(output[..], Converted(rgb, size, o), Pixels(size))
    modifies output
    ensures Drawn(output[..], Converted(rgb, size, o), Nv21Length(size))
  {
    hide Drawn, Converted, ChromaIndex, Pixels, Nv21Length, BlockSum;
    ghost var image := Converted(rgb, size, o);
    ConvertedAt(rgb, size, o);
    ghost var n := Pixels(size);
    BlockRowStarts(size);
    for y := 0 to size.height / 2
      invariant n == ChromaIndex(size, Cell(0, y), 0)
      invariant Drawn(output[..], image, n)
    {
      BlockRowStep(size, y);
      for x := 0 to size.width / 2
        invariant n == ChromaIndex(size, Cell(x, y), 0)
        invariant Drawn(output[..], image, n)
      {
        var block := Cell(x, y);
        ChromaIndexInside(size, block);
        var uTotal, vTotal := BlockTotals(rgb, size, o, block);
        DrawnLength(output[..], image, n);
        ghost var before := output[..];
        output[ChromaIndex(size, block, 0)] := ClampByte(vTotal / 4);
        assert ChromaAt(image, size, block, 0) == image[n];
        DrawnNext(before, output[..], image, n);
        ghost var between := output[..];
        output[ChromaIndex(size, block, 1)] := ClampByte(uTotal / 4);
        assert ChromaAt(image, size, block, 1) == image[n + 1];
        DrawnNext(between, output[..], image, n + 1);
        BlockStep(size, block);
        n := n + 2;
      }
    }
  }

  const INT_MAX: nat := 0x7fff_ffff

  /** Whether a declared size may be decoded at all. */
  predicate Decodable(d: JpegHeader.Dimensions)
  {
    d.width <= 3840 && d.height <= 2160 && d.width * d.height <= MAX_PIXELS
  }

  /** The product test adds nothing to the two side tests, so a size may be decoded iff it fits in 3840x2160. */
  lemma DecodableIsABox(d: JpegHeader.Dimensions)
    ensures Decodable(d) <==> d.width <= 3840 && d.height <= 2160
  {
    if d.width <= 3840 && d.height <= 2160 {
      assert d.width * d.height <= 3840 * d.height <= 3840 * 2160;
    }
  }

  /** The result the JPEG path must give, for whatever picture the decoder returned. */
  function JpegTransformed(input: seq<byte>, decoded: Option<Rgb>, size: Size, o: Orientation)
    : Result<seq<byte>, TransformError>
    requires decoded.Some? ==> decoded.value.Valid()
  {
    if !Drawable(size) || !o.Legal() then Failure(BadDimensions)
    else if |input| > INT_MAX then Failure(BadPayload)
    else
      match JpegHeader.Read(input)
      case None => Failure(BadJpeg)
      case Some(declared) =>
        if !Decodable(declared) then Failure(BadJpeg)
        else if decoded.None? || decoded.value.size != Size(declared.width, declared.height) then Failure(DecodeFailed)
        else Success(Converted(decoded.value, size, o))
  }

  method TransformJpegToNv21(input: seq<byte>, decoded: Option<Rgb>, size: Size, o: Orientation)
    returns (r: Result<array<byte>, TransformError>)
    requires decoded.Some? ==> decoded.value.Valid()
    ensures match r
            case Failure(error) => JpegTransformed(input, decoded, size, o) == Failure(error)
            case Success(output) =>
              fresh(output) && JpegTransformed(input, decoded, size, o) == Success(output[..])
  {
    hide Converted, Drawn;
    if size.width <= 0 || size.height <= 0 || size.width % 2 != 0 || size.height % 2 != 0
       || (o.rotation != 0 && o.rotation != 90 && o.rotation != 180 && o.rotation != 270) {
      return Failure(BadDimensions);
    }
    if |input| > INT_MAX {
      return Failure(BadPayload);
    }
    var declared := JpegHeader.ReadJpegDimensions(input);
    if declared.None? || !Decodable(declared.value) {
      return Failure(BadJpeg);
    }
    if decoded.None? || decoded.value.size != Size(declared.value.width, declared.value.height) {
      return Failure(DecodeFailed);
    }
    var rgb := decoded.value;
    ConvertedAt(rgb, size, o);
    Areas(size);
    var output := new byte[Nv21Length(size)](_ => 0);
    DrawnNothing(output[..], Converted(rgb, size, o));
    DrawConvertedLuma(rgb, size, o, output);
    DrawConvertedChroma(rgb, size, o, output);
    DrawnAll(output[..], Converted(rgb, size, o));
    return Success(output);
  }
}
