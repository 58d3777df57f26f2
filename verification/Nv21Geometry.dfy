/**
 Where each output pixel is read from: a centred cover crop, a mirror and a quarter-turn rotation. Coordinates
 are exact reals. At scale one the map is the dihedral group acting on the pixel grid and, at half
 resolution, on the chroma grid.
 */
module Nv21Geometry {
  import opened Bytes

  datatype Point = Point(x: real, y: real)

  datatype Cell = Cell(x: int, y: int)
  {
    predicate In(width: int, height: int) { 0 <= x < width && 0 <= y < height }
  }

  datatype Size = Size(width: int, height: int)
  {
    predicate Positive() { width > 0 && height > 0 }

    predicate Even() { width % 2 == 0 && height % 2 == 0 }
  }

  predicate LegalRotation(rotation: int)
  {
    rotation == 0 || rotation == 90 || rotation == 180 || rotation == 270
  }

  /** A rotation in degrees and a mirror flag, as the command carries them. */
  datatype Orientation = Orientation(rotation: int, mirror: bool)
  {
    predicate Legal() { LegalRotation(rotation) }

    predicate Swaps() { rotation == 90 || rotation == 270 }

    function Oriented(source: Size): Size
    {
      if Swaps() then Size(source.height, source.width) else source
    }

    /** This orientation followed by another: a mirror reverses the turns that come after it. */
    function Then(next: Orientation): Orientation
    {
      Orientation(Degrees(if mirror then rotation - next.rotation else rotation + next.rotation), mirror != next.mirror)
    }

    function Inverse(): Orientation
    {
      if mirror then this else Orientation(Degrees(-rotation), false)
    }
  }

  /** Modulo 360 without a division, for a sum or difference of two rotations. */
  function Degrees(angle: int): int
  {
    if angle < 0 then angle + 360 else if angle >= 360 then angle - 360 else angle
  }

  lemma DegreesIsModulo(angle: int)
    requires -360 <= angle < 720
    ensures Degrees(angle) == angle % 360
  {
  }

  const IDENTITY := Orientation(0, false)

  function InvertOrientation(x: real, y: real, source: Size, rotation: int): Point
  {
    if rotation == 90 then Point(y, (source.height - 1) as real - x)
    else if rotation == 180 then Point((source.width - 1) as real - x, (source.height - 1) as real - y)
    else if rotation == 270 then Point((source.width - 1) as real - y, x)
    else Point(x, y)
  }

  function Scale(output: Size, oriented: Size): real
    requires oriented.Positive()
  {
    var across := output.width as real / oriented.width as real;
    var down := output.height as real / oriented.height as real;
    if across >= down then across else down
  }

  /** One axis of the map: the output centre goes to the centre of the oriented source. */
  function MapAxis(at: int, output: int, oriented: int, scale: real): real
    requires scale > 0.0
  {
    (at as real + 0.5 - output as real * 0.5) / scale + oriented as real * 0.5 - 0.5
  }

  lemma ScaleIsPositive(output: Size, oriented: Size)
    requires output.Positive() && oriented.Positive()
    ensures Scale(output, oriented) > 0.0
    ensures Scale(output, oriented) * oriented.width as real >= output.width as real
    ensures Scale(output, oriented) * oriented.height as real >= output.height as real
  {
    Quotient(output.width as real, oriented.width as real, Scale(output, oriented));
    Quotient(output.height as real, oriented.height as real, Scale(output, oriented));
  }

  lemma Quotient(a: real, b: real, s: real)
    requires a > 0.0 && b > 0.0
    ensures a / b > 0.0
    ensures s >= a / b ==> s * b >= a
  {
    var q := a / b;
    assert q * b == a;
    if s >= q {
      assert (s - q) * b >= 0.0;
    }
  }

  function MapOutputToSource(at: Cell, output: Size, source: Size, o: Orientation): Point
    requires output.Positive() && source.Positive()
  {
    var oriented := o.Oriented(source);
    ScaleIsPositive(output, oriented);
    var scale := Scale(output, oriented);
    var x := MapAxis(at.x, output.width, oriented.width, scale);
    var y := MapAxis(at.y, output.height, oriented.height, scale);
    InvertOrientation(if o.mirror then (oriented.width - 1) as real - x else x, y, source, o.rotation)
  }

  // ----- The map stays inside the source

  lemma HalfScales(n: real, scale: real)
    ensures (n * 0.5) * scale == (scale * n) * 0.5
  {
  }

  /** Half an output pixel, measured in source pixels. */
  function HalfPixel(output: Size, source: Size, o: Orientation): real
    requires output.Positive() && source.Positive()
  {
    ScaleIsPositive(output, o.Oriented(source));
    0.5 / Scale(output, o.Oriented(source))
  }

  lemma AxisMargin(at: int, output: int, oriented: int, scale: real)
    requires 0 <= at < output && oriented > 0
    requires scale > 0.0 && scale * oriented as real >= output as real
    ensures 0.5 / scale > 0.0
    ensures -0.5 + 0.5 / scale <= MapAxis(at, output, oriented, scale) <= oriented as real - 0.5 - 0.5 / scale
  {
    var d := at as real + 0.5 - output as real * 0.5;
    var half := oriented as real * 0.5;
    HalfScales(oriented as real, scale);
    QuotientMargin(d, half, scale);
  }

  lemma QuotientMargin(d: real, half: real, scale: real)
    requires scale > 0.0 && 0.5 - half * scale <= d <= half * scale - 0.5
    ensures 0.5 / scale > 0.0
    ensures 0.5 / scale - half <= d / scale <= half - 0.5 / scale
  {
    var q, m := d / scale, 0.5 / scale;
    assert q * scale == d && m * scale == 0.5;
    assert (q - m + half) * scale == d - 0.5 + half * scale;
    assert (half - m - q) * scale == half * scale - 0.5 - d;
    SignOfProduct(q - m + half, scale);
    SignOfProduct(half - m - q, scale);
    SignOfProduct(m, scale);
  }

  lemma SignOfProduct(a: real, scale: real)
    requires scale > 0.0 && a * scale >= 0.0
    ensures a >= 0.0 && (a * scale > 0.0 ==> a > 0.0)
  {
  }

  /** Every output pixel maps at least half an output pixel inside the source's pixel rectangle. */
  lemma CoverMapMargin(at: Cell, output: Size, source: Size, o: Orientation)
    requires output.Positive() && source.Positive() && at.In(output.width, output.height)
    ensures var p, m := MapOutputToSource(at, output, source, o), HalfPixel(output, source, o);
            && m > 0.0
            && -0.5 + m <= p.x <= source.width as real - 0.5 - m
            && -0.5 + m <= p.y <= source.height as real - 0.5 - m
  {
    var oriented := o.Oriented(source);
    ScaleIsPositive(output, oriented);
    AxisMargin(at.x, output.width, oriented.width, Scale(output, oriented));
    AxisMargin(at.y, output.height, oriented.height, Scale(output, oriented));
  }

  /** Every output pixel maps strictly inside the source's pixel rectangle, whatever the sizes. */
  lemma CoverMapStaysInside(at: Cell, output: Size, source: Size, o: Orientation)
    requires output.Positive() && source.Positive() && at.In(output.width, output.height)
    ensures var p := MapOutputToSource(at, output, source, o);
            && -0.5 < p.x < source.width as real - 0.5
            && -0.5 < p.y < source.height as real - 0.5
  {
    hide MapOutputToSource, HalfPixel;
    CoverMapMargin(at, output, source, o);
  }

  lemma AxisIsCentred(at: int, output: int, oriented: int, scale: real)
    requires scale > 0.0
    ensures MapAxis(output - 1 - at, output, oriented, scale)
            == (oriented - 1) as real - MapAxis(at, output, oriented, scale)
  {
    var d := at as real + 0.5 - output as real * 0.5;
    assert (output - 1 - at) as real + 0.5 - output as real * 0.5 == -d;
    assert (-d) / scale == -(d / scale);
  }

  /** The crop is centred, so mirroring is reading the output row backwards, at every scale. */
  lemma MirrorReversesRows(at: Cell, output: Size, source: Size, rotation: int)
    requires output.Positive() && source.Positive()
    ensures MapOutputToSource(at, output, source, Orientation(rotation, true))
            == MapOutputToSource(Cell(output.width - 1 - at.x, at.y), output, source, Orientation(rotation, false))
  {
    var oriented := Orientation(rotation, true).Oriented(source);
    assert oriented == Orientation(rotation, false).Oriented(source);
    ScaleIsPositive(output, oriented);
    AxisIsCentred(at.x, output.width, oriented.width, Scale(output, oriented));
  }

  // ----- The map in closed form

  function Add(a: Point, b: Point): Point { Point(a.x + b.x, a.y + b.y) }

  function Scaled(factor: real, d: Cell): Point { Point(factor * d.x as real, factor * d.y as real) }

  function Centre(size: Size): Point
  {
    Point((size.width - 1) as real * 0.5, (size.height - 1) as real * 0.5)
  }

  /** A quarter turn against the clock of a direction, with y pointing down. */
  function TurnBack(d: Cell): Cell { Cell(d.y, -d.x) }

  /** Turning the picture clockwise turns each output direction back into the source. */
  function TurnedBack(d: Cell, rotation: int): Cell
  {
    if rotation == 90 then TurnBack(d)
    else if rotation == 180 then TurnBack(TurnBack(d))
    else if rotation == 270 then TurnBack(TurnBack(TurnBack(d)))
    else d
  }

  function Rightwards(o: Orientation): Cell
  {
    TurnedBack(if o.mirror then Cell(-1, 0) else Cell(1, 0), o.rotation)
  }

  function Downwards(o: Orientation): Cell { TurnedBack(Cell(0, 1), o.rotation) }

  /** The distance of an output pixel from the middle of its axis, in source pixels. */
  function Along(spacing: real, at: int, n: int): real
  {
    spacing * (at as real - (n - 1) as real * 0.5)
  }

  /** The source pixels between two neighbouring output pixels: as many as fit the tighter of the two axes. */
  function Spacing(output: Size, oriented: Size): real
    requires output.Positive()
  {
    var across := oriented.width as real / output.width as real;
    var down := oriented.height as real / output.height as real;
    if across <= down then across else down
  }

  lemma SpacingInvertsScale(output: Size, oriented: Size)
    requires output.Positive() && oriented.Positive()
    ensures Scale(output, oriented) * Spacing(output, oriented) == 1.0
    ensures Spacing(output, oriented) > 0.0
  {
    ScaleIsPositive(output, oriented);
    Reciprocal(output.width as real, oriented.width as real);
    Reciprocal(output.height as real, oriented.height as real);
    ReciprocalOrder(output.width as real / oriented.width as real, oriented.width as real / output.width as real,
                    output.height as real / oriented.height as real, oriented.height as real / output.height as real);
  }

  lemma Reciprocal(a: real, b: real)
    requires a > 0.0 && b > 0.0
    ensures (a / b) * (b / a) == 1.0 && b / a > 0.0 && a / b > 0.0
  {
    Quotient(b, a, b / a);
    Quotient(a, b, a / b);
    MultiplyBack(a, b);
    MultiplyBack(b, a);
    InverseFactors(a / b, b / a, a, b);
  }

  function Multiply(x: real, y: real): real { x * y }

  lemma MultiplyBack(a: real, b: real)
    requires b > 0.0
    ensures Multiply(a / b, b) == a
  {
  }

  lemma Associate(x: real, y: real, z: real)
    ensures Multiply(Multiply(x, y), z) == Multiply(x, Multiply(y, z))
  {
  }

  lemma InverseFactors(q: real, p: real, a: real, b: real)
    requires a > 0.0 && Multiply(q, b) == a && Multiply(p, a) == b
    ensures q * p == 1.0
  {
    hide Multiply;
    Associate(q, p, a);
    CancelFactor(Multiply(q, p), a);
    MultiplyMeans(q, p);
  }

  lemma MultiplyMeans(x: real, y: real)
    ensures Multiply(x, y) == x * y
  {
  }

  lemma CancelFactor(x: real, a: real)
    requires a > 0.0 && Multiply(x, a) == a
    ensures x == 1.0
  {
    assert (x - 1.0) * a == 0.0;
  }

  lemma ReciprocalOrder(p: real, p1: real, q: real, q1: real)
    requires p > 0.0 && q > 0.0 && p1 > 0.0 && q1 > 0.0 && p * p1 == 1.0 && q * q1 == 1.0
    ensures p > q ==> p1 < q1
    ensures p == q ==> p1 == q1
    ensures p < q ==> p1 > q1
  {
    assert (p - q) * p1 * q1 == q1 * (p * p1) - p1 * (q * q1) == q1 - p1;
    SignOf((p - q), p1 * q1);
  }

  lemma SignOf(d: real, f: real)
    ensures f > 0.0 && d > 0.0 ==> d * f > 0.0
    ensures f > 0.0 && d < 0.0 ==> d * f < 0.0
    ensures d == 0.0 ==> d * f == 0.0
  {
  }

  lemma DivideIsMultiply(d: real, scale: real, spacing: real)
    requires scale > 0.0 && scale * spacing == 1.0
    ensures d / scale == d * spacing
  {
    var q := d / scale;
    assert q * scale == d;
    assert d * spacing == q * (scale * spacing);
  }

  /**
   The whole map: centre to centre, and one output pixel right or down is one spacing in the source, in the direction
   turned back. The spacing covers the output on both axes and is exact on one, so the crop is the largest there is.
   */
  lemma MapIsAffine(at: Cell, output: Size, source: Size, o: Orientation)
    requires output.Positive() && source.Positive() && o.Legal()
    ensures var spacing := Spacing(output, o.Oriented(source));
            MapOutputToSource(at, output, source, o)
            == Add(Centre(source), Add(Scaled(Along(spacing, at.x, output.width), Rightwards(o)),
                                       Scaled(Along(spacing, at.y, output.height), Downwards(o))))
  {
    hide MapAxis, Scale, Spacing, Rightwards, Downwards, Scaled, Add, InvertOrientation, Along;
    var oriented := o.Oriented(source);
    ScaleIsPositive(output, oriented);
    SpacingInvertsScale(output, oriented);
    var scale, spacing := Scale(output, oriented), Spacing(output, oriented);
    AxisInClosedForm(at.x, output.width, oriented.width, scale, spacing);
    AxisInClosedForm(at.y, output.height, oriented.height, scale, spacing);
    InvertedFrom(source, o, Along(spacing, at.x, output.width), Along(spacing, at.y, output.height));
  }

  /** Inverting an orientation, told from the centre. */
  lemma InvertedFrom(source: Size, o: Orientation, u: real, v: real)
    requires o.Legal()
    ensures var oriented := o.Oriented(source);
            var x := (oriented.width - 1) as real * 0.5 + u;
            var y := (oriented.height - 1) as real * 0.5 + v;
            InvertOrientation(if o.mirror then (oriented.width - 1) as real - x else x, y, source, o.rotation)
            == Add(Centre(source), Add(Scaled(u, Rightwards(o)), Scaled(v, Downwards(o))))
  {
    hide Rightwards, Downwards;
    Directions(o);
    if o.rotation == 0 {
    } else if o.rotation == 90 {
    } else if o.rotation == 180 {
    } else {
    }
  }

  lemma AxisInClosedForm(at: int, output: int, oriented: int, scale: real, spacing: real)
    requires scale > 0.0 && scale * spacing == 1.0
    ensures MapAxis(at, output, oriented, scale)
            == (oriented - 1) as real * 0.5 + Along(spacing, at, output)
  {
    var d := at as real + 0.5 - output as real * 0.5;
    DivideIsMultiply(d, scale, spacing);
    assert d == at as real - (output - 1) as real * 0.5;
  }

  lemma Directions(o: Orientation)
    requires o.Legal()
    ensures Downwards(o)
            == if o.rotation == 0 then Cell(0, 1) else if o.rotation == 90 then Cell(1, 0)
               else if o.rotation == 180 then Cell(0, -1) else Cell(-1, 0)
    ensures Rightwards(o)
            == var s := if o.mirror then -1 else 1;
               if o.rotation == 0 then Cell(s, 0) else if o.rotation == 90 then Cell(0, -s)
               else if o.rotation == 180 then Cell(-s, 0) else Cell(0, s)
  {
    hide TurnedBack;
    TurnedBackIs(if o.mirror then Cell(-1, 0) else Cell(1, 0));
    TurnedBackIs(Cell(0, 1));
  }

  lemma TurnedBackIs(d: Cell)
    ensures TurnedBack(d, 0) == d && TurnedBack(d, 90) == Cell(d.y, -d.x)
    ensures TurnedBack(d, 180) == Cell(-d.x, -d.y) && TurnedBack(d, 270) == Cell(-d.y, d.x)
  {
  }

  /** The crop is the largest: it fits the oriented source on both axes, and fills it on one. */
  lemma CoverIsTight(output: Size, source: Size, o: Orientation)
    requires output.Positive() && source.Positive()
    ensures var spacing, oriented := Spacing(output, o.Oriented(source)), o.Oriented(source);
            && spacing * output.width as real <= oriented.width as real
            && spacing * output.height as real <= oriented.height as real
            && (spacing * output.width as real == oriented.width as real
                || spacing * output.height as real == oriented.height as real)
            && HalfPixel(output, source, o) == 0.5 * spacing
  {
    var oriented := o.Oriented(source);
    ScaleIsPositive(output, oriented);
    SpacingInvertsScale(output, oriented);
    var spacing := Spacing(output, oriented);
    DivideIsMultiply(0.5, Scale(output, oriented), spacing);
    Fits(oriented.width as real, output.width as real, spacing);
    Fits(oriented.height as real, output.height as real, spacing);
  }

  lemma Fits(a: real, b: real, s: real)
    requires b > 0.0
    ensures s <= a / b ==> s * b <= a
    ensures s == a / b ==> s * b == a
  {
    var q := a / b;
    assert q * b == a;
    if s <= q {
      assert (q - s) * b >= 0.0;
    }
  }

  // ----- Nearest samples

  /** std::lround: half way cases away from zero. */
  function LRound(x: real): int
  {
    if x >= 0.0 then (x + 0.5).Floor else -((-x + 0.5).Floor)
  }

  /** value & ~1 */
  function ClearLowBit(value: int): int
  {
    value - value % 2
  }

  /** The nearest integer, and the one further from zero of two that are equally near. */
  lemma RoundIsNearest(x: real)
    ensures -0.5 <= LRound(x) as real - x <= 0.5
    ensures LRound(x) as real - x == 0.5 ==> x > 0.0
    ensures LRound(x) as real - x == -0.5 ==> x < 0.0
  {
  }

  function NearestPixel(p: Point, source: Size): Cell
  {
    Cell(Clamp(LRound(p.x), 0, source.width - 1), Clamp(LRound(p.y), 0, source.height - 1))
  }

  function NearestBlock(p: Point, source: Size): Cell
  {
    Cell(ClearLowBit(Clamp(LRound(p.x), 0, source.width - 2)), ClearLowBit(Clamp(LRound(p.y), 0, source.height - 2)))
  }

  function LumaCell(at: Cell, output: Size, source: Size, o: Orientation): Cell
    requires output.Positive() && source.Positive()
  {
    NearestPixel(MapOutputToSource(at, output, source, o), source)
  }

  /** The even source pixel heading the chroma pair of output block `block`. */
  function ChromaCell(block: Cell, output: Size, source: Size, o: Orientation): Cell
    requires output.Positive() && source.Positive()
  {
    NearestBlock(MapOutputToSource(Cell(2 * block.x, 2 * block.y), output, source, o), source)
  }

  lemma RoundInside(x: real, n: int)
    requires -0.5 < x < n as real - 0.5
    ensures 0 <= LRound(x) < n
  {
  }

  predicate Near(q: Point, p: Point, distance: real)
  {
    -distance < q.x - p.x < distance && -distance < q.y - p.y < distance
  }

  /**
   Neither clamp ever changes which sample is taken: for the exact coordinate of any output pixel, and for any
   other coordinate less than half an output pixel away from it, such as a rounded one.
   */
  lemma ClampsAreRedundant(at: Cell, q: Point, output: Size, source: Size, o: Orientation)
    requires output.Positive() && source.Positive() && source.Even() && at.In(output.width, output.height)
    requires q == MapOutputToSource(at, output, source, o)
             || Near(q, MapOutputToSource(at, output, source, o), HalfPixel(output, source, o))
    ensures NearestPixel(q, source) == Cell(LRound(q.x), LRound(q.y))
    ensures NearestBlock(q, source) == Cell(ClearLowBit(LRound(q.x)), ClearLowBit(LRound(q.y)))
  {
    hide MapOutputToSource, HalfPixel, LRound, ClearLowBit;
    CoverMapMargin(at, output, source, o);
    RoundInside(q.x, source.width);
    RoundInside(q.y, source.height);
    EvenClamp(LRound(q.x), source.width);
    EvenClamp(LRound(q.y), source.height);
  }

  lemma EvenClamp(value: int, n: int)
    requires n > 0 && n % 2 == 0
    ensures var c := ClearLowBit(Clamp(value, 0, n - 2));
            0 <= c < n - 1 && c % 2 == 0
    ensures 0 <= value < n ==> ClearLowBit(Clamp(value, 0, n - 2)) == ClearLowBit(value)
  {
  }

  lemma LumaCellInside(at: Cell, output: Size, source: Size, o: Orientation)
    requires output.Positive() && source.Positive()
    ensures LumaCell(at, output, source, o).In(source.width, source.height)
  {
  }

  lemma ChromaCellInside(block: Cell, output: Size, source: Size, o: Orientation)
    requires output.Positive() && source.Positive() && source.Even()
    ensures var c := ChromaCell(block, output, source, o);
            c.In(source.width - 1, source.height - 1) && c.x % 2 == 0 && c.y % 2 == 0
  {
    hide MapOutputToSource, LRound, ClearLowBit;
    var p := MapOutputToSource(Cell(2 * block.x, 2 * block.y), output, source, o);
    EvenClamp(LRound(p.x), source.width);
    EvenClamp(LRound(p.y), source.height);
  }

  // ----- Scale one: the dihedral group

  /** Mirror, then turn: the source cell of `at` in a grid of any resolution. */
  function Turn(at: Cell, source: Size, o: Orientation): Cell
  {
    var x := if o.mirror then o.Oriented(source).width - 1 - at.x else at.x;
    if o.rotation == 90 then Cell(at.y, source.height - 1 - x)
    else if o.rotation == 180 then Cell(source.width - 1 - x, source.height - 1 - at.y)
    else if o.rotation == 270 then Cell(source.width - 1 - at.y, x)
    else Cell(x, at.y)
  }

  lemma TurnInside(at: Cell, source: Size, o: Orientation)
    requires at.In(o.Oriented(source).width, o.Oriented(source).height)
    ensures Turn(at, source, o).In(source.width, source.height)
  {
  }

  lemma ThenIsLegal(first: Orientation, next: Orientation)
    requires first.Legal() && next.Legal()
    ensures first.Then(next).Legal()
  {
  }

  /** Turning the turned grid is one turn by the composed orientation. */
  lemma TurnsCompose(at: Cell, source: Size, first: Orientation, next: Orientation)
    requires first.Legal() && next.Legal()
    ensures Turn(Turn(at, first.Oriented(source), next), source, first) == Turn(at, source, first.Then(next))
    ensures next.Oriented(first.Oriented(source)) == first.Then(next).Oriented(source)
    ensures first.Then(next).mirror == (first.mirror != next.mirror)
    ensures first.Then(next).rotation
            == (if first.mirror then first.rotation - next.rotation else first.rotation + next.rotation) % 360
  {
    DegreesIsModulo(if first.mirror then first.rotation - next.rotation else first.rotation + next.rotation);
  }

  /** The orientations form a group: associative, with inverses on both sides. */
  lemma OrientationsFormAGroup(a: Orientation, b: Orientation, c: Orientation)
    requires a.Legal() && b.Legal() && c.Legal()
    ensures a.Then(b).Then(c) == a.Then(b.Then(c))
    ensures a.Then(IDENTITY) == a == IDENTITY.Then(a)
    ensures a.Inverse().Legal() && a.Then(a.Inverse()) == IDENTITY == a.Inverse().Then(a)
  {
    hide Degrees;
    DegreesAdd(a.rotation, b.rotation, if a.mirror != b.mirror then -c.rotation else c.rotation);
    DegreesOfOne(a.rotation);
  }

  lemma DegreesOfOne(a: int)
    requires a == 0 || a == 90 || a == 180 || a == 270
    ensures Degrees(a) == a == Degrees(a + 0) == Degrees(0 + a) == Degrees(a - 0)
    ensures Degrees(a + Degrees(-a)) == 0 == Degrees(Degrees(-a) + a) == Degrees(a - a)
    ensures Orientation(Degrees(-a), false).Legal()
  {
  }

  /** Reducing early or late, with either sign, gives the same angle. */
  lemma DegreesAdd(a: int, b: int, t: int)
    requires 0 <= a < 360 && 0 <= b < 360 && -360 < t < 360
    ensures Degrees(Degrees(a + b) + t) == Degrees(a + Degrees(b + t))
    ensures Degrees(Degrees(a - b) + t) == Degrees(a - Degrees(b - t))
  {
  }

  lemma AxisAtScaleOne(at: int, n: int)
    ensures MapAxis(at, n, n, 1.0) == at as real
  {
    var d := at as real + 0.5 - n as real * 0.5;
    assert d / 1.0 == d;
  }

  lemma ScaleOne(size: Size)
    requires size.Positive()
    ensures Scale(size, size) == 1.0
  {
  }

  lemma MapIsTurn(at: Cell, source: Size, o: Orientation)
    requires o.Legal() && source.Positive()
    ensures var cell := Turn(at, source, o);
            MapOutputToSource(at, o.Oriented(source), source, o) == Point(cell.x as real, cell.y as real)
  {
    var oriented := o.Oriented(source);
    ScaleOne(oriented);
    AxisAtScaleOne(at.x, oriented.width);
    AxisAtScaleOne(at.y, oriented.height);
  }

  lemma RoundExact(n: int)
    ensures LRound(n as real) == n
  {
  }

  lemma LumaCellIsTurn(at: Cell, source: Size, o: Orientation)
    requires o.Legal() && source.Positive()
    requires at.In(o.Oriented(source).width, o.Oriented(source).height)
    ensures LumaCell(at, o.Oriented(source), source, o) == Turn(at, source, o)
  {
    MapIsTurn(at, source, o);
    TurnInside(at, source, o);
    RoundExact(Turn(at, source, o).x);
    RoundExact(Turn(at, source, o).y);
  }

  function Halved(size: Size): Size { Size(size.width / 2, size.height / 2) }

  /** The clamp to width - 2 and the cleared low bit make chroma blocks turn like the half-size grid. */
  lemma ChromaCellIsTurn(block: Cell, source: Size, o: Orientation)
    requires o.Legal() && source.Positive() && source.Even()
    requires block.In(o.Oriented(source).width / 2, o.Oriented(source).height / 2)
    ensures var cell := Turn(block, Halved(source), o);
            ChromaCell(block, o.Oriented(source), source, o) == Cell(2 * cell.x, 2 * cell.y)
  {
    var at := Cell(2 * block.x, 2 * block.y);
    MapIsTurn(at, source, o);
    RoundExact(Turn(at, source, o).x);
    RoundExact(Turn(at, source, o).y);
    EvenTurn(block, source, o);
  }

  lemma EvenTurn(block: Cell, source: Size, o: Orientation)
    requires o.Legal() && source.Positive() && source.Even()
    requires block.In(o.Oriented(source).width / 2, o.Oriented(source).height / 2)
    ensures var full, half := Turn(Cell(2 * block.x, 2 * block.y), source, o), Turn(block, Halved(source), o);
            && ClearLowBit(Clamp(full.x, 0, source.width - 2)) == 2 * half.x
            && ClearLowBit(Clamp(full.y, 0, source.height - 2)) == 2 * half.y
  {
    hide Turn, ClearLowBit;
    var half, offset := Turn(block, Halved(source), o), TurnedOffset(Cell(0, 0), o);
    assert Cell(2 * block.x + 0, 2 * block.y + 0) == Cell(2 * block.x, 2 * block.y);
    TurnMovesBlocks(block, 0, 0, source, o);
    TurnInside(block, Halved(source), o);
    TurnInside(Cell(0, 0), Size(2, 2), o);
    EvenAxis(half.x, offset.x, source.width / 2);
    EvenAxis(half.y, offset.y, source.height / 2);
  }

  lemma EvenAxis(i: int, bit: int, n: int)
    requires 0 <= i < n && 0 <= bit < 2
    ensures ClearLowBit(Clamp(2 * i + bit, 0, 2 * n - 2)) == 2 * i
  {
  }

  /** The four pixels of an output block come from the four pixels of one source block. */
  lemma TurnMovesBlocks(block: Cell, dx: int, dy: int, source: Size, o: Orientation)
    requires o.Legal() && source.Positive() && source.Even()
    requires 0 <= dx < 2 && 0 <= dy < 2
    ensures var half := Turn(block, Halved(source), o);
            Turn(Cell(2 * block.x + dx, 2 * block.y + dy), source, o)
            == BlockPixel(half, TurnedOffset(Cell(dx, dy), o))
  {
    var w, h := source.width / 2, source.height / 2;
    assert source == Size(2 * w, 2 * h);
  }

  function BlockPixel(block: Cell, offset: Cell): Cell
  {
    Cell(2 * block.x + offset.x, 2 * block.y + offset.y)
  }

  /** How the 2x2 offsets inside a block are permuted. */
  function TurnedOffset(offset: Cell, o: Orientation): Cell
  {
    Turn(offset, Size(2, 2), o)
  }
}
