/**
 The JPEG header walk: skip fill bytes, standalone markers and segments until a start-of-frame segment gives
 the image size. Marker syntax is that of ITU-T T.81, sections B.1.1.2, B.1.1.4 and B.2.2.
 */
module JpegHeader {
  import opened Bytes

  datatype Dimensions = Dimensions(width: nat, height: nat)

  predicate IsStartOfFrame(marker: byte)
  {
    0xc0 <= marker <= 0xcf && marker != 0xc4 && marker != 0xc8 && marker != 0xcc
  }

  /** Markers that stand alone: SOI, TEM and RST0..RST7. */
  predicate IsStandalone(marker: byte)
  {
    marker == 0xd8 || marker == 0x01 || 0xd0 <= marker <= 0xd7
  }

  /** EOI and SOS end the search. */
  predicate IsTerminal(marker: byte)
  {
    marker == 0xd9 || marker == 0xda
  }

  /** The marker codes of ITU-T T.81, table B.1, that the walk tells apart. */
  lemma MarkerTable(marker: byte)
    ensures IsStartOfFrame(marker)
       <==> marker in {0xc0, 0xc1, 0xc2, 0xc3, 0xc5, 0xc6, 0xc7, 0xc9, 0xca, 0xcb, 0xcd, 0xce, 0xcf}
    ensures IsStandalone(marker)
       <==> marker in {0x01, 0xd0, 0xd1, 0xd2, 0xd3, 0xd4, 0xd5, 0xd6, 0xd7, 0xd8}
    ensures IsTerminal(marker) <==> marker in {0xd9, 0xda}
  {
  }

  function BigEndian16(s: seq<byte>): (n: nat)
    requires |s| >= 2
    ensures IsWord(n)
  {
    Pow256Values();
    FromBigEndian(s[..2])
  }

  predicate IsWord(n: nat) { n < 0x1_0000 }

  function Word(n: nat): (s: seq<byte>)
    requires IsWord(n)
    ensures |s| == 2 && BigEndian16(s) == n
  {
    Pow256Values();
    BigEndianRoundTrip(n, 2);
    var s := ToBigEndian(n, 2);
    assert s[..2] == s;
    s
  }

  lemma BigEndian16OfPrefix(s: seq<byte>, t: seq<byte>)
    requires |s| >= 2 && s <= t
    ensures BigEndian16(s) == BigEndian16(t)
  {
    assert s[..2] == t[..2];
  }

  // ----- The grammar the walk accepts

  /** `fill` bytes 0xFF come before each marker code; T.81 asks for at least one. */
  datatype Segment =
    | Standalone(fill: nat, marker: byte)
    | Parameters(fill: nat, marker: byte, body: seq<byte>)
  {
    predicate Skippable()
    {
      match this
      case Standalone(_, marker) => IsStandalone(marker)
      case Parameters(_, marker, body) =>
        && marker != 0xff && !IsStandalone(marker) && !IsTerminal(marker)
        && IsWord(|body| + 2)
        && (IsStartOfFrame(marker) ==> |body| < 5)
    }

    function Encode(): seq<byte>
      requires Skippable()
    {
      match this
      case Standalone(fill, marker) => Fill(fill) + [marker]
      case Parameters(fill, marker, body) => Fill(fill) + ([marker] + (Word(|body| + 2) + body))
    }
  }

  function Fill(n: nat): seq<byte>
  {
    seq<byte>(n, _ => 0xff)
  }

  function EncodeAll(segments: seq<Segment>): seq<byte>
    requires forall s :: s in segments ==> s.Skippable()
  {
    if segments == [] then [] else segments[0].Encode() + EncodeAll(segments[1..])
  }

  /** The segment that holds the frame size; `body` follows the width. */
  datatype FrameHeader = FrameHeader(fill: nat, marker: byte, precision: byte, size: Dimensions, body: seq<byte>)
  {
    predicate Valid()
    {
      && IsStartOfFrame(marker)
      && IsWord(size.width) && IsWord(size.height) && size.width != 0 && size.height != 0
      && IsWord(|body| + 7)
    }

    function Encode(): seq<byte>
      requires Valid()
    {
      Fill(fill) + ([marker] + (Sizes() + body))
    }

    function Sizes(): (s: seq<byte>)
      requires Valid()
      ensures |s| == 7
    {
      Word(|body| + 7) + [precision] + Word(size.height) + Word(size.width)
    }
  }

  // ----- The walk

  function DropFill(s: seq<byte>): (r: seq<byte>)
    ensures |r| <= |s| && s == Fill(|s| - |r|) + r
    ensures r != [] ==> r[0] != 0xff
  {
    if s != [] && s[0] == 0xff then DropFill(s[1..]) else s
  }

  /** The walk from some offset on, over the bytes that remain there. */
  function Walk(s: seq<byte>): Option<Dimensions>
    decreases |s|, 0
  {
    if |s| < 4 then None
    else
      var t := DropFill(s);
      if t == [] then None
      else AtMarker(t[0], t[1..])
  }

  function AtMarker(marker: byte, t: seq<byte>): Option<Dimensions>
    decreases |t|, 1
  {
    if IsStandalone(marker) then Walk(t)
    else if IsTerminal(marker) || |t| < 2 then None
    else
      var length := BigEndian16(t);
      if length < 2 || length > |t| then None
      else if IsStartOfFrame(marker) && length >= 7 then
        var h, w := BigEndian16(t[3..]), BigEndian16(t[5..]);
        if w == 0 || h == 0 then None else Some(Dimensions(w, h))
      else Walk(t[length..])
  }

  function Read(jpeg: seq<byte>): Option<Dimensions>
  {
    if |jpeg| < 4 || jpeg[0] != 0xff || jpeg[1] != 0xd8 then None else Walk(jpeg[2..])
  }

  // ----- The same walk told by offsets into the buffer

  lemma Suffix(s: seq<byte>, i: nat, k: nat)
    requires i + k <= |s|
    ensures s[i..][k..] == s[i + k..]
  {
  }

  function WordAt(jpeg: seq<byte>, offset: nat): nat
    requires offset + 2 <= |jpeg|
  {
    BigEndian16(jpeg[offset..])
  }

  function WalkAt(jpeg: seq<byte>, offset: nat): Option<Dimensions>
    requires offset <= |jpeg|
  {
    Walk(jpeg[offset..])
  }

  function MarkerAt(jpeg: seq<byte>, marker: byte, offset: nat): Option<Dimensions>
    requires offset <= |jpeg|
  {
    AtMarker(marker, jpeg[offset..])
  }

  /** The offset of the first byte that is not 0xFF. */
  function FillEnd(jpeg: seq<byte>, offset: nat): (end: nat)
    requires offset <= |jpeg|
    ensures offset <= end <= |jpeg|
    decreases |jpeg| - offset
  {
    if offset < |jpeg| && jpeg[offset] == 0xff then FillEnd(jpeg, offset + 1) else offset
  }

  lemma {:induction false} FillEndDrops(jpeg: seq<byte>, offset: nat)
    requires offset <= |jpeg|
    ensures DropFill(jpeg[offset..]) == jpeg[FillEnd(jpeg, offset)..]
    decreases |jpeg| - offset
  {
    if offset == |jpeg| || jpeg[offset] != 0xff {
    } else {
      Suffix(jpeg, offset, 1);
      FillEndDrops(jpeg, offset + 1);
    }
  }

  lemma ReadStep(jpeg: seq<byte>)
    ensures Read(jpeg)
            == if |jpeg| < 4 || jpeg[0] != 0xff || jpeg[1] != 0xd8 then None else WalkAt(jpeg, 2)
  {
    hide Walk;
  }

  lemma WalkShort(jpeg: seq<byte>, offset: nat)
    requires offset <= |jpeg| < offset + 4
    ensures WalkAt(jpeg, offset) == None
  {
  }

  lemma WalkStep(jpeg: seq<byte>, offset: nat)
    requires offset + 4 <= |jpeg|
    ensures var end := FillEnd(jpeg, offset);
            WalkAt(jpeg, offset) == if end == |jpeg| then None else MarkerAt(jpeg, jpeg[end], end + 1)
  {
    FillEndDrops(jpeg, offset);
    var end := FillEnd(jpeg, offset);
    if end < |jpeg| {
      Suffix(jpeg, end, 1);
    }
  }

  lemma MarkerStep(jpeg: seq<byte>, marker: byte, offset: nat)
    requires offset <= |jpeg|
    ensures IsStandalone(marker) ==> MarkerAt(jpeg, marker, offset) == WalkAt(jpeg, offset)
    ensures !IsStandalone(marker) && (IsTerminal(marker) || offset + 2 > |jpeg|)
            ==> MarkerAt(jpeg, marker, offset) == None
    ensures !IsStandalone(marker) && !IsTerminal(marker) && offset + 2 <= |jpeg|
            ==> MarkerAt(jpeg, marker, offset) == LengthAt(jpeg, marker, offset)
  {
    hide Walk, IsStartOfFrame, BigEndian16;
    var u := jpeg[offset..];
    if |u| >= 2 {
      var length := BigEndian16(u);
      if 2 <= length <= |u| {
        Suffix(jpeg, offset, length);
        if length >= 7 {
          Suffix(jpeg, offset, 3);
          Suffix(jpeg, offset, 5);
        }
      }
    }
  }

  function LengthAt(jpeg: seq<byte>, marker: byte, offset: nat): Option<Dimensions>
    requires offset + 2 <= |jpeg|
  {
    var length := WordAt(jpeg, offset);
    if length < 2 || offset + length > |jpeg| then None
    else if IsStartOfFrame(marker) && length >= 7 then
      var h, w := WordAt(jpeg, offset + 3), WordAt(jpeg, offset + 5);
      if w == 0 || h == 0 then None else Some(Dimensions(w, h))
    else WalkAt(jpeg, offset + length)
  }

  /** The program's loop; every index it uses is below the buffer's size. */
  method ReadJpegDimensions(jpeg: seq<byte>) returns (dimensions: Option<Dimensions>)
    ensures dimensions == Read(jpeg)
  {
    hide Read, WalkAt, MarkerAt, WordAt, IsStartOfFrame, FillEnd;
    ReadStep(jpeg);
    if |jpeg| < 4 || jpeg[0] != 0xff || jpeg[1] != 0xd8 {
      return None;
    }
    var offset := 2;
    while offset + 4 <= |jpeg|
      invariant 2 <= offset <= |jpeg|
      invariant WalkAt(jpeg, offset) == Read(jpeg)
      decreases |jpeg| - offset
    {
      WalkStep(jpeg, offset);
      offset := SkipFill(jpeg, offset);
      if offset >= |jpeg| {
        return None;
      }
      var marker := jpeg[offset];
      offset := offset + 1;
      MarkerStep(jpeg, marker, offset);
      if marker == 0xd8 || marker == 0x01 || (marker >= 0xd0 && marker <= 0xd7) {
        continue;
      }
      if marker == 0xd9 || marker == 0xda || offset + 2 > |jpeg| {
        return None;
      }
      var segmentLength := WordAt(jpeg, offset);
      if segmentLength < 2 || offset + segmentLength > |jpeg| {
        return None;
      }
      if IsStartOfFrame(marker) && segmentLength >= 7 {
        var parsedHeight := WordAt(jpeg, offset + 3);
        var parsedWidth := WordAt(jpeg, offset + 5);
        if parsedWidth <= 0 || parsedHeight <= 0 {
          return None;
        }
        return Some(Dimensions(parsedWidth, parsedHeight));
      }
      offset := offset + segmentLength;
    }
    WalkShort(jpeg, offset);
    return None;
  }

  /** The inner loop over 0xFF bytes. */
  method SkipFill(jpeg: seq<byte>, from: nat) returns (offset: nat)
    requires from <= |jpeg|
    ensures offset == FillEnd(jpeg, from)
  {
    offset := from;
    while offset < |jpeg| && jpeg[offset] == 0xff
      invariant from <= offset <= |jpeg|
      invariant FillEnd(jpeg, offset) == FillEnd(jpeg, from)
    {
      offset := offset + 1;
    }
  }

  // ----- The walk decides the grammar

  lemma {:induction false} DropFillOf(n: nat, t: seq<byte>)
    requires t == [] || t[0] != 0xff
    ensures DropFill(Fill(n) + t) == t
  {
    if n == 0 {
      assert Fill(n) + t == t;
    } else {
      assert (Fill(n) + t)[1..] == Fill(n - 1) + t;
      DropFillOf(n - 1, t);
    }
  }

  lemma WalkToMarker(fill: nat, marker: byte, t: seq<byte>)
    requires marker != 0xff && |t| >= 3
    ensures Walk(Fill(fill) + ([marker] + t)) == AtMarker(marker, t)
  {
    DropFillOf(fill, [marker] + t);
    assert ([marker] + t)[1..] == t;
  }

  lemma AtSegment(marker: byte, body: seq<byte>, later: seq<byte>)
    requires IsWord(|body| + 2)
    requires !IsStandalone(marker) && !IsTerminal(marker) && (IsStartOfFrame(marker) ==> |body| < 5)
    ensures AtMarker(marker, Word(|body| + 2) + (body + later)) == Walk(later)
  {
    hide Walk;
    var t := Word(|body| + 2) + (body + later);
    BigEndian16OfPrefix(Word(|body| + 2), t);
    assert t[|body| + 2..] == later;
  }

  lemma Nest<T>(a: seq<T>, b: seq<T>, c: seq<T>, d: seq<T>, e: seq<T>)
    ensures (a + (b + (c + d))) + e == a + (b + (c + (d + e)))
  {
  }

  lemma WalkPastSegment(segment: Segment, later: seq<byte>)
    requires segment.Skippable() && |later| >= 3
    ensures Walk(segment.Encode() + later) == Walk(later)
  {
    hide Walk, AtMarker;
    match segment
    case Standalone(fill, marker) =>
      assert segment.Encode() + later == Fill(fill) + ([marker] + later);
      WalkToMarker(fill, marker, later);
      AtStandalone(marker, later);
    case Parameters(fill, marker, body) =>
      Nest(Fill(fill), [marker], Word(|body| + 2), body, later);
      WalkToMarker(fill, marker, Word(|body| + 2) + (body + later));
      AtSegment(marker, body, later);
  }

  lemma AtStandalone(marker: byte, later: seq<byte>)
    requires IsStandalone(marker)
    ensures AtMarker(marker, later) == Walk(later)
  {
  }

  lemma WalkReadsFrame(frame: FrameHeader, later: seq<byte>)
    requires frame.Valid()
    ensures Walk(frame.Encode() + later) == Some(frame.size)
  {
    hide Walk;
    var h, w := Word(frame.size.height), Word(frame.size.width);
    var t := frame.Sizes() + (frame.body + later);
    Nest(Fill(frame.fill), [frame.marker], frame.Sizes(), frame.body, later);
    WalkToMarker(frame.fill, frame.marker, t);
    BigEndian16OfPrefix(Word(|frame.body| + 7), t);
    assert t[3..] == h + (w + (frame.body + later)) && t[5..] == w + (frame.body + later);
    BigEndian16OfPrefix(h, t[3..]);
    BigEndian16OfPrefix(w, t[5..]);
  }

  /** The frame size is found past any list of segments, and whatever follows is ignored. */
  lemma {:induction false} WalkFindsFrame(segments: seq<Segment>, frame: FrameHeader, later: seq<byte>)
    requires forall s :: s in segments ==> s.Skippable()
    requires frame.Valid()
    ensures Walk(EncodeAll(segments) + (frame.Encode() + later)) == Some(frame.size)
    decreases |segments|
  {
    hide Walk;
    if segments == [] {
      assert EncodeAll(segments) + (frame.Encode() + later) == frame.Encode() + later;
      WalkReadsFrame(frame, later);
    } else {
      var rest := EncodeAll(segments[1..]) + (frame.Encode() + later);
      assert EncodeAll(segments) + (frame.Encode() + later) == segments[0].Encode() + rest;
      WalkPastSegment(segments[0], rest);
      WalkFindsFrame(segments[1..], frame, later);
    }
  }

  lemma WordOf(s: seq<byte>)
    requires |s| >= 2
    ensures IsWord(BigEndian16(s)) && Word(BigEndian16(s)) == [s[0], s[1]]
  {
    BytesRoundTrip(s[..2]);
  }

  lemma EncodePrepend(head: Segment, more: seq<Segment>, later: seq<byte>)
    requires head.Skippable() && forall g :: g in more ==> g.Skippable()
    ensures forall g :: g in [head] + more ==> g.Skippable()
    ensures EncodeAll([head] + more) + later == head.Encode() + (EncodeAll(more) + later)
  {
    assert ([head] + more)[1..] == more;
  }

  /** A segment the walk steps over, read back from the bytes at its marker. */
  lemma SegmentAt(fill: nat, marker: byte, u: seq<byte>) returns (head: Segment, later: seq<byte>)
    requires marker != 0xff && AtMarker(marker, u).Some?
    requires IsStandalone(marker) || !IsStartOfFrame(marker) || BigEndian16(u) < 7
    ensures head.Skippable() && |later| <= |u| && Walk(later) == AtMarker(marker, u)
    ensures Fill(fill) + ([marker] + u) == head.Encode() + later
  {
    hide Walk;
    if IsStandalone(marker) {
      return Standalone(fill, marker), u;
    }
    var length := BigEndian16(u);
    WordOf(u);
    head, later := Parameters(fill, marker, u[2..length]), u[length..];
    assert u == Word(length) + (u[2..length] + later);
    Nest(Fill(fill), [marker], Word(length), u[2..length], later);
  }

  /** The frame header the walk stops at, read back likewise. */
  lemma FrameAt(fill: nat, marker: byte, u: seq<byte>) returns (frame: FrameHeader, later: seq<byte>)
    requires AtMarker(marker, u).Some?
    requires !IsStandalone(marker) && IsStartOfFrame(marker) && BigEndian16(u) >= 7
    ensures frame.Valid() && AtMarker(marker, u) == Some(frame.size)
    ensures Fill(fill) + ([marker] + u) == frame.Encode() + later
  {
    hide Walk;
    var length, h, w := BigEndian16(u), BigEndian16(u[3..]), BigEndian16(u[5..]);
    WordOf(u);
    WordOf(u[3..]);
    WordOf(u[5..]);
    frame := FrameHeader(fill, marker, u[2], Dimensions(w, h), u[7..length]);
    later := u[length..];
    assert u[..7] == frame.Sizes();
    assert u == frame.Sizes() + (frame.body + later);
    Nest(Fill(fill), [marker], frame.Sizes(), frame.body, later);
  }

  /** A size is only ever reported for such a stream. */
  lemma {:induction false} WalkIsSound(s: seq<byte>)
    returns (segments: seq<Segment>, frame: FrameHeader, later: seq<byte>)
    requires Walk(s).Some?
    ensures forall g :: g in segments ==> g.Skippable()
    ensures frame.Valid() && Walk(s) == Some(frame.size)
    ensures s == EncodeAll(segments) + (frame.Encode() + later)
    decreases |s|
  {
    hide AtMarker, Segment.Skippable, Segment.Encode, FrameHeader.Encode, FrameHeader.Valid;
    var t := DropFill(s);
    var fill := |s| - |t|;
    var marker, u := t[0], t[1..];
    assert s == Fill(fill) + ([marker] + u);
    AtMarkerIsLong(marker, u);
    if !IsStandalone(marker) && IsStartOfFrame(marker) && BigEndian16(u) >= 7 {
      frame, later := FrameAt(fill, marker, u);
      segments := [];
      assert EncodeAll([]) + (frame.Encode() + later) == frame.Encode() + later;
    } else {
      var head, rest := SegmentAt(fill, marker, u);
      var more;
      more, frame, later := WalkIsSound(rest);
      segments := [head] + more;
      EncodePrepend(head, more, frame.Encode() + later);
    }
  }

  lemma AtMarkerIsLong(marker: byte, u: seq<byte>)
    requires AtMarker(marker, u).Some?
    ensures |u| >= 2
  {
  }

  ghost predicate HasFrame(jpeg: seq<byte>, segments: seq<Segment>, frame: FrameHeader, later: seq<byte>)
  {
    && (forall s :: s in segments ==> s.Skippable())
    && frame.Valid()
    && jpeg == [0xff, 0xd8] + (EncodeAll(segments) + (frame.Encode() + later))
  }

  /** Both directions: a size is returned iff the buffer is SOI, skippable segments, a frame header, anything. */
  lemma ReadDecidesGrammar(jpeg: seq<byte>, size: Dimensions)
    ensures Read(jpeg) == Some(size)
        <==> exists segments, frame, later :: HasFrame(jpeg, segments, frame, later) && frame.size == size
  {
    if Read(jpeg) == Some(size) {
      var segments, frame, later := WalkIsSound(jpeg[2..]);
      assert HasFrame(jpeg, segments, frame, later);
    }
    if segments, frame, later :| HasFrame(jpeg, segments, frame, later) && frame.size == size {
      assert jpeg[2..] == EncodeAll(segments) + (frame.Encode() + later);
      WalkFindsFrame(segments, frame, later);
    }
  }
}
