/**
 The frame protocol between the controller and the daemon: the VCF2 printer of the controller, and the reader of
 the daemon, which also accepts the older VCF1 stream of JPEG frames.
 */
module FrameWire {
  import opened Bytes
  import opened FrameLimits

  const VCF1: seq<byte> := [0x56, 0x43, 0x46, 0x31]
  const VCF2: seq<byte> := [0x56, 0x43, 0x46, 0x32]
  const TWO_31: int := 0x8000_0000
  const TWO_32: int := 0x1_0000_0000
  const TWO_63: int := 0x8000_0000_0000_0000
  const TWO_64: int := 0x1_0000_0000_0000_0000

  datatype Frame =
    | Nv21(width: int, height: int, timestamp: int, payload: seq<byte>)
    | Jpeg(payload: seq<byte>)

  predicate IsInt64(n: int) { -TWO_63 <= n < TWO_63 }

  /** Two's complement, as Java's DataOutputStream writes it. */
  function Int32(n: int): (s: seq<byte>)
    requires IsInt32(n)
    ensures |s| == 4
  {
    ToBigEndian(n % TWO_32, 4)
  }

  function Int64(n: int): (s: seq<byte>)
    requires IsInt64(n)
    ensures |s| == 8
  {
    ToBigEndian(n % TWO_64, 8)
  }

  /** A conversion to a signed integer with `range` values. */
  function Signed(n: int, range: int): int
    requires range > 0
  {
    var m := n % range;
    if m < range / 2 then m else m - range
  }

  // ----- The sender

  /** What the controller agrees to send, in unbounded arithmetic. */
  predicate Sendable(f: Frame)
  {
    && f.Nv21?
    && 0 < f.width < TWO_31 && 0 < f.height < TWO_31 && f.width % 2 == 0 && f.height % 2 == 0
    && |f.payload| == f.width * f.height * 3 / 2 && |f.payload| <= MAX_FRAME_BYTES
    && IsInt64(f.timestamp)
  }

  function Encode(f: Frame): seq<byte>
    requires Sendable(f)
  {
    Int32(2) + Int32(f.width) + Int32(f.height) + Int32(f.width) + Int32(f.width) + Int32(|f.payload|)
    + Int64(f.timestamp) + f.payload
  }

  function EncodeAll(frames: seq<Frame>): seq<byte>
    requires forall f :: f in frames ==> Sendable(f)
  {
    if frames == [] then [] else Encode(frames[0]) + EncodeAll(frames[1..])
  }

  /** Java's long division truncates towards zero. */
  function TruncatedHalf(n: int): int
  {
    if n >= 0 then n / 2 else -((-n) / 2)
  }

  /** `(long) width * height * 3L / 2L`, with each product reduced to 64 bits. */
  function ExpectedLength(width: int, height: int): int
  {
    TruncatedHalf(Signed(Signed(width * height, TWO_64) * 3, TWO_64))
  }

  /** Where the product wraps, the wrapped length is negative, so no wrapped size is ever taken for a length. */
  lemma ExpectedLengthIsExact(width: int, height: int, length: nat)
    requires 0 < width < TWO_31 && 0 < height < TWO_31 && length < TWO_31
    ensures ExpectedLength(width, height) == length <==> width * height * 3 / 2 == length
  {
    AreaBound(width, height);
    WrappedTriple(width * height, length);
  }

  lemma AreaBound(width: int, height: int)
    requires 0 < width < TWO_31 && 0 < height < TWO_31
    ensures 0 < width * height < TWO_31 * TWO_31
  {
    assert width * height <= TWO_31 * height;
  }

  lemma SignedValue(n: int, range: int)
    requires 0 <= n < range && range % 2 == 0
    ensures Signed(n, range) == if n < range / 2 then n else n - range
  {
    SmallModulus(n, range);
  }

  lemma WrappedTriple(area: int, length: nat)
    requires 0 < area < TWO_31 * TWO_31 && length < TWO_31
    ensures TruncatedHalf(Signed(Signed(area, TWO_64) * 3, TWO_64)) == length <==> area * 3 / 2 == length
  {
    SignedValue(area, TWO_64);
    SignedValue(area * 3, TWO_64);
  }

  lemma Gather<T>(o: seq<T>, a: seq<T>, b: seq<T>, c: seq<T>, d: seq<T>, e: seq<T>, f: seq<T>, g: seq<T>, h: seq<T>)
    ensures o + a + b + c + d + e + f + g + h == o + (a + b + c + d + e + f + g + h)
  {
  }

  predicate AllSendable(frames: seq<Frame>)
  {
    forall f :: f in frames ==> Sendable(f)
  }

  lemma {:induction false} EncodeAllSnoc(frames: seq<Frame>, last: Frame)
    requires AllSendable(frames + [last])
    ensures AllSendable(frames) && Sendable(last)
    ensures EncodeAll(frames + [last]) == EncodeAll(frames) + Encode(last)
  {
    hide Encode, Sendable;
    assert forall f :: f in frames || f == last ==> f in frames + [last];
    if frames == [] {
      assert [last][1..] == [] && EncodeAll([]) == [];
    } else {
      assert (frames + [last])[1..] == frames[1..] + [last];
      EncodeAllSnoc(frames[1..], last);
      Regroup(Encode(frames[0]), EncodeAll(frames[1..]), Encode(last));
    }
  }

  class FramePushClient {
    var output: seq<byte>
    /** The frames sent so far. */
    ghost var frames: seq<Frame>

    ghost predicate Valid()
      reads this
    {
      AllSendable(frames) && output == VCF2 + EncodeAll(frames)
    }

    constructor ()
      ensures Valid() && output == VCF2 && frames == []
    {
      output := VCF2;
      frames := [];
    }

    method WriteInt(n: int)
      requires IsInt32(n)
      modifies this`output
      ensures output == old(output) + Int32(n)
    {
      output := output + Int32(n);
    }

    /** False stands for the exception; nothing has been written then. */
    method SendNv21(nv21: seq<byte>, width: int, height: int, presentationTimeNs: int) returns (sent: bool)
      requires Valid()
      requires IsInt32(width) && IsInt32(height) && IsInt64(presentationTimeNs) && |nv21| < TWO_31
      modifies this
      ensures Valid()
      ensures frames == old(frames) + if sent then [Nv21(width, height, presentationTimeNs, nv21)] else []
      ensures sent <==> Sendable(Nv21(width, height, presentationTimeNs, nv21))
      ensures output == old(output) + if sent then Encode(Nv21(width, height, presentationTimeNs, nv21)) else []
    {
      hide ExpectedLength, Int32, Int64;
      if width > 0 && height > 0 {
        ExpectedLengthIsExact(width, height, |nv21|);
      }
      var expected := ExpectedLength(width, height);
      if width <= 0 || height <= 0 || width % 2 != 0 || height % 2 != 0
         || |nv21| != expected || |nv21| > MAX_FRAME_BYTES {
        return false;
      }
      WriteInt(2);
      WriteInt(width);
      WriteInt(height);
      WriteInt(width);
      WriteInt(width);
      WriteInt(|nv21|);
      output := output + Int64(presentationTimeNs);
      output := output + nv21;
      Gather(old(output), Int32(2), Int32(width), Int32(height), Int32(width), Int32(width), Int32(|nv21|),
             Int64(presentationTimeNs), nv21);
      ghost var frame := Nv21(width, height, presentationTimeNs, nv21);
      EncodeAllSnoc(frames, frame);
      Regroup(VCF2, EncodeAll(frames), Encode(frame));
      frames := frames + [frame];
      return true;
    }
  }

  // ----- What a stream means to the receiver

  const HEADER_BYTES: nat := 32

  function Field(s: seq<byte>, k: nat): nat
    requires 4 * k + 4 <= |s|
  {
    FromBigEndian(s[4 * k..4 * k + 4])
  }

  predicate SizeAccepted(size: nat)
  {
    4 <= size <= MAX_FRAME_BYTES
  }

  /** The checks on a typed header before its payload is read. */
  predicate HeaderAccepted(s: seq<byte>)
    requires |s| >= HEADER_BYTES
  {
    var width, height := Field(s, 1), Field(s, 2);
    && Field(s, 0) == 2 && width != 0 && height != 0
    && Field(s, 3) == width && Field(s, 4) == width
    && SizeAccepted(Field(s, 5))
  }

  /** The frame a typed header and its payload stand for; sizes are cast to int. */
  function TypedFrame(header: seq<byte>, payload: seq<byte>): Frame
    requires |header| >= HEADER_BYTES
  {
    Nv21(Signed(Field(header, 1), TWO_32), Signed(Field(header, 2), TWO_32),
         Signed(FromBigEndian(header[24..32]), TWO_64), payload)
  }

  /** The engine's checks on a pushed frame. */
  predicate Pushable(f: Frame)
  {
    match f
    case Jpeg(payload) => SizeAccepted(|payload|)
    case Nv21(width, height, _, payload) =>
      && width > 0 && height > 0 && width % 2 == 0 && height % 2 == 0
      && width * height <= MAX_PIXELS && |payload| == width * height * 3 / 2 && |payload| <= MAX_FRAME_BYTES
  }

  datatype Parse = Incomplete | Rejected | Parsed(frame: Frame, length: nat)

  /** One frame from the front of the bytes after the magic. */
  function ParseOne(typed: bool, s: seq<byte>): (p: Parse)
    ensures p.Parsed? ==> 0 < p.length <= |s|
  {
    if typed then ParseTyped(s) else ParseLegacy(s)
  }

  function ParseTyped(s: seq<byte>): (p: Parse)
    ensures p.Parsed? ==> 0 < p.length <= |s|
  {
    if |s| < HEADER_BYTES then Incomplete
    else if !HeaderAccepted(s) then Rejected
    else
      var end := HEADER_BYTES + Field(s, 5);
      if |s| < end then Incomplete
      else
        var frame := TypedFrame(s[..HEADER_BYTES], s[HEADER_BYTES..end]);
        if Pushable(frame) then Parsed(frame, end) else Rejected
  }

  function ParseLegacy(s: seq<byte>): (p: Parse)
    ensures p.Parsed? ==> 0 < p.length <= |s|
  {
    if |s| < 4 then Incomplete
    else if !SizeAccepted(Field(s, 0)) then Rejected
    else
      var end := 4 + Field(s, 0);
      if |s| < end then Incomplete else Parsed(Jpeg(s[4..end]), end)
  }

  function DecodeBody(typed: bool, s: seq<byte>): seq<Frame>
    decreases |s|
  {
    match ParseOne(typed, s)
    case Parsed(frame, length) => [frame] + DecodeBody(typed, s[length..])
    case _ => []
  }

  /** The frames the daemon takes from the bytes it has received on one connection. */
  function Decode(s: seq<byte>): seq<Frame>
  {
    if |s| < 4 || (s[..4] != VCF1 && s[..4] != VCF2) then [] else DecodeBody(s[..4] == VCF2, s[4..])
  }

  // ----- Parsing needs only the bytes it has seen

  lemma FieldOfPrefix(s: seq<byte>, t: seq<byte>, k: nat)
    requires s <= t && 4 * k + 4 <= |s|
    ensures Field(s, k) == Field(t, k)
  {
    assert s[4 * k..4 * k + 4] == t[4 * k..4 * k + 4];
  }

  lemma HeaderOfPrefix(s: seq<byte>, t: seq<byte>)
    requires s <= t && HEADER_BYTES <= |s|
    ensures HeaderAccepted(s) == HeaderAccepted(t) && Field(s, 5) == Field(t, 5)
    ensures s[..HEADER_BYTES] == t[..HEADER_BYTES]
  {
    FieldOfPrefix(s, t, 0);
    FieldOfPrefix(s, t, 1);
    FieldOfPrefix(s, t, 2);
    FieldOfPrefix(s, t, 3);
    FieldOfPrefix(s, t, 4);
    FieldOfPrefix(s, t, 5);
  }

  /** A decision, once taken, stands whatever arrives later. */
  lemma ParseOfPrefix(typed: bool, s: seq<byte>, t: seq<byte>)
    requires s <= t && !ParseOne(typed, s).Incomplete?
    ensures ParseOne(typed, t) == ParseOne(typed, s)
  {
    hide Field, HeaderAccepted, TypedFrame, Pushable;
    if typed {
      HeaderOfPrefix(s, t);
      if HeaderAccepted(s) {
        var end := HEADER_BYTES + Field(s, 5);
        assert s[HEADER_BYTES..end] == t[HEADER_BYTES..end];
      }
    } else {
      FieldOfPrefix(s, t, 0);
      if SizeAccepted(Field(s, 0)) {
        var end := 4 + Field(s, 0);
        assert s[4..end] == t[4..end];
      }
    }
  }

  // ----- The reader inverts the printer

  lemma PlainInt32(n: int)
    requires 0 <= n < TWO_31
    ensures FromBigEndian(Int32(n)) == n && Signed(n, TWO_32) == n
  {
    Pow256Values();
    SmallModulus(n, TWO_32);
    BigEndianRoundTrip(n, 4);
    SignedValue(n, TWO_32);
  }

  lemma PlainInt64(n: int)
    requires IsInt64(n)
    ensures Signed(FromBigEndian(Int64(n)), TWO_64) == n
  {
    Pow256Values();
    BigEndianRoundTrip(n % TWO_64, 8);
    SignedValue(n % TWO_64, TWO_64);
    if n >= 0 {
      SmallModulus(n, TWO_64);
    } else {
      SmallModulus(n + TWO_64, TWO_64);
      assert n % TWO_64 == (n + TWO_64) % TWO_64;
    }
  }

  lemma Slices(
    a: seq<byte>, b: seq<byte>, c: seq<byte>, d: seq<byte>, e: seq<byte>, f: seq<byte>, g: seq<byte>, h: seq<byte>)
    requires |a| == |b| == |c| == |d| == |e| == |f| == 4 && |g| == 8
    ensures var s := a + b + c + d + e + f + g + h;
            && s[0..4] == a && s[4..8] == b && s[8..12] == c && s[12..16] == d && s[16..20] == e && s[20..24] == f
            && s[24..32] == g && s[32..] == h && |s| == 32 + |h|
  {
  }

  lemma EncodedFields(f: Frame)
    requires Sendable(f)
    ensures var e := Encode(f);
            && |e| == HEADER_BYTES + |f.payload|
            && Field(e, 0) == 2 && Field(e, 1) == f.width && Field(e, 2) == f.height
            && Field(e, 3) == f.width && Field(e, 4) == f.width && Field(e, 5) == |f.payload|
            && Signed(FromBigEndian(e[24..32]), TWO_64) == f.timestamp
            && e[HEADER_BYTES..] == f.payload
  {
    hide Int32, Int64, Signed, FromBigEndian;
    Slices(Int32(2), Int32(f.width), Int32(f.height), Int32(f.width), Int32(f.width), Int32(|f.payload|),
           Int64(f.timestamp), f.payload);
    PlainInt32(2);
    PlainInt32(f.width);
    PlainInt32(f.height);
    PlainInt32(|f.payload|);
    PlainInt64(f.timestamp);
  }

  predicate WithinLimit(f: Frame)
    requires Sendable(f)
  {
    f.width * f.height <= MAX_PIXELS
  }

  lemma PayloadSize(f: Frame)
    requires Sendable(f)
    ensures SizeAccepted(|f.payload|) && Pushable(f) == WithinLimit(f)
  {
    assert f.width * f.height >= 2 * f.height;
  }

  /** The one check the daemon adds to the sender's is the pixel limit. */
  lemma ParseEncoded(f: Frame, later: seq<byte>)
    requires Sendable(f)
    ensures ParseOne(true, Encode(f) + later) == if WithinLimit(f) then Parsed(f, |Encode(f)|) else Rejected
  {
    hide Encode, Field, Pushable, WithinLimit;
    var e := Encode(f);
    EncodedFields(f);
    PayloadSize(f);
    PlainInt32(f.width);
    PlainInt32(f.height);
    assert e[..HEADER_BYTES][24..32] == e[24..32];
    FieldOfPrefix(e[..HEADER_BYTES], e, 1);
    FieldOfPrefix(e[..HEADER_BYTES], e, 2);
    assert e[HEADER_BYTES..|e|] == f.payload;
    assert HeaderAccepted(e) && TypedFrame(e[..HEADER_BYTES], f.payload) == f;
    assert !ParseOne(true, e).Incomplete?;
    ParseOfPrefix(true, e, e + later);
  }

  /** The frames wholly inside the first n encoded bytes, up to the first one over the pixel limit. */
  function Delivered(frames: seq<Frame>, n: int): seq<Frame>
    requires AllSendable(frames)
  {
    if frames == [] || n < |Encode(frames[0])| || !WithinLimit(frames[0]) then []
    else [frames[0]] + Delivered(frames[1..], n - |Encode(frames[0])|)
  }

  lemma ParseOfCutFrame(f: Frame, later: seq<byte>, n: nat)
    requires Sendable(f) && n < |Encode(f)|
    ensures !ParseOne(true, (Encode(f) + later)[..n]).Parsed?
  {
    hide Encode, ParseOne;
    var s := Encode(f) + later;
    ParseEncoded(f, later);
    if ParseOne(true, s[..n]).Parsed? {
      ParseOfPrefix(true, s[..n], s);
      assert false;
    }
  }

  /** Any prefix of a stream decodes to exactly the frames it fully contains. */
  lemma {:induction false} DecodePrefix(frames: seq<Frame>, n: nat)
    requires AllSendable(frames) && n <= |EncodeAll(frames)|
    ensures DecodeBody(true, EncodeAll(frames)[..n]) == Delivered(frames, n)
    decreases |frames|
  {
    hide Encode, ParseOne, WithinLimit;
    var s := EncodeAll(frames);
    if frames == [] {
      assert s[..n] == [];
      assert ParseOne(true, []).Incomplete? by { EmptyIsIncomplete(true); }
    } else {
      var e, later := Encode(frames[0]), EncodeAll(frames[1..]);
      if n < |e| {
        ParseOfCutFrame(frames[0], later, n);
      } else {
        var m := n - |e|;
        assert s[..n] == e + later[..m];
        ParseEncoded(frames[0], later[..m]);
        assert (e + later[..m])[|e|..] == later[..m];
        DecodePrefix(frames[1..], m);
      }
    }
  }

  lemma EmptyIsIncomplete(typed: bool)
    ensures ParseOne(typed, []).Incomplete?
  {
  }

  /** A whole connection, for every list of frames the sender accepts and every cut of its bytes. */
  lemma ConnectionPrefix(frames: seq<Frame>, n: nat)
    requires AllSendable(frames) && n <= |VCF2 + EncodeAll(frames)|
    ensures Decode((VCF2 + EncodeAll(frames))[..n]) == if n < 4 then [] else Delivered(frames, n - 4)
  {
    hide DecodeBody, EncodeAll, Delivered;
    if n >= 4 {
      var s := (VCF2 + EncodeAll(frames))[..n];
      assert s[..4] == VCF2 && s[4..] == EncodeAll(frames)[..n - 4];
      DecodePrefix(frames, n - 4);
    }
  }

  lemma {:induction false} DeliveredAll(frames: seq<Frame>)
    requires AllSendable(frames)
    requires forall f :: f in frames ==> WithinLimit(f)
    ensures Delivered(frames, |EncodeAll(frames)|) == frames
    decreases |frames|
  {
    hide Encode, WithinLimit;
    if frames == [] {
    } else {
      DeliveredAll(frames[1..]);
    }
  }

  /** Round trip: what the controller sends, within the daemon's limit, is what the daemon takes. */
  lemma ConnectionRoundTrip(frames: seq<Frame>)
    requires AllSendable(frames)
    requires forall f :: f in frames ==> WithinLimit(f)
    ensures Decode(VCF2 + EncodeAll(frames)) == frames
  {
    var s := VCF2 + EncodeAll(frames);
    assert s[..|s|] == s;
    ConnectionPrefix(frames, |s|);
    DeliveredAll(frames);
  }

  lemma {:induction false} DeliveredIsPrefix(frames: seq<Frame>, n: int)
    requires AllSendable(frames)
    ensures Delivered(frames, n) <= frames
    ensures var k := |Delivered(frames, n)|;
            k > 0 ==> |EncodeAll(frames[..k])| <= n
    ensures var k := |Delivered(frames, n)|;
            k < |frames| ==> !WithinLimit(frames[k]) || |EncodeAll(frames[..k + 1])| > n
    decreases |frames|
  {
    hide Encode, WithinLimit;
    if frames == [] {
    } else {
      var rest := n - |Encode(frames[0])|;
      DeliveredIsPrefix(frames[1..], rest);
      var k := |Delivered(frames[1..], rest)|;
      SplitEncoding(frames, 0);
      SplitEncoding(frames, k);
      if k + 1 < |frames| {
        SplitEncoding(frames, k + 1);
      }
    }
  }

  lemma SplitEncoding(frames: seq<Frame>, k: nat)
    requires AllSendable(frames) && k < |frames|
    ensures EncodeAll(frames[..k + 1]) == Encode(frames[0]) + EncodeAll(frames[1..][..k])
  {
    hide Encode;
    assert frames[..k + 1][1..] == frames[1..][..k];
  }

  /** A frame the sender accepts but the daemon's pixel limit refuses ends the connection there. */
  lemma OversizedFrameEndsConnection(before: seq<Frame>, f: Frame, after: seq<Frame>)
    requires AllSendable(before + [f] + after)
    requires forall b :: b in before ==> WithinLimit(b)
    requires Sendable(f)
    ensures Decode(VCF2 + EncodeAll(before + [f] + after)) == before <==> (!WithinLimit(f))
  {
    hide Encode, WithinLimit, Delivered;
    var frames := before + [f] + after;
    var s := VCF2 + EncodeAll(frames);
    assert s[..|s|] == s;
    ConnectionPrefix(frames, |s|);
    DeliveredUpTo(before, f, after);
  }

  lemma {:induction false} DeliveredUpTo(before: seq<Frame>, f: Frame, after: seq<Frame>)
    requires AllSendable(before + [f] + after)
    requires Sendable(f) && AllSendable(before) && forall b :: b in before ==> WithinLimit(b)
    ensures var frames := before + [f] + after;
            Delivered(frames, |EncodeAll(frames)|) == before <==> !WithinLimit(f)
    decreases |before|
  {
    hide Encode, WithinLimit;
    var frames := before + [f] + after;
    if before == [] {
      assert frames[0] == f;
    } else {
      assert frames[1..] == before[1..] + [f] + after;
      assert frames[0] == before[0];
      DeliveredUpTo(before[1..], f, after);
    }
  }

  /** There are such frames: the two ends do not promise the same. */
  lemma SenderAcceptsMoreThanDaemon()
    ensures var f := Nv21(3842, 2160, 0, seq<byte>(12448080, _ => 0));
            Sendable(f) && !WithinLimit(f)
  {
  }

  // ----- The receiving session

  /** What the bytes of finished frames fix about every continuation. */
  ghost predicate Settled(typed: bool, taken: seq<byte>, frames: seq<Frame>)
  {
    forall t: seq<byte> :: DecodeBody(typed, taken + t) == frames + DecodeBody(typed, t)
  }

  lemma SettledStarts(typed: bool)
    ensures Settled(typed, [], [])
  {
    forall t: seq<byte> ensures DecodeBody(typed, [] + t) == [] + DecodeBody(typed, t) {
      assert [] + t == t;
    }
  }

  lemma SettledFrame(typed: bool, taken: seq<byte>, frames: seq<Frame>, chunk: seq<byte>)
    requires Settled(typed, taken, frames)
    requires ParseOne(typed, chunk).Parsed? && ParseOne(typed, chunk).length == |chunk|
    ensures Settled(typed, taken + chunk, frames + [ParseOne(typed, chunk).frame])
  {
    hide ParseOne;
    var frame := ParseOne(typed, chunk).frame;
    forall t: seq<byte>
      ensures DecodeBody(typed, (taken + chunk) + t) == (frames + [frame]) + DecodeBody(typed, t) {
      assert (taken + chunk) + t == taken + (chunk + t);
      ParseOfPrefix(typed, chunk, chunk + t);
      assert (chunk + t)[|chunk|..] == t;
      assert frames + ([frame] + DecodeBody(typed, t)) == (frames + [frame]) + DecodeBody(typed, t);
    }
  }

  /** A session that stops inside a frame, or at a refused one, has taken exactly the finished frames. */
  lemma SettledEnds(typed: bool, taken: seq<byte>, frames: seq<Frame>, partial: seq<byte>)
    requires Settled(typed, taken, frames)
    requires !ParseOne(typed, partial).Parsed?
    ensures DecodeBody(typed, taken + partial) == frames
  {
    hide ParseOne;
    assert frames + [] == frames;
  }

  /** A refused frame is refused whatever follows. */
  lemma SettledRejects(typed: bool, taken: seq<byte>, frames: seq<Frame>, partial: seq<byte>, later: seq<byte>)
    requires Settled(typed, taken, frames)
    requires ParseOne(typed, partial).Rejected?
    ensures DecodeBody(typed, taken + (partial + later)) == frames
  {
    ParseOfPrefix(typed, partial, partial + later);
    SettledEnds(typed, taken, frames, partial + later);
  }

  lemma SettledLosesOne(typed: bool, taken: seq<byte>, frames: seq<Frame>, chunk: seq<byte>)
    requires Settled(typed, taken, frames)
    requires ParseOne(typed, chunk).Parsed? && ParseOne(typed, chunk).length == |chunk|
    ensures DecodeBody(typed, taken + chunk) == frames + [ParseOne(typed, chunk).frame]
  {
    SettledFrame(typed, taken, frames, chunk);
    assert (taken + chunk) + [] == taken + chunk;
    EmptyIsIncomplete(typed);
    SettledEnds(typed, taken + chunk, frames + [ParseOne(typed, chunk).frame], []);
  }

  datatype ReadResult = Data(count: nat) | Interrupted | Closed | Failed

  /**
   One connection as the daemon sees it. `unread` is what the peer will still send before closing; every read
   may be cut short, interrupted, or fail, the daemon may be told to stop at any test, and the engine may
   refuse any frame because it is not active.
   */
  class FrameSession {
    var consumed: seq<byte>
    var unread: seq<byte>
    var interrupts: nat
    var stopped: bool
    var failed: bool
    var inactive: bool
    /** The frames handed to the engine's publisher, in order. */
    var frames: seq<Frame>

    constructor (stream: seq<byte>, interrupts: nat)
      ensures consumed == [] && unread == stream && frames == []
      ensures !stopped && !failed && !inactive
    {
      consumed, unread, frames := [], stream, [];
      this.interrupts := interrupts;
      stopped, failed, inactive := false, false, false;
    }

    method StopRequested() returns (stop: bool)
      modifies this`stopped
      ensures stop == stopped && (old(stopped) ==> stopped)
    {
      if * {
        stopped := true;
      }
      return stopped;
    }

    /** read(2): at least one byte and at most what is free in the buffer, copied to its end. */
    method Read(buffer: array<byte>, received: nat) returns (r: ReadResult)
      requires received < buffer.Length
      modifies this`consumed, this`unread, this`interrupts, this`failed, buffer
      ensures consumed + unread == old(consumed) + old(unread)
      ensures r.Data? ==>
                && 0 < r.count <= buffer.Length - received
                && buffer[..received] == old(buffer[..received])
                && consumed == old(consumed) + buffer[received..received + r.count]
                && |unread| == |old(unread)| - r.count
      ensures !r.Data? ==> consumed == old(consumed) && unread == old(unread) && buffer[..] == old(buffer[..])
      ensures r.Interrupted? ==> interrupts < old(interrupts)
      ensures r.Closed? ==> unread == []
      ensures failed == (old(failed) || r.Failed?)
    {
      var delivers: bool, interrupt: bool := *, *;
      if delivers {
        if unread == [] {
          return Closed;
        }
        var count: nat := *;
        if !(0 < count <= Min(buffer.Length - received, |unread|)) {
          count := 1;
        }
        forall i | 0 <= i < count {
          buffer[received + i] := unread[i];
        }
        assert buffer[received..received + count] == unread[..count];
        assert consumed + unread == (consumed + unread[..count]) + unread[count..];
        consumed := consumed + unread[..count];
        unread := unread[count..];
        return Data(count);
      } else if interrupts > 0 && interrupt {
        interrupts := interrupts - 1;
        return Interrupted;
      }
      failed := true;
      return Failed;
    }

    /** Fills the buffer, or reports failure with the bytes it did take left in front. */
    method ReadExact(buffer: array<byte>) returns (ok: bool, ghost received: nat)
      modifies this`consumed, this`unread, this`interrupts, this`failed, this`stopped, buffer
      ensures received <= buffer.Length && (ok <==> received == buffer.Length)
      ensures consumed == old(consumed) + buffer[..received]
      ensures consumed + unread == old(consumed) + old(unread)
      ensures |unread| == |old(unread)| - received
      ensures old(failed) ==> failed
      ensures old(stopped) ==> stopped
      ensures !ok ==> failed || stopped || unread == []
    {
      received := 0;
      var count := 0;
      assert buffer[..0] == [];
      var stop := StopRequested();
      while count < buffer.Length && !stop
        invariant received == count <= buffer.Length
        invariant stop ==> stopped
        invariant consumed == old(consumed) + buffer[..count]
        invariant consumed + unread == old(consumed) + old(unread)
        invariant |unread| == |old(unread)| - count
        invariant old(failed) ==> failed
        invariant old(stopped) ==> stopped
        decreases |unread|, interrupts
      {
        ghost var before := buffer[..count];
        var r := Read(buffer, count);
        if r.Data? {
          assert buffer[..count + r.count] == before + buffer[count..count + r.count];
          count := count + r.count;
          received := count;
        } else {
          assert buffer[..count] == before by { assert buffer[..count] == buffer[..][..count]; }
          if !r.Interrupted? {
            return false, received;
          }
        }
        stop := StopRequested();
      }
      return count == buffer.Length, received;
    }

    /** PushFrame and PushNv21Frame: the activity test, then the metadata test. */
    method Push(frame: Frame) returns (accepted: bool)
      modifies this`inactive, this`frames
      ensures inactive ==> !accepted && frames == old(frames)
      ensures old(inactive) ==> inactive
      ensures !inactive ==> accepted == Pushable(frame)
      ensures !inactive ==> frames == old(frames) + if accepted then [frame] else []
    {
      if * {
        inactive := true;
      }
      if inactive || !Pushable(frame) {
        return false;
      }
      frames := frames + [frame];
      return true;
    }

    /** One turn of the typed loop; `chunk` is what it took from the stream. */
    method ReceiveTyped() returns (more: bool, ghost chunk: seq<byte>)
      requires !inactive
      modifies this
      ensures consumed == old(consumed) + chunk
      ensures consumed + unread == old(consumed) + old(unread)
      ensures |unread| == |old(unread)| - |chunk|
      ensures old(failed) ==> failed
      ensures old(stopped) ==> stopped
      ensures Outcome(true, chunk, more, old(frames), frames, inactive, failed || stopped || unread == [])
    {
      hide ParseTyped, HeaderAccepted, Field, TypedFrame, Pushable;
      var fields := new byte[24];
      var gotFields, n0 := ReadExact(fields);
      chunk := fields[..n0];
      if !gotFields {
        ShortHeader(chunk);
        return false, chunk;
      }
      var timestamp := new byte[8];
      var gotTimestamp, n1 := ReadExact(timestamp);
      chunk := chunk + timestamp[..n1];
      assert consumed == old(consumed) + chunk by {
        Regroup(old(consumed), fields[..n0], timestamp[..n1]);
      }
      if !gotTimestamp {
        ShortHeader(chunk);
        return false, chunk;
      }
      var header := fields[..] + timestamp[..];
      assert chunk == header;
      if !HeaderAccepted(header) {
        HeaderOnly(header);
        return false, chunk;
      }
      SizeOf(header);
      var payload := new byte[Field(header, 5)];
      var gotPayload, n2 := ReadExact(payload);
      Regroup(old(consumed), chunk, payload[..n2]);
      chunk := chunk + payload[..n2];
      HeaderAndPayload(header, payload[..n2]);
      if !gotPayload {
        return false, chunk;
      }
      assert payload[..n2] == payload[..];
      more := Push(TypedFrame(header, payload[..]));
    }

    /** One turn of the legacy loop. */
    method ReceiveLegacy() returns (more: bool, ghost chunk: seq<byte>)
      requires !inactive
      modifies this
      ensures consumed == old(consumed) + chunk
      ensures consumed + unread == old(consumed) + old(unread)
      ensures |unread| == |old(unread)| - |chunk|
      ensures old(failed) ==> failed
      ensures old(stopped) ==> stopped
      ensures Outcome(false, chunk, more, old(frames), frames, inactive, failed || stopped || unread == [])
    {
      hide ParseLegacy, Field;
      var networkSize := new byte[4];
      var gotSize, n0 := ReadExact(networkSize);
      chunk := networkSize[..n0];
      LegacySize(chunk);
      if !gotSize {
        return false, chunk;
      }
      var size := Field(networkSize[..], 0);
      assert chunk == networkSize[..];
      if !SizeAccepted(size) {
        return false, chunk;
      }
      var payload := new byte[size];
      var gotPayload, n1 := ReadExact(payload);
      Regroup(old(consumed), chunk, payload[..n1]);
      LegacyPayload(chunk, payload[..n1]);
      chunk := chunk + payload[..n1];
      if !gotPayload {
        return false, chunk;
      }
      assert payload[..n1] == payload[..];
      more := Push(Jpeg(payload[..]));
    }

    /**
     A whole connection. The engine gets exactly the frames that the consumed bytes decode to, whatever the
     fragmentation; only a frame arriving while the engine is inactive is lost, and it is the last. When nothing
     cut the session short, they are the frames of everything the peer sent.
     */
    method HandleFrameClient()
      requires consumed == [] && frames == [] && !inactive && !failed && !stopped
      modifies this
      ensures consumed + unread == old(unread)
      ensures Ended(frames, Decode(consumed), inactive)
      ensures !inactive && !failed && !stopped ==> frames == Decode(old(unread))
    {
      hide DecodeBody, Settled, Outcome;
      ghost var stream := unread;
      var magic := new byte[4];
      var gotMagic, n := ReadExact(magic);
      assert consumed == magic[..n] by { assert [] + magic[..n] == magic[..n]; }
      assert consumed + unread == stream by { assert [] + stream == stream; }
      if !gotMagic {
        assert unread == [] ==> consumed == stream;
        return;
      }
      assert magic[..n] == magic[..];
      var legacyJpeg := magic[..] == VCF1;
      var typedFrames := magic[..] == VCF2;
      assert stream[..4] == magic[..];
      if !legacyJpeg && !typedFrames {
        return;
      }
      assert stream == magic[..] + unread;
      ReceiveFrames(typedFrames, magic[..]);
    }

    /** One turn of the loop over frames; `next` is all that has been taken since the magic. */
    method ReceiveOne(typedFrames: bool, ghost magic: seq<byte>, ghost taken: seq<byte>)
      returns (more: bool, ghost next: seq<byte>)
      requires (magic == VCF1 || magic == VCF2) && typedFrames == (magic == VCF2)
      requires consumed == magic + taken && !inactive && Settled(typedFrames, taken, frames)
      modifies this
      ensures old(failed) ==> failed
      ensures old(stopped) ==> stopped
      ensures consumed == magic + next && next + unread == taken + old(unread)
      ensures more ==> !inactive && Settled(typedFrames, next, frames) && |unread| < |old(unread)|
      ensures !more ==> Ended(frames, Decode(consumed), inactive)
      ensures !more && !inactive && !failed && !stopped ==> frames == Decode(magic + (taken + old(unread)))
    {
      hide Decode, DecodeBody, Settled, Outcome;
      ghost var before, left := frames, unread;
      ghost var chunk;
      if typedFrames {
        more, chunk := ReceiveTyped();
      } else {
        more, chunk := ReceiveLegacy();
      }
      next := taken + chunk;
      ChunkTaken(magic, taken, chunk, unread, left);
      OutcomeEnds(typedFrames, taken, before, chunk, unread, more, frames, inactive, failed || stopped || unread == []);
      DecodesBody(magic, next);
      DecodesBody(magic, taken + left);
    }

    /** The loop over the frames of a connection, after its magic. */
    method ReceiveFrames(typedFrames: bool, ghost magic: seq<byte>)
      requires (magic == VCF1 || magic == VCF2) && typedFrames == (magic == VCF2)
      requires consumed == magic && frames == [] && !inactive
      modifies this
      ensures consumed + unread == magic + old(unread)
      ensures Ended(frames, Decode(consumed), inactive)
      ensures !inactive && !failed && !stopped ==> frames == Decode(magic + old(unread))
    {
      hide Decode, DecodeBody, Settled, Outcome, Ended;
      ghost var body, taken := unread, [];
      SettledStarts(typedFrames);
      assert magic + [] == magic;
      var stop := StopRequested();
      while !stop
        invariant stop ==> stopped
        invariant !inactive && Settled(typedFrames, taken, frames)
        invariant taken + unread == body && consumed == magic + taken
        decreases |unread|, !stop
      {
        var more;
        more, taken := ReceiveOne(typedFrames, magic, taken);
        Regroup(magic, taken, unread);
        if !more {
          return;
        }
        stop := StopRequested();
      }
      Regroup(magic, taken, unread);
      StoppedHere(typedFrames, magic, taken, frames);
    }
  }

  /** What the engine has got, when the reading ends, of the frames that were read. */
  predicate Ended(frames: seq<Frame>, read: seq<Frame>, inactive: bool)
  {
    frames == read || (inactive && read != [] && frames == read[..|read| - 1])
  }

  lemma StoppedHere(typed: bool, magic: seq<byte>, taken: seq<byte>, frames: seq<Frame>)
    requires (magic == VCF1 || magic == VCF2) && typed == (magic == VCF2) && Settled(typed, taken, frames)
    ensures Ended(frames, Decode(magic + taken), false)
  {
    hide Decode, DecodeBody, Settled;
    EmptyIsIncomplete(typed);
    assert taken + [] == taken;
    SettledEnds(typed, taken, frames, []);
    DecodesBody(magic, taken);
  }

  /** A chunk taken from what was left. */
  lemma ChunkTaken(magic: seq<byte>, taken: seq<byte>, chunk: seq<byte>, unread: seq<byte>, left: seq<byte>)
    requires ((magic + taken) + chunk) + unread == (magic + taken) + left
    ensures chunk + unread == left && (magic + taken) + chunk == magic + (taken + chunk)
    ensures taken + (chunk + unread) == taken + left == (taken + chunk) + unread
    ensures unread == [] ==> taken + chunk == taken + left
    ensures chunk != [] ==> |unread| < |left|
  {
    var head := magic + taken;
    Regroup(head, chunk, unread);
    assert (head + (chunk + unread))[|head|..] == chunk + unread;
    assert (head + left)[|head|..] == left;
    if unread == [] {
      assert chunk + [] == chunk;
    }
  }

  lemma DecodesBody(magic: seq<byte>, body: seq<byte>)
    requires magic == VCF1 || magic == VCF2
    ensures Decode(magic + body) == DecodeBody(magic == VCF2, body)
  {
    hide DecodeBody;
    assert (magic + body)[..4] == magic && (magic + body)[4..] == body;
  }

  /** How one turn of a loop may end, given the bytes it took. */
  ghost predicate Outcome(
    typed: bool, chunk: seq<byte>, more: bool, before: seq<Frame>, after: seq<Frame>, inactive: bool, cut: bool)
  {
    var p := ParseOne(typed, chunk);
    && (more ==> !inactive && p.Parsed? && p.length == |chunk| && chunk != [] && after == before + [p.frame])
    && (!more ==> after == before)
    && (!more && !inactive ==> p.Rejected? || (p.Incomplete? && cut))
    && (!more && inactive ==> p.Rejected? || (p.Parsed? && p.length == |chunk|))
  }

  lemma OutcomeEnds(
    typed: bool, taken: seq<byte>, done: seq<Frame>, chunk: seq<byte>, later: seq<byte>,
    more: bool, after: seq<Frame>, inactive: bool, cut: bool)
    requires Settled(typed, taken, done)
    requires Outcome(typed, chunk, more, done, after, inactive, cut)
    ensures more ==> !inactive && chunk != [] && Settled(typed, taken + chunk, after)
    ensures !more ==> after == done
    ensures !more && !inactive && !cut ==> DecodeBody(typed, taken + (chunk + later)) == done
    ensures !more ==> Ended(done, DecodeBody(typed, taken + chunk), inactive)
  {
    hide ParseOne, Settled, DecodeBody;
    if more {
      SettledFrame(typed, taken, done, chunk);
    } else if ParseOne(typed, chunk).Parsed? {
      SettledLosesOne(typed, taken, done, chunk);
    } else {
      SettledEnds(typed, taken, done, chunk);
      if ParseOne(typed, chunk).Rejected? {
        SettledRejects(typed, taken, done, chunk, later);
      }
    }
  }

  lemma ShortHeader(chunk: seq<byte>)
    requires |chunk| < HEADER_BYTES
    ensures ParseOne(true, chunk).Incomplete?
  {
  }

  lemma HeaderOnly(header: seq<byte>)
    requires |header| == HEADER_BYTES && !HeaderAccepted(header)
    ensures ParseOne(true, header).Rejected?
  {
    hide HeaderAccepted;
  }

  lemma SizeOf(header: seq<byte>)
    requires |header| >= HEADER_BYTES && HeaderAccepted(header)
    ensures SizeAccepted(Field(header, 5))
  {
  }

  lemma HeaderAndPayload(header: seq<byte>, payload: seq<byte>)
    requires |header| == HEADER_BYTES && HeaderAccepted(header) && |payload| <= Field(header, 5)
    ensures ParseOne(true, header + payload)
            == if |payload| < Field(header, 5) then Incomplete
               else if Pushable(TypedFrame(header, payload)) then
                 Parsed(TypedFrame(header, payload), |header + payload|)
               else Rejected
  {
    hide HeaderAccepted, Field, TypedFrame, Pushable;
    var s := header + payload;
    HeaderOfPrefix(header, s);
    assert s[..HEADER_BYTES] == header && s[HEADER_BYTES..|s|] == payload;
  }

  lemma LegacySize(chunk: seq<byte>)
    requires |chunk| <= 4
    ensures |chunk| < 4 ==> ParseOne(false, chunk).Incomplete?
    ensures |chunk| == 4 && !SizeAccepted(Field(chunk, 0)) ==> ParseOne(false, chunk).Rejected?
  {
    hide Field;
  }

  lemma LegacyPayload(size: seq<byte>, payload: seq<byte>)
    requires |size| == 4 && SizeAccepted(Field(size, 0)) && |payload| <= Field(size, 0)
    ensures ParseOne(false, size + payload)
            == if |payload| < Field(size, 0) then Incomplete else Parsed(Jpeg(payload), |size + payload|)
  {
    hide Field;
    var s := size + payload;
    FieldOfPrefix(size, s, 0);
    assert s[4..|s|] == payload;
  }
}
