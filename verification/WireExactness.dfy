/**
 The reader is the exact inverse of the printers: whatever it takes from a stream is the printed form of the frames it
 gives, for both versions of the protocol; and each version's printed frames come back under every cut.
 */
module WireExactness {
  import opened Bytes
  import opened FrameLimits
  import opened FrameWire

  // ----- VCF2

  lemma FieldReprinted(s: seq<byte>, k: nat)
    requires 4 * k + 4 <= |s|
    ensures Field(s, k) < TWO_32
    ensures Field(s, k) < TWO_31 ==> Int32(Field(s, k)) == s[4 * k..4 * k + 4]
  {
    Pow256Values();
    var slice := s[4 * k..4 * k + 4];
    BytesRoundTrip(slice);
    SmallModulus(FromBigEndian(slice), TWO_32);
  }

  lemma PositiveIsPlain(n: nat)
    requires n < TWO_32 && Signed(n, TWO_32) > 0
    ensures Signed(n, TWO_32) == n < TWO_31
  {
    SignedValue(n, TWO_32);
  }

  lemma TimestampReprinted(t: seq<byte>)
    requires |t| == 8
    ensures IsInt64(Signed(FromBigEndian(t), TWO_64)) && Int64(Signed(FromBigEndian(t), TWO_64)) == t
  {
    Pow256Values();
    var n := FromBigEndian(t);
    BytesRoundTrip(t);
    SignedValue(n, TWO_64);
    SmallModulus(n, TWO_64);
    if n >= TWO_63 {
      assert (n - TWO_64) % TWO_64 == n;
    }
  }

  lemma HeaderReprinted(s: seq<byte>, payload: seq<byte>)
    requires |s| >= HEADER_BYTES && HeaderAccepted(s) && |payload| == Field(s, 5)
    requires Pushable(TypedFrame(s[..HEADER_BYTES], payload))
    ensures var f := TypedFrame(s[..HEADER_BYTES], payload);
            Sendable(f) && WithinLimit(f) && Encode(f) == s[..HEADER_BYTES] + payload
  {
    hide FromBigEndian, Signed, Field, Int32, Int64;
    var h := s[..HEADER_BYTES];
    HeaderOfPrefix(h, s);
    var f := TypedFrame(h, payload);
    FieldReprinted(h, 0);
    FieldReprinted(h, 1);
    FieldReprinted(h, 2);
    FieldReprinted(h, 3);
    FieldReprinted(h, 4);
    FieldReprinted(h, 5);
    PositiveIsPlain(Field(h, 1));
    PositiveIsPlain(Field(h, 2));
    TimestampReprinted(h[24..32]);
    HeaderPieces(h, payload);
  }

  lemma HeaderPieces(h: seq<byte>, payload: seq<byte>)
    requires |h| == HEADER_BYTES
    ensures h[0..4] + h[4..8] + h[8..12] + h[12..16] + h[16..20] + h[20..24] + h[24..32] + payload == h + payload
  {
  }

  /** A frame is only ever read from exactly the bytes it is printed as. */
  lemma ParseIsExact(s: seq<byte>)
    requires ParseOne(true, s).Parsed?
    ensures var p := ParseOne(true, s);
            && Sendable(p.frame) && WithinLimit(p.frame)
            && p.length == |Encode(p.frame)| && s[..p.length] == Encode(p.frame)
  {
    hide HeaderAccepted, Field, TypedFrame, Pushable, Encode, Sendable;
    var end := HEADER_BYTES + Field(s, 5);
    HeaderReprinted(s, s[HEADER_BYTES..end]);
    assert s[..end] == s[..HEADER_BYTES] + s[HEADER_BYTES..end];
  }

  /** What is read from a stream, printed again, is how the stream begins. */
  lemma {:induction false} BodyIsExact(s: seq<byte>)
    ensures AllSendable(DecodeBody(true, s)) && EncodeAll(DecodeBody(true, s)) <= s
    ensures forall f :: f in DecodeBody(true, s) ==> Sendable(f) && WithinLimit(f)
    decreases |s|
  {
    hide ParseOne, Encode, Sendable, WithinLimit;
    if ParseOne(true, s).Parsed? {
      var p := ParseOne(true, s);
      ParseIsExact(s);
      BodyIsExact(s[p.length..]);
      var later := DecodeBody(true, s[p.length..]);
      assert DecodeBody(true, s) == [p.frame] + later && ([p.frame] + later)[1..] == later;
      assert EncodeAll([p.frame] + later) == Encode(p.frame) + EncodeAll(later);
      assert s == s[..p.length] + s[p.length..];
    } else {
    }
  }

  // ----- VCF1: each frame is its length and its bytes

  function EncodeJpeg(jpeg: seq<byte>): seq<byte>
    requires SizeAccepted(|jpeg|)
  {
    Int32(|jpeg|) + jpeg
  }

  predicate AllSized(jpegs: seq<seq<byte>>)
  {
    forall j :: j in jpegs ==> SizeAccepted(|j|)
  }

  function EncodeJpegs(jpegs: seq<seq<byte>>): seq<byte>
    requires AllSized(jpegs)
  {
    if jpegs == [] then [] else EncodeJpeg(jpegs[0]) + EncodeJpegs(jpegs[1..])
  }

  function Jpegs(jpegs: seq<seq<byte>>): seq<Frame>
  {
    seq(|jpegs|, i requires 0 <= i < |jpegs| => Jpeg(jpegs[i]))
  }

  /** The frames wholly inside the first n bytes. */
  function Contained(jpegs: seq<seq<byte>>, n: int): seq<Frame>
    requires AllSized(jpegs)
  {
    if jpegs == [] || n < |EncodeJpeg(jpegs[0])| then []
    else [Jpeg(jpegs[0])] + Contained(jpegs[1..], n - |EncodeJpeg(jpegs[0])|)
  }

  lemma ParseJpeg(jpeg: seq<byte>, later: seq<byte>)
    requires SizeAccepted(|jpeg|)
    ensures ParseOne(false, EncodeJpeg(jpeg) + later) == Parsed(Jpeg(jpeg), |EncodeJpeg(jpeg)|)
  {
    hide Field, FromBigEndian, Int32;
    PlainInt32(|jpeg|);
    var s := EncodeJpeg(jpeg) + later;
    assert s[..4] == Int32(|jpeg|) && s[4..4 + |jpeg|] == jpeg;
    FieldZero(s, |jpeg|);
  }

  lemma FieldZero(s: seq<byte>, n: nat)
    requires |s| >= 4 && n < TWO_31 && s[..4] == Int32(n)
    ensures Field(s, 0) == n
  {
    PlainInt32(n);
    assert s[0..4] == s[..4];
  }

  lemma CutJpeg(jpeg: seq<byte>, later: seq<byte>, n: nat)
    requires SizeAccepted(|jpeg|) && n < |EncodeJpeg(jpeg)|
    ensures !ParseOne(false, (EncodeJpeg(jpeg) + later)[..n]).Parsed?
  {
    hide ParseOne, EncodeJpeg;
    var s := EncodeJpeg(jpeg) + later;
    ParseJpeg(jpeg, later);
    if ParseOne(false, s[..n]).Parsed? {
      ParseOfPrefix(false, s[..n], s);
      assert false;
    }
  }

  /** Any prefix of a VCF1 stream decodes to exactly the frames it fully contains. */
  lemma {:induction false} JpegPrefix(jpegs: seq<seq<byte>>, n: nat)
    requires AllSized(jpegs) && n <= |EncodeJpegs(jpegs)|
    ensures DecodeBody(false, EncodeJpegs(jpegs)[..n]) == Contained(jpegs, n)
    decreases |jpegs|
  {
    hide EncodeJpeg, ParseOne;
    var s := EncodeJpegs(jpegs);
    if jpegs == [] {
      assert s[..n] == [];
      EmptyIsIncomplete(false);
    } else {
      var e, later := EncodeJpeg(jpegs[0]), EncodeJpegs(jpegs[1..]);
      if n < |e| {
        CutJpeg(jpegs[0], later, n);
      } else {
        var m := n - |e|;
        assert s[..n] == e + later[..m];
        ParseJpeg(jpegs[0], later[..m]);
        assert (e + later[..m])[|e|..] == later[..m];
        JpegPrefix(jpegs[1..], m);
      }
    }
  }

  lemma {:induction false} AllContained(jpegs: seq<seq<byte>>)
    requires AllSized(jpegs)
    ensures Contained(jpegs, |EncodeJpegs(jpegs)|) == Jpegs(jpegs)
    decreases |jpegs|
  {
    hide EncodeJpeg;
    if jpegs == [] {
    } else {
      AllContained(jpegs[1..]);
      assert Jpegs(jpegs) == [Jpeg(jpegs[0])] + Jpegs(jpegs[1..]);
    }
  }

  /** A whole VCF1 connection decodes to exactly its frames. */
  lemma LegacyRoundTrip(jpegs: seq<seq<byte>>)
    requires AllSized(jpegs)
    ensures Decode(VCF1 + EncodeJpegs(jpegs)) == Jpegs(jpegs)
  {
    hide DecodeBody, EncodeJpegs;
    var body := EncodeJpegs(jpegs);
    assert (VCF1 + body)[..4] == VCF1 && (VCF1 + body)[4..] == body && body[..|body|] == body;
    assert VCF1[3] != VCF2[3];
    JpegPrefix(jpegs, |body|);
    AllContained(jpegs);
  }

  lemma JpegIsExact(s: seq<byte>)
    requires ParseOne(false, s).Parsed?
    ensures var p := ParseOne(false, s);
            && p.frame.Jpeg? && SizeAccepted(|p.frame.payload|)
            && p.length == |EncodeJpeg(p.frame.payload)| && s[..p.length] == EncodeJpeg(p.frame.payload)
  {
    FieldReprinted(s, 0);
    var end := 4 + Field(s, 0);
    assert s[..end] == s[0..4] + s[4..end];
  }

  // ----- A connection

  /** Frames only come from a connection that opens with one of the two magics. */
  lemma OnlyKnownMagic(s: seq<byte>)
    requires Decode(s) != []
    ensures "VCF1" == Text(s[..4]) || "VCF2" == Text(s[..4])
  {
    hide DecodeBody;
    assert |s| >= 4 && (s[..4] == VCF1 || s[..4] == VCF2);
    assert Text(VCF1) == "VCF1" && Text(VCF2) == "VCF2";
  }

  /** Bytes as ASCII text. */
  function Text(s: seq<byte>): string
  {
    seq(|s|, i requires 0 <= i < |s| => (s[i] as int) as char)
  }
}
