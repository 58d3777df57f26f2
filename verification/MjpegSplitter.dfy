/**
 The incremental MJPEG splitter: an arbitrarily chunked byte stream is cut into frames that run from a
 start-of-image marker to the next end-of-image marker.
 */
module MjpegSplitter {
  import opened Bytes

  const MARKER: byte := 0xff
  const SOI: byte := 0xd8
  const EOI: byte := 0xd9

  predicate MarkerAt(s: seq<byte>, i: nat, code: byte)
  {
    i + 1 < |s| && s[i] == MARKER && s[i + 1] == code
  }

  /** The leftmost marker at or after `from`, or |s| when there is none. */
  function Search(s: seq<byte>, code: byte, from: nat): (r: nat)
    requires from <= |s|
    ensures from <= r <= |s|
    ensures r < |s| ==> MarkerAt(s, r, code)
    ensures forall i :: from <= i < r ==> !MarkerAt(s, i, code)
    decreases |s| - from
  {
    if from == |s| then |s|
    else if MarkerAt(s, from, code) then from
    else Search(s, code, from + 1)
  }

  predicate MarkerFree(s: seq<byte>, code: byte, from: nat)
  {
    forall i :: from <= i < |s| ==> !MarkerAt(s, i, code)
  }

  function LoneMarker(s: seq<byte>): seq<byte>
  {
    if s != [] && s[|s| - 1] == MARKER then [MARKER] else []
  }

  datatype Cut = Cut(frames: seq<seq<byte>>, rest: seq<byte>)

  /** The reference: one leftmost, non-overlapping scan of a whole stream. */
  function Split(s: seq<byte>): Cut
    decreases |s|, 1
  {
    var soi := Search(s, SOI, 0);
    if soi == |s| then Cut([], LoneMarker(s)) else SplitHead(s[soi..])
  }

  /** The scan of bytes that open with a start marker. */
  function SplitHead(t: seq<byte>): Cut
    requires MarkerAt(t, 0, SOI)
    decreases |t|, 0
  {
    var eoi := Search(t, EOI, 2);
    if eoi == |t| then
      Cut([], t)
    else
      var later := Split(t[eoi + 2..]);
      Cut([t[..eoi + 2]] + later.frames, later.rest)
  }

  // ----- What the splitter may keep between calls

  predicate Headed(s: seq<byte>)
  {
    MarkerAt(s, 0, SOI) && MarkerFree(s, EOI, 2)
  }

  predicate Residue(s: seq<byte>)
  {
    s == [] || s == [MARKER] || Headed(s)
  }

  /** Only a half-received frame is measured against the limit; a lone 0xFF never is. */
  predicate Oversize(rest: seq<byte>, limit: nat)
  {
    |rest| >= 2 && |rest| > limit
  }

  predicate WellFormed(frame: seq<byte>)
  {
    && |frame| >= 4
    && MarkerAt(frame, 0, SOI)
    && MarkerAt(frame, |frame| - 2, EOI)
    && forall i :: 2 <= i < |frame| - 2 ==> !MarkerAt(frame, i, EOI)
  }

  // ----- One step of the scan

  lemma SearchIs(s: seq<byte>, code: byte, from: nat, r: nat)
    requires from <= r <= |s|
    requires forall i :: from <= i < r ==> !MarkerAt(s, i, code)
    requires r < |s| ==> MarkerAt(s, r, code)
    ensures Search(s, code, from) == r
  {
  }

  lemma {:induction false} SearchShift(s: seq<byte>, code: byte, from: nat, k: nat)
    requires k <= from <= |s|
    ensures Search(s[k..], code, from - k) == Search(s, code, from) - k
    decreases |s| - from
  {
    if from == |s| {
    } else {
      assert MarkerAt(s, from, code) == MarkerAt(s[k..], from - k, code);
      SearchShift(s, code, from + 1, k);
    }
  }

  /** No start marker begins in the first k bytes of s. */
  predicate NoStart(s: seq<byte>, k: nat)
  {
    forall i :: 0 <= i < k ==> !MarkerAt(s, i, SOI)
  }

  predicate OpensFrame(s: seq<byte>)
  {
    MarkerAt(s, 0, SOI) && Search(s, EOI, 2) < |s|
  }

  lemma SplitNothing(s: seq<byte>)
    requires MarkerFree(s, SOI, 0)
    ensures Split(s) == Cut([], LoneMarker(s))
  {
    SearchIs(s, SOI, 0, |s|);
  }

  /** Bytes before which no start marker begins can be dropped. */
  lemma SkipGap(s: seq<byte>, k: nat)
    requires k <= |s| && NoStart(s, k)
    requires k < |s| || LoneMarker(s) == []
    ensures Split(s) == Split(s[k..])
  {
    hide SplitHead;
    var soi := Search(s, SOI, 0);
    SearchIs(s, SOI, k, soi);
    SearchShift(s, SOI, k, k);
    if soi < |s| {
      assert s[k..][soi - k..] == s[soi..];
    }
  }

  lemma ResidueIsStable(s: seq<byte>)
    requires Residue(s)
    ensures Split(s) == Cut([], s)
  {
    if Headed(s) {
      SearchIs(s, SOI, 0, 0);
      SearchIs(s, EOI, 2, |s|);
      assert s[0..] == s;
    }
  }

  /** A stream that opens with a complete frame gives that frame first. */
  lemma SplitFrame(frame: seq<byte>, later: seq<byte>)
    requires WellFormed(frame)
    ensures Split(frame + later) == Cut([frame] + Split(later).frames, Split(later).rest)
    ensures Search(frame + later, EOI, 2) == |frame| - 2
  {
    var s := frame + later;
    assert MarkerAt(s, 0, SOI);
    SearchIs(s, SOI, 0, 0);
    var eoi := |frame| - 2;
    assert MarkerAt(s, eoi, EOI);
    forall i | 2 <= i < eoi ensures !MarkerAt(s, i, EOI) {
      assert !MarkerAt(frame, i, EOI);
    }
    SearchIs(s, EOI, 2, eoi);
    assert s[0..] == s && s[..eoi + 2] == frame && s[eoi + 2..] == later;
  }

  lemma FirstFrameIsWellFormed(t: seq<byte>)
    requires OpensFrame(t)
    ensures WellFormed(t[..Search(t, EOI, 2) + 2])
  {
    var eoi := Search(t, EOI, 2);
    var frame := t[..eoi + 2];
    assert MarkerAt(frame, 0, SOI) && MarkerAt(frame, eoi, EOI);
    forall i | 2 <= i < eoi ensures !MarkerAt(frame, i, EOI) {
      assert !MarkerAt(t, i, EOI);
    }
  }

  lemma GapStep(s: seq<byte>)
    requires Search(s, SOI, 0) < |s|
    ensures var t := s[Search(s, SOI, 0)..];
            |t| >= 2 && MarkerAt(t, 0, SOI) && Split(t) == Split(s)
  {
    SkipGap(s, Search(s, SOI, 0));
  }

  lemma NothingStep(s: seq<byte>)
    requires Search(s, SOI, 0) == |s|
    ensures Split(s) == Cut([], LoneMarker(s))
  {
  }

  lemma HalfStep(s: seq<byte>)
    requires MarkerAt(s, 0, SOI) && Search(s, EOI, 2) == |s|
    ensures Split(s) == Cut([], s)
  {
    ResidueIsStable(s);
  }

  lemma FrameStep(s: seq<byte>)
    requires OpensFrame(s)
    ensures var eoi := Search(s, EOI, 2);
            eoi + 2 <= |s| &&
            var later := Split(s[eoi + 2..]);
            Split(s) == Cut([s[..eoi + 2]] + later.frames, later.rest)
  {
    hide Split, Search, WellFormed;
    var eoi := Search(s, EOI, 2);
    FirstFrameIsWellFormed(s);
    assert s == s[..eoi + 2] + s[eoi + 2..];
    SplitFrame(s[..eoi + 2], s[eoi + 2..]);
  }

  /** The three ways a scan can go: no start marker, a half frame, or a frame and more. */
  datatype View = Nothing | Half(gap: seq<byte>, head: seq<byte>)
                | Whole(gap: seq<byte>, frame: seq<byte>, later: seq<byte>)

  ghost predicate Views(s: seq<byte>, v: View)
  {
    match v
    case Nothing => MarkerFree(s, SOI, 0) && Split(s) == Cut([], LoneMarker(s))
    case Half(gap, head) =>
      s == gap + head && NoStart(s, |gap|) && Headed(head) && Split(s) == Cut([], head)
    case Whole(gap, frame, later) =>
      && s == gap + (frame + later) && NoStart(s, |gap|) && WellFormed(frame)
      && Split(s) == Cut([frame] + Split(later).frames, Split(later).rest)
  }

  lemma ViewOf(s: seq<byte>) returns (v: View)
    ensures Views(s, v)
  {
    var soi := Search(s, SOI, 0);
    if soi == |s| {
      return Nothing;
    }
    var gap, t := s[..soi], s[soi..];
    assert s == gap + t && MarkerAt(t, 0, SOI);
    SkipGap(s, soi);
    var eoi := Search(t, EOI, 2);
    if eoi == |t| {
      ResidueIsStable(t);
      return Half(gap, t);
    }
    var frame, later := t[..eoi + 2], t[eoi + 2..];
    assert t == frame + later;
    FirstFrameIsWellFormed(t);
    SplitFrame(frame, later);
    return Whole(gap, frame, later);
  }

  lemma {:induction false} SplitShape(s: seq<byte>)
    ensures Residue(Split(s).rest)
    ensures |Split(s).rest| <= |s|
    ensures forall f :: f in Split(s).frames ==> WellFormed(f) && |f| <= |s|
    decreases |s|
  {
    var v := ViewOf(s);
    if !v.Whole? {
    } else {
      SplitShape(v.later);
    }
  }

  // ----- Splitting is independent of where the stream is cut

  lemma NoStartExtends(a: seq<byte>, b: seq<byte>, k: nat)
    requires NoStart(a, k) && k <= |a|
    requires k < |a| || (b != [] && b[0] != SOI) || LoneMarker(a) == []
    ensures NoStart(a + b, k)
  {
    forall i | 0 <= i < k ensures !MarkerAt(a + b, i, SOI) {
      assert !MarkerAt(a, i, SOI);
    }
  }

  lemma SplitAppendNothing(a: seq<byte>, b: seq<byte>)
    requires MarkerFree(a, SOI, 0)
    ensures Split(a + b) == Split(LoneMarker(a) + b)
  {
    var k := |a| - |LoneMarker(a)|;
    NoStartExtends(a, b, k);
    assert (a + b)[k..] == LoneMarker(a) + b;
    if k < |a + b| || LoneMarker(a + b) == [] {
      SkipGap(a + b, k);
    }
  }

  lemma SplitAfterGap(gap: seq<byte>, t: seq<byte>, b: seq<byte>)
    requires NoStart(gap + t, |gap|) && t != []
    ensures Split((gap + t) + b) == Split(t + b)
  {
    hide Split;
    NoStartExtends(gap + t, b, |gap|);
    SkipGap((gap + t) + b, |gap|);
    assert ((gap + t) + b)[|gap|..] == t + b;
  }

  lemma SplitAppendWhole(gap: seq<byte>, frame: seq<byte>, later: seq<byte>, b: seq<byte>)
    requires NoStart(gap + (frame + later), |gap|) && WellFormed(frame)
    ensures var cut := Split(later + b);
            Split((gap + (frame + later)) + b) == Cut([frame] + cut.frames, cut.rest)
  {
    hide Split;
    SplitAfterGap(gap, frame + later, b);
    assert (frame + later) + b == frame + (later + b);
    SplitFrame(frame, later + b);
  }

  /** Split(a + b), told by what the scan of a delivers and keeps. */
  ghost predicate Resumes(a: seq<byte>, b: seq<byte>)
  {
    var first, whole := Split(a), Split(a + b);
    var second := Split(first.rest + b);
    whole.frames == first.frames + second.frames && whole.rest == second.rest
  }

  /** The residue of the first part carries everything the second part needs. */
  lemma {:induction false} SplitAppend(a: seq<byte>, b: seq<byte>)
    ensures Resumes(a, b)
    decreases |a|
  {
    hide Split;
    var v := ViewOf(a);
    match v
    case Nothing =>
      SplitAppendNothing(a, b);
    case Half(gap, head) =>
      SplitAfterGap(gap, head, b);
    case Whole(gap, frame, later) =>
      SplitAppendWhole(gap, frame, later, b);
      SplitAppend(later, b);
      Regroup([frame], Split(later).frames, Split(Split(later).rest + b).frames);
  }

  // ----- One call, and a list of calls

  datatype Fed = Fed(frames: seq<seq<byte>>, buffer: seq<byte>, ok: bool)

  /** What one call must deliver and keep, stated by the one-shot scan. */
  function Feed(buffer: seq<byte>, chunk: seq<byte>, limit: nat): Fed
  {
    var cut := Split(buffer + chunk);
    if Oversize(cut.rest, limit) then Fed(cut.frames, [], false)
    else Fed(cut.frames, cut.rest, true)
  }

  /** Calls made in order until one fails. */
  function FeedAll(buffer: seq<byte>, chunks: seq<seq<byte>>, limit: nat): Fed
    decreases |chunks|
  {
    if chunks == [] then Fed([], buffer, true)
    else
      var first := Feed(buffer, chunks[0], limit);
      if !first.ok then first
      else
        var later := FeedAll(first.buffer, chunks[1..], limit);
        Fed(first.frames + later.frames, later.buffer, later.ok)
  }

  /**
   Two successful calls equal one call with the joined bytes: same frames, same order, same residue. A
   split can only add a size failure: the pair succeeds iff the joined call and the first call both do.
   */
  lemma ChunkingInvariance(buffer: seq<byte>, a: seq<byte>, b: seq<byte>, limit: nat)
    ensures var first := Feed(buffer, a, limit);
            var second := Feed(first.buffer, b, limit);
            var joined := Feed(buffer, a + b, limit);
            && (first.ok ==> second.ok == joined.ok)
            && (first.ok ==> joined.frames == first.frames + second.frames)
            && (first.ok ==> joined.buffer == second.buffer)
  {
    assert buffer + (a + b) == (buffer + a) + b;
    SplitAppend(buffer + a, b);
  }

  /** A cut inside an over-long frame is refused although the same bytes at once are accepted. */
  lemma SplittingCanAddAFailure(frame: seq<byte>, k: nat, limit: nat)
    requires WellFormed(frame) && 2 <= k < |frame| && limit < k
    ensures Feed([], frame, limit) == Fed([frame], [], true)
    ensures !Feed([], frame[..k], limit).ok
  {
    hide Split;
    SplitFrame(frame, []);
    assert [] + frame == frame && frame + [] == frame;
    ResidueIsStable([]);
    var head := frame[..k];
    assert MarkerAt(head, 0, SOI);
    forall i | 2 <= i < |head| ensures !MarkerAt(head, i, EOI) {
      assert i < k - 1 ==> !MarkerAt(frame, i, EOI);
    }
    assert [] + head == head;
    ResidueIsStable(head);
  }

  predicate PrefixFits(chunks: seq<seq<byte>>, n: nat, limit: nat)
    requires n <= |chunks|
  {
    !Oversize(Split(Concat(chunks[..n])).rest, limit)
  }

  /** Every successful chunking of a stream is the one-shot scan of the whole stream. */
  lemma {:induction false} FeedAllIsOneScan(buffer: seq<byte>, chunks: seq<seq<byte>>, limit: nat)
    requires Residue(buffer)
    requires FeedAll(buffer, chunks, limit).ok
    ensures FeedAll(buffer, chunks, limit).frames == Split(buffer + Concat(chunks)).frames
    ensures FeedAll(buffer, chunks, limit).buffer == Split(buffer + Concat(chunks)).rest
    decreases |chunks|
  {
    hide Split;
    if chunks == [] {
      assert buffer + Concat(chunks) == buffer;
      ResidueIsStable(buffer);
    } else {
      var a, b := buffer + chunks[0], Concat(chunks[1..]);
      assert buffer + Concat(chunks) == a + b;
      SplitAppend(a, b);
      SplitShape(a);
      FeedAllIsOneScan(Split(a).rest, chunks[1..], limit);
    }
  }

  /** A half-received frame is never longer than what it grows into. */
  lemma ResidueGrows(rest: seq<byte>, b: seq<byte>, limit: nat)
    requires Headed(rest) && Oversize(rest, limit)
    ensures var cut := Split(rest + b);
            Oversize(cut.rest, limit) || exists f :: f in cut.frames && |f| > limit + 1
  {
    var s := rest + b;
    assert MarkerAt(s, 0, SOI);
    SearchIs(s, SOI, 0, 0);
    assert s[0..] == s;
    var eoi := Search(s, EOI, 2);
    forall i | 2 <= i < |rest| - 1 ensures !MarkerAt(s, i, EOI) {
      assert !MarkerAt(rest, i, EOI);
    }
    assert eoi + 1 >= |rest|;
    if eoi < |s| {
      assert s[..eoi + 2] in Split(s).frames;
    }
  }

  /**
   When every frame of a stream has at most limit + 1 bytes, and what is left at its end is within the limit, then
   no chunking of it fails, and each delivers exactly the one-shot scan.
   */
  lemma {:induction false} AnyChunkingOfABoundedStream(
    buffer: seq<byte>, chunks: seq<seq<byte>>, limit: nat)
    requires Residue(buffer)
    requires var cut := Split(buffer + Concat(chunks));
             (forall f :: f in cut.frames ==> |f| <= limit + 1) && !Oversize(cut.rest, limit)
    ensures var cut := Split(buffer + Concat(chunks));
            FeedAll(buffer, chunks, limit) == Fed(cut.frames, cut.rest, true)
    decreases |chunks|
  {
    hide Split;
    if chunks == [] {
      assert buffer + Concat(chunks) == buffer;
      ResidueIsStable(buffer);
    } else {
      var a, b := buffer + chunks[0], Concat(chunks[1..]);
      assert buffer + Concat(chunks) == a + b;
      SplitAppend(a, b);
      SplitShape(a);
      if Oversize(Split(a).rest, limit) {
        ResidueGrows(Split(a).rest, b, limit);
      }
      AnyChunkingOfABoundedStream(Split(a).rest, chunks[1..], limit);
    }
  }

  /** A frame one byte from its end is a half frame. */
  lemma AllButTheLastByte(gap: seq<byte>, frame: seq<byte>)
    requires WellFormed(frame) && NoStart(gap + frame, |gap|)
    ensures Split(gap + frame[..|frame| - 1]) == Cut([], frame[..|frame| - 1])
  {
    hide Split;
    var head := frame[..|frame| - 1];
    assert MarkerAt(head, 0, SOI);
    forall i | 2 <= i < |head| ensures !MarkerAt(head, i, EOI) {
      assert i < |head| - 1 ==> !MarkerAt(frame, i, EOI);
    }
    forall i | 0 <= i < |gap| ensures !MarkerAt(gap + head, i, SOI) {
      assert !MarkerAt(gap + frame, i, SOI);
    }
    SkipGap(gap + head, |gap|);
    assert (gap + head)[|gap|..] == head;
    ResidueIsStable(head);
  }

  /** A stream with too long a frame has a prefix that ends in too long a half frame. */
  lemma {:induction false} LongFrameHasALongHalf(s: seq<byte>, limit: nat) returns (k: nat)
    requires exists f :: f in Split(s).frames && |f| > limit + 1
    ensures k <= |s| && Oversize(Split(s[..k]).rest, limit)
    decreases |s|
  {
    hide Split;
    var v := ViewOf(s);
    var gap, frame, later := v.gap, v.frame, v.later;
    if |frame| > limit + 1 {
      k := |gap| + |frame| - 1;
      var head := frame[..|frame| - 1];
      assert s[..k] == gap + head;
      forall i | 0 <= i < |gap| ensures !MarkerAt(gap + frame, i, SOI) {
        assert !MarkerAt(s, i, SOI);
      }
      AllButTheLastByte(gap, frame);
    } else {
      var m := LongFrameHasALongHalf(later, limit);
      k := |gap| + |frame| + m;
      assert s[..k] == gap + (frame + later[..m]);
      forall i | 0 <= i < |gap| ensures !MarkerAt(gap + (frame + later[..m]), i, SOI) {
        assert !MarkerAt(s, i, SOI);
      }
      SplitAppendWhole(gap, frame, later[..m], []);
      assert (gap + (frame + later[..m])) + [] == s[..k] && later[..m] + [] == later[..m];
    }
  }

  ghost predicate EveryChunkingSucceeds(s: seq<byte>, limit: nat)
  {
    forall chunks: seq<seq<byte>> :: Concat(chunks) == s ==> FeedAll([], chunks, limit).ok
  }

  /** The streams that no chunking makes fail, characterised. */
  lemma SafeUnderEveryChunking(s: seq<byte>, limit: nat)
    ensures EveryChunkingSucceeds(s, limit)
       <==> !Oversize(Split(s).rest, limit) && forall f :: f in Split(s).frames ==> |f| <= limit + 1
  {
    hide Split, FeedAll, Oversize;
    if !Oversize(Split(s).rest, limit) && forall f :: f in Split(s).frames ==> |f| <= limit + 1 {
      forall chunks: seq<seq<byte>> | Concat(chunks) == s ensures FeedAll([], chunks, limit).ok {
        assert [] + Concat(chunks) == s;
        AnyChunkingOfABoundedStream([], chunks, limit);
      }
    } else {
      var k := |s|;
      assert s[..k] == s;
      if !Oversize(Split(s).rest, limit) {
        k := LongFrameHasALongHalf(s, limit);
      }
      TwoChunks(s, k);
      var chunks := [s[..k], s[k..]];
      FeedAllSucceedsIff(chunks, limit);
      assert !PrefixFits(chunks, 1, limit);
      assert !FeedAll([], chunks, limit).ok && Concat(chunks) == s;
    }
  }

  lemma TwoChunks(s: seq<byte>, k: nat)
    requires k <= |s|
    ensures Concat([s[..k], s[k..]]) == s
    ensures Concat([s[..k], s[k..]][..1]) == s[..k]
  {
    assert [s[..k], s[k..]][..1] == [s[..k]];
    assert [s[..k], s[k..]][1..] == [s[k..]];
    assert Concat([s[..k]]) == s[..k] + Concat<byte>([]);
    assert Concat([s[k..]]) == s[k..] + Concat<byte>([]);
  }

  /** Exactly when a chunking fails: some received prefix ends in an over-long half frame. */
  lemma {:induction false} FeedAllSucceedsIff(chunks: seq<seq<byte>>, limit: nat)
    ensures FeedAll([], chunks, limit).ok
        <==> forall n :: 0 <= n <= |chunks| ==> PrefixFits(chunks, n, limit)
    decreases |chunks|
  {
    hide Split;
    if chunks == [] {
      ResidueIsStable([]);
    } else {
      var n := |chunks| - 1;
      var front, last := chunks[..n], chunks[n];
      FeedAllSucceedsIff(front, limit);
      forall k | 0 <= k <= n ensures PrefixFits(front, k, limit) == PrefixFits(chunks, k, limit) {
        assert front[..k] == chunks[..k];
      }
      assert chunks == front + [last];
      FeedAllSnoc([], front, last, limit);
      if FeedAll([], front, limit).ok {
        FeedAllIsOneScan([], front, limit);
        assert [] + Concat(front) == Concat(front);
        ConcatSnoc(front, last);
        SplitAppend(Concat(front), last);
        assert chunks[..n + 1] == chunks;
        assert PrefixFits(chunks, n + 1, limit) == FeedAll([], chunks, limit).ok;
      }
    }
  }

  lemma {:induction false} FeedAllSnoc(
    buffer: seq<byte>, front: seq<seq<byte>>, last: seq<byte>, limit: nat)
    ensures var before := FeedAll(buffer, front, limit);
            FeedAll(buffer, front + [last], limit).ok
            == (before.ok && Feed(before.buffer, last, limit).ok)
    decreases |front|
  {
    hide Split;
    if front == [] {
      assert FeedAll(Feed(buffer, last, limit).buffer, [], limit).ok;
      assert (front + [last])[1..] == [];
    } else {
      assert (front + [last])[1..] == front[1..] + [last];
      FeedAllSnoc(Feed(buffer, front[0], limit).buffer, front[1..], last, limit);
    }
  }

  // ----- Exactness: the scan inverts multiplexing

  /** gaps[0] frames[0] gaps[1] frames[1] ... */
  function Mux(gaps: seq<seq<byte>>, frames: seq<seq<byte>>): seq<byte>
    requires |gaps| == |frames|
  {
    if frames == [] then [] else gaps[0] + frames[0] + Mux(gaps[1..], frames[1..])
  }

  predicate Muxable(gaps: seq<seq<byte>>, frames: seq<seq<byte>>)
  {
    && |gaps| == |frames|
    && (forall i :: 0 <= i < |gaps| ==> MarkerFree(gaps[i], SOI, 0))
    && (forall i :: 0 <= i < |frames| ==> WellFormed(frames[i]))
  }

  /** Bytes holding no complete frame: no start marker at all, or a half frame after a gap. */
  ghost predicate FramelessTail(tail: seq<byte>)
  {
    MarkerFree(tail, SOI, 0) || exists g, t :: tail == g + t && MarkerFree(g, SOI, 0) && Headed(t)
  }

  lemma GapThenHead(gap: seq<byte>, t: seq<byte>)
    requires MarkerFree(gap, SOI, 0)
    requires MarkerAt(t, 0, SOI)
    ensures Split(gap + t) == Split(t)
  {
    hide Split;
    NoStartExtends(gap, t, |gap|);
    SkipGap(gap + t, |gap|);
    assert (gap + t)[|gap|..] == t;
  }

  /** Frames hidden in any garbage without a start marker come back, and nothing else does. */
  lemma {:induction false} SplitInvertsMux(
    gaps: seq<seq<byte>>, frames: seq<seq<byte>>, tail: seq<byte>)
    requires Muxable(gaps, frames)
    requires FramelessTail(tail)
    ensures Split(Mux(gaps, frames) + tail).frames == frames
    ensures MarkerFree(tail, SOI, 0) ==> Split(Mux(gaps, frames) + tail).rest == LoneMarker(tail)
    decreases |frames|
  {
    hide Split;
    if frames == [] {
      assert Mux(gaps, frames) + tail == tail;
      if MarkerFree(tail, SOI, 0) {
        SplitNothing(tail);
      } else {
        var g, t :| tail == g + t && MarkerFree(g, SOI, 0) && Headed(t);
        GapThenHead(g, t);
        ResidueIsStable(t);
      }
    } else {
      var later := Mux(gaps[1..], frames[1..]) + tail;
      assert Mux(gaps, frames) + tail == gaps[0] + (frames[0] + later);
      GapThenHead(gaps[0], frames[0] + later);
      SplitFrame(frames[0], later);
      SplitInvertsMux(gaps[1..], frames[1..], tail);
    }
  }

  /** Every stream is such a multiplex of its frames: nothing between them held a start marker. */
  lemma {:induction false} SplitDecomposes(s: seq<byte>) returns (gaps: seq<seq<byte>>, tail: seq<byte>)
    ensures Muxable(gaps, Split(s).frames)
    ensures s == Mux(gaps, Split(s).frames) + tail
    ensures FramelessTail(tail)
    decreases |s|
  {
    hide Split;
    var v := ViewOf(s);
    match v
    case Nothing =>
      gaps, tail := [], s;
    case Half(gap, head) =>
      gaps, tail := [], s;
      GapIsFree(s, gap);
    case Whole(gap, frame, later) =>
      GapIsFree(s, gap);
      var more;
      more, tail := SplitDecomposes(later);
      gaps := [gap] + more;
      assert gaps[1..] == more && Split(s).frames[1..] == Split(later).frames;
      assert s == gap + frame + Mux(more, Split(later).frames) + tail;
  }

  lemma GapIsFree(s: seq<byte>, gap: seq<byte>)
    requires gap <= s && NoStart(s, |gap|)
    ensures MarkerFree(gap, SOI, 0)
  {
    forall i | 0 <= i < |gap| ensures !MarkerAt(gap, i, SOI) {
      assert !MarkerAt(s, i, SOI);
    }
  }

  /** Size bounds on what a call delivers and keeps. */
  lemma FeedBounds(buffer: seq<byte>, chunk: seq<byte>, limit: nat)
    requires Residue(buffer) && !Oversize(buffer, limit)
    ensures var fed := Feed(buffer, chunk, limit);
            && Residue(fed.buffer) && !Oversize(fed.buffer, limit)
            && forall f :: f in fed.frames ==> 4 <= |f| <= Max(1, limit) + |chunk|
  {
    SplitShape(buffer + chunk);
  }

  lemma EmptyChunk(buffer: seq<byte>, limit: nat)
    requires Residue(buffer) && !Oversize(buffer, limit)
    ensures Feed(buffer, [], limit) == Fed([], buffer, true)
  {
    assert buffer + [] == buffer;
    ResidueIsStable(buffer);
  }

  /** What has been delivered, and what the buffer will still give, make up the scan of `whole`. */
  ghost predicate Pending(first: seq<seq<byte>>, whole: seq<byte>, delivered: seq<seq<byte>>, buffer: seq<byte>)
  {
    && delivered + Split(buffer).frames == first + Split(whole).frames
    && Split(buffer).rest == Split(whole).rest
  }

  lemma PendingStarts(first: seq<seq<byte>>, whole: seq<byte>)
    ensures Pending(first, whole, first, whole)
  {
  }

  lemma PendingGap(first: seq<seq<byte>>, whole: seq<byte>, delivered: seq<seq<byte>>, buffer: seq<byte>)
    requires Pending(first, whole, delivered, buffer)
    requires Search(buffer, SOI, 0) < |buffer|
    ensures var t := buffer[Search(buffer, SOI, 0)..];
            |t| >= 2 && MarkerAt(t, 0, SOI) && Pending(first, whole, delivered, t)
  {
    GapStep(buffer);
  }

  lemma PendingFrame(first: seq<seq<byte>>, whole: seq<byte>, delivered: seq<seq<byte>>, buffer: seq<byte>)
    requires Pending(first, whole, delivered, buffer) && OpensFrame(buffer)
    ensures var eoi := Search(buffer, EOI, 2);
            eoi + 2 <= |buffer| && Pending(first, whole, delivered + [buffer[..eoi + 2]], buffer[eoi + 2..])
  {
    hide Split, Search, OpensFrame, Pending;
    FrameStep(buffer);
    var eoi := Search(buffer, EOI, 2);
    PendingMove(first, whole, delivered, buffer, buffer[..eoi + 2], buffer[eoi + 2..]);
  }

  lemma PendingMove(
    first: seq<seq<byte>>, whole: seq<byte>, delivered: seq<seq<byte>>, buffer: seq<byte>,
    frame: seq<byte>, later: seq<byte>)
    requires Pending(first, whole, delivered, buffer)
    requires Split(buffer) == Cut([frame] + Split(later).frames, Split(later).rest)
    ensures Pending(first, whole, delivered + [frame], later)
  {
    hide Split;
    Regroup(delivered, [frame], Split(later).frames);
  }

  lemma PendingEnds(
    first: seq<seq<byte>>, whole: seq<byte>, delivered: seq<seq<byte>>, buffer: seq<byte>, rest: seq<byte>)
    requires Pending(first, whole, delivered, buffer) && Split(buffer) == Cut([], rest)
    ensures delivered == first + Split(whole).frames && Split(whole).rest == rest
  {
    hide Split;
    assert delivered + [] == delivered;
  }

  /** The scan of a call is over: what it delivered and what is left decide the call. */
  lemma FeedEnds(
    kept: seq<byte>, chunk: seq<byte>, limit: nat, first: seq<seq<byte>>, delivered: seq<seq<byte>>,
    buffer: seq<byte>, rest: seq<byte>)
    requires Pending(first, kept + chunk, delivered, buffer) && Split(buffer) == Cut([], rest)
    ensures var fed := Feed(kept, chunk, limit);
            && delivered == first + fed.frames
            && fed.ok == !(|rest| >= 2 && |rest| > limit) && fed.buffer == if fed.ok then rest else []
  {
    hide Split, Pending;
    PendingEnds(first, kept + chunk, delivered, buffer, rest);
  }

  lemma LoneMarkerSize(s: seq<byte>)
    ensures |LoneMarker(s)| <= 1
  {
  }

  lemma FrameIsThere(buffer: seq<byte>)
    requires MarkerAt(buffer, 0, SOI) && 2 <= |buffer| && Search(buffer, EOI, 2) < |buffer|
    ensures OpensFrame(buffer)
  {
  }

  // ----- The object

  datatype AppendStatus = Appended | NullInput | FrameTooLarge

  class MjpegParser {
    const maxFrameBytes: nat
    var buffer: seq<byte>
    /** The frames passed to the callback, in call order. */
    var delivered: seq<seq<byte>>

    predicate Valid()
      reads this
    {
      Residue(buffer) && !Oversize(buffer, maxFrameBytes)
    }

    constructor (maxFrameBytes: nat)
      ensures Valid() && buffer == [] && delivered == []
      ensures this.maxFrameBytes == maxFrameBytes
    {
      this.maxFrameBytes := maxFrameBytes;
      buffer, delivered := [], [];
    }

    method Append(data: array?<byte>, size: nat) returns (status: AppendStatus)
      requires Valid()
      requires data != null ==> size <= data.Length
      modifies this
      ensures Valid()
      ensures status == NullInput <==> data == null && size != 0
      ensures status == NullInput ==> buffer == old(buffer) && delivered == old(delivered)
      ensures status != NullInput ==>
                var fed := Feed(old(buffer), if data == null then [] else data[..size], maxFrameBytes);
                && buffer == fed.buffer
                && delivered == old(delivered) + fed.frames
                && (status == Appended <==> fed.ok)
    {
      hide Split, Search, Residue, WellFormed, Pending, MarkerFree, Headed, MarkerAt, Feed, Oversize, OpensFrame;
      hide LoneMarker;
      if data == null && size != 0 {
        return NullInput;
      }
      ghost var chunk := if data == null then [] else data[..size];
      FeedBounds(buffer, chunk, maxFrameBytes);
      if size == 0 {
        EmptyChunk(buffer, maxFrameBytes);
        return Appended;
      }
      buffer := buffer + data[..size];
      ghost var first, whole := delivered, buffer;
      assert Pending(first, whole, delivered, buffer) by { PendingStarts(first, whole); }
      while true
        invariant Pending(first, whole, delivered, buffer)
        decreases |buffer|
      {
        var soi := Search(buffer, SOI, 0);
        if soi == |buffer| {
          NothingStep(buffer);
          FeedEnds(old(buffer), chunk, maxFrameBytes, first, delivered, buffer, LoneMarker(buffer));
          LoneMarkerSize(buffer);
          KeepLoneMarker();
          return Appended;
        }
        PendingGap(first, whole, delivered, buffer);
        if soi != 0 {
          buffer := buffer[soi..];
        } else {
          assert buffer[0..] == buffer;
        }
        var eoi := Search(buffer, EOI, 2);
        if eoi == |buffer| {
          HalfStep(buffer);
          FeedEnds(old(buffer), chunk, maxFrameBytes, first, delivered, buffer, buffer);
          if |buffer| > maxFrameBytes {
            buffer := [];
            return FrameTooLarge;
          }
          return Appended;
        }
        FrameIsThere(buffer);
        PendingFrame(first, whole, delivered, buffer);
        EmitFrame(eoi + 2);
      }
    }

    /** Without a start marker only a trailing 0xFF is kept. */
    method KeepLoneMarker()
      modifies this`buffer
      ensures buffer == LoneMarker(old(buffer))
    {
      var trailing := buffer != [] && buffer[|buffer| - 1] == MARKER;
      buffer := [];
      if trailing {
        buffer := [MARKER];
      }
    }

    method EmitFrame(frameSize: nat)
      requires frameSize <= |buffer|
      modifies this`buffer, this`delivered
      ensures delivered == old(delivered) + [old(buffer)[..frameSize]]
      ensures buffer == old(buffer)[frameSize..]
    {
      var frame := buffer[..frameSize];
      buffer := buffer[frameSize..];
      delivered := delivered + [frame];
    }

    method Reset()
      modifies this
      ensures Valid() && buffer == [] && delivered == old(delivered)
    {
      buffer := [];
    }
  }
}
