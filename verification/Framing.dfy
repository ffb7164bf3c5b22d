/**
 Length-prefixed framing of the controller bridge: a four-byte big-endian
 length, then that many payload bytes.

 The decoder is specified without reference to its own loop.  A byte stream
 "splits" into frames and a rest when it is the concatenation of the frames'
 encodings and the rest; decoding stops at a rest that is either stalled (no
 complete frame yet) or oversized (a header above the limit).
 */
module Framing {
  newtype Byte = b: int | 0 <= b < 256

  type Frame = seq<Byte>

  const HEADER_LEN: nat := 4
  const MAX_FRAME_LEN: nat := 64 * 1024
  const U32_MODULUS: nat := 0x1_0000_0000

  /** u32::from_be_bytes */
  function HeaderValue(h: seq<Byte>): (n: nat)
    requires |h| == HEADER_LEN
  {
    ((h[0] as nat * 256 + h[1] as nat) * 256 + h[2] as nat) * 256 + h[3] as nat
  }

  /** u32::to_be_bytes */
  function HeaderBytes(n: nat): (h: seq<Byte>)
    requires n < U32_MODULUS
    ensures |h| == HEADER_LEN && HeaderValue(h) == n
  {
    var n1 := n / 256;
    var n2 := n1 / 256;
    var n3 := n2 / 256;
    [n3 as Byte, (n2 % 256) as Byte, (n1 % 256) as Byte, (n % 256) as Byte]
  }

  /** Most significant byte first. */
  lemma BigEndian(h: seq<Byte>)
    requires |h| == HEADER_LEN
    ensures var n := HeaderValue(h);
            && n == h[0] as nat * 0x100_0000 + h[1] as nat * 0x1_0000 + h[2] as nat * 0x100 + h[3] as nat
            && n < U32_MODULUS && h[0] as nat == n / 0x100_0000
  {
    var low := h[1] as nat * 0x1_0000 + h[2] as nat * 0x100 + h[3] as nat;
    assert HeaderValue(h) == h[0] as nat * 0x100_0000 + low && low < 0x100_0000;
  }

  /** The length is cast to 32 bits, as in the source. */
  function Encode(frame: Frame): (bytes: seq<Byte>)
    ensures |bytes| == HEADER_LEN + |frame|
    ensures bytes[HEADER_LEN..] == frame
    ensures |frame| < U32_MODULUS ==> HeaderValue(bytes[..HEADER_LEN]) == |frame|
  {
    HeaderBytes(|frame| % U32_MODULUS) + frame
  }

  function EncodeAll(frames: seq<Frame>): seq<Byte> {
    if frames == [] then [] else Encode(frames[0]) + EncodeAll(frames[1..])
  }

  predicate WellSized(frames: seq<Frame>) {
    forall i :: 0 <= i < |frames| ==> |frames[i]| <= MAX_FRAME_LEN
  }

  predicate Oversized(s: seq<Byte>) {
    HEADER_LEN <= |s| && MAX_FRAME_LEN < HeaderValue(s[..HEADER_LEN])
  }

  predicate Stalled(s: seq<Byte>) {
    HEADER_LEN <= |s| ==>
      && HeaderValue(s[..HEADER_LEN]) <= MAX_FRAME_LEN
      && |s| < HEADER_LEN + HeaderValue(s[..HEADER_LEN])
  }

  predicate Splits(stream: seq<Byte>, frames: seq<Frame>, rest: seq<Byte>) {
    WellSized(frames) && stream == EncodeAll(frames) + rest
  }

  datatype FeedResult = Decoded(frames: seq<Frame>) | Rejected(length: nat)

  /** What one call of `feed` may do to a buffer. */
  ghost predicate FeedStep(before: seq<Byte>, chunk: seq<Byte>, r: FeedResult, after: seq<Byte>) {
    match r
    case Decoded(frames) => Splits(before + chunk, frames, after) && Stalled(after)
    case Rejected(length) =>
      && after == []
      && exists frames, rest ::
           && Splits(before + chunk, frames, rest)
           && Oversized(rest) && length == HeaderValue(rest[..HEADER_LEN])
  }

  class FrameCodec {
    var buffer: seq<Byte>

    constructor ()
      ensures buffer == []
    {
      buffer := [];
    }

    method Feed(chunk: seq<Byte>) returns (r: FeedResult)
      modifies this
      ensures FeedStep(old(buffer), chunk, r, buffer)
      ensures |buffer| < HEADER_LEN + MAX_FRAME_LEN
    {
      hide EncodeAll, HeaderValue;
      buffer := buffer + chunk;
      ghost var stream := buffer;
      var frames: seq<Frame> := [];
      NothingSplit(stream);
      while true
        invariant Splits(stream, frames, buffer)
        decreases |buffer|
      {
        if |buffer| < HEADER_LEN {
          return Decoded(frames);
        }
        var length := HeaderValue(buffer[..HEADER_LEN]);
        if length > MAX_FRAME_LEN {
          assert FeedStep(old(buffer), chunk, Rejected(length), []);
          Reset();
          return Rejected(length);
        }
        if |buffer| < HEADER_LEN + length {
          return Decoded(frames);
        }
        var frame := buffer[HEADER_LEN..HEADER_LEN + length];
        AppendFrame(stream, frames, buffer, frame);
        buffer := buffer[HEADER_LEN + length..];
        frames := frames + [frame];
      }
    }

    method Reset()
      modifies this
      ensures buffer == []
    {
      buffer := [];
    }
  }

  lemma NothingSplit(stream: seq<Byte>)
    ensures Splits(stream, [], stream)
  {
    assert EncodeAll([]) + stream == stream;
  }

  lemma LastDigit(q: nat, b: nat, q': nat, b': nat)
    requires b < 256 && b' < 256 && q * 256 + b == q' * 256 + b'
    ensures q == q' && b == b'
  {
  }

  lemma HeaderInjective(g: seq<Byte>, h: seq<Byte>)
    requires |g| == |h| == HEADER_LEN && HeaderValue(g) == HeaderValue(h)
    ensures g == h
  {
    var g1, h1 := g[0] as nat * 256 + g[1] as nat, h[0] as nat * 256 + h[1] as nat;
    var g2, h2 := g1 * 256 + g[2] as nat, h1 * 256 + h[2] as nat;
    LastDigit(g2, g[3] as nat, h2, h[3] as nat);
    LastDigit(g1, g[2] as nat, h1, h[2] as nat);
    LastDigit(g[0] as nat, g[1] as nat, h[0] as nat, h[1] as nat);
  }

  lemma {:induction false} EncodeAllAppend(frames: seq<Frame>, frame: Frame)
    ensures EncodeAll(frames + [frame]) == EncodeAll(frames) + Encode(frame)
  {
    if frames == [] {
      assert EncodeAll([frame]) == Encode(frame) + EncodeAll([]);
    } else {
      assert (frames + [frame])[1..] == frames[1..] + [frame];
      EncodeAllAppend(frames[1..], frame);
    }
  }

  /** One iteration of the decoding loop keeps the split. */
  lemma AppendFrame(stream: seq<Byte>, frames: seq<Frame>, buffer: seq<Byte>, frame: Frame)
    requires Splits(stream, frames, buffer) && HEADER_LEN <= |buffer|
    requires var length := HeaderValue(buffer[..HEADER_LEN]);
             && length <= MAX_FRAME_LEN && HEADER_LEN + length <= |buffer|
             && frame == buffer[HEADER_LEN..HEADER_LEN + length]
    ensures Splits(stream, frames + [frame], buffer[HEADER_LEN + |frame|..])
  {
    hide Encode, EncodeAll, HeaderValue;
    var rest := buffer[HEADER_LEN + |frame|..];
    FrameInFront(buffer, frame);
    EncodeAllAppend(frames, frame);
    assert EncodeAll(frames) + (Encode(frame) + rest) == EncodeAll(frames) + Encode(frame) + rest;
  }

  lemma FrameInFront(buffer: seq<Byte>, frame: Frame)
    requires HEADER_LEN <= |buffer|
    requires var length := HeaderValue(buffer[..HEADER_LEN]);
             && length <= MAX_FRAME_LEN && HEADER_LEN + length <= |buffer|
             && frame == buffer[HEADER_LEN..HEADER_LEN + length]
    ensures buffer == Encode(frame) + buffer[HEADER_LEN + |frame|..]
  {
    HeaderInjective(Encode(frame)[..HEADER_LEN], buffer[..HEADER_LEN]);
    assert Encode(frame) == Encode(frame)[..HEADER_LEN] + frame == buffer[..HEADER_LEN + |frame|];
  }

  /** A stream that starts with a complete frame is neither stalled nor oversized. */
  lemma StartsWithFrame(frame: Frame, tail: seq<Byte>)
    requires |frame| <= MAX_FRAME_LEN
    ensures !Stalled(Encode(frame) + tail) && !Oversized(Encode(frame) + tail)
  {
    assert (Encode(frame) + tail)[..HEADER_LEN] == Encode(frame)[..HEADER_LEN];
  }

  lemma SameFirstFrame(f: Frame, s: seq<Byte>, g: Frame, t: seq<Byte>)
    requires |f| <= MAX_FRAME_LEN && |g| <= MAX_FRAME_LEN
    requires Encode(f) + s == Encode(g) + t
    ensures f == g && s == t
  {
    var stream := Encode(f) + s;
    assert stream[..HEADER_LEN] == Encode(f)[..HEADER_LEN] == Encode(g)[..HEADER_LEN];
    assert stream[..HEADER_LEN + |f|] == Encode(f) == Encode(g);
    assert stream[HEADER_LEN + |f|..] == s == t;
  }

  /**
   Frames decoded from the front of a stream are a prefix of the frames of the
   whole stream, and what follows them splits into the remaining ones.
   */
  lemma {:induction false} PrefixOfSplit(front: seq<Frame>, tail: seq<Byte>, frames: seq<Frame>, rest: seq<Byte>)
    requires WellSized(front) && WellSized(frames) && (Stalled(rest) || Oversized(rest))
    requires EncodeAll(front) + tail == EncodeAll(frames) + rest
    ensures front <= frames && Splits(tail, frames[|front|..], rest)
  {
    if front == [] {
      assert EncodeAll(front) + tail == tail;
      assert frames[0..] == frames;
    } else {
      assert EncodeAll(front) + tail == Encode(front[0]) + (EncodeAll(front[1..]) + tail);
      if frames == [] {
        assert EncodeAll(frames) + rest == rest;
        StartsWithFrame(front[0], EncodeAll(front[1..]) + tail);
        assert false;
      }
      assert EncodeAll(frames) + rest == Encode(frames[0]) + (EncodeAll(frames[1..]) + rest);
      SameFirstFrame(front[0], EncodeAll(front[1..]) + tail, frames[0], EncodeAll(frames[1..]) + rest);
      PrefixOfSplit(front[1..], tail, frames[1..], rest);
      assert front == [front[0]] + front[1..] && frames == [frames[0]] + frames[1..];
      assert frames[1..][|front[1..]|..] == frames[|front|..];
    }
  }

  /** A stream has at most one decomposition at which decoding stops. */
  lemma UniqueSplit(stream: seq<Byte>, frames: seq<Frame>, rest: seq<Byte>, frames': seq<Frame>, rest': seq<Byte>)
    requires Splits(stream, frames, rest) && (Stalled(rest) || Oversized(rest))
    requires Splits(stream, frames', rest') && (Stalled(rest') || Oversized(rest'))
    ensures frames == frames' && rest == rest'
  {
    PrefixOfSplit(frames, rest, frames', rest');
    PrefixOfSplit(frames', rest', frames, rest);
    assert EncodeAll([]) + rest' == rest';
  }

  /** A stalled buffer holds no frame. */
  lemma StalledSplit(buffer: seq<Byte>, frames: seq<Frame>, rest: seq<Byte>)
    requires Stalled(buffer) && Splits(buffer + [], frames, rest) && (Stalled(rest) || Oversized(rest))
    ensures frames == [] && rest == buffer
  {
    assert buffer + [] == buffer == EncodeAll([]) + buffer;
    UniqueSplit(buffer, [], buffer, frames, rest);
  }

  /** Outcome and next buffer of a call are a function of the buffer and the chunk. */
  lemma FeedDeterministic(before: seq<Byte>, chunk: seq<Byte>, r: FeedResult, after: seq<Byte>, r': FeedResult,
                          after': seq<Byte>)
    requires FeedStep(before, chunk, r, after) && FeedStep(before, chunk, r', after')
    ensures r == r' && after == after'
  {
    var frames, rest := Outcome(before, chunk, r, after);
    var frames', rest' := Outcome(before, chunk, r', after');
    UniqueSplit(before + chunk, frames, rest, frames', rest');
    assert Stalled(rest) <==> !Oversized(rest);
  }

  lemma Outcome(before: seq<Byte>, chunk: seq<Byte>, r: FeedResult, after: seq<Byte>)
    returns (frames: seq<Frame>, rest: seq<Byte>)
    requires FeedStep(before, chunk, r, after)
    ensures Splits(before + chunk, frames, rest)
    ensures r.Decoded? ==> frames == r.frames && rest == after && Stalled(rest)
    ensures r.Rejected? ==> Oversized(rest) && r.length == HeaderValue(rest[..HEADER_LEN])
  {
    if r.Decoded? {
      frames, rest := r.frames, after;
    } else {
      frames, rest :| Splits(before + chunk, frames, rest) && Oversized(rest)
          && r.length == HeaderValue(rest[..HEADER_LEN]);
    }
  }

  // Runs of feed calls over a list of chunks

  function Concat(chunks: seq<seq<Byte>>): seq<Byte> {
    if chunks == [] then [] else chunks[0] + Concat(chunks[1..])
  }

  function Delivered(results: seq<FeedResult>): seq<Frame> {
    if results == [] then []
    else (if results[0].Decoded? then results[0].frames else []) + Delivered(results[1..])
  }

  /** The index of the first rejection, or the number of results when there is none. */
  function FirstRejection(results: seq<FeedResult>): (i: nat)
    ensures i <= |results|
    ensures i < |results| ==> results[i].Rejected?
    ensures forall j :: 0 <= j < i ==> results[j].Decoded?
  {
    if results == [] || results[0].Rejected? then 0 else 1 + FirstRejection(results[1..])
  }

  ghost predicate FeedRun(before: seq<Byte>, chunks: seq<seq<Byte>>, results: seq<FeedResult>, after: seq<Byte>)
    decreases chunks
  {
    && |results| == |chunks|
    && if chunks == [] then after == before
       else exists mid :: FeedStep(before, chunks[0], results[0], mid) && FeedRun(mid, chunks[1..], results[1..], after)
  }

  /**
   Framing is independent of chunking: whatever frames and stalled rest the
   bytes contain, any way of cutting the bytes into chunks delivers exactly
   those frames, in order, and leaves exactly that rest buffered.
   */
  lemma {:induction false} ChunkingIndependent(before: seq<Byte>, chunks: seq<seq<Byte>>, results: seq<FeedResult>,
                                               after: seq<Byte>, frames: seq<Frame>, rest: seq<Byte>)
    requires Stalled(before) && FeedRun(before, chunks, results, after)
    requires Splits(before + Concat(chunks), frames, rest) && Stalled(rest)
    ensures FirstRejection(results) == |results|
    ensures Delivered(results) == frames && after == rest
    decreases chunks
  {
    hide FeedStep, EncodeAll, Stalled;
    if chunks == [] {
      StalledSplit(before, frames, rest);
    } else {
      StalledNotOversized(rest);
      var mid :| FeedStep(before, chunks[0], results[0], mid) && FeedRun(mid, chunks[1..], results[1..], after);
      var front, tail := FirstChunk(before, chunks, results[0], mid, frames, rest);
      ChunkingIndependent(mid, chunks[1..], results[1..], after, frames[|front|..], rest);
    }
  }

  /** The first call of a run, against the split of the whole stream. */
  lemma FirstChunk(before: seq<Byte>, chunks: seq<seq<Byte>>, r: FeedResult, mid: seq<Byte>, frames: seq<Frame>,
                   rest: seq<Byte>)
    returns (front: seq<Frame>, tail: seq<Byte>)
    requires chunks != [] && FeedStep(before, chunks[0], r, mid)
    requires Splits(before + Concat(chunks), frames, rest) && (Stalled(rest) || Oversized(rest))
    ensures Splits(before + chunks[0], front, tail)
    ensures r.Decoded? ==>
              && r.frames == front && tail == mid && Stalled(mid) && front <= frames
              && Splits(mid + Concat(chunks[1..]), frames[|front|..], rest)
    ensures r.Rejected? ==>
              && Oversized(rest) && Oversized(tail) && front == frames && rest == tail + Concat(chunks[1..])
              && r.length == HeaderValue(rest[..HEADER_LEN])
  {
    hide Stalled, Oversized;
    front, tail := Outcome(before, chunks[0], r, mid);
    var more := Concat(chunks[1..]);
    FirstSplit(before, chunks[0], more, front, tail);
    assert before + Concat(chunks) == before + chunks[0] + more;
    if r.Decoded? {
      PrefixOfSplit(front, tail + more, frames, rest);
    } else {
      OversizedExtends(tail, more);
      UniqueSplit(before + Concat(chunks), front, tail + more, frames, rest);
    }
  }

  lemma FirstSplit(before: seq<Byte>, chunk: seq<Byte>, more: seq<Byte>, front: seq<Frame>, tail: seq<Byte>)
    requires Splits(before + chunk, front, tail)
    ensures Splits(before + chunk + more, front, tail + more)
  {
    assert EncodeAll(front) + tail + more == EncodeAll(front) + (tail + more);
  }

  lemma StalledNotOversized(s: seq<Byte>)
    requires Stalled(s)
    ensures !Oversized(s)
  {
  }

  /** What is left of one split, split further with more bytes. */
  lemma SplitsJoin(s: seq<Byte>, front: seq<Frame>, buffer: seq<Byte>, chunk: seq<Byte>, first: seq<Frame>,
                   tail: seq<Byte>)
    requires Splits(s, front, buffer) && Splits(buffer + chunk, first, tail)
    ensures Splits(s + chunk, front + first, tail)
  {
    hide EncodeAll;
    EncodeAllConcat(front, first);
    var f, g := EncodeAll(front), EncodeAll(first);
    Associates(f, buffer, chunk);
    Associates(f, g, tail);
    WellSizedJoin(front, first);
  }

  lemma Associates(a: seq<Byte>, b: seq<Byte>, c: seq<Byte>)
    ensures (a + b) + c == a + (b + c)
  {
  }

  lemma WellSizedJoin(a: seq<Frame>, b: seq<Frame>)
    requires WellSized(a) && WellSized(b)
    ensures WellSized(a + b)
  {
  }

  /** More bytes do not change a header that is complete. */
  lemma OversizedExtends(tail: seq<Byte>, more: seq<Byte>)
    requires Oversized(tail)
    ensures Oversized(tail + more) && HeaderValue((tail + more)[..HEADER_LEN]) == HeaderValue(tail[..HEADER_LEN])
  {
    assert (tail + more)[..HEADER_LEN] == tail[..HEADER_LEN];
  }

  /** Decoding the concatenated encodings, cut anywhere, gives the frames back and empties the buffer. */
  lemma RoundTrip(frames: seq<Frame>, chunks: seq<seq<Byte>>, results: seq<FeedResult>, after: seq<Byte>)
    requires forall i :: 0 <= i < |frames| ==> |frames[i]| <= 0x1_0000
    requires Concat(chunks) == EncodeAll(frames) && FeedRun([], chunks, results, after)
    ensures FirstRejection(results) == |results|
    ensures Delivered(results) == frames && after == []
  {
    assert [] + Concat(chunks) == EncodeAll(frames) + [];
    ChunkingIndependent([], chunks, results, after, frames, []);
  }

  /**
   The law fails for a stream with an oversized header: the call that meets it
   discards the frames it had already decoded.  The frames delivered before the
   rejection are still a prefix of the good ones.  The rejecting call is the one
   whose chunk completes the oversized header.
   */
  lemma {:induction false} RejectedRun(before: seq<Byte>, chunks: seq<seq<Byte>>, results: seq<FeedResult>,
                                       after: seq<Byte>, frames: seq<Frame>, rest: seq<Byte>)
    requires Stalled(before) && FeedRun(before, chunks, results, after)
    requires Splits(before + Concat(chunks), frames, rest) && Oversized(rest)
    ensures RejectedAt(FirstRejection(results), before, chunks, results, frames, rest)
    decreases chunks
  {
    hide FeedStep, Stalled, Oversized, EncodeAll, RejectedAt;
    StalledNotOversized(before);
    if chunks == [] {
      StalledSplit(before, frames, rest);
      assert false;
    }
    var mid :| FeedStep(before, chunks[0], results[0], mid) && FeedRun(mid, chunks[1..], results[1..], after);
    var front, tail := FirstChunk(before, chunks, results[0], mid, frames, rest);
    if results[0].Rejected? {
      RejectedFirst(before, chunks, results, frames, rest, tail);
    } else {
      RejectedRun(mid, chunks[1..], results[1..], after, frames[|front|..], rest);
      SplitLength(before + chunks[0], front, mid);
      RejectedLater(FirstRejection(results[1..]), before, mid, chunks, results, frames, rest);
    }
  }

  lemma SplitLength(s: seq<Byte>, frames: seq<Frame>, rest: seq<Byte>)
    requires Splits(s, frames, rest)
    ensures |s| == |EncodeAll(frames)| + |rest|
  {
  }

  lemma RejectedFirst(before: seq<Byte>, chunks: seq<seq<Byte>>, results: seq<FeedResult>, frames: seq<Frame>,
                      rest: seq<Byte>, tail: seq<Byte>)
    requires |results| == |chunks| > 0 && Stalled(before) && Splits(before + chunks[0], frames, tail)
    requires Oversized(tail) && tail <= rest && Oversized(rest)
    requires results[0] == Rejected(HeaderValue(rest[..HEADER_LEN]))
    ensures RejectedAt(0, before, chunks, results, frames, rest)
  {
    assert tail[..HEADER_LEN] == rest[..HEADER_LEN];
    assert results[..0] == [] && chunks[..0] == [];
    assert Concat(chunks[..1]) == chunks[0] + Concat(chunks[..1][1..]) == chunks[0] + [];
    StalledBeforeHeader(before, chunks[0], frames, tail);
    assert |before| + |chunks[0]| == |EncodeAll(frames)| + |tail|;
    if frames != [] {
      FrameOutgrowsStalled(before, frames, chunks[0], tail);
    }
  }

  ghost predicate RejectedAt(i: nat, before: seq<Byte>, chunks: seq<seq<Byte>>, results: seq<FeedResult>,
                             frames: seq<Frame>, rest: seq<Byte>)
    requires |results| == |chunks| && Oversized(rest)
  {
    && i < |results| && results[i] == Rejected(HeaderValue(rest[..HEADER_LEN]))
    && Delivered(results[..i]) <= frames
    && (Delivered(results[..i]) == frames <==> |EncodeAll(frames)| <= |before| + |Concat(chunks[..i])|)
    && |before| + |Concat(chunks[..i])| < |EncodeAll(frames)| + HEADER_LEN <= |before| + |Concat(chunks[..i + 1])|
  }

  /** A stalled buffer is shorter than what it takes to see an oversized header. */
  lemma StalledBeforeHeader(before: seq<Byte>, chunk: seq<Byte>, frames: seq<Frame>, tail: seq<Byte>)
    requires Stalled(before) && Splits(before + chunk, frames, tail) && Oversized(tail)
    ensures |before| < |EncodeAll(frames)| + HEADER_LEN
  {
    if frames == [] {
      assert before + chunk == tail;
    } else {
      FrameOutgrowsStalled(before, frames, chunk, tail);
    }
  }

  lemma {:induction false} ConcatGrows(chunks: seq<seq<Byte>>, a: nat, b: nat)
    requires a <= b <= |chunks|
    ensures |Concat(chunks[..a])| <= |Concat(chunks[..b])|
  {
    if a == 0 {
    } else {
      assert chunks[..a][1..] == chunks[1..][..a - 1] && chunks[..b][1..] == chunks[1..][..b - 1];
      ConcatGrows(chunks[1..], a - 1, b - 1);
    }
  }

  /** The bytes up to some chunk boundary hold all the good frames and not yet the whole oversized header. */
  ghost predicate BoundaryBeforeHeader(before: seq<Byte>, chunks: seq<seq<Byte>>, frames: seq<Frame>) {
    exists k :: 0 <= k <= |chunks| && ParksAt(before, chunks, frames, k)
  }

  predicate ParksAt(before: seq<Byte>, chunks: seq<seq<Byte>>, frames: seq<Frame>, k: nat)
    requires k <= |chunks|
  {
    |EncodeAll(frames)| <= |before| + |Concat(chunks[..k])| < |EncodeAll(frames)| + HEADER_LEN
  }

  /**
   When nothing is lost, on the input alone: all the good frames are delivered
   if and only if a chunk boundary falls behind them and before the last byte
   of the oversized header.
   */
  lemma NothingLostIff(before: seq<Byte>, chunks: seq<seq<Byte>>, results: seq<FeedResult>, after: seq<Byte>,
                       frames: seq<Frame>, rest: seq<Byte>)
    requires Stalled(before) && FeedRun(before, chunks, results, after)
    requires Splits(before + Concat(chunks), frames, rest) && Oversized(rest)
    ensures Delivered(results[..FirstRejection(results)]) == frames <==> BoundaryBeforeHeader(before, chunks, frames)
  {
    var i := FirstRejection(results);
    RejectedRun(before, chunks, results, after, frames, rest);
    if Delivered(results[..i]) == frames {
      assert ParksAt(before, chunks, frames, i);
    }
    if BoundaryBeforeHeader(before, chunks, frames) {
      var k :| 0 <= k <= |chunks| && ParksAt(before, chunks, frames, k);
      if k <= i {
        ConcatGrows(chunks, k, i);
      } else {
        ConcatGrows(chunks, i + 1, k);
      }
    }
  }

  lemma RejectedLater(i: nat, before: seq<Byte>, mid: seq<Byte>, chunks: seq<seq<Byte>>, results: seq<FeedResult>,
                      frames: seq<Frame>, rest: seq<Byte>)
    requires |results| == |chunks| > 0 && Oversized(rest)
    requires results[0].Decoded? && results[0].frames <= frames
    requires |before| + |chunks[0]| == |EncodeAll(results[0].frames)| + |mid|
    requires RejectedAt(i, mid, chunks[1..], results[1..], frames[|results[0].frames|..], rest)
    ensures RejectedAt(1 + i, before, chunks, results, frames, rest)
  {
    var front := results[0].frames;
    var later := frames[|front|..];
    assert front + later == frames;
    DeliveredStep(results, chunks, i);
    DeliveredStep(results, chunks, i + 1);
    EncodeAllConcat(front, later);
    var delivered := Delivered(results[1..][..i]);
    assert front + delivered == frames <==> delivered == later by {
      if front + delivered == frames {
        assert delivered == (front + delivered)[|front|..];
      }
    }
  }

  lemma DeliveredStep(results: seq<FeedResult>, chunks: seq<seq<Byte>>, i: nat)
    requires results != [] && results[0].Decoded? && chunks != [] && |chunks| == |results| && i <= |results[1..]|
    ensures Delivered(results[..1 + i]) == results[0].frames + Delivered(results[1..][..i])
    ensures Concat(chunks[..1 + i]) == chunks[0] + Concat(chunks[1..][..i])
  {
    assert results[..1 + i][1..] == results[1..][..i];
    assert chunks[..1 + i][1..] == chunks[1..][..i];
  }

  lemma {:induction false} EncodeAllConcat(a: seq<Frame>, b: seq<Frame>)
    ensures EncodeAll(a + b) == EncodeAll(a) + EncodeAll(b)
  {
    if a == [] {
      assert a + b == b;
    } else {
      assert (a + b)[1..] == a[1..] + b;
      EncodeAllConcat(a[1..], b);
    }
  }

  /** A stalled buffer is shorter than any frame it begins. */
  lemma FrameOutgrowsStalled(before: seq<Byte>, frames: seq<Frame>, chunk: seq<Byte>, tail: seq<Byte>)
    requires Stalled(before) && frames != [] && Splits(before + chunk, frames, tail)
    ensures |before| < |Encode(frames[0])| <= |EncodeAll(frames)|
  {
    if HEADER_LEN <= |before| {
      assert before[..HEADER_LEN] == (before + chunk)[..HEADER_LEN] == Encode(frames[0])[..HEADER_LEN];
    }
  }

  /** Chunks no longer than a header never lose a frame; five bytes can. */
  lemma SmallChunksLoseNothing(before: seq<Byte>, chunk: seq<Byte>, frames: seq<Frame>, rest: seq<Byte>)
    requires Stalled(before) && |chunk| <= HEADER_LEN
    requires Splits(before + chunk, frames, rest) && Oversized(rest)
    ensures frames == []
  {
    if frames != [] {
      assert |before| + |chunk| == |EncodeAll(frames)| + |rest|;
      FrameOutgrowsStalled(before, frames, chunk, rest);
      assert false;
    }
  }

  lemma FiveBytesCanLoseAFrame()
    ensures var frame: Frame := [7];
            var chunk: seq<Byte> := [7, 255, 255, 255, 255];
            && Stalled(HeaderBytes(1))
            && Splits(HeaderBytes(1) + chunk, [frame], chunk[1..]) && Oversized(chunk[1..])
            && FeedStep(HeaderBytes(1), chunk, Rejected(0xFFFF_FFFF), [])
  {
    var frame: Frame := [7];
    var chunk: seq<Byte> := [7, 255, 255, 255, 255];
    assert HeaderBytes(1)[..HEADER_LEN] == HeaderBytes(1);
    assert EncodeAll([frame]) == Encode(frame) + EncodeAll([]) == HeaderBytes(1) + frame;
    assert HeaderBytes(1) + chunk == EncodeAll([frame]) + chunk[1..];
    assert chunk[1..][..HEADER_LEN] == [255, 255, 255, 255];
    assert Splits(HeaderBytes(1) + chunk, [frame], chunk[1..]);
  }
}
