/**
 Which commands a byte stream completes, and when that does not depend on how
 the stream is cut into chunks.

 A frame that cannot be decoded ends the handling of its chunk: the frames behind
 it in the same chunk are dropped.
 */
module StreamReplies {
  import opened Framing
  import opened Transport
  import opened Commands
  import opened Connection

  predicate Readable(p: Protocol, frame: Frame) {
    !p.decode(frame).Undecodable?
  }

  predicate AllReadable(p: Protocol, frames: seq<Frame>) {
    forall i :: 0 <= i < |frames| ==> Readable(p, frames[i])
  }

  // ----- The reference: every frame handled, in order

  function HandleOne(p: Protocol, l: Ledger, frame: Frame): Ledger {
    match p.decode(frame)
    case ReplyFrame(reply) => HandleReply(l, reply)
    case EventFrame(_) => l
    case Undecodable => l
  }

  function HandleEach(p: Protocol, l: Ledger, frames: seq<Frame>): Ledger
    decreases frames
  {
    if frames == [] then l else HandleEach(p, HandleOne(p, l, frames[0]), frames[1..])
  }

  lemma {:induction false} HandleConcat(p: Protocol, l: Ledger, a: seq<Frame>, b: seq<Frame>)
    ensures HandleEach(p, l, a + b) == HandleEach(p, HandleEach(p, l, a), b)
    decreases a
  {
    if a == [] {
      assert a + b == b;
    } else {
      assert (a + b)[1..] == a[1..] + b;
      HandleConcat(p, HandleOne(p, l, a[0]), a[1..], b);
    }
  }

  // ----- What one chunk's frames do

  /** The frames in front of the first one that cannot be decoded. */
  function Kept(p: Protocol, frames: seq<Frame>): seq<Frame> {
    if frames == [] || !Readable(p, frames[0]) then [] else [frames[0]] + Kept(p, frames[1..])
  }

  lemma {:induction false} ChunkHandles(p: Protocol, c: Conn, frames: seq<Frame>)
    ensures HandleFrames(p, c, frames).0.ledger == HandleEach(p, c.ledger, Kept(p, frames))
    decreases frames
  {
    hide HandleReply;
    if frames == [] || !Readable(p, frames[0]) {
    } else {
      var c1 := HandleFrame(p, c, frames[0]).0;
      ChunkHandles(p, c1, frames[1..]);
      assert ([frames[0]] + Kept(p, frames[1..]))[1..] == Kept(p, frames[1..]);
    }
  }

  lemma {:induction false} KeptPrefix(p: Protocol, frames: seq<Frame>)
    ensures Kept(p, frames) <= frames
    ensures AllReadable(p, frames) <==> Kept(p, frames) == frames
    ensures |Kept(p, frames)| < |frames| ==> !Readable(p, frames[|Kept(p, frames)|])
  {
    if frames == [] || !Readable(p, frames[0]) {
    } else {
      KeptPrefix(p, frames[1..]);
      assert frames == [frames[0]] + frames[1..];
      assert AllReadable(p, frames) ==> AllReadable(p, frames[1..]);
      assert forall i :: 0 < i < |frames| ==> frames[i] == frames[1..][i - 1];
    }
  }

  lemma {:induction false} KeptConcat(p: Protocol, a: seq<Frame>, b: seq<Frame>)
    ensures Kept(p, a + b) == if Kept(p, a) == a then a + Kept(p, b) else Kept(p, a)
  {
    if a == [] {
      assert a + b == b;
    } else if !Readable(p, a[0]) {
    } else {
      assert (a + b)[1..] == a[1..] + b && a == [a[0]] + a[1..];
      KeptConcat(p, a[1..], b);
      assert Kept(p, a) == a <==> Kept(p, a[1..]) == a[1..] by {
        assert ([a[0]] + Kept(p, a[1..]))[1..] == Kept(p, a[1..]);
      }
    }
  }

  // ----- Frames without effect

  /** Not a reply to a command that is pending. */
  predicate Orphan(p: Protocol, l: Ledger, frame: Frame) {
    p.decode(frame).ReplyFrame? ==> p.decode(frame).reply.sequence !in l.pending
  }

  predicate Orphans(p: Protocol, l: Ledger, frames: seq<Frame>) {
    forall i :: 0 <= i < |frames| ==> Orphan(p, l, frames[i])
  }

  lemma {:induction false} OrphansIgnored(p: Protocol, l: Ledger, frames: seq<Frame>)
    requires Orphans(p, l, frames)
    ensures HandleEach(p, l, frames) == l
  {
    if frames == [] {
    } else {
      OrphansIgnored(p, l, frames[1..]);
    }
  }

  /** Handling frames only takes commands out of the pending table, and every one that a reply names. */
  lemma {:induction false} HandlingEmpties(p: Protocol, l: Ledger, frames: seq<Frame>)
    ensures HandleEach(p, l, frames).pending.Keys <= l.pending.Keys
    ensures Orphans(p, HandleEach(p, l, frames), frames)
    decreases frames
  {
    if frames == [] {
    } else {
      var l1 := HandleOne(p, l, frames[0]);
      HandlingEmpties(p, l1, frames[1..]);
      assert Orphan(p, l1, frames[0]);
      assert forall i :: 0 < i < |frames| ==> frames[i] == frames[1..][i - 1];
    }
  }

  /** No reply behind the first frame that cannot be decoded names a command still pending there. */
  predicate Harmless(p: Protocol, l: Ledger, frames: seq<Frame>) {
    var kept := Kept(p, frames);
    |kept| <= |frames| && Orphans(p, HandleEach(p, l, kept), frames[|kept|..])
  }

  lemma ReadableIsHarmless(p: Protocol, l: Ledger, frames: seq<Frame>)
    requires AllReadable(p, frames)
    ensures Harmless(p, l, frames)
  {
    KeptPrefix(p, frames);
  }

  lemma HarmlessIff(p: Protocol, l: Ledger, frames: seq<Frame>)
    ensures Harmless(p, l, frames) <==> HandleEach(p, l, Kept(p, frames)) == HandleEach(p, l, frames)
  {
    KeptPrefix(p, frames);
    var kept := Kept(p, frames);
    var behind, l1 := frames[|kept|..], HandleEach(p, l, kept);
    assert frames == kept + behind;
    HandleConcat(p, l, kept, behind);
    HandlingEmpties(p, l1, behind);
    if Harmless(p, l, frames) {
      OrphansIgnored(p, l1, behind);
    }
  }

  /** Frames are handled to the end if and only if every one can be decoded. */
  lemma {:induction false} HandledIff(p: Protocol, c: Conn, frames: seq<Frame>)
    ensures HandleFrames(p, c, frames).1 <==> AllReadable(p, frames)
    decreases frames
  {
    hide HandleReply;
    if frames == [] || !Readable(p, frames[0]) {
    } else {
      HandledIff(p, HandleFrame(p, c, frames[0]).0, frames[1..]);
      assert forall i :: 0 < i < |frames| ==> frames[i] == frames[1..][i - 1];
      assert forall i :: 0 <= i < |frames[1..]| ==> frames[1..][i] == frames[i + 1];
    }
  }

  /**
   A receive that takes a chunk reports an error if and only if the bytes bring
   an oversized header or complete a frame that cannot be decoded.
   */
  lemma ErrorIff(p: Protocol, c: Conn, answer: RecvResult, bytes: seq<Byte>, frames: seq<Frame>, rest: seq<Byte>)
    requires Reports(p, c, answer) && c.events == [] && c.link == Connected
    requires c.inbound != [] && c.inbound[0] == Bytes(bytes)
    requires Splits(c.buffer + bytes, frames, rest) && (Stalled(rest) || Oversized(rest))
    ensures answer == RecvError <==> Oversized(rest) || !AllReadable(p, frames)
  {
    hide HandleFrames;
    var r, after :| FeedStep(c.buffer, bytes, r, after) && answer == FeedAnswer(p, c.(buffer := after), r);
    var front, tail := Outcome(c.buffer, bytes, r, after);
    UniqueSplit(c.buffer + bytes, front, tail, frames, rest);
    if r.Decoded? {
      StalledNotOversized(tail);
      HandledIff(p, c.(buffer := after), r.frames);
    }
  }

  // ----- What a list of feed results does

  function LedgerOver(p: Protocol, l: Ledger, results: seq<FeedResult>): Ledger
    decreases results
  {
    if results == [] then l
    else LedgerOver(p, if results[0].Decoded? then HandleEach(p, l, Kept(p, results[0].frames)) else l, results[1..])
  }

  lemma {:induction false} OrphanResults(p: Protocol, l: Ledger, results: seq<FeedResult>)
    requires Orphans(p, l, Delivered(results))
    ensures LedgerOver(p, l, results) == l
  {
    if results == [] {
    } else {
      var head, tail := HeadFrames(results), Delivered(results[1..]);
      assert Orphans(p, l, head) && Orphans(p, l, tail) by {
        assert forall i :: 0 <= i < |head| ==> head[i] == Delivered(results)[i];
        assert forall i :: 0 <= i < |tail| ==> tail[i] == Delivered(results)[|head| + i];
      }
      KeptPrefix(p, head);
      OrphansIgnored(p, l, Kept(p, head));
      OrphanResults(p, l, results[1..]);
    }
  }

  function HeadFrames(results: seq<FeedResult>): seq<Frame>
    requires results != []
  {
    if results[0].Decoded? then results[0].frames else []
  }

  /** Harmless frames have the same effect however they are delivered. */
  lemma {:induction false} HarmlessLedger(p: Protocol, l: Ledger, results: seq<FeedResult>)
    requires Harmless(p, l, Delivered(results))
    ensures LedgerOver(p, l, results) == HandleEach(p, l, Delivered(results))
    decreases results
  {
    if results == [] {
    } else {
      var head, tail, frames := HeadFrames(results), Delivered(results[1..]), Delivered(results);
      assert frames == head + tail;
      KeptConcat(p, head, tail);
      var l1 := HandleEach(p, l, Kept(p, head));
      if Kept(p, head) == head {
        HandleConcat(p, l, head, Kept(p, tail));
        HandleConcat(p, l, head, tail);
        assert frames[|head + Kept(p, tail)|..] == tail[|Kept(p, tail)|..];
        HarmlessLedger(p, l1, results[1..]);
      } else {
        KeptPrefix(p, head);
        HarmlessIff(p, l, frames);
        var behind := frames[|Kept(p, head)|..];
        assert forall i :: 0 <= i < |tail| ==> tail[i] == behind[|head| - |Kept(p, head)| + i];
        OrphanResults(p, l1, results[1..]);
      }
    }
  }

  // ----- Bytes

  ghost predicate FedAs(before: seq<Byte>, stream: seq<Byte>, chunks: seq<seq<Byte>>, results: seq<FeedResult>,
                        after: seq<Byte>) {
    Concat(chunks) == stream && FeedRun(before, chunks, results, after)
  }

  /**
   When the commands that a stream completes do not depend on its chunks: every
   way of cutting the stream has the effect of all its frames handled in order
   if and only if no reply behind the first frame that cannot be decoded names
   a command still pending there.
   */
  lemma ChunksIrrelevantIff(p: Protocol, l: Ledger, before: seq<Byte>, stream: seq<Byte>, frames: seq<Frame>,
                            rest: seq<Byte>)
    requires Stalled(before) && Splits(before + stream, frames, rest) && Stalled(rest)
    ensures (forall chunks, results, after :: FedAs(before, stream, chunks, results, after) ==>
               LedgerOver(p, l, results) == HandleEach(p, l, frames)) <==> Harmless(p, l, frames)
  {
    if Harmless(p, l, frames) {
      forall chunks, results, after | FedAs(before, stream, chunks, results, after)
        ensures LedgerOver(p, l, results) == HandleEach(p, l, frames)
      {
        ChunkingIndependent(before, chunks, results, after, frames, rest);
        HarmlessLedger(p, l, results);
      }
    } else {
      var chunks, results := OneChunk(before, stream, frames, rest);
      HarmlessIff(p, l, frames);
      OneResult(p, l, frames);
      assert FedAs(before, stream, chunks, results, rest);
    }
  }

  lemma OneChunk(before: seq<Byte>, stream: seq<Byte>, frames: seq<Frame>, rest: seq<Byte>)
    returns (chunks: seq<seq<Byte>>, results: seq<FeedResult>)
    requires Splits(before + stream, frames, rest) && Stalled(rest)
    ensures results == [Decoded(frames)] && FedAs(before, stream, chunks, results, rest)
  {
    chunks, results := [stream], [Decoded(frames)];
    assert Concat(chunks) == stream + Concat(chunks[1..]) == stream;
    assert FeedStep(before, stream, results[0], rest);
    assert FeedRun(rest, chunks[1..], results[1..], rest);
  }

  lemma OneResult(p: Protocol, l: Ledger, frames: seq<Frame>)
    ensures LedgerOver(p, l, [Decoded(frames)]) == HandleEach(p, l, Kept(p, frames))
  {
    assert [Decoded(frames)][1..] == [];
  }

  // ----- Runs of the connection

  /** The chunk a receive takes from the transport, if any. */
  function Taken(c: Conn, op: Op): seq<seq<Byte>> {
    if op.Receive? && c.events == [] && c.link == Connected && c.inbound != [] && c.inbound[0].Bytes?
    then [c.inbound[0].bytes] else []
  }

  function TakenOver(cs: seq<Conn>, ops: seq<Op>, i: nat, j: nat): seq<seq<Byte>>
    requires i <= j <= |ops| && j <= |cs|
  {
    if i == j then [] else TakenOver(cs, ops, i, j - 1) + Taken(cs[j - 1], ops[j - 1])
  }

  /** Only receives and arrivals, and no lost link. */
  ghost predicate Receiving(cs: seq<Conn>, ops: seq<Op>, i: nat, j: nat)
    requires i <= j <= |ops| && j < |cs|
  {
    && (forall m :: i <= m < j ==> ops[m].Receive? || ops[m].Inbound?)
    && (forall m :: i <= m < j ==> cs[m + 1].reconnects == cs[m].reconnects)
  }

  lemma {:induction false} FeedRunAppend(before: seq<Byte>, chunks: seq<seq<Byte>>, results: seq<FeedResult>,
                                         mid: seq<Byte>, chunk: seq<Byte>, r: FeedResult, after: seq<Byte>)
    requires FeedRun(before, chunks, results, mid) && FeedStep(mid, chunk, r, after)
    ensures FeedRun(before, chunks + [chunk], results + [r], after)
    decreases chunks
  {
    hide FeedStep;
    if chunks == [] {
      assert FeedRun(after, [chunk][1..], [r][1..], after);
      assert chunks + [chunk] == [chunk] && results + [r] == [r];
    } else {
      var next :| FeedStep(before, chunks[0], results[0], next) && FeedRun(next, chunks[1..], results[1..], mid);
      FeedRunAppend(next, chunks[1..], results[1..], mid, chunk, r, after);
      assert (chunks + [chunk])[1..] == chunks[1..] + [chunk] && (results + [r])[1..] == results[1..] + [r];
    }
  }

  lemma {:induction false} LedgerOverAppend(p: Protocol, l: Ledger, results: seq<FeedResult>, r: FeedResult)
    ensures LedgerOver(p, l, results + [r]) == LedgerOver(p, LedgerOver(p, l, results), [r])
    decreases results
  {
    if results == [] {
      assert results + [r] == [r];
    } else {
      assert (results + [r])[1..] == results[1..] + [r];
      var first := if results[0].Decoded? then HandleEach(p, l, Kept(p, results[0].frames)) else l;
      LedgerOverAppend(p, first, results[1..], r);
    }
  }

  /** One receive, seen by the buffer and the ledger. */
  lemma ReceiveHandles(p: Protocol, c: Conn, op: Op, c': Conn) returns (r: FeedResult)
    requires Step(p, c, op, c') && (op.Receive? || op.Inbound?) && c'.reconnects == c.reconnects
    ensures Taken(c, op) == [] ==> c'.buffer == c.buffer && c'.ledger == c.ledger
    ensures Taken(c, op) != [] ==>
              FeedStep(c.buffer, Taken(c, op)[0], r, c'.buffer) && c'.ledger == LedgerOver(p, c.ledger, [r])
  {
    hide FeedStep;
    r := Decoded([]);
    if Taken(c, op) != [] {
      var bytes, after;
      bytes := c.inbound[0].bytes;
      var c1 := c.(inbound := c.inbound[1..]);
      r, after :| FeedStep(c.buffer, bytes, r, after) && c' == AfterFeed(p, c1.(buffer := after), r);
      FedLedger(p, c1.(buffer := after), r);
    }
  }

  lemma FedLedger(p: Protocol, c: Conn, r: FeedResult)
    ensures AfterFeed(p, c, r).ledger == LedgerOver(p, c.ledger, [r]) && AfterFeed(p, c, r).buffer == c.buffer
  {
    assert [r][1..] == [];
    if r.Decoded? {
      ChunkHandles(p, c, r.frames);
      BufferStays(p, c, r.frames);
    }
  }

  lemma {:induction false} BufferStays(p: Protocol, c: Conn, frames: seq<Frame>)
    ensures HandleFrames(p, c, frames).0.buffer == c.buffer
    decreases frames
  {
    if frames == [] {
    } else {
      var (c1, ok) := HandleFrame(p, c, frames[0]);
      if ok {
        BufferStays(p, c1, frames[1..]);
      }
    }
  }

  lemma {:induction false} RunFeeds(p: Protocol, cs: seq<Conn>, ops: seq<Op>, i: nat, j: nat)
    returns (results: seq<FeedResult>)
    requires Run(p, cs, ops) && i <= j < |cs| && Receiving(cs, ops, i, j)
    ensures FeedRun(cs[i].buffer, TakenOver(cs, ops, i, j), results, cs[j].buffer)
    ensures cs[j].ledger == LedgerOver(p, cs[i].ledger, results)
    decreases j
  {
    if i == j {
      results := [];
    } else {
      hide Step, FeedRun, LedgerOver, Taken;
      results := RunFeeds(p, cs, ops, i, j - 1);
      results := FeedsOneMore(p, cs[j - 1], ops[j - 1], cs[j], cs[i], TakenOver(cs, ops, i, j - 1), results);
    }
  }

  lemma FeedsOneMore(p: Protocol, c: Conn, op: Op, c': Conn, start: Conn, chunks: seq<seq<Byte>>,
                     results: seq<FeedResult>) returns (results': seq<FeedResult>)
    requires Step(p, c, op, c') && (op.Receive? || op.Inbound?) && c'.reconnects == c.reconnects
    requires FeedRun(start.buffer, chunks, results, c.buffer) && c.ledger == LedgerOver(p, start.ledger, results)
    ensures FeedRun(start.buffer, chunks + Taken(c, op), results', c'.buffer)
    ensures c'.ledger == LedgerOver(p, start.ledger, results')
  {
    hide Step, FeedStep, FeedRun, LedgerOver, Taken;
    var taken := Taken(c, op);
    var r := ReceiveHandles(p, c, op, c');
    if taken == [] {
      assert chunks + taken == chunks;
      results' := results;
    } else {
      TakesOne(c, op);
      FeedRunAppend(start.buffer, chunks, results, c.buffer, taken[0], r, c'.buffer);
      LedgerOverAppend(p, start.ledger, results, r);
      results' := results + [r];
    }
  }

  lemma TakesOne(c: Conn, op: Op)
    ensures Taken(c, op) == [] || Taken(c, op) == [Taken(c, op)[0]]
  {
  }

  /**
   In every run, a stretch of receives completes the commands that the frames in
   the bytes complete, whatever the chunks, provided the frames are harmless; in
   particular if every one of them can be decoded.
   */
  lemma StreamLedger(p: Protocol, cs: seq<Conn>, ops: seq<Op>, i: nat, j: nat, frames: seq<Frame>, rest: seq<Byte>)
    requires Run(p, cs, ops) && i <= j < |cs| && Receiving(cs, ops, i, j)
    requires Splits(cs[i].buffer + Concat(TakenOver(cs, ops, i, j)), frames, rest) && Stalled(rest)
    requires Harmless(p, cs[i].ledger, frames)
    ensures cs[j].ledger == HandleEach(p, cs[i].ledger, frames) && cs[j].buffer == rest
  {
    RunKeepsInv(p, cs, ops, i);
    var results := RunFeeds(p, cs, ops, i, j);
    ChunkingIndependent(cs[i].buffer, TakenOver(cs, ops, i, j), results, cs[j].buffer, frames, rest);
    HarmlessLedger(p, cs[i].ledger, results);
  }

  // ----- A reply hidden by its chunk

  lemma FeedsWhole(frames: seq<Frame>, bytes: seq<Byte>)
    requires WellSized(frames) && bytes == EncodeAll(frames)
    ensures FeedStep([], bytes, Decoded(frames), [])
  {
    assert [] + bytes == EncodeAll(frames) + [];
  }

  lemma EncodeOneAndTwo(a: Frame, b: Frame)
    ensures EncodeAll([a]) == Encode(a) && EncodeAll([a, b]) == Encode(a) + Encode(b)
  {
    assert [a][1..] == [] && [a, b][1..] == [b] && [b][1..] == [];
    assert EncodeAll([b]) == Encode(b) + EncodeAll([]);
  }

  /** A connected transport with the given steps to receive, and one command sent over it. */
  function Waiting(p: Protocol, command: Command, inbound: seq<InboundStep>): Conn {
    Sending(p, Opened(inbound, [], Connected), command).0
  }

  lemma BadFrameChangesNothing(p: Protocol, c: Conn, bad: Frame, behind: seq<Frame>)
    requires !Readable(p, bad)
    ensures AfterFeed(p, c, Decoded([bad] + behind)) == c
  {
    assert ([bad] + behind)[0] == bad;
  }

  lemma GoodFrameAnswers(p: Protocol, c: Conn, good: Frame)
    requires p.decode(good).ReplyFrame? && c.events == []
    ensures AfterFeed(p, c, Decoded([good])) == c.(ledger := HandleReply(c.ledger, p.decode(good).reply))
  {
    var c1 := HandleFrame(p, c, [good][0]).0;
    assert HandleFrames(p, c, [good]) == HandleFrames(p, c1, [good][1..]) == (c1, true);
  }

  /** Both frames in one chunk: the reply is not seen. */
  lemma HiddenInOneChunk(p: Protocol, command: Command, bad: Frame, good: Frame)
    returns (cs: seq<Conn>, ops: seq<Op>)
    requires |bad| <= MAX_FRAME_LEN && |good| <= MAX_FRAME_LEN && !Readable(p, bad)
    ensures Run(p, cs, ops) && |ops| == 2 && TakenOver(cs, ops, 1, 2) == [Encode(bad) + Encode(good)]
    ensures command.sequence in cs[2].ledger.pending
  {
    var bytes := Encode(bad) + Encode(good);
    var sent := Waiting(p, command, [Bytes(bytes)]);
    EncodeOneAndTwo(bad, good);
    FeedsWhole([bad, good], bytes);
    BadFrameChangesNothing(p, sent.(inbound := []), bad, [good]);
    assert [bad] + [good] == [bad, good];
    cs, ops := [Opened([Bytes(bytes)], [], Connected), sent, sent.(inbound := [])], [Send(command), Receive([])];
    assert Step(p, cs[1], ops[1], cs[2]);
    assert TakenOver(cs, ops, 1, 2) == TakenOver(cs, ops, 1, 1) + Taken(cs[1], ops[1]);
  }

  /** The same bytes in two chunks: it is. */
  lemma SeenInTwoChunks(p: Protocol, command: Command, bad: Frame, good: Frame)
    returns (cs: seq<Conn>, ops: seq<Op>)
    requires |bad| <= MAX_FRAME_LEN && |good| <= MAX_FRAME_LEN && !Readable(p, bad)
    requires p.decode(good).ReplyFrame? && p.decode(good).reply.sequence == command.sequence
    ensures Run(p, cs, ops) && |ops| == 3 && TakenOver(cs, ops, 1, 3) == [Encode(bad), Encode(good)]
    ensures command.sequence !in cs[3].ledger.pending && 0 in cs[3].ledger.completed
  {
    var first, second := Encode(bad), Encode(good);
    var sent := Waiting(p, command, [Bytes(first), Bytes(second)]);
    var between, after := sent.(inbound := [Bytes(second)]), sent.(inbound := []);
    var answered := after.(ledger := HandleReply(after.ledger, p.decode(good).reply));
    cs := [Opened([Bytes(first), Bytes(second)], [], Connected), sent, between, answered];
    ops := [Send(command), Receive([]), Receive([])];
    BadFrameChangesNothing(p, between, bad, []);
    assert [bad] + [] == [bad];
    TakesFrame(p, sent, bad, between);
    GoodFrameAnswers(p, after, good);
    assert between.(inbound := between.inbound[1..]) == after;
    TakesFrame(p, between, good, answered);
    assert TakenOver(cs, ops, 1, 2) == TakenOver(cs, ops, 1, 1) + Taken(cs[1], ops[1]) == [first];
    assert TakenOver(cs, ops, 1, 3) == TakenOver(cs, ops, 1, 2) + Taken(cs[2], ops[2]) == [first, second];
  }

  lemma TakesFrame(p: Protocol, c: Conn, frame: Frame, c': Conn)
    requires c.events == [] && c.link == Connected && c.inbound != [] && c.inbound[0] == Bytes(Encode(frame))
    requires c.buffer == [] && |frame| <= MAX_FRAME_LEN
    requires c' == AfterFeed(p, c.(inbound := c.inbound[1..]), Decoded([frame]))
    ensures Step(p, c, Receive([]), c')
  {
    hide AfterFeed;
    EncodeOneAndTwo(frame, frame);
    FeedsWhole([frame], Encode(frame));
  }

  // ----- Stretches in which commands are sent and cancelled between the receives

  ghost predicate Exchanging(cs: seq<Conn>, ops: seq<Op>, i: nat, j: nat)
    requires i <= j <= |ops| && j < |cs|
  {
    && (forall m :: i <= m < j ==> ops[m].Receive? || ops[m].Inbound? || ops[m].Send? || ops[m].CancelCommand?)
    && (forall m :: i <= m < j ==> cs[m + 1].reconnects == cs[m].reconnects)
  }

  /** The effect of one operation, a receive being given the frames that its chunk completes. */
  function Replayed(p: Protocol, c: Conn, op: Op, newest: seq<Frame>): Ledger {
    match op
    case Receive(_) => HandleEach(p, c.ledger, Kept(p, newest))
    case Send(command) => Sending(p, c, command).0.ledger
    case CancelCommand(sequence, reason) => Commands.Cancel(c.ledger, sequence, Cancelled(reason))
    case _ => c.ledger
  }

  /** The bytes buffered at i and taken from then on. */
  function StreamTo(cs: seq<Conn>, ops: seq<Op>, i: nat, m: nat): seq<Byte>
    requires i <= m <= |ops| && m <= |cs| && i < |cs|
  {
    cs[i].buffer + Concat(TakenOver(cs, ops, i, m))
  }

  /** They hold the first `cut` frames, and what is left of them is buffered. */
  ghost predicate Reached(cs: seq<Conn>, ops: seq<Op>, i: nat, m: nat, frames: seq<Frame>, cut: nat)
    requires i <= m <= |ops| && m < |cs|
  {
    cut <= |frames| && Splits(StreamTo(cs, ops, i, m), frames[..cut], cs[m].buffer)
  }

  lemma {:induction false} ConcatAppend(chunks: seq<seq<Byte>>, more: seq<seq<Byte>>)
    ensures Concat(chunks + more) == Concat(chunks) + Concat(more)
  {
    if chunks == [] {
      assert chunks + more == more;
    } else {
      assert (chunks + more)[1..] == chunks[1..] + more;
      ConcatAppend(chunks[1..], more);
    }
  }

  lemma ConcatOne(chunk: seq<Byte>)
    ensures Concat([chunk]) == chunk
  {
    assert [chunk][1..] == [];
  }

  lemma StreamStarts(cs: seq<Conn>, ops: seq<Op>, i: nat)
    requires i <= |ops| && i < |cs|
    ensures StreamTo(cs, ops, i, i) == cs[i].buffer
  {
    assert Concat([]) == [];
  }

  lemma StreamStep(cs: seq<Conn>, ops: seq<Op>, i: nat, m: nat)
    requires i <= m < |ops| && m < |cs|
    ensures StreamTo(cs, ops, i, m + 1) == StreamTo(cs, ops, i, m) + Concat(Taken(cs[m], ops[m]))
  {
    hide Taken, Concat;
    ConcatAppend(TakenOver(cs, ops, i, m), Taken(cs[m], ops[m]));
  }

  lemma {:induction false} StreamPrefix(cs: seq<Conn>, ops: seq<Op>, i: nat, m: nat, j: nat) returns (more: seq<Byte>)
    requires i <= m <= j <= |ops| && j <= |cs| && i < |cs|
    ensures StreamTo(cs, ops, i, j) == StreamTo(cs, ops, i, m) + more
    decreases j
  {
    hide StreamTo, Taken, Concat;
    if m == j {
      more := [];
    } else {
      more := StreamPrefix(cs, ops, i, m, j - 1);
      StreamStep(cs, ops, i, j - 1);
      more := more + Concat(Taken(cs[j - 1], ops[j - 1]));
    }
  }

  /** Operations other than a receive that takes a chunk leave the buffer alone. */
  lemma QuietOp(p: Protocol, c: Conn, op: Op, c': Conn)
    requires Step(p, c, op, c') && c'.reconnects == c.reconnects && Taken(c, op) == []
    requires op.Receive? || op.Inbound? || op.Send? || op.CancelCommand?
    ensures c'.buffer == c.buffer && c'.ledger == Replayed(p, c, op, [])
  {
  }

  lemma TakingOp(p: Protocol, c: Conn, op: Op, c': Conn) returns (chunk: seq<Byte>, r: FeedResult)
    requires Step(p, c, op, c') && c'.reconnects == c.reconnects && Taken(c, op) != []
    ensures op.Receive? && Taken(c, op) == [chunk] && FeedStep(c.buffer, chunk, r, c'.buffer)
    ensures r.Decoded? ==> c'.ledger == Replayed(p, c, op, r.frames)
  {
    hide FeedStep, LedgerOver;
    r := ReceiveHandles(p, c, op, c');
    chunk := c.inbound[0].bytes;
    if r.Decoded? {
      OneResult(p, c.ledger, r.frames);
    }
  }

  lemma ExchangeStep(p: Protocol, cs: seq<Conn>, ops: seq<Op>, i: nat, m: nat, j: nat, frames: seq<Frame>,
                     rest: seq<Byte>, cut: nat)
    returns (cut': nat)
    requires Run(p, cs, ops) && i <= m < j < |cs| && Exchanging(cs, ops, i, j)
    requires Splits(StreamTo(cs, ops, i, j), frames, rest) && Stalled(rest)
    requires Reached(cs, ops, i, m, frames, cut)
    ensures cut <= cut' <= |frames| && Reached(cs, ops, i, m + 1, frames, cut')
    ensures cs[m + 1].ledger == Replayed(p, cs[m], ops[m], frames[cut..cut'])
    ensures Completed(cs[m], ops[m], cs[m + 1], frames[cut..cut'])
  {
    hide Step, FeedStep, Replayed, Concat, StreamTo, Taken, Splits, Stalled;
    assert Step(p, cs[m], ops[m], cs[m + 1]);
    StreamStep(cs, ops, i, m);
    if Taken(cs[m], ops[m]) == [] {
      cut' := cut;
      QuietOp(p, cs[m], ops[m], cs[m + 1]);
      NothingTaken(StreamTo(cs, ops, i, m));
      assert frames[cut..cut'] == [];
    } else {
      var chunk, r := TakingOp(p, cs[m], ops[m], cs[m + 1]);
      ConcatOne(chunk);
      var more := StreamPrefix(cs, ops, i, m + 1, j);
      cut' := CutMoves(StreamTo(cs, ops, i, m), cs[m].buffer, chunk, more, r, cs[m + 1].buffer, frames, rest, cut);
    }
  }

  lemma NothingTaken(sofar: seq<Byte>)
    ensures sofar + Concat([]) == sofar
  {
  }

  /** The chunk taken, if any, completes exactly the given frames. */
  ghost predicate Completed(c: Conn, op: Op, c': Conn, newest: seq<Frame>) {
    if Taken(c, op) == [] then newest == []
    else FeedStep(c.buffer, Taken(c, op)[0], Decoded(newest), c'.buffer)
  }

  /** One more chunk completes the next frames of the stream, no others, and is not rejected. */
  lemma CutMoves(sofar: seq<Byte>, buffer: seq<Byte>, chunk: seq<Byte>, more: seq<Byte>, r: FeedResult,
                 after: seq<Byte>, frames: seq<Frame>, rest: seq<Byte>, cut: nat)
    returns (cut': nat)
    requires cut <= |frames| && Splits(sofar, frames[..cut], buffer) && FeedStep(buffer, chunk, r, after)
    requires Splits(sofar + chunk + more, frames, rest) && Stalled(rest)
    ensures r.Decoded? && cut <= cut' <= |frames| && r.frames == frames[cut..cut']
    ensures Splits(sofar + chunk, frames[..cut'], after)
  {
    hide EncodeAll, Stalled, Oversized, FeedStep, Concat;
    var front, later := frames[..cut], frames[cut..];
    assert sofar + chunk + more == sofar + (chunk + more);
    FirstSplit([], sofar, chunk + more, front, buffer);
    assert [] + sofar == sofar;
    PrefixOfSplit(front, buffer + (chunk + more), frames, rest);
    ConcatTwo(chunk, more);
    StalledNotOversized(rest);
    var first, tail := FirstChunk(buffer, [chunk, more], r, after, later, rest);
    cut' := cut + |first|;
    assert front + first == frames[..cut'];
    SplitsJoin(sofar, front, buffer, chunk, first, tail);
  }

  lemma ConcatTwo(a: seq<Byte>, b: seq<Byte>)
    ensures Concat([a, b]) == a + b
  {
    assert [a, b][1..] == [b];
    ConcatOne(b);
  }

  /**
   Step k handles exactly the frames between its two cuts, and the cut after it
   is where the bytes taken by then end.
   */
  ghost predicate Explained(p: Protocol, cs: seq<Conn>, ops: seq<Op>, i: nat, frames: seq<Frame>, cuts: seq<nat>,
                            k: nat)
    requires i <= k < |ops| && |cs| == |ops| + 1 && k + 1 - i < |cuts|
  {
    var low, high := cuts[k - i], cuts[k - i + 1];
    && low <= high <= |frames| && Reached(cs, ops, i, k + 1, frames, high)
    && Completed(cs[k], ops[k], cs[k + 1], frames[low..high])
    && cs[k + 1].ledger == Replayed(p, cs[k], ops[k], frames[low..high])
  }

  lemma {:induction false} CutsUpTo(p: Protocol, cs: seq<Conn>, ops: seq<Op>, i: nat, m: nat, j: nat,
                                    frames: seq<Frame>, rest: seq<Byte>)
    returns (cuts: seq<nat>)
    requires Run(p, cs, ops) && i <= m <= j < |cs| && Exchanging(cs, ops, i, j)
    requires Splits(StreamTo(cs, ops, i, j), frames, rest) && Stalled(rest)
    ensures |cuts| == m - i + 1 && cuts[0] == 0 && Reached(cs, ops, i, m, frames, cuts[m - i])
    ensures forall k :: i <= k < m ==> Explained(p, cs, ops, i, frames, cuts, k)
    decreases m
  {
    hide Step, Replayed, StreamTo, Splits, Stalled, Completed;
    if i == m {
      cuts := [0];
      NothingReached(cs, ops, i, frames);
    } else {
      hide Reached;
      var fewer := CutsUpTo(p, cs, ops, i, m - 1, j, frames, rest);
      var cut' := ExchangeStep(p, cs, ops, i, m - 1, j, frames, rest, fewer[m - 1 - i]);
      cuts := fewer + [cut'];
      forall k | i <= k < m ensures Explained(p, cs, ops, i, frames, cuts, k) {
        if k < m - 1 {
          assert Explained(p, cs, ops, i, frames, fewer, k);
        }
      }
    }
  }

  lemma NothingReached(cs: seq<Conn>, ops: seq<Op>, i: nat, frames: seq<Frame>)
    requires i <= |ops| && i < |cs|
    ensures Reached(cs, ops, i, i, frames, 0)
  {
    StreamStarts(cs, ops, i);
    assert cs[i].buffer == EncodeAll([]) + cs[i].buffer;
  }

  /**
   In every run, a stretch of receives with sends and cancels in between replays
   the frames of the bytes in order, each receive the ones its chunk completes;
   where the cuts fall depends only on the bytes taken by then.
   */
  lemma ExchangeReplays(p: Protocol, cs: seq<Conn>, ops: seq<Op>, i: nat, j: nat, frames: seq<Frame>, rest: seq<Byte>)
    returns (cuts: seq<nat>)
    requires Run(p, cs, ops) && i <= j < |cs| && Exchanging(cs, ops, i, j)
    requires Splits(StreamTo(cs, ops, i, j), frames, rest) && Stalled(rest)
    ensures |cuts| == j - i + 1 && cuts[0] == 0 && cuts[j - i] == |frames| && cs[j].buffer == rest
    ensures forall k :: i <= k < j ==> Explained(p, cs, ops, i, frames, cuts, k)
  {
    hide Explained;
    cuts := CutsUpTo(p, cs, ops, i, j, j, frames, rest);
    RunKeepsInv(p, cs, ops, j);
    UniqueSplit(StreamTo(cs, ops, i, j), frames[..cuts[j - i]], cs[j].buffer, frames, rest);
  }
}
