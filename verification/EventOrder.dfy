/**
 The events of a connection over whole runs: what receives hand out is what
 arrived, in order, with nothing lost, repeated or overtaken.
 */
module EventOrder {
  import opened Framing
  import opened Transport
  import opened Commands
  import opened Connection
  import opened StreamReplies

  function EventsOf(p: Protocol, frames: seq<Frame>): seq<Event> {
    if frames == [] then []
    else (if p.decode(frames[0]).EventFrame? then [p.decode(frames[0]).event] else []) + EventsOf(p, frames[1..])
  }

  /** A chunk queues the events among the frames it keeps. */
  lemma {:induction false} ChunkQueues(p: Protocol, c: Conn, frames: seq<Frame>)
    ensures HandleFrames(p, c, frames).0.events == c.events + EventsOf(p, Kept(p, frames))
    decreases frames
  {
    hide HandleReply;
    if frames == [] || !Readable(p, frames[0]) {
      assert c.events + [] == c.events;
    } else {
      var c1 := HandleFrame(p, c, frames[0]).0;
      ChunkQueues(p, c1, frames[1..]);
      assert ([frames[0]] + Kept(p, frames[1..]))[1..] == Kept(p, frames[1..]);
      assert c1.events == c.events + EventsOf(p, [frames[0]]) by {
        assert [frames[0]][1..] == [];
      }
    }
  }

  /** The events that reach the connection in one step: those of the chunk taken, or the two of a lost link. */
  ghost predicate Arrives(p: Protocol, c: Conn, op: Op, a: seq<Event>) {
    if !op.Receive? || c.events != [] || c.link != Connected || c.inbound == [] then a == []
    else
      match c.inbound[0]
      case Bytes(bytes) =>
        exists r, after :: FeedStep(c.buffer, bytes, r, after) && a == ArrivalsOf(p, r)
      case Disconnect =>
        a == [LinkInterrupted(c.reconnects + 1), LinkRecovered(c.reconnects + 1, c.reconnects + 1)]
  }

  function ArrivalsOf(p: Protocol, r: FeedResult): seq<Event> {
    if r.Decoded? then EventsOf(p, Kept(p, r.frames)) else []
  }

  function HandedOut(answer: RecvResult): seq<Event> {
    if answer.Received? then [answer.event] else []
  }

  /** Each receive is given what it reports to its caller; other operations report nothing. */
  ghost predicate Answers(p: Protocol, c: Conn, op: Op, answer: RecvResult) {
    if op.Receive? then Reports(p, c, answer) else answer == NoEvent
  }

  /** What a chunk leaves queued and what it hands out. */
  lemma FeedHandsOut(p: Protocol, c: Conn, inbound: seq<InboundStep>, r: FeedResult)
    requires c.events == []
    ensures ArrivalsOf(p, r) == HandedOut(FeedAnswer(p, c, r)) + AfterFeed(p, c.(inbound := inbound), r).events
  {
    hide HandleReply, Kept, EventsOf, HandleFrames;
    if r.Decoded? {
      ChunkQueues(p, c, r.frames);
      AnswerIgnoresInbound(p, c, inbound, r.frames);
      assert c.events + EventsOf(p, Kept(p, r.frames)) == EventsOf(p, Kept(p, r.frames));
    }
  }

  lemma StepHandsOut(p: Protocol, c: Conn, op: Op, c': Conn, answer: RecvResult) returns (a: seq<Event>)
    requires Step(p, c, op, c') && Answers(p, c, op, answer)
    ensures Arrives(p, c, op, a) && c.events + a == HandedOut(answer) + c'.events
  {
    hide FeedStep, AfterFeed, FeedAnswer, ArrivalsOf, Drain;
    a := [];
    if op.Receive? && c.events == [] && c.link == Connected && c.inbound != [] {
      match c.inbound[0] {
        case Bytes(bytes) => a := ChunkHandsOut(p, c, bytes, c', answer);
        case Disconnect => a := [LinkInterrupted(c.reconnects + 1), LinkRecovered(c.reconnects + 1, c.reconnects + 1)];
      }
    } else if op.Receive? && c.events != [] {
      assert c.events == [c.events[0]] + c.events[1..];
    }
  }

  lemma ChunkHandsOut(p: Protocol, c: Conn, bytes: seq<Byte>, c': Conn, answer: RecvResult) returns (a: seq<Event>)
    requires c.events == [] && c.link == Connected && c.inbound != [] && c.inbound[0] == Bytes(bytes)
    requires exists r, after ::
               FeedStep(c.buffer, bytes, r, after)
               && c' == AfterFeed(p, c.(inbound := c.inbound[1..]).(buffer := after), r)
    requires exists r, after :: FeedStep(c.buffer, bytes, r, after) && answer == FeedAnswer(p, c.(buffer := after), r)
    ensures exists r, after :: FeedStep(c.buffer, bytes, r, after) && a == ArrivalsOf(p, r)
    ensures a == HandedOut(answer) + c'.events
  {
    hide FeedStep, AfterFeed, FeedAnswer, ArrivalsOf;
    var r, after :| FeedStep(c.buffer, bytes, r, after)
                    && c' == AfterFeed(p, c.(inbound := c.inbound[1..]).(buffer := after), r);
    var r', after' :| FeedStep(c.buffer, bytes, r', after') && answer == FeedAnswer(p, c.(buffer := after'), r');
    FeedDeterministic(c.buffer, bytes, r, after, r', after');
    FeedHandsOut(p, c.(buffer := after), c.inbound[1..], r);
    a := ArrivalsOf(p, r);
  }

  function Flatten(lists: seq<seq<Event>>): seq<Event> {
    if lists == [] then [] else Flatten(lists[..|lists| - 1]) + lists[|lists| - 1]
  }

  function AllHandedOut(answers: seq<RecvResult>): seq<Event> {
    if answers == [] then [] else AllHandedOut(answers[..|answers| - 1]) + HandedOut(answers[|answers| - 1])
  }

  /**
   In every run, between any two positions: the events queued at first and those
   arriving are, in order, the ones handed out and the ones still queued.
   */
  lemma {:induction false} EventsBetween(p: Protocol, cs: seq<Conn>, ops: seq<Op>, answers: seq<RecvResult>, i: nat,
                                         j: nat)
    returns (arrivals: seq<seq<Event>>)
    requires Run(p, cs, ops) && i <= j < |cs| && |answers| == |ops|
    requires forall m :: 0 <= m < |ops| ==> Answers(p, cs[m], ops[m], answers[m])
    ensures |arrivals| == j - i && forall m :: 0 <= m < j - i ==> Arrives(p, cs[i + m], ops[i + m], arrivals[m])
    ensures cs[i].events + Flatten(arrivals) == AllHandedOut(answers[i..j]) + cs[j].events
    decreases j
  {
    hide Step, Arrives, Answers, HandedOut;
    if i == j {
      arrivals := [];
      assert answers[i..j] == [];
      assert cs[i].events + Flatten([]) == AllHandedOut([]) + cs[i].events;
    } else {
      hide Flatten, AllHandedOut, Run;
      var earlier := EventsBetween(p, cs, ops, answers, i, j - 1);
      StepOf(p, cs, ops, j - 1);
      var a := StepHandsOut(p, cs[j - 1], ops[j - 1], cs[j], answers[j - 1]);
      arrivals := earlier + [a];
      FlattenAppend(earlier, a);
      assert answers[i..j] == answers[i..j - 1] + [answers[j - 1]];
      HandedOutAppend(answers[i..j - 1], answers[j - 1]);
      Regroup(cs[i].events, Flatten(earlier), a, AllHandedOut(answers[i..j - 1]), cs[j - 1].events,
              HandedOut(answers[j - 1]), cs[j].events);
    }
  }

  /**
   In every run the events handed out so far, followed by the ones still queued,
   are the events that have arrived, in order.
   */
  lemma EventsInOrder(p: Protocol, cs: seq<Conn>, ops: seq<Op>, answers: seq<RecvResult>, j: nat)
    returns (arrivals: seq<seq<Event>>)
    requires Run(p, cs, ops) && j < |cs| && |answers| == |ops|
    requires forall m :: 0 <= m < |ops| ==> Answers(p, cs[m], ops[m], answers[m])
    ensures |arrivals| == j && forall m :: 0 <= m < j ==> Arrives(p, cs[m], ops[m], arrivals[m])
    ensures Flatten(arrivals) == AllHandedOut(answers[..j]) + cs[j].events
  {
    hide Arrives, Answers, Flatten, AllHandedOut;
    arrivals := EventsBetween(p, cs, ops, answers, 0, j);
    assert answers[0..j] == answers[..j];
    assert [] + Flatten(arrivals) == Flatten(arrivals);
    forall m | 0 <= m < j ensures Arrives(p, cs[m], ops[m], arrivals[m]) {
      assert Arrives(p, cs[0 + m], ops[0 + m], arrivals[m]);
    }
  }

  lemma StepOf(p: Protocol, cs: seq<Conn>, ops: seq<Op>, m: nat)
    requires Run(p, cs, ops) && m < |ops|
    ensures |cs| == |ops| + 1 && Step(p, cs[m], ops[m], cs[m + 1])
  {
    hide Step;
  }

  lemma FlattenAppend(lists: seq<seq<Event>>, a: seq<Event>)
    ensures Flatten(lists + [a]) == Flatten(lists) + a
  {
    assert (lists + [a])[..|lists|] == lists;
  }

  lemma HandedOutAppend(answers: seq<RecvResult>, answer: RecvResult)
    ensures AllHandedOut(answers + [answer]) == AllHandedOut(answers) + HandedOut(answer)
  {
    assert (answers + [answer])[..|answers|] == answers;
  }

  lemma Regroup(first: seq<Event>, arrived: seq<Event>, a: seq<Event>, handed: seq<Event>, queued: seq<Event>,
                out: seq<Event>, left: seq<Event>)
    requires first + arrived == handed + queued && queued + a == out + left
    ensures first + (arrived + a) == (handed + out) + left
  {
    assert first + (arrived + a) == (first + arrived) + a == handed + (queued + a) == handed + (out + left);
  }

  // ----- The events of a stretch of the stream

  predicate Ascending(cuts: seq<nat>, bound: nat) {
    && (forall m :: 0 <= m < |cuts| ==> cuts[m] <= bound)
    && (forall m :: 0 < m < |cuts| ==> cuts[m - 1] <= cuts[m])
  }

  lemma AscendingFront(cuts: seq<nat>, bound: nat)
    requires Ascending(cuts, bound) && |cuts| > 1
    ensures var n := |cuts| - 1; Ascending(cuts[..n], bound) && cuts[n - 1] <= cuts[n] <= bound
  {
  }

  /** The events among the frames that each step completes and keeps. */
  function EventsAlong(p: Protocol, frames: seq<Frame>, cuts: seq<nat>): seq<Event>
    requires Ascending(cuts, |frames|)
  {
    if |cuts| <= 1 then []
    else
      var n := |cuts| - 1;
      EventsAlong(p, frames, cuts[..n]) + EventsOf(p, Kept(p, frames[cuts[n - 1]..cuts[n]]))
  }

  /** What arrives in a step of the stretch is what its frames hold. */
  lemma ArrivalIs(p: Protocol, c: Conn, op: Op, c': Conn, newest: seq<Frame>, a: seq<Event>)
    requires Step(p, c, op, c') && c'.reconnects == c.reconnects && Arrives(p, c, op, a)
    requires Completed(c, op, c', newest)
    ensures a == EventsOf(p, Kept(p, newest))
  {
    hide FeedStep, EventsOf, Kept, Drain;
    NoFrames(p);
    if Taken(c, op) != [] {
      var bytes := Taken(c, op)[0];
      var r, after :| FeedStep(c.buffer, bytes, r, after) && a == ArrivalsOf(p, r);
      FeedDeterministic(c.buffer, bytes, r, after, Decoded(newest), c'.buffer);
    }
  }

  lemma NoFrames(p: Protocol)
    ensures EventsOf(p, Kept(p, [])) == []
  {
  }

  ghost predicate Cuts(p: Protocol, cs: seq<Conn>, ops: seq<Op>, i: nat, j: nat, frames: seq<Frame>, cuts: seq<nat>)
    requires i <= j <= |ops| && |cs| == |ops| + 1
  {
    && |cuts| == j - i + 1 && cuts[0] == 0 && cuts[j - i] == |frames|
    && (forall k :: i <= k < j ==> Explained(p, cs, ops, i, frames, cuts, k))
  }

  lemma CutsSorted(p: Protocol, cs: seq<Conn>, ops: seq<Op>, i: nat, j: nat, frames: seq<Frame>, cuts: seq<nat>)
    requires i <= j <= |ops| && |cs| == |ops| + 1 && Cuts(p, cs, ops, i, j, frames, cuts)
    ensures Ascending(cuts, |frames|)
  {
    forall m | 0 < m < |cuts| ensures cuts[m - 1] <= cuts[m] <= |frames| {
      assert Explained(p, cs, ops, i, frames, cuts, i + m - 1);
    }
  }

  lemma {:induction false} ArrivalsAlong(p: Protocol, frames: seq<Frame>, cuts: seq<nat>, arrivals: seq<seq<Event>>)
    requires Ascending(cuts, |frames|)
    requires |cuts| == |arrivals| + 1
    requires forall m :: 0 <= m < |arrivals| ==> arrivals[m] == EventsOf(p, Kept(p, frames[cuts[m]..cuts[m + 1]]))
    ensures Flatten(arrivals) == EventsAlong(p, frames, cuts)
  {
    hide EventsOf, Kept;
    if arrivals == [] {
    } else {
      ArrivalsAlong(p, frames, cuts[..|cuts| - 1], arrivals[..|arrivals| - 1]);
    }
  }

  /**
   In every run, a stretch of receives with sends and cancels in between: the
   commands completed and the events handed out or queued are those of the frames
   in the bytes, cut where the chunks are cut.
   */
  lemma StretchEvents(p: Protocol, cs: seq<Conn>, ops: seq<Op>, answers: seq<RecvResult>, i: nat, j: nat,
                      frames: seq<Frame>, rest: seq<Byte>)
    returns (cuts: seq<nat>)
    requires Run(p, cs, ops) && i <= j < |cs| && Exchanging(cs, ops, i, j) && |answers| == |ops|
    requires forall m :: 0 <= m < |ops| ==> Answers(p, cs[m], ops[m], answers[m])
    requires Splits(StreamTo(cs, ops, i, j), frames, rest) && Stalled(rest)
    ensures Cuts(p, cs, ops, i, j, frames, cuts) && cs[j].buffer == rest
    ensures Ascending(cuts, |frames|)
    ensures AllHandedOut(answers[i..j]) + cs[j].events == cs[i].events + EventsAlong(p, frames, cuts)
  {
    hide Step, Arrives, Answers, Flatten, AllHandedOut, Reached, Replayed, Completed, EventsOf, Kept, EventsAlong;
    cuts := ExchangeReplays(p, cs, ops, i, j, frames, rest);
    CutsSorted(p, cs, ops, i, j, frames, cuts);
    var arrivals := EventsBetween(p, cs, ops, answers, i, j);
    forall m | 0 <= m < |arrivals| ensures arrivals[m] == EventsOf(p, Kept(p, frames[cuts[m]..cuts[m + 1]])) {
      assert Explained(p, cs, ops, i, frames, cuts, i + m);
      assert Step(p, cs[i + m], ops[i + m], cs[i + m + 1]);
      ArrivalIs(p, cs[i + m], ops[i + m], cs[i + m + 1], frames[cuts[m]..cuts[m + 1]], arrivals[m]);
    }
    ArrivalsAlong(p, frames, cuts, arrivals);
  }

  /**
   After a lost link only the bytes taken since count, whatever was buffered
   before: the frames they hold complete the commands sent since and bring the
   events, behind the one that reports the recovery.
   */
  lemma AfterLostLink(p: Protocol, cs: seq<Conn>, ops: seq<Op>, answers: seq<RecvResult>, i: nat, j: nat,
                      frames: seq<Frame>, rest: seq<Byte>)
    returns (cuts: seq<nat>)
    requires Run(p, cs, ops) && i < j < |cs| && cs[i + 1].reconnects > cs[i].reconnects
    requires Exchanging(cs, ops, i + 1, j) && |answers| == |ops|
    requires forall m :: 0 <= m < |ops| ==> Answers(p, cs[m], ops[m], answers[m])
    requires Splits(Concat(TakenOver(cs, ops, i + 1, j)), frames, rest) && Stalled(rest)
    ensures Cuts(p, cs, ops, i + 1, j, frames, cuts) && cs[j].buffer == rest
    ensures cs[i + 1].ledger.pending == map[]
    ensures Ascending(cuts, |frames|)
    ensures var n := cs[i].reconnects + 1;
            AllHandedOut(answers[i + 1..j]) + cs[j].events == [LinkRecovered(n, n)] + EventsAlong(p, frames, cuts)
  {
    hide Step, Answers, AllHandedOut, EventsAlong, Cuts, Splits, Stalled;
    LostLinkResets(p, cs, ops, i);
    LinkLossCompletesAll(p, cs, ops, i);
    assert StreamTo(cs, ops, i + 1, j) == Concat(TakenOver(cs, ops, i + 1, j));
    cuts := StretchEvents(p, cs, ops, answers, i + 1, j, frames, rest);
  }

  lemma {:induction false} EventsConcat(p: Protocol, a: seq<Frame>, b: seq<Frame>)
    ensures EventsOf(p, a + b) == EventsOf(p, a) + EventsOf(p, b)
  {
    if a == [] {
      assert a + b == b;
    } else {
      assert (a + b)[1..] == a[1..] + b;
      EventsConcat(p, a[1..], b);
    }
  }

  /** When every frame can be decoded the events are those of the stream, however it is cut. */
  lemma {:induction false} CutsIrrelevant(p: Protocol, frames: seq<Frame>, cuts: seq<nat>)
    requires AllReadable(p, frames) && cuts != [] && cuts[0] == 0
    requires Ascending(cuts, |frames|)
    ensures EventsAlong(p, frames, cuts) == EventsOf(p, frames[..cuts[|cuts| - 1]])
  {
    if |cuts| == 1 {
      assert frames[..0] == [];
    } else {
      hide EventsOf, Kept, Ascending, AllReadable;
      var n := |cuts| - 1;
      AscendingFront(cuts, |frames|);
      CutsIrrelevant(p, frames, cuts[..n]);
      MoreEvents(p, frames, cuts[n - 1], cuts[n]);
    }
  }

  lemma MoreEvents(p: Protocol, frames: seq<Frame>, low: nat, high: nat)
    requires AllReadable(p, frames) && low <= high <= |frames|
    ensures EventsOf(p, frames[..low]) + EventsOf(p, Kept(p, frames[low..high])) == EventsOf(p, frames[..high])
  {
    hide EventsOf, Kept;
    assert AllReadable(p, frames[low..high]);
    KeptPrefix(p, frames[low..high]);
    EventsConcat(p, frames[..low], frames[low..high]);
    assert frames[..low] + frames[low..high] == frames[..high];
  }
}
