/**
 The in-memory transport: an ordered inbound queue, an outbound list and a
 connection state in which `Closed` is final.
 */
module Transport {
  import opened Framing

  datatype TransportState = Disconnected | Connected | Closed

  datatype InboundStep = Bytes(bytes: seq<Byte>) | Disconnect

  datatype TransportRead = ReadBytes(bytes: seq<Byte>) | ReadIdle | ReadDisconnected

  class InMemoryTransport {
    var inbound: seq<InboundStep>
    var outbound: seq<seq<Byte>>
    var state: TransportState

    constructor ()
      ensures inbound == [] && outbound == [] && state == Disconnected
    {
      inbound, outbound, state := [], [], Disconnected;
    }

    method Connect() returns (now: TransportState)
      modifies `state
      ensures now == state == (if old(state) == Closed then Closed else Connected)
    {
      if state != Closed {
        state := Connected;
      }
      now := state;
    }

    method Close()
      modifies `state
      ensures state == Closed
    {
      state := Closed;
    }

    method PushInbound(step: InboundStep)
      modifies `inbound
      ensures inbound == old(inbound) + [step]
    {
      inbound := inbound + [step];
    }

    /** Steps leave the queue in the order they entered it, and only while connected. */
    method Recv() returns (read: TransportRead)
      modifies `inbound, `state
      ensures old(state) != Connected || old(inbound) == [] ==>
                read == ReadIdle && inbound == old(inbound) && state == old(state)
      ensures old(state) == Connected && old(inbound) != [] ==>
                && inbound == old(inbound)[1..]
                && match old(inbound)[0]
                   case Bytes(bytes) => read == ReadBytes(bytes) && state == Connected
                   case Disconnect => read == ReadDisconnected && state == Disconnected
    {
      if state != Connected || inbound == [] {
        return ReadIdle;
      }
      var next := inbound[0];
      inbound := inbound[1..];
      match next {
        case Bytes(bytes) => read := ReadBytes(bytes);
        case Disconnect =>
          state := Disconnected;
          read := ReadDisconnected;
      }
    }

    method Send(bytes: seq<Byte>) returns (ok: bool)
      modifies `outbound
      ensures ok == (state == Connected)
      ensures outbound == if ok then old(outbound) + [bytes] else old(outbound)
    {
      ok := state == Connected;
      if ok {
        outbound := outbound + [bytes];
      }
    }
  }
}

/**
 The controller connection: a value-level step relation for every operation,
 theorems about all its runs, and the connection object whose methods take
 exactly these steps.
 */
module Connection {
  import opened Framing
  import opened Transport
  import opened Commands

  datatype Event =
    | Measurement(sequence: nat, value: int)
    | LinkInterrupted(sequence: nat)
    | LinkRecovered(sequence: nat, reconnects: nat)
    | ReloadRequested(sequence: nat)
    | ProtocolError(sequence: nat, message: string)
    | Finished

  datatype Decoded = ReplyFrame(reply: Reply) | EventFrame(event: Event) | Undecodable

  /** Message encoding is given from outside. */
  datatype Protocol = Protocol(encode: Command -> seq<Byte>, decode: seq<Byte> -> Decoded)

  datatype ConnectionState = Idle | Running | Ended

  function FromTransport(link: TransportState): ConnectionState {
    match link
    case Disconnected => Idle
    case Connected => Running
    case Closed => Ended
  }

  datatype Conn = Conn(
    inbound: seq<InboundStep>,
    outbound: seq<seq<Byte>>,
    link: TransportState,
    buffer: seq<Byte>,
    reconnects: nat,
    ledger: Ledger,
    events: seq<Event>,
    state: ConnectionState)

  /** A new connection over a transport in any condition; its own state says disconnected. */
  function Opened(inbound: seq<InboundStep>, outbound: seq<seq<Byte>>, link: TransportState): Conn {
    Conn(inbound, outbound, link, [], 0, EMPTY, [], Idle)
  }

  // ----- Operations on connection values

  datatype SendResult = Sent(ticket: nat) | AlreadyPending | AlreadyRetired | NotConnected

  function Reconnected(c: Conn): Conn {
    var link := if c.link == Closed then Closed else Connected;
    c.(link := link, state := FromTransport(link))
  }

  function Sending(p: Protocol, c: Conn, command: Command): (Conn, SendResult) {
    if command.sequence in c.ledger.pending then (c, AlreadyPending)
    else if command.sequence in c.ledger.filter.retired then (c, AlreadyRetired)
    else if c.link != Connected then (c, NotConnected)
    else (c.(outbound := c.outbound + [Encode(p.encode(command))], ledger := Accept(c.ledger, command)),
          Sent(|c.ledger.accepted|))
  }

  /** The flag is false when the frame is neither a reply nor an event. */
  function HandleFrame(p: Protocol, c: Conn, frame: Frame): (Conn, bool) {
    match p.decode(frame)
    case ReplyFrame(reply) => (c.(ledger := HandleReply(c.ledger, reply)), true)
    case EventFrame(event) => (c.(events := c.events + [event]), true)
    case Undecodable => (c, false)
  }

  /** An undecodable frame ends the batch: the frames behind it are dropped. */
  function HandleFrames(p: Protocol, c: Conn, frames: seq<Frame>): (Conn, bool)
    decreases frames
  {
    if frames == [] then (c, true)
    else
      var (c1, ok) := HandleFrame(p, c, frames[0]);
      if ok then HandleFrames(p, c1, frames[1..]) else (c1, false)
  }

  function PopEvent(c: Conn): Conn {
    if c.events == [] then c else c.(events := c.events[1..])
  }

  function AfterFeed(p: Protocol, c: Conn, r: FeedResult): Conn {
    if r.Rejected? then c
    else
      var (c1, ok) := HandleFrames(p, c, r.frames);
      if ok then PopEvent(c1) else c1
  }

  function LinkDropped(c: Conn, order: seq<nat>): Conn {
    var n := c.reconnects + 1;
    var drained := Drain(c.ledger, order, LinkDisconnected);
    Reconnected(c.(link := Disconnected, reconnects := n, buffer := [], ledger := drained))
      .(events := c.events + [LinkRecovered(n, n)])
  }

  function ClosedDown(c: Conn, order: seq<nat>): Conn {
    c.(ledger := Drain(c.ledger, order, LinkClosed), link := Closed, state := Ended)
  }

  datatype Op =
    | Connect
    | Close(order: seq<nat>)
    | Inbound(step: InboundStep)
    | Send(command: Command)
    | CancelCommand(sequence: nat, reason: string)
    | Receive(order: seq<nat>)

  ghost predicate ReceiveStep(p: Protocol, c: Conn, order: seq<nat>, c': Conn) {
    if c.events != [] then c' == PopEvent(c)
    else if c.link != Connected || c.inbound == [] then c' == c
    else
      var c1 := c.(inbound := c.inbound[1..]);
      match c.inbound[0]
      case Bytes(bytes) =>
        exists r, after :: FeedStep(c.buffer, bytes, r, after) && c' == AfterFeed(p, c1.(buffer := after), r)
      case Disconnect => IsOrderOf(order, c.ledger.pending.Keys) && c' == LinkDropped(c1, order)
  }

  ghost predicate Step(p: Protocol, c: Conn, op: Op, c': Conn) {
    match op
    case Connect => c' == Reconnected(c)
    case Close(order) => IsOrderOf(order, c.ledger.pending.Keys) && c' == ClosedDown(c, order)
    case Inbound(step) => c' == c.(inbound := c.inbound + [step])
    case Send(command) => c' == Sending(p, c, command).0
    case CancelCommand(sequence, reason) => c' == c.(ledger := Cancel(c.ledger, sequence, Cancelled(reason)))
    case Receive(order) => ReceiveStep(p, c, order, c')
  }

  // ----- What every run keeps

  function Wire(p: Protocol, accepted: seq<Command>): seq<seq<Byte>> {
    seq(|accepted|, i requires 0 <= i < |accepted| => Encode(p.encode(accepted[i])))
  }

  /** `first` is the connection when it was new: what its transport held then stays in front. */
  ghost predicate Inv(p: Protocol, first: Conn, c: Conn) {
    && Commands.Valid(c.ledger)
    && Stalled(c.buffer)
    && c.outbound == first.outbound + Wire(p, c.ledger.accepted)
    && (c.state == FromTransport(c.link) || (c.state == Idle && first.link != Disconnected))
    && (c.link == Closed ==> c.ledger.pending == map[])
  }

  /** Only the ledger and the event queue move while frames are handled, and no command is accepted. */
  ghost predicate FramesOnly(c: Conn, c': Conn) {
    && c' == c.(ledger := c'.ledger, events := c'.events)
    && Commands.Valid(c'.ledger) && Extends(c.ledger, c'.ledger)
    && c'.ledger.accepted == c.ledger.accepted
    && c'.ledger.pending.Keys <= c.ledger.pending.Keys
  }

  lemma HandleFrameKeeps(p: Protocol, c: Conn, frame: Frame)
    requires Commands.Valid(c.ledger)
    ensures FramesOnly(c, HandleFrame(p, c, frame).0)
  {
    if p.decode(frame).ReplyFrame? {
      HandleReplyValid(c.ledger, p.decode(frame).reply);
    }
  }

  lemma {:induction false} HandleFramesKeep(p: Protocol, c: Conn, frames: seq<Frame>)
    requires Commands.Valid(c.ledger)
    ensures FramesOnly(c, HandleFrames(p, c, frames).0)
    decreases frames
  {
    if frames == [] {
    } else {
      HandleFrameKeeps(p, c, frames[0]);
      var (c1, ok) := HandleFrame(p, c, frames[0]);
      if ok {
        HandleFramesKeep(p, c1, frames[1..]);
        ExtendsTrans(c.ledger, c1.ledger, HandleFrames(p, c1, frames[1..]).0.ledger);
      }
    }
  }

  lemma DrainKeeps(l: Ledger, order: seq<nat>, failure: Failure)
    requires Commands.Valid(l) && IsOrderOf(order, l.pending.Keys)
    ensures var l' := Drain(l, order, failure);
            Commands.Valid(l') && Extends(l, l') && l'.pending == map[] && l'.accepted == l.accepted
  {
    DrainValid(l, order, failure);
    DrainEmpties(l, order, failure);
    DrainRemoves(l, order, failure);
  }

  lemma WireAppend(p: Protocol, accepted: seq<Command>, command: Command)
    ensures Wire(p, accepted + [command]) == Wire(p, accepted) + [Encode(p.encode(command))]
  {
  }

  /** Handling what a chunk held, up to and including the event handed out. */
  lemma FeedKeepsInv(p: Protocol, first: Conn, c: Conn, r: FeedResult, after: seq<Byte>, c': Conn)
    requires Inv(p, first, c) && (r.Decoded? ==> Stalled(after)) && (r.Rejected? ==> after == [])
    requires c.link == Connected && c' == AfterFeed(p, c.(buffer := after), r)
    ensures Inv(p, first, c') && Extends(c.ledger, c'.ledger) && c'.link == c.link && c'.reconnects == c.reconnects
  {
    if r.Decoded? {
      HandleFramesKeep(p, c.(buffer := after), r.frames);
    }
  }

  lemma DropKeepsInv(p: Protocol, first: Conn, c: Conn, order: seq<nat>)
    requires Inv(p, first, c) && c.link == Connected && IsOrderOf(order, c.ledger.pending.Keys)
    ensures var c' := LinkDropped(c, order);
            && Inv(p, first, c') && Extends(c.ledger, c'.ledger) && c'.link == Connected
            && c'.ledger.pending == map[] && c'.reconnects == c.reconnects + 1
  {
    hide Commands.Valid, Extends, Drain;
    DrainKeeps(c.ledger, order, LinkDisconnected);
  }

  lemma ReceiveKeepsInv(p: Protocol, first: Conn, c: Conn, order: seq<nat>, c': Conn)
    requires Inv(p, first, c) && ReceiveStep(p, c, order, c')
    ensures Inv(p, first, c') && Extends(c.ledger, c'.ledger)
    ensures c'.link == c.link || c'.link == Connected
    ensures c.link == Closed ==> c'.ledger == c.ledger && c'.link == Closed
  {
    hide AfterFeed, LinkDropped, FeedStep, Commands.Valid, Extends;
    ExtendsItself(c.ledger);
    if c.events == [] && c.link == Connected && c.inbound != [] {
      var c1 := c.(inbound := c.inbound[1..]);
      match c.inbound[0] {
        case Bytes(bytes) =>
          var r, after :| FeedStep(c.buffer, bytes, r, after) && c' == AfterFeed(p, c1.(buffer := after), r);
          FeedLeaves(c.buffer, bytes, r, after);
          FeedKeepsInv(p, first, c1, r, after, c');
        case Disconnect =>
          DropKeepsInv(p, first, c1, order);
      }
    }
  }

  lemma FeedLeaves(before: seq<Byte>, chunk: seq<Byte>, r: FeedResult, after: seq<Byte>)
    requires FeedStep(before, chunk, r, after)
    ensures (r.Decoded? ==> Stalled(after)) && (r.Rejected? ==> after == [])
  {
  }

  lemma SendKeepsInv(p: Protocol, first: Conn, c: Conn, command: Command)
    requires Inv(p, first, c)
    ensures Inv(p, first, Sending(p, c, command).0) && Extends(c.ledger, Sending(p, c, command).0.ledger)
  {
    var s := command.sequence;
    if s !in c.ledger.pending && s !in c.ledger.filter.retired && c.link == Connected {
      AcceptValid(c.ledger, command);
      WireAppend(p, c.ledger.accepted, command);
    }
  }

  lemma StepKeepsInv(p: Protocol, first: Conn, c: Conn, op: Op, c': Conn)
    requires Inv(p, first, c) && Step(p, c, op, c')
    ensures Inv(p, first, c') && Extends(c.ledger, c'.ledger)
    ensures c.link == Closed ==> c'.link == Closed && c'.ledger == c.ledger
  {
    match op {
      case Close(order) => DrainKeeps(c.ledger, order, LinkClosed);
      case Send(command) => SendKeepsInv(p, first, c, command);
      case CancelCommand(sequence, reason) => CancelValid(c.ledger, sequence, Cancelled(reason));
      case Receive(order) => ReceiveKeepsInv(p, first, c, order, c');
      case Connect =>
      case Inbound(_) =>
    }
    if c.link == Closed && op.Close? {
      assert forall k :: k !in op.order;
      assert op.order == [];
    }
  }

  ghost predicate Run(p: Protocol, cs: seq<Conn>, ops: seq<Op>) {
    && |cs| == |ops| + 1 && cs[0] == Opened(cs[0].inbound, cs[0].outbound, cs[0].link)
    && forall i :: 0 <= i < |ops| ==> Step(p, cs[i], ops[i], cs[i + 1])
  }

  /** The invariant holds in every state of every run. */
  lemma {:induction false} RunKeepsInv(p: Protocol, cs: seq<Conn>, ops: seq<Op>, i: nat)
    requires Run(p, cs, ops) && i < |cs|
    ensures Inv(p, cs[0], cs[i])
  {
    if i == 0 {
      assert Wire(p, []) == [];
    } else {
      hide Inv, Step;
      RunKeepsInv(p, cs, ops, i - 1);
      StepKeepsInv(p, cs[0], cs[i - 1], ops[i - 1], cs[i]);
    }
  }

  lemma ExtendsItself(l: Ledger)
    ensures Extends(l, l)
  {
  }

  /** Completions are final, and nothing is accepted or completed after a close. */
  lemma {:induction false} RunExtends(p: Protocol, cs: seq<Conn>, ops: seq<Op>, i: nat, j: nat)
    requires Run(p, cs, ops) && i <= j < |cs|
    ensures Extends(cs[i].ledger, cs[j].ledger)
    ensures cs[i].link == Closed ==> cs[j].link == Closed && cs[j].ledger == cs[i].ledger
    decreases j - i
  {
    hide Inv, Step, Extends;
    if i == j {
      ExtendsItself(cs[i].ledger);
    } else {
      RunExtends(p, cs, ops, i, j - 1);
      RunKeepsInv(p, cs, ops, j - 1);
      StepKeepsInv(p, cs[0], cs[j - 1], ops[j - 1], cs[j]);
      ExtendsTrans(cs[i].ledger, cs[j - 1].ledger, cs[j].ledger);
    }
  }

  /**
   Correlation in every reachable state: accepted commands are pending or
   completed but not both, an answer has the sequence and the kind of its
   command, and the transport carries one more frame per accepted command.
   */
  lemma Correlation(p: Protocol, cs: seq<Conn>, ops: seq<Op>, i: nat)
    requires Run(p, cs, ops) && i < |cs|
    ensures var l := cs[i].ledger;
            && PendingTickets(l) !! l.completed.Keys
            && PendingTickets(l) + l.completed.Keys == Below(|l.accepted|)
            && |l.pending| + |l.completed| == |l.accepted| == |cs[i].outbound| - |cs[0].outbound|
            && (forall t :: t in l.completed && l.completed[t].Answered? ==>
                  && t < |l.accepted|
                  && l.completed[t].reply.sequence == l.accepted[t].sequence
                  && l.accepted[t].AcceptsReply(l.completed[t].reply))
  {
    RunKeepsInv(p, cs, ops, i);
    AcceptedPartition(cs[i].ledger);
    AcceptedCount(cs[i].ledger);
  }

  /** In every run, what a send answers and does; a refused one changes nothing. */
  lemma SendOutcome(p: Protocol, cs: seq<Conn>, ops: seq<Op>, i: nat, command: Command)
    requires Run(p, cs, ops) && i < |cs|
    ensures var c, c', r := cs[i], Sending(p, cs[i], command).0, Sending(p, cs[i], command).1;
            var used := command.sequence in LastRetired(c.ledger.filter.history);
            && (r == AlreadyPending <==> command.sequence in c.ledger.pending)
            && (r == AlreadyRetired <==> used)
            && (r == NotConnected <==> command.sequence !in c.ledger.pending && !used && c.link != Connected)
            && (!r.Sent? ==> c' == c)
            && (r.Sent? ==>
                  && r.ticket == |c.ledger.accepted| && c'.ledger.accepted == c.ledger.accepted + [command]
                  && c'.outbound == c.outbound + [Encode(p.encode(command))]
                  && c'.ledger.pending == c.ledger.pending[command.sequence := Pending(command, r.ticket)]
                  && c' == c.(outbound := c'.outbound, ledger := c'.ledger))
  {
    RunKeepsInv(p, cs, ops, i);
  }

  /** In every run, what becomes of the commands pending when the link is lost or the connection closed. */
  lemma LossOutcome(p: Protocol, cs: seq<Conn>, ops: seq<Op>, i: nat, s: nat)
    requires Run(p, cs, ops) && i < |ops| && s in cs[i].ledger.pending
    requires ops[i].Close? || cs[i + 1].reconnects > cs[i].reconnects
    ensures var t, completed := cs[i].ledger.pending[s].ticket, cs[i + 1].ledger.completed;
            t in completed && completed[t] == Failed(if ops[i].Close? then LinkClosed else LinkDisconnected)
  {
    RunKeepsInv(p, cs, ops, i);
    assert Step(p, cs[i], ops[i], cs[i + 1]);
    match ops[i] {
      case Close(order) => DrainOutcome(cs[i].ledger, order, LinkClosed, s);
      case Receive(order) =>
        LostLinkDrains(p, cs[i], order, cs[i + 1]);
        DrainOutcome(cs[i].ledger, order, LinkDisconnected, s);
      case _ =>
    }
  }

  lemma CancelInRun(p: Protocol, cs: seq<Conn>, ops: seq<Op>, i: nat)
    requires Run(p, cs, ops) && i < |ops| && ops[i].CancelCommand?
    ensures var l, l' := cs[i].ledger, cs[i + 1].ledger;
            if ops[i].sequence in l.pending
            then Completes(l, l', l.pending[ops[i].sequence].ticket, Failed(Cancelled(ops[i].reason)))
            else l' == l
  {
    RunKeepsInv(p, cs, ops, i);
    assert Step(p, cs[i], ops[i], cs[i + 1]);
    CancelOutcome(cs[i].ledger, ops[i].sequence, Cancelled(ops[i].reason));
  }

  /** A lost link leaves no bytes buffered, and the transport connected again. */
  lemma LostLinkResets(p: Protocol, cs: seq<Conn>, ops: seq<Op>, i: nat)
    requires Run(p, cs, ops) && i < |ops| && cs[i + 1].reconnects > cs[i].reconnects
    ensures var n := cs[i].reconnects + 1;
            && cs[i + 1].buffer == [] && cs[i + 1].link == Connected && cs[i + 1].state == Running
            && cs[i + 1].reconnects == n && cs[i + 1].events == [LinkRecovered(n, n)]
            && cs[i + 1].inbound == cs[i].inbound[1..] && cs[i + 1].outbound == cs[i].outbound
  {
    RunKeepsInv(p, cs, ops, i);
    assert Step(p, cs[i], ops[i], cs[i + 1]);
    OnlyReceiveReconnects(p, cs[i], ops[i], cs[i + 1]);
    LostLinkDrains(p, cs[i], ops[i].order, cs[i + 1]);
  }

  lemma OnlyReceiveReconnects(p: Protocol, c: Conn, op: Op, c': Conn)
    requires Step(p, c, op, c') && c'.reconnects > c.reconnects
    ensures op.Receive?
  {
  }

  /** A close leaves the connection ended for good. */
  lemma CloseEnds(p: Protocol, cs: seq<Conn>, ops: seq<Op>, i: nat)
    requires Run(p, cs, ops) && i < |ops| && ops[i].Close?
    ensures cs[i + 1].link == Closed && cs[i + 1].state == Ended && cs[i + 1].events == cs[i].events
  {
    assert Step(p, cs[i], ops[i], cs[i + 1]);
  }

  /** A close, or a receive that meets a lost link, leaves nothing pending. */
  lemma LinkLossCompletesAll(p: Protocol, cs: seq<Conn>, ops: seq<Op>, i: nat)
    requires Run(p, cs, ops) && i < |ops|
    requires ops[i].Close? || cs[i + 1].reconnects > cs[i].reconnects
    ensures cs[i + 1].ledger.pending == map[]
    ensures cs[i + 1].ledger.completed.Keys == Below(|cs[i + 1].ledger.accepted|)
  {
    RunKeepsInv(p, cs, ops, i);
    RunKeepsInv(p, cs, ops, i + 1);
    LossDrains(p, cs[i], ops[i], cs[i + 1]);
    AcceptedPartition(cs[i + 1].ledger);
    assert PendingTickets(cs[i + 1].ledger) == {};
  }

  lemma LossDrains(p: Protocol, c: Conn, op: Op, c': Conn)
    requires Commands.Valid(c.ledger) && Step(p, c, op, c') && (op.Close? || c'.reconnects > c.reconnects)
    ensures c'.ledger.pending == map[]
  {
    hide Commands.Valid, ReceiveStep, Drain;
    match op {
      case Close(order) => DrainEmpties(c.ledger, order, LinkClosed);
      case Receive(order) => LostLinkDrains(p, c, order, c');
      case _ =>
    }
  }

  /** Only a lost link raises the reconnect counter. */
  lemma LostLinkDrains(p: Protocol, c: Conn, order: seq<nat>, c': Conn)
    requires Commands.Valid(c.ledger) && ReceiveStep(p, c, order, c') && c'.reconnects > c.reconnects
    ensures c.events == [] && c.link == Connected && c.inbound != [] && c.inbound[0] == Disconnect
    ensures c'.reconnects == c.reconnects + 1 && c'.ledger.pending == map[]
  {
    var c1 := c.(inbound := c.inbound[1..]);
    match c.inbound[0] {
      case Bytes(bytes) =>
        var r, after :| FeedStep(c.buffer, bytes, r, after) && c' == AfterFeed(p, c1.(buffer := after), r);
        if r.Decoded? {
          HandleFramesKeep(p, c1.(buffer := after), r.frames);
        }
        assert false;
      case Disconnect =>
        DrainEmpties(c.ledger, order, LinkDisconnected);
    }
  }

  /** In every reachable state a sequence is refused as already used exactly when it is among the last 128 retired. */
  lemma ReusedSequenceRefused(p: Protocol, cs: seq<Conn>, ops: seq<Op>, i: nat, command: Command)
    requires Run(p, cs, ops) && i < |cs|
    ensures Sending(p, cs[i], command).1 == AlreadyRetired <==>
            command.sequence in LastRetired(cs[i].ledger.filter.history)
    ensures |cs[i].ledger.filter.retired| <= RETIRED_SEQUENCE_LIMIT
    ensures cs[i].ledger.filter.retired !! cs[i].ledger.pending.Keys
  {
    RunKeepsInv(p, cs, ops, i);
  }

  function Payloads(p: Protocol, accepted: seq<Command>): seq<Frame> {
    seq(|accepted|, i requires 0 <= i < |accepted| => p.encode(accepted[i]))
  }

  lemma {:induction false} WireIsEncodeAll(p: Protocol, accepted: seq<Command>)
    ensures Concat(Wire(p, accepted)) == EncodeAll(Payloads(p, accepted))
  {
    if accepted == [] {
    } else {
      assert Wire(p, accepted)[1..] == Wire(p, accepted[1..]);
      assert Payloads(p, accepted)[1..] == Payloads(p, accepted[1..]);
      WireIsEncodeAll(p, accepted[1..]);
    }
  }

  /** Decoding what the connection has sent gives back the payloads of the accepted commands, in order. */
  lemma OutboundDecodes(p: Protocol, cs: seq<Conn>, ops: seq<Op>, i: nat, sent: seq<seq<Byte>>,
                        results: seq<FeedResult>, after: seq<Byte>)
    requires Run(p, cs, ops) && i < |cs| && cs[i].outbound == cs[0].outbound + sent
    requires WellSized(Payloads(p, cs[i].ledger.accepted)) && FeedRun([], sent, results, after)
    ensures FirstRejection(results) == |results|
    ensures Delivered(results) == Payloads(p, cs[i].ledger.accepted) && after == []
  {
    RunKeepsInv(p, cs, ops, i);
    assert sent == cs[i].outbound[|cs[0].outbound|..] == Wire(p, cs[i].ledger.accepted);
    WireIsEncodeAll(p, cs[i].ledger.accepted);
    RoundTrip(Payloads(p, cs[i].ledger.accepted), sent, results, after);
  }

  // ----- The connection object

  datatype RecvResult = NoEvent | Received(event: Event) | RecvError

  function FirstEvent(c: Conn): RecvResult {
    if c.events == [] then NoEvent else Received(c.events[0])
  }

  function FeedAnswer(p: Protocol, c: Conn, r: FeedResult): RecvResult {
    if r.Rejected? then RecvError
    else
      var (c1, ok) := HandleFrames(p, c, r.frames);
      if ok then FirstEvent(c1) else RecvError
  }

  /** What a receive reports to its caller. */
  ghost predicate Reports(p: Protocol, c: Conn, answer: RecvResult) {
    if c.events != [] || c.link != Connected || c.inbound == [] then answer == FirstEvent(c)
    else
      match c.inbound[0]
      case Bytes(bytes) =>
        exists r, after :: FeedStep(c.buffer, bytes, r, after) && answer == FeedAnswer(p, c.(buffer := after), r)
      case Disconnect => answer == Received(LinkInterrupted(c.reconnects + 1))
  }

  lemma {:induction false} AnswerIgnoresInbound(p: Protocol, c: Conn, inbound: seq<InboundStep>, frames: seq<Frame>)
    ensures var (a, ok) := HandleFrames(p, c, frames);
            HandleFrames(p, c.(inbound := inbound), frames) == (a.(inbound := inbound), ok)
    decreases frames
  {
    if frames == [] {
    } else {
      var (c1, ok) := HandleFrame(p, c, frames[0]);
      if ok {
        AnswerIgnoresInbound(p, c1, inbound, frames[1..]);
      }
    }
  }

  /** The next receive finds that the link is gone. */
  predicate MeetsLostLink(c: Conn) {
    c.events == [] && c.link == Connected && c.inbound != [] && c.inbound[0] == Disconnect
  }

  lemma SameAnswer(p: Protocol, c: Conn, inbound: seq<InboundStep>, r: FeedResult)
    ensures FeedAnswer(p, c.(inbound := inbound), r) == FeedAnswer(p, c, r)
  {
    if r.Decoded? {
      AnswerIgnoresInbound(p, c, inbound, r.frames);
    }
  }

  class DeviceConnection {
    const protocol: Protocol
    const transport: InMemoryTransport
    const codec: FrameCodec
    var reconnects: nat
    var pending: map<nat, Pending>
    var retired: set<nat>
    var order: seq<nat>
    var events: seq<Event>
    var state: ConnectionState
    // Reply channels and histories: a ticket stands for the channel handed to the
    // caller, `completed` holds what was sent on it.
    var accepted: seq<Command>
    var completed: map<nat, Completion>
    ghost var history: seq<nat>

    ghost function Ledger(): Ledger
      reads this
    {
      Commands.Ledger(pending, ReplayFilter(retired, order, history), accepted, completed)
    }

    ghost function View(): Conn
      reads this, transport, codec
    {
      Conn(transport.inbound, transport.outbound, transport.state, codec.buffer, reconnects, Ledger(), events, state)
    }

    constructor (protocol: Protocol, transport: InMemoryTransport)
      ensures View() == Opened(transport.inbound, transport.outbound, transport.state)
      ensures this.protocol == protocol && this.transport == transport && fresh(codec)
    {
      this.protocol := protocol;
      this.transport := transport;
      codec := new FrameCodec();
      reconnects, pending, retired, order, events, state := 0, map[], {}, [], [], Idle;
      history, accepted, completed := [], [], map[];
    }

    method Connect()
      modifies this`state, transport`state
      ensures View() == Reconnected(old(View()))
    {
      var link := transport.Connect();
      state := FromTransport(link);
    }

    method RetireSequence(sequence: nat)
      modifies `retired, `order, `history
      ensures Ledger() == old(Ledger()).(filter := Retire(old(Ledger()).filter, sequence))
    {
      if |retired| >= RETIRED_SEQUENCE_LIMIT && order != [] {
        retired := retired - {order[0]};
        order := order[1..];
      }
      if sequence !in retired {
        retired := retired + {sequence};
        order := order + [sequence];
      }
      history := history + [sequence];
    }

    method Complete(sequence: nat, completion: Completion)
      requires sequence in pending
      modifies `pending, `retired, `order, `history, `completed
      ensures Ledger() == Finish(old(Ledger()), sequence, completion)
    {
      completed := completed[pending[sequence].ticket := completion];
      pending := pending - {sequence};
      RetireSequence(sequence);
    }

    method Cancel(sequence: nat, reason: string)
      modifies this
      ensures Step(protocol, old(View()), Op.CancelCommand(sequence, reason), View())
      ensures pending == old(pending) - {sequence}
    {
      if sequence in pending {
        Complete(sequence, Failed(Cancelled(reason)));
      }
    }

    method SendCommand(command: Command) returns (r: SendResult)
      modifies this, transport
      ensures Step(protocol, old(View()), Op.Send(command), View())
      ensures r == Sending(protocol, old(View()), command).1
      ensures r.Sent? ==> command.sequence in pending && pending[command.sequence] == Pending(command, r.ticket)
      ensures r.Sent? ==> accepted == old(accepted) + [command] && r.ticket == |old(accepted)|
    {
      if command.sequence in pending {
        return AlreadyPending;
      }
      if command.sequence in retired {
        return AlreadyRetired;
      }
      var sent := transport.Send(Encode(protocol.encode(command)));
      if !sent {
        return NotConnected;
      }
      r := Sent(|accepted|);
      pending := pending[command.sequence := Pending(command, |accepted|)];
      accepted := accepted + [command];
    }

    method Handle(frame: Frame) returns (ok: bool)
      modifies this
      ensures (View(), ok) == HandleFrame(protocol, old(View()), frame)
    {
      match protocol.decode(frame) {
        case ReplyFrame(reply) =>
          if reply.sequence in pending {
            if pending[reply.sequence].command.AcceptsReply(reply) {
              Complete(reply.sequence, Answered(reply));
            } else {
              Complete(reply.sequence, Failed(Mismatch(reply)));
            }
          }
          return true;
        case EventFrame(event) =>
          events := events + [event];
          return true;
        case Undecodable =>
          return false;
      }
    }

    method HandleAll(frames: seq<Frame>) returns (ok: bool)
      modifies this
      ensures (View(), ok) == HandleFrames(protocol, old(View()), frames)
    {
      var i := 0;
      assert frames[0..] == frames;
      while i < |frames|
        invariant 0 <= i <= |frames|
        invariant HandleFrames(protocol, old(View()), frames) == HandleFrames(protocol, View(), frames[i..])
      {
        assert frames[i..][0] == frames[i] && frames[i..][1..] == frames[i + 1..];
        var handled := Handle(frames[i]);
        if !handled {
          return false;
        }
        i := i + 1;
      }
      return true;
    }

    /** Empties the pending table, then retires and answers each entry in an arbitrary order. */
    method DrainPendingCommands(failure: Failure) returns (ghost visited: seq<nat>)
      modifies `pending, `retired, `order, `history, `completed
      ensures IsOrderOf(visited, old(pending).Keys)
      ensures pending == map[]
      ensures Ledger() == Drain(old(Ledger()), visited, failure).(pending := map[])
    {
      hide IsOrderOf, Drain, Retire;
      var taken := pending;
      pending := map[];
      DrainNothing(old(Ledger()), failure);
      assert taken.Keys - taken.Keys == {};
      var remaining := taken.Keys;
      visited := [];
      ghost var drained := old(Ledger());
      while remaining != {}
        invariant remaining <= taken.Keys && drained.pending.Keys == remaining
        invariant forall k :: k in remaining ==> drained.pending[k] == taken[k]
        invariant IsOrderOf(visited, taken.Keys - remaining)
        invariant drained == Drain(old(Ledger()), visited, failure)
        invariant Ledger() == drained.(pending := map[])
        decreases remaining
      {
        var sequence :| sequence in remaining;
        DrainAppend(old(Ledger()), visited, sequence, failure);
        AddNewest(visited, taken.Keys - remaining, sequence);
        drained := Commands.Cancel(drained, sequence, failure);
        RetireSequence(sequence);
        completed := completed[taken[sequence].ticket := Failed(failure)];
        assert taken.Keys - (remaining - {sequence}) == (taken.Keys - remaining) + {sequence};
        remaining := remaining - {sequence};
        visited := visited + [sequence];
      }
      assert taken.Keys - {} == taken.Keys;
    }

    method Close() returns (ghost visited: seq<nat>)
      modifies this, transport
      ensures Step(protocol, old(View()), Op.Close(visited), View())
      ensures pending == map[] && transport.state == Closed && state == Ended
    {
      visited := DrainPendingCommands(LinkClosed);
      DrainEmpties(old(Ledger()), visited, LinkClosed);
      transport.Close();
      state := Ended;
    }

    method RecvEvent() returns (r: RecvResult, ghost visited: seq<nat>)
      modifies this, transport, codec
      ensures Step(protocol, old(View()), Op.Receive(visited), View())
      ensures Reports(protocol, old(View()), r)
      ensures MeetsLostLink(old(View())) ==> codec.buffer == [] && pending == map[]
    {
      hide FeedStep, AfterFeed, FeedAnswer, Drain, IsOrderOf;
      visited := [];
      if events != [] {
        r := Received(events[0]);
        events := events[1..];
        return;
      }
      var read := transport.Recv();
      match read {
        case ReadIdle => r := NoEvent;
        case ReadBytes(bytes) =>
          ghost var c := View();
          r := ReceiveBytes(bytes);
          ghost var f, after :| FeedStep(c.buffer, bytes, f, after)
                                && View() == AfterFeed(protocol, c.(buffer := after), f)
                                && r == FeedAnswer(protocol, c.(buffer := after), f);
          SameAnswer(protocol, c.(buffer := after), old(transport.inbound), f);
        case ReadDisconnected => r, visited := DropLink();
      }
    }

    method ReceiveBytes(bytes: seq<Byte>) returns (r: RecvResult)
      requires events == []
      modifies this, codec
      ensures exists f, after :: FeedStep(old(codec.buffer), bytes, f, after)
                                 && View() == AfterFeed(protocol, old(View()).(buffer := after), f)
                                 && r == FeedAnswer(protocol, old(View()).(buffer := after), f)
    {
      var f := codec.Feed(bytes);
      assert FeedStep(old(codec.buffer), bytes, f, codec.buffer);
      if f.Rejected? {
        return RecvError;
      }
      var ok := HandleAll(f.frames);
      if !ok {
        return RecvError;
      }
      if events == [] {
        return NoEvent;
      }
      r := Received(events[0]);
      events := events[1..];
    }

    method DropLink() returns (r: RecvResult, ghost visited: seq<nat>)
      requires transport.state == Disconnected
      modifies this, transport`state, codec
      ensures IsOrderOf(visited, old(pending).Keys)
      ensures View() == LinkDropped(old(View()), visited)
      ensures r == Received(LinkInterrupted(reconnects))
      ensures codec.buffer == [] && pending == map[] && reconnects == old(reconnects) + 1
      ensures transport.state == Connected && events == old(events) + [LinkRecovered(reconnects, reconnects)]
    {
      hide IsOrderOf, Drain;
      reconnects := reconnects + 1;
      codec.Reset();
      visited := DrainPendingCommands(LinkDisconnected);
      DrainEmpties(old(Ledger()), visited, LinkDisconnected);
      Connect();
      events := events + [LinkRecovered(reconnects, reconnects)];
      r := Received(LinkInterrupted(reconnects));
    }
  }
}
