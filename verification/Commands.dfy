/**
 Command correlation of the controller connection: which accepted command each
 reply, cancellation or lost link completes, and the bounded filter that keeps
 a recently used sequence number from being reused.

 A ledger holds the connection's own tables (`pending` and the replay filter's
 `retired` and `order`) together with three histories that exist only to state
 properties: every accepted command (its index is its ticket), the completion
 sent for each ticket, and every sequence number ever retired.
 */
module Commands {
  const RETIRED_SEQUENCE_LIMIT: nat := 128

  datatype Command = Ping(sequence: nat) | Reload(sequence: nat) {
    predicate AcceptsReply(reply: Reply) {
      (Ping? && reply.Ack?) || (Reload? && reply.Reloaded?)
    }
  }

  datatype Reply = Ack(sequence: nat) | Reloaded(sequence: nat)

  datatype Failure = Cancelled(reason: string) | LinkDisconnected | LinkClosed | Mismatch(reply: Reply)

  datatype Completion = Answered(reply: Reply) | Failed(failure: Failure)

  datatype Pending = Pending(command: Command, ticket: nat)

  datatype ReplayFilter = ReplayFilter(retired: set<nat>, order: seq<nat>, history: seq<nat>)

  datatype Ledger = Ledger(
    pending: map<nat, Pending>,
    filter: ReplayFilter,
    accepted: seq<Command>,
    completed: map<nat, Completion>)

  const EMPTY := Ledger(map[], ReplayFilter({}, [], []), [], map[])

  function Retire(f: ReplayFilter, sequence: nat): ReplayFilter {
    var full := |f.retired| >= RETIRED_SEQUENCE_LIMIT && f.order != [];
    var retired := if full then f.retired - {f.order[0]} else f.retired;
    var order := if full then f.order[1..] else f.order;
    ReplayFilter(retired + {sequence},
                 if sequence in retired then order else order + [sequence],
                 f.history + [sequence])
  }

  function Accept(l: Ledger, command: Command): Ledger {
    l.(pending := l.pending[command.sequence := Pending(command, |l.accepted|)], accepted := l.accepted + [command])
  }

  /** Removes a pending command, retires its sequence and answers its caller. */
  function Finish(l: Ledger, sequence: nat, completion: Completion): Ledger
    requires sequence in l.pending
  {
    l.(pending := l.pending - {sequence},
       filter := Retire(l.filter, sequence),
       completed := l.completed[l.pending[sequence].ticket := completion])
  }

  function Cancel(l: Ledger, sequence: nat, failure: Failure): Ledger {
    if sequence in l.pending then Finish(l, sequence, Failed(failure)) else l
  }

  function HandleReply(l: Ledger, reply: Reply): Ledger {
    if reply.sequence !in l.pending then l
    else if l.pending[reply.sequence].command.AcceptsReply(reply) then Finish(l, reply.sequence, Answered(reply))
    else Finish(l, reply.sequence, Failed(Mismatch(reply)))
  }

  /** Draining visits the pending table in an order the source leaves open. */
  function Drain(l: Ledger, order: seq<nat>, failure: Failure): Ledger
    decreases order
  {
    if order == [] then l else Drain(Cancel(l, order[0], failure), order[1..], failure)
  }

  predicate Distinct(s: seq<nat>) {
    forall i, j :: 0 <= i < j < |s| ==> s[i] != s[j]
  }

  ghost predicate IsOrderOf(order: seq<nat>, keys: set<nat>) {
    Distinct(order) && forall k :: k in order <==> k in keys
  }

  // ----- What every reachable ledger satisfies

  function LastRetired(history: seq<nat>): seq<nat> {
    if |history| <= RETIRED_SEQUENCE_LIMIT then history else history[|history| - RETIRED_SEQUENCE_LIMIT..]
  }

  /** Every ticket is either completed or held by the pending entry of its own sequence, never both. */
  ghost predicate Correlated(l: Ledger) {
    && (forall s :: s in l.pending ==>
          && l.pending[s].ticket < |l.accepted| && l.pending[s].ticket !in l.completed
          && l.accepted[l.pending[s].ticket] == l.pending[s].command && l.pending[s].command.sequence == s)
    && (forall t :: t in l.completed ==> t < |l.accepted|)
    && (forall t: nat :: t < |l.accepted| && t !in l.completed ==>
          l.accepted[t].sequence in l.pending && l.pending[l.accepted[t].sequence].ticket == t)
  }

  ghost predicate Matched(l: Ledger) {
    forall t :: t in l.completed && t < |l.accepted| && l.completed[t].Answered? ==>
      && l.completed[t].reply.sequence == l.accepted[t].sequence
      && l.accepted[t].AcceptsReply(l.completed[t].reply)
  }

  /** The retired set is exactly the last 128 retirements, and these are distinct. */
  ghost predicate Exact(f: ReplayFilter) {
    f.order == LastRetired(f.history) && IsOrderOf(f.order, f.retired) && |f.retired| == |f.order|
  }

  ghost predicate Valid(l: Ledger) {
    Correlated(l) && Matched(l) && Exact(l.filter) && l.filter.retired !! l.pending.Keys
  }

  /** Histories only grow; in particular a completion, once sent, is never replaced. */
  ghost predicate Extends(l: Ledger, l': Ledger) {
    && l.accepted <= l'.accepted
    && l.filter.history <= l'.filter.history
    && forall t :: t in l.completed ==> t in l'.completed && l'.completed[t] == l.completed[t]
  }

  lemma AcceptValid(l: Ledger, command: Command)
    requires Valid(l) && command.sequence !in l.pending && command.sequence !in l.filter.retired
    ensures Valid(Accept(l, command)) && Extends(l, Accept(l, command))
  {
    var l' := Accept(l, command);
    assert forall t: nat :: t < |l.accepted| ==> l'.accepted[t] == l.accepted[t];
    assert Correlated(l');
  }

  lemma DropOldest(order: seq<nat>, keys: set<nat>)
    requires IsOrderOf(order, keys) && order != []
    ensures order[0] in keys && IsOrderOf(order[1..], keys - {order[0]})
  {
    assert order == [order[0]] + order[1..];
  }

  lemma AddNewest(order: seq<nat>, keys: set<nat>, k: nat)
    requires IsOrderOf(order, keys) && k !in keys
    ensures IsOrderOf(order + [k], keys + {k})
  {
  }

  lemma LastRetiredAppend(history: seq<nat>, k: nat)
    ensures var last := LastRetired(history);
            LastRetired(history + [k]) == (if |last| == RETIRED_SEQUENCE_LIMIT then last[1..] else last) + [k]
  {
  }

  lemma RetireExact(f: ReplayFilter, sequence: nat)
    requires Exact(f) && sequence !in f.retired
    ensures Exact(Retire(f, sequence))
    ensures Retire(f, sequence).order == (if |f.order| == RETIRED_SEQUENCE_LIMIT then f.order[1..] else f.order)
            + [sequence]
    ensures Retire(f, sequence).retired <= f.retired + {sequence}
  {
    hide IsOrderOf, LastRetired;
    LastRetiredAppend(f.history, sequence);
    LastRetiredLength(f.history);
    if |f.order| == RETIRED_SEQUENCE_LIMIT {
      DropOldest(f.order, f.retired);
      AddNewest(f.order[1..], f.retired - {f.order[0]}, sequence);
    } else {
      AddNewest(f.order, f.retired, sequence);
    }
  }

  lemma LastRetiredLength(history: seq<nat>)
    ensures |LastRetired(history)| <= RETIRED_SEQUENCE_LIMIT
  {
  }

  lemma FinishCorrelated(l: Ledger, sequence: nat, completion: Completion)
    requires Correlated(l) && sequence in l.pending
    ensures Correlated(Finish(l, sequence, completion))
  {
  }

  lemma FinishValid(l: Ledger, sequence: nat, completion: Completion)
    requires Valid(l) && sequence in l.pending
    requires completion.Answered? ==>
               completion.reply.sequence == sequence && l.pending[sequence].command.AcceptsReply(completion.reply)
    ensures Valid(Finish(l, sequence, completion)) && Extends(l, Finish(l, sequence, completion))
    ensures Finish(l, sequence, completion).pending == l.pending - {sequence}
  {
    hide Exact, Retire, Correlated;
    RetireExact(l.filter, sequence);
    FinishCorrelated(l, sequence, completion);
    FinishMatched(l, sequence, completion);
    FinishExtends(l, sequence, completion);
  }

  lemma FinishMatched(l: Ledger, sequence: nat, completion: Completion)
    requires Correlated(l) && Matched(l) && sequence in l.pending
    requires completion.Answered? ==>
               completion.reply.sequence == sequence && l.pending[sequence].command.AcceptsReply(completion.reply)
    ensures Matched(Finish(l, sequence, completion))
  {
  }

  lemma FinishExtends(l: Ledger, sequence: nat, completion: Completion)
    requires Correlated(l) && sequence in l.pending
    ensures Extends(l, Finish(l, sequence, completion))
  {
  }

  lemma CancelValid(l: Ledger, sequence: nat, failure: Failure)
    requires Valid(l)
    ensures Valid(Cancel(l, sequence, failure)) && Extends(l, Cancel(l, sequence, failure))
    ensures Cancel(l, sequence, failure).pending == l.pending - {sequence}
  {
    if sequence in l.pending {
      FinishValid(l, sequence, Failed(failure));
    }
  }

  lemma HandleReplyValid(l: Ledger, reply: Reply)
    requires Valid(l)
    ensures Valid(HandleReply(l, reply)) && Extends(l, HandleReply(l, reply))
    ensures HandleReply(l, reply).pending == l.pending - {reply.sequence}
  {
    if reply.sequence in l.pending {
      if l.pending[reply.sequence].command.AcceptsReply(reply) {
        FinishValid(l, reply.sequence, Answered(reply));
      } else {
        FinishValid(l, reply.sequence, Failed(Mismatch(reply)));
      }
    }
  }

  lemma {:induction false} DrainValid(l: Ledger, order: seq<nat>, failure: Failure)
    requires Valid(l)
    ensures Valid(Drain(l, order, failure)) && Extends(l, Drain(l, order, failure))
    decreases order
  {
    if order == [] {
    } else {
      var l1 := Cancel(l, order[0], failure);
      CancelValid(l, order[0], failure);
      DrainValid(l1, order[1..], failure);
      ExtendsTrans(l, l1, Drain(l1, order[1..], failure));
    }
  }

  lemma ExtendsTrans(a: Ledger, b: Ledger, c: Ledger)
    requires Extends(a, b) && Extends(b, c)
    ensures Extends(a, c)
  {
  }

  lemma {:induction false} DrainRemoves(l: Ledger, order: seq<nat>, failure: Failure)
    ensures Drain(l, order, failure).accepted == l.accepted
    ensures forall k :: k in Drain(l, order, failure).pending ==> k in l.pending && k !in order
    decreases order
  {
    if order == [] {
    } else {
      DrainRemoves(Cancel(l, order[0], failure), order[1..], failure);
      assert order == [order[0]] + order[1..];
    }
  }

  /** A drain leaves nothing pending, whatever order it takes. */
  lemma DrainEmpties(l: Ledger, order: seq<nat>, failure: Failure)
    requires IsOrderOf(order, l.pending.Keys)
    ensures Drain(l, order, failure).pending == map[]
  {
    DrainRemoves(l, order, failure);
  }

  lemma DrainNothing(l: Ledger, failure: Failure)
    ensures Drain(l, [], failure) == l && IsOrderOf([], {})
  {
  }

  lemma {:induction false} DrainAppend(l: Ledger, order: seq<nat>, sequence: nat, failure: Failure)
    ensures Drain(l, order + [sequence], failure) == Cancel(Drain(l, order, failure), sequence, failure)
    decreases order
  {
    if order == [] {
      assert order + [sequence] == [sequence];
      assert Drain(Cancel(l, sequence, failure), [], failure) == Cancel(l, sequence, failure);
    } else {
      assert (order + [sequence])[1..] == order[1..] + [sequence];
      DrainAppend(Cancel(l, order[0], failure), order[1..], sequence, failure);
    }
  }

  // ----- What each caller is told

  /** Exactly the ticket t is completed, with the given outcome. */
  ghost predicate Completes(l: Ledger, l': Ledger, t: nat, outcome: Completion) {
    && t !in l.completed && l'.completed == l.completed[t := outcome] && l'.accepted == l.accepted
  }

  /** An Ack answers a ping and a Reloaded a reload; any other reply fails them, and an orphan changes nothing. */
  lemma ReplyOutcome(l: Ledger, reply: Reply)
    requires Valid(l)
    ensures reply.sequence !in l.pending ==> HandleReply(l, reply) == l
    ensures reply.sequence in l.pending ==>
              var command, t := l.pending[reply.sequence].command, l.pending[reply.sequence].ticket;
              var fits := match command case Ping(_) => reply.Ack? case Reload(_) => reply.Reloaded?;
              Completes(l, HandleReply(l, reply), t, if fits then Answered(reply) else Failed(Mismatch(reply)))
  {
  }

  lemma CancelOutcome(l: Ledger, sequence: nat, failure: Failure)
    requires Valid(l)
    ensures sequence !in l.pending ==> Cancel(l, sequence, failure) == l
    ensures sequence in l.pending ==>
              Completes(l, Cancel(l, sequence, failure), l.pending[sequence].ticket, Failed(failure))
  {
  }

  /** A drain fails every command pending, with its own reason. */
  lemma {:induction false} DrainOutcome(l: Ledger, order: seq<nat>, failure: Failure, s: nat)
    requires Valid(l) && s in l.pending && s in order
    ensures var t, completed := l.pending[s].ticket, Drain(l, order, failure).completed;
            t in completed && completed[t] == Failed(failure)
    decreases order
  {
    var l1 := Cancel(l, order[0], failure);
    CancelValid(l, order[0], failure);
    CancelOutcome(l, order[0], failure);
    if s == order[0] {
      DrainValid(l1, order[1..], failure);
    } else {
      assert s in order[1..];
      DrainOutcome(l1, order[1..], failure, s);
    }
  }

  /** An accepted command is remembered under its ticket and waits under its sequence. */
  lemma AcceptOutcome(l: Ledger, command: Command)
    ensures var l' := Accept(l, command);
            && l'.accepted == l.accepted + [command] && l'.completed == l.completed && l'.filter == l.filter
            && l'.pending == l.pending[command.sequence := Pending(command, |l.accepted|)]
  {
  }

  // ----- Consequences for callers

  function PendingTickets(l: Ledger): set<nat> {
    set s | s in l.pending :: l.pending[s].ticket
  }

  function Below(n: nat): (s: set<nat>)
    ensures |s| == n && forall t: nat :: t in s <==> t < n
  {
    if n == 0 then {} else Below(n - 1) + {n - 1}
  }

  /** Accepted commands are the disjoint union of the pending and the completed ones. */
  lemma AcceptedPartition(l: Ledger)
    requires Correlated(l)
    ensures PendingTickets(l) !! l.completed.Keys
    ensures PendingTickets(l) + l.completed.Keys == Below(|l.accepted|)
  {
    forall t: nat | t < |l.accepted| && t !in l.completed
      ensures t in PendingTickets(l)
    {
      assert l.pending[l.accepted[t].sequence].ticket == t;
    }
  }

  lemma AcceptedCount(l: Ledger)
    requires Correlated(l)
    ensures |l.pending| + |l.completed| == |l.accepted|
  {
    AcceptedPartition(l);
    TicketCount(l.pending, l.pending.Keys);
    var tickets := set s | s in l.pending.Keys :: l.pending[s].ticket;
    assert PendingTickets(l) == tickets;
    assert |tickets + l.completed.Keys| == |tickets| + |l.completed.Keys|;
  }

  lemma {:induction false} TicketCount(pending: map<nat, Pending>, keys: set<nat>)
    requires keys <= pending.Keys
    requires forall s, s' :: s in keys && s' in keys && pending[s].ticket == pending[s'].ticket ==> s == s'
    ensures |set s | s in keys :: pending[s].ticket| == |keys|
    decreases |keys|
  {
    if keys == {} {
    } else {
      var k :| k in keys;
      TicketCount(pending, keys - {k});
      var rest := set s | s in keys - {k} :: pending[s].ticket;
      assert (set s | s in keys :: pending[s].ticket) == rest + {pending[k].ticket};
    }
  }

  /** The i-th retirement keeps its sequence rejected while fewer than 128 others have followed it. */
  lemma ReplayWindow(f: ReplayFilter, i: nat)
    requires Exact(f) && i < |f.history| <= i + 128
    ensures f.history[i] in f.retired
    ensures |f.retired| <= 128
  {
    var n := |f.history|;
    var k := if n <= RETIRED_SEQUENCE_LIMIT then i else i + RETIRED_SEQUENCE_LIMIT - n;
    assert f.order[k] == f.history[i];
  }

  /** The 128th later retirement releases it. */
  lemma ReplayRelease(l: Ledger, i: nat, sequence: nat)
    requires Valid(l) && sequence in l.pending
    requires |l.filter.history| == i + 128
    ensures l.filter.history[i] in l.filter.retired
    ensures l.filter.history[i] !in Retire(l.filter, sequence).retired
  {
    var f := l.filter;
    ReplayWindow(f, i);
    assert f.order[0] == f.history[i];
    RetireExact(f, sequence);
    assert f.order[0] !in f.order[1..];
  }
}
