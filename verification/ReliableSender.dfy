/** One connection of the reliable sender: a queue of messages to write and a queue of messages
    written and not yet acknowledged, across any number of reconnections. */
module ReliableSender {
  import opened Types

  type Bytes = seq<bv8>

  /** A message and the handler through which its sender cancels it or learns the reply. Every
      message has a handler of its own. */
  datatype Message = Message(data: Bytes, handler: nat)

  /** What happens to a message taken from the buffer: skipped because its sender cancelled it,
      written, or put back because the write failed. */
  datatype Attempt = Cancelled | Sent | Failed

  datatype Arrival = Incoming(m: Message) | Response(reply: Option<Bytes>)

  /** While disconnected a connection succeeds or a message is queued, with the handlers then
      closed; while connected the buffer is flushed and something arrives. */
  datatype Event =
    | Connect
    | Enqueue(m: Message, closed: set<nat>)
    | Serve(attempts: nat -> Attempt, arrival: Arrival)

  /** The queues, then logs: all messages received, the replies handed over, the handlers
      dropped as cancelled, and, for the current or last connection, the handlers gone before
      it, the messages written on it and the replies read from it. */
  datatype Link = Link(
    connected: bool,
    buffer: seq<Message>,
    pending: seq<Message>,
    received: seq<Message>,
    acked: map<nat, Bytes>,
    dropped: set<nat>,
    before: set<nat>,
    written: seq<Message>,
    replies: seq<Bytes>)

  const START := Link(false, [], [], [], map[], {}, {}, [], [])

  /** The messages whose handlers are not gone, in order. */
  function Surviving(ms: seq<Message>, gone: set<nat>): seq<Message> {
    if ms == [] then []
    else if ms[0].handler in gone then Surviving(ms[1..], gone)
    else [ms[0]] + Surviving(ms[1..], gone)
  }

  function Handlers(ms: seq<Message>): seq<nat> {
    seq(|ms|, i requires 0 <= i < |ms| => ms[i].handler)
  }

  // ----- Steps

  /** Take messages from the buffer until it is empty or a write fails. */
  function Flush(s: Link, attempts: nat -> Attempt): (Link, bool)
    decreases |s.buffer|
  {
    if s.buffer == [] then (s, true)
    else
      var m, rest := s.buffer[0], s.buffer[1..];
      match attempts(m.handler)
      case Cancelled => Flush(s.(buffer := rest, dropped := s.dropped + {m.handler}), attempts)
      case Sent => Flush(s.(buffer := rest, pending := s.pending + [m], written := s.written + [m]), attempts)
      case Failed => (s, false)
  }

  /** The connection is lost: what was not acknowledged will be sent again, and first. */
  function Break(s: Link): Link {
    s.(connected := false, buffer := s.pending + s.buffer, pending := [])
  }

  function Arrive(s: Link, a: Arrival): Link {
    match a
    case Incoming(m) => s.(buffer := s.buffer + [m], received := s.received + [m])
    case Response(reply) =>
      if s.pending == [] || reply.None? then Break(s)
      else s.(pending := s.pending[1..], replies := s.replies + [reply.value],
              acked := s.acked[s.pending[0].handler := reply.value])
  }

  function Step(s: Link, e: Event): Link {
    match e
    case Connect =>
      if s.connected then s
      else s.(connected := true, pending := [], before := s.acked.Keys + s.dropped, written := [], replies := [])
    case Enqueue(m, closed) =>
      if s.connected then s
      else
        var all := s.buffer + [m];
        s.(buffer := Surviving(all, closed), received := s.received + [m],
           dropped := s.dropped + (Members(Handlers(all)) * closed))
    case Serve(attempts, arrival) =>
      if !s.connected then s
      else
        var (s1, ok) := Flush(s, attempts);
        if ok then Arrive(s1, arrival) else Break(s1)
  }

  function Run(es: seq<Event>): Link {
    if es == [] then START else Step(Run(es[..|es| - 1]), es[|es| - 1])
  }

  // ----- The connection itself

  class Connection {
    var connected: bool
    var buffer: seq<Message>
    var pending: seq<Message>
    var acked: map<nat, Bytes>
    ghost var received: seq<Message>
    ghost var dropped: set<nat>
    ghost var before: set<nat>
    ghost var written: seq<Message>
    ghost var replies: seq<Bytes>

    ghost function Value(): Link
      reads this
    {
      Link(connected, buffer, pending, received, acked, dropped, before, written, replies)
    }

    constructor ()
      ensures Value() == START
    {
      connected, buffer, pending, acked := false, [], [], map[];
      received, dropped, before, written, replies := [], {}, {}, [], [];
    }

    /** The stream is up. */
    method Open()
      requires !connected
      modifies this
      ensures Value() == Step(old(Value()), Connect)
    {
      connected, pending := true, [];
      before, written, replies := acked.Keys + dropped, [], [];
    }

    /** Waiting to reconnect: queue a message and forget the cancelled ones. */
    method Wait(m: Message, closed: set<nat>)
      requires !connected
      modifies this
      ensures Value() == Step(old(Value()), Enqueue(m, closed))
    {
      received := received + [m];
      buffer := buffer + [m];
      dropped := dropped + (Members(Handlers(buffer)) * closed);
      buffer := Surviving(buffer, closed);
    }

    /** Try to send all messages of the buffer. */
    method SendBuffer(attempts: nat -> Attempt) returns (ok: bool)
      modifies this
      ensures (Value(), ok) == Flush(old(Value()), attempts)
    {
      while buffer != []
        invariant Flush(Value(), attempts) == Flush(old(Value()), attempts)
        decreases |buffer|
      {
        var m := buffer[0];
        match attempts(m.handler) {
          case Cancelled =>
            buffer := buffer[1..];
            dropped := dropped + {m.handler};
          case Sent =>
            buffer := buffer[1..];
            pending := pending + [m];
            written := written + [m];
          case Failed =>
            return false;
        }
      }
      return true;
    }

    /** Put the messages without an acknowledgement back, the oldest first. */
    method Close()
      modifies this
      ensures Value() == Break(old(Value()))
    {
      connected := false;
      while pending != []
        invariant Value() == old(Value()).(connected := false, buffer := buffer, pending := pending)
        invariant pending + buffer == old(pending) + old(buffer)
        decreases |pending|
      {
        var last := |pending| - 1;
        assert pending + buffer == pending[..last] + ([pending[last]] + buffer);
        buffer := [pending[last]] + buffer;
        pending := pending[..last];
      }
    }

    /** One turn of `keep_alive`. */
    method Turn(attempts: nat -> Attempt, arrival: Arrival)
      requires connected
      modifies this
      ensures Value() == Step(old(Value()), Serve(attempts, arrival))
    {
      hide Flush;
      var ok := SendBuffer(attempts);
      if !ok {
        Close();
        return;
      }
      match arrival
      case Incoming(m) =>
        buffer := buffer + [m];
        received := received + [m];
      case Response(reply) =>
        if pending == [] || reply.None? {
          Close();
          return;
        }
        var m := pending[0];
        pending := pending[1..];
        acked := acked[m.handler := reply.value];
        replies := replies + [reply.value];
    }

    method Perform(e: Event)
      modifies this
      ensures Value() == Step(old(Value()), e)
    {
      match e
      case Connect =>
        if !connected {
          Open();
        }
      case Enqueue(m, closed) =>
        if !connected {
          Wait(m, closed);
        }
      case Serve(attempts, arrival) =>
        if connected {
          Turn(attempts, arrival);
        }
    }

    /** The main loop, on what happens to it. */
    method Loop(es: seq<Event>)
      requires Value() == START
      modifies this
      ensures Value() == Run(es)
    {
      hide Step;
      for i := 0 to |es|
        invariant Value() == Run(es[..i])
      {
        assert es[..i + 1][..i] == es[..i];
        Perform(es[i]);
      }
      assert es[..|es|] == es;
    }
  }

  // ----- What every run keeps

  lemma {:induction false} SurvivingTwice(ms: seq<Message>, a: set<nat>, b: set<nat>)
    ensures Surviving(Surviving(ms, a), b) == Surviving(ms, a + b)
  {
    if ms != [] {
      SurvivingTwice(ms[1..], a, b);
      if ms[0].handler !in a {
        assert Surviving(ms, a)[1..] == Surviving(ms[1..], a);
      }
    }
  }

  lemma {:induction false} SurvivingSnoc(ms: seq<Message>, m: Message, gone: set<nat>)
    ensures Surviving(ms + [m], gone) == Surviving(ms, gone) + (if m.handler in gone then [] else [m])
  {
    if ms == [] {
      assert ms + [m] == [m];
    } else {
      assert (ms + [m])[1..] == ms[1..] + [m];
      SurvivingSnoc(ms[1..], m, gone);
    }
  }

  lemma {:induction false} SurvivingExactly(ms: seq<Message>, gone: set<nat>)
    ensures forall m :: m in Surviving(ms, gone) <==> m in ms && m.handler !in gone
  {
    if ms != [] {
      SurvivingExactly(ms[1..], gone);
      assert forall m :: m in ms <==> m == ms[0] || m in ms[1..];
    }
  }

  /** Handlers told apart by position. */
  lemma OneHandler(ms: seq<Message>, i: nat, j: nat)
    requires NoDup(Handlers(ms)) && i < j < |ms|
    ensures ms[i].handler != ms[j].handler
  {
    assert Handlers(ms)[i] != Handlers(ms)[j];
  }

  lemma TailDistinct(ms: seq<Message>)
    requires NoDup(Handlers(ms)) && ms != []
    ensures NoDup(Handlers(ms[1..])) && forall m :: m in ms[1..] ==> m.handler != ms[0].handler
  {
    assert Handlers(ms[1..]) == Handlers(ms)[1..];
    forall m | m in ms[1..] ensures m.handler != ms[0].handler {
      var j :| 1 <= j < |ms| && ms[j] == m;
      OneHandler(ms, 0, j);
    }
  }

  lemma ConsDistinct(m: Message, ms: seq<Message>)
    requires NoDup(Handlers(ms)) && forall x :: x in ms ==> x.handler != m.handler
    ensures NoDup(Handlers([m] + ms))
  {
    assert Handlers([m] + ms) == [m.handler] + Handlers(ms);
    forall i | 0 <= i < |ms| ensures Handlers(ms)[i] != m.handler {
      assert ms[i] in ms;
    }
  }

  lemma {:induction false} SurvivingDistinct(ms: seq<Message>, gone: set<nat>)
    requires NoDup(Handlers(ms))
    ensures NoDup(Handlers(Surviving(ms, gone)))
  {
    if ms != [] {
      TailDistinct(ms);
      SurvivingDistinct(ms[1..], gone);
      SurvivingExactly(ms[1..], gone);
      ConsDistinct(ms[0], Surviving(ms[1..], gone));
    }
  }

  lemma {:induction false} KeepAll(ms: seq<Message>, gone: set<nat>)
    requires forall m :: m in ms ==> m.handler !in gone
    ensures Surviving(ms, gone) == ms
  {
    if ms != [] {
      KeepAll(ms[1..], gone);
    }
  }

  lemma {:induction false} DropOne(t: seq<Message>, k: nat)
    requires NoDup(Handlers(t)) && k < |t|
    ensures Surviving(t, {t[k].handler}) == t[..k] + t[k + 1..]
  {
    var u := t[1..];
    TailDistinct(t);
    if k == 0 {
      KeepAll(u, {t[0].handler});
    } else {
      OneHandler(t, 0, k);
      DropOne(u, k - 1);
      assert t[k + 1..] == u[k..];
      assert t[..k] == [t[0]] + u[..k - 1];
    }
  }

  /** Losing the handler of one surviving message takes out exactly that message. */
  lemma SurvivingDrop(ms: seq<Message>, gone: set<nat>, k: nat)
    requires NoDup(Handlers(ms)) && k < |Surviving(ms, gone)|
    ensures var t := Surviving(ms, gone);
            Surviving(ms, gone + {t[k].handler}) == t[..k] + t[k + 1..]
  {
    var t := Surviving(ms, gone);
    SurvivingDistinct(ms, gone);
    SurvivingTwice(ms, gone, {t[k].handler});
    DropOne(t, k);
  }

  /** Nothing is lost, repeated or reordered: the two queues hold exactly the messages received
      that are neither acknowledged nor dropped as cancelled, in the order received. */
  ghost predicate QueueInv(s: Link) {
    && NoDup(Handlers(s.received))
    && s.pending + s.buffer == Surviving(s.received, s.acked.Keys + s.dropped)
    && s.acked.Keys !! s.dropped
    && s.acked.Keys + s.dropped <= Members(Handlers(s.received))
    && (!s.connected ==> s.pending == [])
  }

  /** On one connection messages are written in the order received, and the i-th reply read is
      handed to the sender of the i-th message written. */
  ghost predicate ConnectionInv(s: Link) {
    && |s.replies| <= |s.written|
    && (forall i :: 0 <= i < |s.replies| ==>
          s.written[i].handler in s.acked && s.acked[s.written[i].handler] == s.replies[i])
    && (s.connected ==> s.pending == s.written[|s.replies|..])
    && (s.connected ==> s.written + s.buffer == Surviving(s.received, s.before + s.dropped))
  }

  /** Senders make one handler for each message. */
  ghost predicate FreshHandler(s: Link, e: Event) {
    match e
    case Connect => true
    case Enqueue(m, closed) => m.handler !in Handlers(s.received)
    case Serve(attempts, arrival) => arrival.Incoming? ==> arrival.m.handler !in Handlers(s.received)
  }

  ghost predicate CancelledBy(e: Event, h: nat) {
    match e
    case Connect => false
    case Enqueue(m, closed) => h in closed
    case Serve(attempts, arrival) => attempts(h) == Cancelled
  }

  ghost predicate Inv(s: Link) {
    QueueInv(s) && ConnectionInv(s)
  }

  lemma HandlerOf(ms: seq<Message>, m: Message)
    requires m in ms
    ensures m.handler in Handlers(ms)
  {
    var i :| 0 <= i < |ms| && ms[i] == m;
    assert Handlers(ms)[i] == m.handler;
  }

  lemma SkipInOrder(s: Link)
    requires Inv(s) && s.connected && s.buffer != []
    ensures s.written + s.buffer[1..] == Surviving(s.received, s.before + (s.dropped + {s.buffer[0].handler}))
  {
    var h, all, gone := s.buffer[0].handler, s.written + s.buffer, s.before + s.dropped;
    assert all[|s.written|] == s.buffer[0];
    SurvivingDrop(s.received, gone, |s.written|);
    assert gone + {h} == s.before + (s.dropped + {h});
    assert all[..|s.written|] + all[|s.written| + 1..] == s.written + s.buffer[1..];
  }

  /** Skipping a cancelled message at the head of the buffer. */
  lemma SkipKeeps(s: Link)
    requires Inv(s) && s.connected && s.buffer != []
    ensures Inv(s.(buffer := s.buffer[1..], dropped := s.dropped + {s.buffer[0].handler}))
  {
    var h := s.buffer[0].handler;
    var t := s.(buffer := s.buffer[1..], dropped := s.dropped + {h});
    var queue, gone := s.pending + s.buffer, s.acked.Keys + s.dropped;
    assert queue[|s.pending|] == s.buffer[0];
    SurvivingDrop(s.received, gone, |s.pending|);
    assert gone + {h} == t.acked.Keys + t.dropped;
    assert queue[..|s.pending|] + queue[|s.pending| + 1..] == t.pending + t.buffer;
    SurvivingExactly(s.received, gone);
    assert s.buffer[0] in queue;
    HandlerOf(s.received, s.buffer[0]);
    SkipInOrder(s);
  }

  lemma WriteKeeps(s: Link)
    requires Inv(s) && s.connected && s.buffer != []
    ensures var m := s.buffer[0];
            Inv(s.(buffer := s.buffer[1..], pending := s.pending + [m], written := s.written + [m]))
  {
    var m, rest := s.buffer[0], s.buffer[1..];
    assert (s.pending + [m]) + rest == s.pending + s.buffer;
    assert (s.written + [m]) + rest == s.written + s.buffer;
  }

  lemma {:induction false} FlushKeeps(s: Link, attempts: nat -> Attempt)
    requires Inv(s) && s.connected
    ensures var t := Flush(s, attempts).0;
            && Inv(t) && t.connected && t.received == s.received && t.acked == s.acked
            && s.written <= t.written
            && s.dropped <= t.dropped && forall h :: h in t.dropped && h !in s.dropped ==> attempts(h) == Cancelled
    decreases |s.buffer|
  {
    hide QueueInv, ConnectionInv;
    if s.buffer != [] {
      var m, rest := s.buffer[0], s.buffer[1..];
      match attempts(m.handler)
      case Cancelled =>
        SkipKeeps(s);
        FlushKeeps(s.(buffer := rest, dropped := s.dropped + {m.handler}), attempts);
      case Sent =>
        WriteKeeps(s);
        FlushKeeps(s.(buffer := rest, pending := s.pending + [m], written := s.written + [m]), attempts);
      case Failed =>
    }
  }

  lemma BreakKeeps(s: Link)
    requires Inv(s)
    ensures Inv(Break(s))
  {
    assert [] + (s.pending + s.buffer) == s.pending + s.buffer;
  }

  lemma HandlersSnoc(ms: seq<Message>, m: Message)
    ensures Handlers(ms + [m]) == Handlers(ms) + [m.handler]
  {}

  lemma IncomingKeeps(s: Link, m: Message)
    requires Inv(s) && s.connected && m.handler !in Handlers(s.received) && s.before <= s.acked.Keys + s.dropped
    ensures Inv(s.(buffer := s.buffer + [m], received := s.received + [m]))
  {
    var t := s.(buffer := s.buffer + [m], received := s.received + [m]);
    HandlersSnoc(s.received, m);
    SurvivingSnoc(s.received, m, s.acked.Keys + s.dropped);
    SurvivingSnoc(s.received, m, s.before + s.dropped);
    assert m.handler !in Members(Handlers(s.received));
    assert s.pending + (s.buffer + [m]) == (s.pending + s.buffer) + [m];
    assert s.written + (s.buffer + [m]) == (s.written + s.buffer) + [m];
  }

  lemma ReplyKeepsQueue(s: Link, reply: Bytes)
    requires Inv(s) && s.connected && s.pending != []
    ensures s.pending[0].handler !in s.acked
    ensures QueueInv(Arrive(s, Response(Some(reply))))
  {
    hide Surviving, Handlers, ConnectionInv;
    var m := s.pending[0];
    var t := Arrive(s, Response(Some(reply)));
    var queue, gone := s.pending + s.buffer, s.acked.Keys + s.dropped;
    SurvivingExactly(s.received, gone);
    assert queue[0] == m && m in queue;
    HandlerOf(s.received, m);
    SurvivingDrop(s.received, gone, 0);
    assert gone + {m.handler} == t.acked.Keys + t.dropped;
    assert queue[..0] + queue[1..] == t.pending + t.buffer;
  }

  lemma ReplyKeeps(s: Link, reply: Bytes)
    requires Inv(s) && s.connected && s.pending != []
    ensures s.pending[0].handler !in s.acked
    ensures Inv(Arrive(s, Response(Some(reply))))
  {
    ReplyKeepsQueue(s, reply);
    hide QueueInv;
    assert s.written[|s.replies|] == s.pending[0];
  }

  /** Between turns what was gone when the connection started is still gone. */
  ghost predicate Steady(s: Link) {
    Inv(s) && s.before <= s.acked.Keys + s.dropped
  }

  lemma {:induction false} SameHits(ms: seq<Message>, closed: set<nat>, hit: set<nat>)
    requires forall m :: m in ms ==> (m.handler in closed <==> m.handler in hit)
    ensures Surviving(ms, closed) == Surviving(ms, hit)
  {
    if ms != [] {
      SameHits(ms[1..], closed, hit);
    }
  }

  /** The waiter forgets exactly the closed handlers among those queued. */
  lemma RetainExactly(ms: seq<Message>, gone: set<nat>, closed: set<nat>)
    ensures var all := Surviving(ms, gone);
            var hit := Members(Handlers(all)) * closed;
            && Surviving(ms, gone + hit) == Surviving(all, closed)
            && hit !! gone && hit <= Members(Handlers(ms))
  {
    var all := Surviving(ms, gone);
    var hit := Members(Handlers(all)) * closed;
    forall m | m in all ensures m.handler in Handlers(all) {
      HandlerOf(all, m);
    }
    SameHits(all, closed, hit);
    SurvivingTwice(ms, gone, hit);
    SurvivingExactly(ms, gone);
    forall h | h in hit ensures h !in gone && h in Handlers(ms) {
      var i :| 0 <= i < |all| && Handlers(all)[i] == h;
      assert all[i] in all;
      HandlerOf(ms, all[i]);
    }
  }

  lemma EnqueueKeeps(s: Link, m: Message, closed: set<nat>)
    requires Steady(s) && !s.connected && m.handler !in Handlers(s.received)
    ensures Steady(Step(s, Enqueue(m, closed)))
  {
    var t := Step(s, Enqueue(m, closed));
    var all, gone := s.buffer + [m], s.acked.Keys + s.dropped;
    HandlersSnoc(s.received, m);
    assert m.handler !in Members(Handlers(s.received));
    SurvivingSnoc(s.received, m, gone);
    assert s.pending + s.buffer == s.buffer;
    assert all == Surviving(t.received, gone);
    RetainExactly(t.received, gone, closed);
    assert gone + Members(Handlers(all)) * closed == t.acked.Keys + t.dropped;
    assert t.pending + t.buffer == t.buffer;
    hide Surviving, Handlers, Members;
  }

  lemma {:induction false} FlushKeepsBefore(s: Link, attempts: nat -> Attempt)
    ensures Flush(s, attempts).0.before == s.before && Flush(s, attempts).0.replies == s.replies
    decreases |s.buffer|
  {
    if s.buffer != [] {
      var m, rest := s.buffer[0], s.buffer[1..];
      FlushKeepsBefore(s.(buffer := rest, dropped := s.dropped + {m.handler}), attempts);
      FlushKeepsBefore(s.(buffer := rest, pending := s.pending + [m], written := s.written + [m]), attempts);
    }
  }

  lemma ServeKeeps(s: Link, attempts: nat -> Attempt, arrival: Arrival)
    requires Steady(s) && s.connected && FreshHandler(s, Serve(attempts, arrival))
    ensures var t := Step(s, Serve(attempts, arrival));
            && Steady(t) && s.received <= t.received
            && (forall h :: h in s.acked ==> h in t.acked && t.acked[h] == s.acked[h])
            && (forall h :: h in t.dropped && h !in s.dropped ==> attempts(h) == Cancelled)
  {
    hide QueueInv, ConnectionInv, Flush;
    FlushKeeps(s, attempts);
    FlushKeepsBefore(s, attempts);
    var (s1, ok) := Flush(s, attempts);
    BreakKeeps(s1);
    match arrival
    case Incoming(m) => IncomingKeeps(s1, m);
    case Response(reply) =>
      if s1.pending != [] && reply.Some? {
        ReplyKeeps(s1, reply.value);
      }
  }

  /** Every step keeps the invariant; replies handed over stay, each sender gets at most one, and
      only cancelled messages are dropped. */
  lemma StepKeeps(s: Link, e: Event)
    requires Steady(s) && FreshHandler(s, e)
    ensures var t := Step(s, e);
            && Steady(t) && s.received <= t.received
            && (forall h :: h in s.acked ==> h in t.acked && t.acked[h] == s.acked[h])
            && (forall h :: h in t.dropped && h !in s.dropped ==> CancelledBy(e, h))
  {
    match e
    case Connect =>
    case Enqueue(m, closed) =>
      if !s.connected {
        EnqueueKeeps(s, m, closed);
      }
    case Serve(attempts, arrival) =>
      if s.connected {
        ServeKeeps(s, attempts, arrival);
      }
  }

  ghost predicate FreshAt(es: seq<Event>, i: int)
    requires 0 <= i < |es|
  {
    FreshHandler(Run(es[..i]), es[i])
  }

  ghost predicate FreshRun(es: seq<Event>) {
    forall i {:trigger FreshAt(es, i)} :: 0 <= i < |es| ==> FreshAt(es, i)
  }

  /** Over every interleaving of messages, replies, cancellations and broken connections. */
  lemma {:induction false} RunKeeps(es: seq<Event>)
    requires FreshRun(es)
    ensures Inv(Run(es)) && Steady(Run(es))
    decreases |es|
  {
    if es != [] {
      var low := es[..|es| - 1];
      forall i | 0 <= i < |low| ensures FreshAt(low, i) {
        assert low[..i] == es[..i] && FreshAt(es, i);
      }
      RunKeeps(low);
      assert FreshAt(es, |es| - 1);
      StepKeeps(Run(low), es[|es| - 1]);
    }
  }

  /** Reliable: a message received whose sender neither got a reply nor cancelled is queued. */
  lemma StillQueued(es: seq<Event>, m: Message)
    requires FreshRun(es) && m in Run(es).received
    ensures var s := Run(es);
            m in s.pending + s.buffer <==> m.handler !in s.acked && m.handler !in s.dropped
  {
    RunKeeps(es);
    var s := Run(es);
    SurvivingExactly(s.received, s.acked.Keys + s.dropped);
  }
}
