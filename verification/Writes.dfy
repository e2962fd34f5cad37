/** What the connection writes: a flush writes, in order, every message of the buffer whose sender did
    not cancel, up to the first write that fails; a new connection writes again all that is neither
    acknowledged nor cancelled. */
module Writes {
  import opened Types
  import opened ReliableSender

  /** The messages that are not cancelled, in order. */
  function Uncancelled(ms: seq<Message>, attempts: nat -> Attempt): seq<Message> {
    if ms == [] then []
    else
      var n := |ms| - 1;
      Uncancelled(ms[..n], attempts) + if attempts(ms[n].handler) == Cancelled then [] else [ms[n]]
  }

  lemma {:induction false} UncancelledCons(m: Message, ms: seq<Message>, attempts: nat -> Attempt)
    ensures Uncancelled([m] + ms, attempts) ==
              (if attempts(m.handler) == Cancelled then [] else [m]) + Uncancelled(ms, attempts)
    decreases |ms|
  {
    var all := [m] + ms;
    if ms == [] {
      assert all == [m] && all[..0] == [];
      assert Uncancelled(all[..0], attempts) == [];
    } else {
      var n := |ms| - 1;
      assert all[..|all| - 1] == [m] + ms[..n] && all[|all| - 1] == ms[n];
      UncancelledCons(m, ms[..n], attempts);
    }
  }

  lemma {:induction false} UncancelledExactly(ms: seq<Message>, attempts: nat -> Attempt)
    ensures forall m :: m in Uncancelled(ms, attempts) <==> m in ms && attempts(m.handler) != Cancelled
  {
    if ms != [] {
      var n := |ms| - 1;
      UncancelledExactly(ms[..n], attempts);
      assert ms == ms[..n] + [ms[n]];
    }
  }

  ghost function CancelledIn(ms: seq<Message>, attempts: nat -> Attempt): set<nat> {
    set m | m in ms && attempts(m.handler) == Cancelled :: m.handler
  }

  /** The first `k` messages of the buffer are done with: the uncancelled ones are written and await a
      reply, the cancelled ones are dropped. */
  ghost predicate Flushed(s: Link, attempts: nat -> Attempt, k: nat, t: Link)
    requires k <= |s.buffer|
  {
    var done := s.buffer[..k];
    t == s.(buffer := s.buffer[k..],
            pending := s.pending + Uncancelled(done, attempts),
            written := s.written + Uncancelled(done, attempts),
            dropped := s.dropped + CancelledIn(done, attempts))
  }

  lemma CancelledCons(m: Message, ms: seq<Message>, attempts: nat -> Attempt)
    ensures CancelledIn([m] + ms, attempts) ==
              (if attempts(m.handler) == Cancelled then {m.handler} else {}) + CancelledIn(ms, attempts)
  {}

  lemma FlushedSkip(s: Link, attempts: nat -> Attempt, k: nat, t: Link)
    requires s.buffer != [] && k < |s.buffer| && attempts(s.buffer[0].handler) == Cancelled
    requires Flushed(s.(buffer := s.buffer[1..], dropped := s.dropped + {s.buffer[0].handler}), attempts, k, t)
    ensures Flushed(s, attempts, k + 1, t)
  {
    var m, rest := s.buffer[0], s.buffer[1..];
    var done := rest[..k];
    assert s.buffer[..k + 1] == [m] + done && s.buffer[k + 1..] == rest[k..];
    UncancelledCons(m, done, attempts);
    CancelledCons(m, done, attempts);
    hide Uncancelled, CancelledIn;
    assert [] + Uncancelled(done, attempts) == Uncancelled(done, attempts);
    assert s.dropped + {m.handler} + CancelledIn(done, attempts)
      == s.dropped + ({m.handler} + CancelledIn(done, attempts));
  }

  lemma FlushedWrite(s: Link, attempts: nat -> Attempt, k: nat, t: Link)
    requires s.buffer != [] && k < |s.buffer| && attempts(s.buffer[0].handler) == Sent
    requires var m := s.buffer[0];
             var s1 := s.(buffer := s.buffer[1..], pending := s.pending + [m], written := s.written + [m]);
             Flushed(s1, attempts, k, t)
    ensures Flushed(s, attempts, k + 1, t)
  {
    var m, rest := s.buffer[0], s.buffer[1..];
    var done := rest[..k];
    assert s.buffer[..k + 1] == [m] + done && s.buffer[k + 1..] == rest[k..];
    UncancelledCons(m, done, attempts);
    CancelledCons(m, done, attempts);
    hide Uncancelled, CancelledIn;
    var more := Uncancelled(done, attempts);
    assert s.pending + ([m] + more) == s.pending + [m] + more && s.written + ([m] + more) == s.written + [m] + more;
    assert {} + CancelledIn(done, attempts) == CancelledIn(done, attempts);
  }

  /** A flush in full: it goes through the buffer up to the first message whose write fails, which
      stays at the head, or through all of it. */
  lemma {:induction false} FlushExactly(s: Link, attempts: nat -> Attempt) returns (k: nat)
    ensures k <= |s.buffer|
    ensures Flushed(s, attempts, k, Flush(s, attempts).0)
    ensures forall i :: 0 <= i < k ==> attempts(s.buffer[i].handler) != Failed
    ensures k < |s.buffer| ==> attempts(s.buffer[k].handler) == Failed
    ensures Flush(s, attempts).1 <==> k == |s.buffer|
    decreases |s.buffer|
  {
    if s.buffer == [] || attempts(s.buffer[0].handler) == Failed {
      k := 0;
      assert s.buffer[..0] == [] && Uncancelled([], attempts) == [] && CancelledIn([], attempts) == {};
      assert s.buffer[0..] == s.buffer && s.pending + [] == s.pending && s.written + [] == s.written;
      assert s.dropped + {} == s.dropped;
    } else {
      var m, rest := s.buffer[0], s.buffer[1..];
      var s1 := if attempts(m.handler) == Cancelled then s.(buffer := rest, dropped := s.dropped + {m.handler})
                else s.(buffer := rest, pending := s.pending + [m], written := s.written + [m]);
      var j := FlushExactly(s1, attempts);
      if attempts(m.handler) == Cancelled {
        FlushedSkip(s, attempts, j, Flush(s, attempts).0);
      } else {
        FlushedWrite(s, attempts, j, Flush(s, attempts).0);
      }
      k := j + 1;
      hide Flushed;
      forall i | 0 <= i < k ensures attempts(s.buffer[i].handler) != Failed {
        assert i > 0 ==> s.buffer[i] == s1.buffer[i - 1];
      }
    }
  }

  /** A successful flush empties the buffer and has written exactly the uncancelled messages. */
  lemma FlushSucceeds(s: Link, attempts: nat -> Attempt)
    requires forall m :: m in s.buffer ==> attempts(m.handler) != Failed
    ensures var (t, ok) := Flush(s, attempts);
            && ok && t.buffer == []
            && t.written == s.written + Uncancelled(s.buffer, attempts)
            && t.pending == s.pending + Uncancelled(s.buffer, attempts)
            && t.dropped == s.dropped + CancelledIn(s.buffer, attempts)
  {
    var k := FlushExactly(s, attempts);
    assert k == |s.buffer|;
    assert s.buffer[..k] == s.buffer;
    hide Flush, Uncancelled;
  }

  // ----- Turns of a connection

  /** A connected turn in full. After a failed flush, an unexpected reply or none, the connection is
      down and what awaits a reply is queued again, first; a message is queued; a reply goes to
      the sender of the oldest message that awaits one. */
  lemma ServeExactly(s: Link, attempts: nat -> Attempt, arrival: Arrival) returns (k: nat, s1: Link)
    requires s.connected
    ensures k <= |s.buffer| && Flushed(s, attempts, k, s1)
    ensures forall i :: 0 <= i < k ==> attempts(s.buffer[i].handler) != Failed
    ensures k < |s.buffer| ==> attempts(s.buffer[k].handler) == Failed
    ensures var t := Step(s, Serve(attempts, arrival));
            var down := s1.(connected := false, buffer := s1.pending + s1.buffer, pending := []);
            if k < |s.buffer| then t == down
            else match arrival
              case Incoming(m) => t == s1.(buffer := [m], received := s.received + [m])
              case Response(None) => t == down
              case Response(Some(reply)) =>
                if s1.pending == [] then t == down
                else t == s1.(pending := s1.pending[1..], replies := s.replies + [reply],
                              acked := s.acked[s1.pending[0].handler := reply])
  {
    k := FlushExactly(s, attempts);
    s1 := Flush(s, attempts).0;
    hide Flush, Uncancelled, CancelledIn;
    assert k == |s.buffer| ==> s1.buffer == [];
  }

  lemma {:induction false} SurvivingIsOpen(ms: seq<Message>, closed: set<nat>)
    ensures Surviving(ms, closed) == Uncancelled(ms, h => if h in closed then Cancelled else Sent)
  {
    if ms != [] {
      SurvivingIsOpen(ms[1..], closed);
      assert ms == [ms[0]] + ms[1..];
      UncancelledCons(ms[0], ms[1..], h => if h in closed then Cancelled else Sent);
      hide Uncancelled;
    }
  }

  /** Without a connection a message joins the buffer and the closed handlers leave it; all others
      stay in order. A connection starts with nothing written and the buffer as it was. */
  lemma OfflineExactly(s: Link, m: Message, closed: set<nat>)
    requires !s.connected
    ensures var t, up := Step(s, Enqueue(m, closed)), Step(s, Connect);
            var open := Uncancelled(s.buffer + [m], h => if h in closed then Cancelled else Sent);
            && t.buffer == open && t.received == s.received + [m] && !t.connected
            && t.dropped == s.dropped + (set x | x in s.buffer + [m] && x.handler in closed :: x.handler)
            && up.connected && up.buffer == s.buffer && up.written == [] && up.pending == [] && up.dropped == s.dropped
  {
    var all := s.buffer + [m];
    SurvivingIsOpen(all, closed);
    forall h ensures h in Handlers(all) <==> exists x :: x in all && x.handler == h {
      if h in Handlers(all) {
        var i :| 0 <= i < |all| && Handlers(all)[i] == h;
        assert all[i] in all;
      }
      if x :| x in all && x.handler == h {
        HandlerOf(all, x);
      }
    }
    assert Members(Handlers(all)) * closed == set x | x in all && x.handler in closed :: x.handler;
    hide Surviving, Uncancelled, Handlers;
  }

  // ----- Runs

  /** Over every run: a new connection whose writes do not fail writes again, in the order received,
      every message that is neither acknowledged nor cancelled. */
  lemma ResendsAll(es: seq<Event>, attempts: nat -> Attempt)
    requires FreshRun(es) && !Run(es).connected
    requires forall m :: m in Run(es).buffer ==> attempts(m.handler) != Failed
    ensures var s := Run(es);
            var t := Flush(Step(s, Connect), attempts).0;
            && t.written == Uncancelled(Surviving(s.received, s.acked.Keys + s.dropped), attempts)
            && forall m :: m in t.written <==>
                 && m in s.received && m.handler !in s.acked && m.handler !in s.dropped
                 && attempts(m.handler) != Cancelled
  {
    RunKeeps(es);
    var s := Run(es);
    var gone := s.acked.Keys + s.dropped;
    FlushSucceeds(Step(s, Connect), attempts);
    assert s.pending + s.buffer == s.buffer;
    SurvivingExactly(s.received, gone);
    UncancelledExactly(s.buffer, attempts);
    hide Flush, Uncancelled, Surviving, Run;
    assert [] + Uncancelled(s.buffer, attempts) == Uncancelled(s.buffer, attempts);
  }
}
