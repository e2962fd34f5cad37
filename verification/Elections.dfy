/** What one delivery does, exactly: when it commits, which leader, what the replica holds
    afterwards, and what its committed rounds say about its output. */
module Elections {
  import opened Types
  import opened DagTheory
  import opened Ordering
  import opened SubDag
  import opened Views
  import opened Agreement
  import Reference

  // ----- When a leader is committed

  /** The delivery makes leader `l` due: it comes three rounds above it with a positive verdict, the
      round is an even one not yet committed, and f+1 of the stake among what was received
      names the leader one round up. */
  ghost predicate Due(c: Committee, who: Election, r: set<Header>, lastRound: nat, d: Delivery, l: Header) {
    && d.selected && d.h.round == l.round + 3
    && l in r && l.author == who(l.round)
    && l.round % 2 == 0 && l.round > lastRound
    && c.Weight(Supporters(r, l)) >= c.ValidityThreshold()
  }

  lemma DueIsElected(c: Committee, who: Election, g: set<Header>, gc: nat, r: set<Header>, s: State, d: Delivery,
                     l: Header)
    requires WellFormed(c, g) && View(c, g, gc, r, s) && d.h in r && Due(c, who, r, s.lastRound, d, l)
    ensures Elect(c, who, s, d.h, d.selected) == Some(Some(l))
  {
    hide WellFormed, View, Supporters, Elect;
    Reference.SupportElects(c, who, g, gc, r, s, d.h, l);
  }

  lemma ElectedIsDue(c: Committee, who: Election, g: set<Header>, gc: nat, r: set<Header>, s: State, d: Delivery,
                     l: Header)
    requires View(c, g, gc, r, s) && Elect(c, who, s, d.h, d.selected) == Some(Some(l))
    ensures Due(c, who, r, s.lastRound, d, l)
  {
    Reference.ElectedSupport(c, who, g, gc, r, s, d.h, d.selected, l);
    assert l.round > s.lastRound;
    hide View, Supporters, Elect;
  }

  /** A delivery commits if and only if it makes a leader due, and then up to that leader. */
  lemma StepElectsExactly(c: Committee, who: Election, g: set<Header>, gc: nat, r: set<Header>, n: Node, d: Delivery)
    requires WellFormed(c, g) && NodeInv(c, who, g, gc, r, n) && Admissible(c, g, r, d.h)
    ensures Next(c, who, gc, n, d).Some?
    ensures var m, r1 := Next(c, who, gc, n, d).value, With(r, d.h);
            && (m.leaders == n.leaders <==> forall l :: !Due(c, who, r1, n.state.lastRound, d, l))
            && (forall l :: Due(c, who, r1, n.state.lastRound, d, l) ==>
                  m.leaders != [] && m.leaders[|m.leaders| - 1] == l && m.state.lastRound == l.round)
  {
    var s, r1 := Arrived(n.state, d.h), With(r, d.h);
    StepKeeps(c, who, g, gc, r, n, d);
    Reference.StepElects(c, who, g, gc, r, n, d);
    Reference.LedRound(c, who, g, gc, r, n);
    Reference.StepRound(c, who, g, gc, r, n, d);
    assert n.state.lastRound == s.lastRound;
    hide WellFormed, View, Led, Admissible, Next, Elect, Step, Commits, Canonical, CleanStep;
    forall l | Due(c, who, r1, s.lastRound, d, l) ensures Elect(c, who, s, d.h, d.selected) == Some(Some(l)) {
      DueIsElected(c, who, g, gc, r1, s, d, l);
    }
    var o := Elect(c, who, s, d.h, d.selected).value;
    if o.Some? {
      ElectedIsDue(c, who, g, gc, r1, s, d, o.value);
    }
    hide Due;
  }

  /** Over every causal run: the last delivery commits if and only if it makes a leader due among
      all that was received, and that leader is the last one committed. */
  lemma ElectsExactly(c: Committee, who: Election, g: set<Header>, gc: nat, ds: seq<Delivery>)
    requires WellFormed(c, g) && Causal(c, g, ds) && ds != []
    ensures Run(c, who, gc, ds[..|ds| - 1]).Some? && Run(c, who, gc, ds).Some?
    ensures var k := |ds| - 1;
            var n, m := Run(c, who, gc, ds[..k]).value, Run(c, who, gc, ds).value;
            && (m.leaders == n.leaders <==> forall l :: !Due(c, who, Received(ds), n.state.lastRound, ds[k], l))
            && (forall l :: Due(c, who, Received(ds), n.state.lastRound, ds[k], l) ==>
                  m.leaders != [] && m.leaders[|m.leaders| - 1] == l && m.state.lastRound == l.round)
  {
    hide Run, NodeInv, WellFormed, Causal, Received, Admissible, Next, Due, With, Canonical, CleanRun;
    var k := |ds| - 1;
    CausalPrefix(c, g, ds, k);
    RunKeeps(c, who, g, gc, ds[..k]);
    Reference.DeliveryAdmissible(c, g, ds, k);
    ReceivedSnoc(ds);
    RunSnoc(c, who, gc, ds);
    StepElectsExactly(c, who, g, gc, Received(ds[..k]), Run(c, who, gc, ds[..k]).value, ds[k]);
  }

  // ----- What is held afterwards

  /** Held in `t` is what was held in `s` and is neither older than its author's last committed
      round nor more than `gc` rounds below the last committed one; no row is empty. */
  ghost predicate HoldsExactly(gc: nat, s: State, t: State) {
    && (forall h {:trigger Has(t.dag, h)} :: Has(t.dag, h) <==>
          && Has(s.dag, h)
          && (h.author in t.lastCommitted ==> h.round >= t.lastCommitted[h.author])
          && h.round + gc >= t.lastRound)
    && (forall r :: r in t.dag ==> t.dag[r] != map[])
  }

  lemma KeyedPruned(gc: nat, s: State, x: Header)
    requires Keyed(s.dag)
    ensures Keyed(Update(gc, s, x).dag) && HoldsExactly(gc, s, Update(gc, s, x))
  {
    var t := Update(gc, s, x);
    forall h: Header
      ensures Has(t.dag, h) <==> Has(s.dag, h) && !Stale(t.lastCommitted, h) && InWindow(gc, t.lastRound, h)
    {
      PruneHas(gc, t.lastCommitted, t.lastRound, s.dag, h);
    }
  }

  lemma {:induction false} UpdatesHold(gc: nat, s: State, xs: seq<Header>)
    requires Keyed(s.dag) && xs != []
    ensures HoldsExactly(gc, s, Updates(gc, s, xs))
    decreases |xs|
  {
    var t := Update(gc, s, xs[0]);
    KeyedPruned(gc, s, xs[0]);
    if |xs| > 1 {
      UpdatesHold(gc, t, xs[1..]);
      UpdatesRaise(gc, t, xs[1..]);
      UpdatesTop(gc, t, xs[1..]);
      RaiseAllCovers(t.lastCommitted, xs[1..]);
      hide Update, Prune, RaiseAll, TopRound;
    }
  }

  // ----- What the committed rounds say

  /** The committed rounds are the highest rounds output, of each author and overall. */
  ghost predicate Highest(c: Committee, s: State, out: seq<Header>) {
    && (forall a :: a in c.names ==> a in s.lastCommitted)
    && (forall x :: x in out ==>
          x.round <= s.lastRound && x.author in s.lastCommitted && x.round <= s.lastCommitted[x.author])
    && (forall a :: a in s.lastCommitted ==>
          s.lastCommitted[a] == 0 || exists x :: x in out && x.author == a && x.round == s.lastCommitted[a])
    && (s.lastRound == 0 || exists x :: x in out && x.round == s.lastRound)
  }

  lemma UpdateHighest(c: Committee, gc: nat, s: State, out: seq<Header>, x: Header)
    requires Highest(c, s, out)
    ensures Highest(c, Update(gc, s, x), out + [x])
  {
    var t, all := Update(gc, s, x), out + [x];
    assert forall y :: y in all <==> y in out || y == x;
    hide Prune;
  }

  lemma {:induction false} UpdatesHighest(c: Committee, gc: nat, s: State, out: seq<Header>, xs: seq<Header>)
    requires Highest(c, s, out)
    ensures Highest(c, Updates(gc, s, xs), out + xs)
    decreases |xs|
  {
    if xs == [] {
      assert out + xs == out;
    } else {
      UpdateHighest(c, gc, s, out, xs[0]);
      hide Highest, Update;
      UpdatesHighest(c, gc, Update(gc, s, xs[0]), out + [xs[0]], xs[1..]);
      assert out + [xs[0]] + xs[1..] == out + xs;
    }
  }

  // ----- Commits as updates

  lemma {:induction false} UpdatesConcat(gc: nat, s: State, a: seq<Header>, b: seq<Header>)
    ensures Updates(gc, s, a + b) == Updates(gc, Updates(gc, s, a), b)
    decreases |a|
  {
    if a == [] {
      assert a + b == b;
    } else {
      assert (a + b)[1..] == a[1..] + b;
      UpdatesConcat(gc, Update(gc, s, a[0]), a[1..], b);
      hide Update;
    }
  }

  /** Committing leaders records exactly what is output, one certificate after the other. */
  lemma {:induction false} CommitAllUpdates(gc: nat, s: State, ls: seq<Header>)
    ensures var (t, out) := CommitAll(gc, s, ls); t == Updates(gc, s, out)
    decreases |ls|
  {
    if ls != [] {
      var sub := OrderDag(gc, s, ls[0]);
      CommitAllUpdates(gc, Updates(gc, s, sub), ls[1..]);
      UpdatesConcat(gc, s, sub, CommitAll(gc, Updates(gc, s, sub), ls[1..]).1);
      hide OrderDag;
    }
  }

  lemma CommitOutputs(gc: nat, s: State, ls: seq<Header>)
    requires Keyed(s.dag) && ls != [] && ls[0].round > s.lastRound
    ensures CommitAll(gc, s, ls).1 != []
  {
    OrderDagCorrect(gc, s, ls[0]);
    hide OrderDag;
  }

  lemma CommitRecords(c: Committee, gc: nat, r: set<Header>, s: State, e: Effect, out: seq<Header>)
    requires Keyed(s.dag) && Highest(c, s, out) && e.leaders != [] && Commits(gc, r, s, e)
    ensures HoldsExactly(gc, s, e.state) && Highest(c, e.state, out + e.out)
  {
    hide Keyed, Highest, HoldsExactly, Fresh, CommitAll, Updates;
    CommitAllUpdates(gc, s, e.leaders);
    CommitOutputs(gc, s, e.leaders);
    UpdatesHold(gc, s, e.out);
    UpdatesHighest(c, gc, s, out, e.out);
  }

  lemma ArrivedHighest(c: Committee, s: State, h: Header, out: seq<Header>)
    requires Highest(c, s, out)
    ensures Highest(c, Arrived(s, h), out)
  {}

  /** The effect of a delivery, out of the functions. */
  lemma StepEffect(c: Committee, who: Election, g: set<Header>, gc: nat, r: set<Header>, n: Node, d: Delivery)
      returns (e: Effect)
    requires WellFormed(c, g) && NodeInv(c, who, g, gc, r, n) && Admissible(c, g, r, d.h)
    ensures Next(c, who, gc, n, d) == Some(Node(e.state, n.leaders + e.leaders, n.out + e.out))
    ensures Commits(gc, With(r, d.h), Arrived(n.state, d.h), e) && Keyed(Arrived(n.state, d.h).dag)
  {
    StepKeeps(c, who, g, gc, r, n, d);
    Reference.KeyedView(c, g, gc, With(r, d.h), Arrived(n.state, d.h));
    hide WellFormed, NodeInv, View, Admissible, Step, Canonical, CleanStep, Keyed, Commits, Arrived, With;
    e := Step(c, who, gc, n.state, d.h, d.selected).value;
  }

  /** One delivery in full: without a new leader the certificate is inserted and nothing is output;
      otherwise the output is recorded and everything past or out of the window is dropped. */
  lemma StepExactly(c: Committee, who: Election, g: set<Header>, gc: nat, r: set<Header>, n: Node, d: Delivery)
    requires WellFormed(c, g) && NodeInv(c, who, g, gc, r, n) && Admissible(c, g, r, d.h) && Highest(c, n.state, n.out)
    ensures Next(c, who, gc, n, d).Some?
    ensures var s, m := Arrived(n.state, d.h), Next(c, who, gc, n, d).value;
            && Highest(c, m.state, m.out)
            && (if m.leaders == n.leaders then m.state == s && m.out == n.out else HoldsExactly(gc, s, m.state))
  {
    hide WellFormed, NodeInv, Admissible, Next, Keyed, Highest, Arrived, HoldsExactly, With, CommitAll, Fresh, Rising;
    var s := Arrived(n.state, d.h);
    var e := StepEffect(c, who, g, gc, r, n, d);
    ArrivedHighest(c, n.state, d.h, n.out);
    if e.leaders == [] {
      assert n.leaders + [] == n.leaders && n.out + [] == n.out;
    } else {
      CommitRecords(c, gc, With(r, d.h), s, e, n.out);
    }
  }

  lemma StartHighest(c: Committee, who: Election, gc: nat)
    ensures Run(c, who, gc, []).Some?
    ensures Highest(c, Run(c, who, gc, []).value.state, Run(c, who, gc, []).value.out)
  {}

  /** Over every causal run: each author's last committed round is the highest of its rounds in the
      output, and the last committed round is the highest of all. */
  lemma {:induction false} CommittedExactly(c: Committee, who: Election, g: set<Header>, gc: nat, ds: seq<Delivery>)
    requires WellFormed(c, g) && Causal(c, g, ds)
    ensures Run(c, who, gc, ds).Some?
    ensures Highest(c, Run(c, who, gc, ds).value.state, Run(c, who, gc, ds).value.out)
    decreases |ds|
  {
    hide Run, NodeInv, WellFormed, Causal, Received, Admissible, Next, Canonical, CleanRun, Highest, HoldsExactly;
    if ds == [] {
      StartHighest(c, who, gc);
    } else {
      var k := |ds| - 1;
      CausalPrefix(c, g, ds, k);
      CommittedExactly(c, who, g, gc, ds[..k]);
      RunKeeps(c, who, g, gc, ds[..k]);
      Reference.DeliveryAdmissible(c, g, ds, k);
      RunSnoc(c, who, gc, ds);
      StepExactly(c, who, g, gc, Received(ds[..k]), Run(c, who, gc, ds[..k]).value, ds[k]);
    }
  }

  /** Over every causal run: what the last delivery leaves in the DAG. */
  lemma PrunesExactly(c: Committee, who: Election, g: set<Header>, gc: nat, ds: seq<Delivery>)
    requires WellFormed(c, g) && Causal(c, g, ds) && ds != []
    ensures Run(c, who, gc, ds[..|ds| - 1]).Some? && Run(c, who, gc, ds).Some?
    ensures var k := |ds| - 1;
            var n, m := Run(c, who, gc, ds[..k]).value, Run(c, who, gc, ds).value;
            var s := Arrived(n.state, ds[k].h);
            if m.leaders == n.leaders then m.state == s && m.out == n.out else HoldsExactly(gc, s, m.state)
  {
    hide Run, NodeInv, WellFormed, Causal, Received, Admissible, Next, Canonical, CleanRun, Highest, HoldsExactly,
      Arrived;
    var k := |ds| - 1;
    CausalPrefix(c, g, ds, k);
    CommittedExactly(c, who, g, gc, ds[..k]);
    RunKeeps(c, who, g, gc, ds[..k]);
    Reference.DeliveryAdmissible(c, g, ds, k);
    RunSnoc(c, who, gc, ds);
    StepExactly(c, who, g, gc, Received(ds[..k]), Run(c, who, gc, ds[..k]).value, ds[k]);
  }

  // ----- The start

  /** The replica starts with the genesis certificates of the members, all of them committed. */
  lemma StartsExactly(c: Committee)
    ensures var s := InitialState(c);
            && s.lastRound == 0
            && (forall h :: Has(s.dag, h) <==> h.author in c.names && h == Genesis(h.author))
            && (forall a :: a in s.lastCommitted <==> a in c.names)
            && (forall a :: a in c.names ==> s.lastCommitted[a] == 0)
  {}
}
