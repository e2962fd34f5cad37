/** Runs of replicas over one global DAG: what every delivery keeps, the committed leaders as one
    chain, agreement on leaders. */
module Agreement {
  import opened Types
  import opened DagTheory
  import opened Ordering
  import opened SubDag
  import opened Views

  /** One certificate handed to consensus, with the verdict its replica's direct-commit
      schedule gives at that moment; replicas need not share a schedule. */
  datatype Delivery = Delivery(h: Header, selected: bool)

  /** A replica: its state, the leaders it committed, the certificates it output. */
  datatype Node = Node(state: State, leaders: seq<Header>, out: seq<Header>)

  ghost function Next(c: Committee, who: Election, gc: nat, n: Node, d: Delivery): Option<Node> {
    match Step(c, who, gc, n.state, d.h, d.selected)
    case None => None
    case Some(e) => Some(Node(e.state, n.leaders + e.leaders, n.out + e.out))
  }

  /** The replica after a stream of deliveries; `None` once it panicked. */
  ghost function Run(c: Committee, who: Election, gc: nat, ds: seq<Delivery>): Option<Node> {
    if ds == [] then Some(Node(InitialState(c), [], []))
    else match Run(c, who, gc, ds[..|ds| - 1])
      case None => None
      case Some(n) => Next(c, who, gc, n, ds[|ds| - 1])
  }

  lemma RunSnoc(c: Committee, who: Election, gc: nat, ds: seq<Delivery>)
    requires ds != [] && Run(c, who, gc, ds[..|ds| - 1]).Some?
    ensures Run(c, who, gc, ds) == Next(c, who, gc, Run(c, who, gc, ds[..|ds| - 1]).value, ds[|ds| - 1])
  {
    hide Next;
  }

  ghost function Received(ds: seq<Delivery>): set<Header> {
    set i | 0 <= i < |ds| && ds[i].h.round >= 1 :: ds[i].h
  }

  ghost predicate CausalAt(c: Committee, g: set<Header>, ds: seq<Delivery>, i: int)
    requires 0 <= i < |ds|
  {
    Admissible(c, g, Received(ds[..i]), ds[i].h)
  }

  /** The stream only carries certified headers, each after all its parents in `g`. */
  ghost predicate Causal(c: Committee, g: set<Header>, ds: seq<Delivery>) {
    forall i {:trigger CausalAt(c, g, ds, i)} :: 0 <= i < |ds| ==> CausalAt(c, g, ds, i)
  }

  ghost predicate TimelyAt(c: Committee, who: Election, gc: nat, ds: seq<Delivery>, i: int)
    requires 0 <= i < |ds|
  {
    var n := Run(c, who, gc, ds[..i]);
    n.Some? ==> !Stale(n.value.state.lastCommitted, ds[i].h)
  }

  /** No delivery is stale, which the code does not establish. */
  ghost predicate Timely(c: Committee, who: Election, gc: nat, ds: seq<Delivery>) {
    forall i {:trigger TimelyAt(c, who, gc, ds, i)} :: 0 <= i < |ds| ==> TimelyAt(c, who, gc, ds, i)
  }

  ghost function Arrived(s: State, h: Header): State {
    s.(dag := Insert(s.dag, h))
  }

  /** If the delivery commits anything, flattening the oldest leader it commits is clean. (The
      flattening of any later one always is.) */
  ghost predicate CleanStep(c: Committee, who: Election, gc: nat, n: Node, d: Delivery) {
    var o := Step(c, who, gc, n.state, d.h, d.selected);
    o.Some? && o.value.leaders != [] ==> Clean(gc, Arrived(n.state, d.h), o.value.leaders[0])
  }

  ghost predicate CleanAt(c: Committee, who: Election, gc: nat, ds: seq<Delivery>, i: int)
    requires 0 <= i < |ds|
  {
    var n := Run(c, who, gc, ds[..i]);
    n.Some? ==> CleanStep(c, who, gc, n.value, ds[i])
  }

  ghost predicate CleanRun(c: Committee, who: Election, gc: nat, ds: seq<Delivery>) {
    forall i {:trigger CleanAt(c, who, gc, ds, i)} :: 0 <= i < |ds| ==> CleanAt(c, who, gc, ds, i)
  }

  // ----- Invariants

  ghost predicate LedBy(c: Committee, who: Election, g: set<Header>, s: State, leaders: seq<Header>, l: Header) {
    && leaders == Reverse(FullChain(who, g, l))
    && IsLeader(who, g, l, l.round)
    && Supported(c, g, l)
    && l.round == s.lastRound
    && l.round >= 2 && l.round % 2 == 0
  }

  /** The committed leaders are the whole chain of the last one, which is directly supported
      and whose even round is the last committed round. */
  ghost predicate Led(c: Committee, who: Election, g: set<Header>, s: State, leaders: seq<Header>) {
    || (leaders == [] && s.lastRound == 0)
    || (leaders != [] && LedBy(c, who, g, s, leaders, leaders[|leaders| - 1]))
  }

  ghost predicate NodeInv(c: Committee, who: Election, g: set<Header>, gc: nat, r: set<Header>, n: Node) {
    View(c, g, gc, r, n.state) && Led(c, who, g, n.state, n.leaders)
  }

  /** The output is the canonical ledger of the committed leaders. */
  ghost predicate Canonical(c: Committee, g: set<Header>, gc: nat, n: Node) {
    && Tracks(n.state, LedgerOf(c, g, gc, n.leaders))
    && n.out == LedgerOf(c, g, gc, n.leaders).out
  }

  // ----- Committing a sequence of leaders

  ghost predicate Rising(ls: seq<Header>, r: set<Header>, lastRound: nat) {
    && (forall i :: 0 <= i < |ls| ==> ls[i] in r && ls[i].round > lastRound)
    && (forall i, j :: 0 <= i < j < |ls| ==> ls[i].round < ls[j].round)
  }

  lemma {:induction false} TopRoundAtMost(s: seq<Header>, top: nat)
    requires forall x :: x in s ==> x.round <= top
    ensures TopRound(s) <= top
  {
    if s != [] {
      TopRoundAtMost(s[1..], top);
    }
  }

  lemma {:induction false} TopRoundIs(s: seq<Header>, l: Header)
    requires l in s && forall x :: x in s ==> x.round <= l.round
    ensures TopRound(s) == l.round
  {
    if s[0] != l {
      TopRoundIs(s[1..], l);
    } else {
      TopRoundAtMost(s[1..], l.round);
    }
  }

  lemma OrderDagCommits(c: Committee, g: set<Header>, gc: nat, r: set<Header>, s: State, l: Header)
    requires WellFormed(c, g) && View(c, g, gc, r, s) && l in r && l.round > s.lastRound
    ensures var t := Updates(gc, s, OrderDag(gc, s, l));
            View(c, g, gc, r, t) && t.lastRound == l.round && Fresh(t)
  {
    var out := OrderDag(gc, s, l);
    OrderDagCorrect(gc, s, l);
    assert GoodHeader(c, g, l);
    forall x | x in out ensures x.author in c.names && x.round <= l.round {
      ReachesDown(Live(s), l, x);
      ContentsHas(s.dag, x);
    }
    ViewUpdates(c, g, gc, r, s, out);
    UpdatesTop(gc, s, out);
    TopRoundIs(out, l);
  }

  lemma {:induction false} CommitAllView(c: Committee, g: set<Header>, gc: nat, r: set<Header>, s: State,
                                         ls: seq<Header>)
    requires WellFormed(c, g) && View(c, g, gc, r, s) && Rising(ls, r, s.lastRound)
    ensures var t := CommitAll(gc, s, ls).0;
            && View(c, g, gc, r, t)
            && (t.lastRound == if ls == [] then s.lastRound else ls[|ls| - 1].round)
            && (Fresh(s) || ls != [] ==> Fresh(t))
    decreases |ls|
  {
    hide View, WellFormed, OrderDag, Updates, Fresh;
    if ls != [] {
      OrderDagCommits(c, g, gc, r, s, ls[0]);
      CommitAllView(c, g, gc, r, Updates(gc, s, OrderDag(gc, s, ls[0])), ls[1..]);
    }
  }

  lemma CommitOneLedger(c: Committee, g: set<Header>, gc: nat, r: set<Header>, s: State, led: Ledger, l: Header)
    requires WellFormed(c, g) && View(c, g, gc, r, s) && l in r && l.round > s.lastRound
    requires Clean(gc, s, l) && Tracks(s, led)
    ensures var t, led' := Updates(gc, s, OrderDag(gc, s, l)), Extend(g, gc, led, l);
            && View(c, g, gc, r, t) && t.lastRound == l.round && Fresh(t)
            && Tracks(t, led') && led'.out == led.out + OrderDag(gc, s, l)
  {
    var sub := OrderDag(gc, s, l);
    CleanIsCanonical(c, g, gc, r, s, led, l);
    OrderDagCommits(c, g, gc, r, s, l);
    UpdatesRaise(gc, s, sub);
    UpdatesTop(gc, s, sub);
  }

  /** `t` and `out` are what takes ledger `led` to ledger `led'`. */
  ghost predicate Extends(led: Ledger, led': Ledger, t: State, out: seq<Header>) {
    Tracks(t, led') && led'.out == led.out + out
  }

  lemma ExtendsThen(led: Ledger, mid: Ledger, end: Ledger, t: State, sub: seq<Header>, out: seq<Header>)
    requires mid.out == led.out + sub && Extends(mid, end, t, out)
    ensures Extends(led, end, t, sub + out)
  {}

  /** Committing leaders, the first of them clean, extends the canonical ledger by them. */
  lemma {:induction false} CommitAllLedger(c: Committee, g: set<Header>, gc: nat, r: set<Header>, s: State,
                                           led: Ledger, ls: seq<Header>)
    requires WellFormed(c, g) && View(c, g, gc, r, s) && Rising(ls, r, s.lastRound)
    requires Tracks(s, led) && (ls != [] ==> Clean(gc, s, ls[0]))
    ensures Extends(led, ExtendAll(g, gc, led, ls), CommitAll(gc, s, ls).0, CommitAll(gc, s, ls).1)
    decreases |ls|
  {
    if ls != [] {
      hide Clean, Fresh, View, Tracks, OrderDag, Extend;
      var sub := OrderDag(gc, s, ls[0]);
      var t, led' := Updates(gc, s, sub), Extend(g, gc, led, ls[0]);
      CommitOneLedger(c, g, gc, r, s, led, ls[0]);
      if |ls| > 1 {
        FreshIsClean(c, g, gc, r, t, ls[1]);
      }
      CommitAllLedger(c, g, gc, r, t, led', ls[1..]);
      ExtendsThen(led, led', ExtendAll(g, gc, led', ls[1..]), CommitAll(gc, t, ls[1..]).0, sub,
        CommitAll(gc, t, ls[1..]).1);
    }
  }

  // ----- One delivery

  lemma ReverseConcat(a: seq<Header>, b: seq<Header>)
    ensures Reverse(a + b) == Reverse(b) + Reverse(a)
  {}

  /** The leaders that a commit of `l` adds, oldest first. */
  ghost function NewLeaders(who: Election, g: set<Header>, s: State, l: Header): seq<Header> {
    Reverse([l] + Chain(who, g, l, l.round - 2, s.lastRound))
  }

  lemma ChainIsIn(who: Election, g: set<Header>, r: set<Header>, l: Header, floor: nat, chain: seq<Header>)
    requires Closed(g, r) && l in r && l.round % 2 == 0
    requires chain == Chain(who, g, l, l.round - 2, floor)
    ensures forall i :: 0 <= i < |chain| ==> chain[i] in r && floor < chain[i].round < l.round
    ensures forall i, j :: 0 <= i < j < |chain| ==> chain[i].round > chain[j].round
  {
    hide LinkedLeader, Chain, IsLeader;
    ChainMembers(who, g, l, l.round - 2, floor);
    forall i | 0 <= i < |chain| ensures chain[i] in r && floor < chain[i].round < l.round {
      assert ChainMember(who, g, l, l.round - 2, floor, chain[i]);
      ClosedAncestors(g, r, l, chain[i]);
    }
  }

  lemma NewLeadersRise(c: Committee, who: Election, g: set<Header>, gc: nat, r: set<Header>, s: State, l: Header)
    requires WellFormed(c, g) && View(c, g, gc, r, s) && l in r && IsLeader(who, g, l, l.round)
    requires l.round > s.lastRound && l.round % 2 == 0
    ensures Rising(NewLeaders(who, g, s, l), r, s.lastRound)
    ensures var ls := NewLeaders(who, g, s, l); ls != [] && ls[|ls| - 1] == l
  {
    var chain := Chain(who, g, l, l.round - 2, s.lastRound);
    ChainIsIn(who, g, r, l, s.lastRound, chain);
    hide LinkedLeader, View, WellFormed, IsLeader;
    var all := [l] + chain;
    forall i | 0 < i < |all| ensures all[i] in r && s.lastRound < all[i].round < l.round {
      assert all[i] == chain[i - 1];
    }
    forall i, j | 0 <= i < j < |all| ensures all[i].round > all[j].round {
      assert i > 0 ==> all[i] == chain[i - 1] && all[j] == chain[j - 1];
    }
  }

  /** Chain composition over commits: whatever was committed before, appending the new
      leaders gives the whole canonical chain of the new one. */
  lemma LedExtends(c: Committee, who: Election, g: set<Header>, s: State, t: State, leaders: seq<Header>, l: Header)
    requires WellFormed(c, g) && Led(c, who, g, s, leaders)
    requires IsLeader(who, g, l, l.round) && Supported(c, g, l)
    requires l.round > s.lastRound && l.round % 2 == 0 && l.round >= 2
    requires t.lastRound == l.round
    ensures Led(c, who, g, t, leaders + NewLeaders(who, g, s, l))
  {
    hide LinkedLeader;
    var added := [l] + Chain(who, g, l, l.round - 2, s.lastRound);
    if leaders != [] {
      var p := leaders[|leaders| - 1];
      SupportedIsInescapable(c, who, g, p);
      FullChainSplits(who, g, p, l);
      ReverseConcat(added, FullChain(who, g, p));
    } else {
      assert FullChain(who, g, l) == added;
      assert leaders + Reverse(added) == Reverse(added);
    }
    var all := leaders + Reverse(added);
    assert all[|all| - 1] == l;
  }

  ghost predicate Electable(c: Committee, who: Election, g: set<Header>, r: set<Header>, s: State, l: Header) {
    && l in r && IsLeader(who, g, l, l.round) && Supported(c, g, l)
    && l.round > s.lastRound && l.round % 2 == 0 && l.round >= 2
  }

  /** Local support is support in the global DAG. */
  lemma BackersSupport(c: Committee, g: set<Header>, gc: nat, r: set<Header>, s: State, l: Header)
    requires View(c, g, gc, r, s) && Has(s.dag, l) && l.round >= 1 && l.round + 1 in s.dag
    ensures c.Weight(Backers(s.dag[l.round + 1], l.Ref())) >= c.ValidityThreshold() ==> Supported(c, g, l)
  {
    var row := s.dag[l.round + 1];
    forall a | a in Backers(row, l.Ref()) ensures a in Supporters(g, l) {
      assert Has(s.dag, row[a]);
      assert Parent(row[a], l);
    }
    c.WeightMonotone(Backers(row, l.Ref()), Supporters(g, l));
  }

  /** An election on a view does not panic and picks a supported leader. */
  lemma ElectShape(c: Committee, who: Election, g: set<Header>, gc: nat, r: set<Header>, s: State, d: Delivery)
    requires WellFormed(c, g) && View(c, g, gc, r, s) && (d.h.round >= 1 ==> d.h in r)
    ensures var o := Elect(c, who, s, d.h, d.selected);
            o.Some? && (o.value.Some? ==> Electable(c, who, g, r, s, o.value.value))
  {
    var h := d.h;
    if h.round >= 5 && h.round % 2 == 1 && h.round - 3 > s.lastRound && d.selected {
      var o := LeaderAt(who, s.dag, h.round - 3);
      if o.Some? {
        RowsAbove(c, g, gc, r, s, h, h.round - 2);
        assert Has(s.dag, o.value);
        BackersSupport(c, g, gc, r, s, o.value);
      }
    }
  }

  /** Committing from a view takes exactly the new leaders. */
  lemma CommitShape(c: Committee, who: Election, g: set<Header>, gc: nat, r: set<Header>, s: State, l: Header)
    requires WellFormed(c, g) && View(c, g, gc, r, s) && l in r
    ensures var ls := NewLeaders(who, g, s, l);
            Commit(who, gc, s, l) == Some(Effect(CommitAll(gc, s, ls).0, ls, CommitAll(gc, s, ls).1))
  {
    hide View, WellFormed, CommitAll, LinkedLeader, LeaderAt, Linked;
    FallbacksAreChain(c, who, g, gc, r, s, l, l.round - 2);
    assert OrderLeaders(who, s, l) == Some([l] + Chain(who, g, l, l.round - 2, s.lastRound));
  }

  lemma CommitKeeps(c: Committee, who: Election, g: set<Header>, gc: nat, r: set<Header>, s: State,
                    leaders: seq<Header>, l: Header)
    requires WellFormed(c, g) && View(c, g, gc, r, s) && Led(c, who, g, s, leaders)
    requires Electable(c, who, g, r, s, l)
    ensures Commit(who, gc, s, l).Some?
    ensures var e := Commit(who, gc, s, l).value;
            && View(c, g, gc, r, e.state) && Led(c, who, g, e.state, leaders + e.leaders) && Fresh(e.state)
            && e.leaders != [] && Rising(e.leaders, r, s.lastRound)
            && CommitAll(gc, s, e.leaders) == (e.state, e.out)
            && (Clean(gc, s, e.leaders[0]) && Tracks(s, LedgerOf(c, g, gc, leaders)) ==>
                  && Tracks(e.state, LedgerOf(c, g, gc, leaders + e.leaders))
                  && LedgerOf(c, g, gc, leaders + e.leaders).out == LedgerOf(c, g, gc, leaders).out + e.out)
  {
    hide Led, CommitAll, Extend, IsLeader, Supported, NewLeaders, Clean;
    var ls := NewLeaders(who, g, s, l);
    CommitShape(c, who, g, gc, r, s, l);
    NewLeadersRise(c, who, g, gc, r, s, l);
    CommitAllView(c, g, gc, r, s, ls);
    LedExtends(c, who, g, s, CommitAll(gc, s, ls).0, leaders, l);
    if Clean(gc, s, ls[0]) && Tracks(s, LedgerOf(c, g, gc, leaders)) {
      CommitAllLedger(c, g, gc, r, s, LedgerOf(c, g, gc, leaders), ls);
      ExtendAllConcat(g, gc, LedgerOf(c, g, gc, []), leaders, ls);
    }
  }

  /** What a delivery commits: nothing, or rising leaders and their flattenings in turn. */
  ghost predicate Commits(gc: nat, r: set<Header>, s: State, e: Effect) {
    if e.leaders == [] then e.state == s && e.out == []
    else Rising(e.leaders, r, s.lastRound) && CommitAll(gc, s, e.leaders) == (e.state, e.out) && Fresh(e.state)
  }

  /** A causal delivery does not panic and keeps the invariant; a clean one also keeps the
      output canonical. */
  lemma StepKeeps(c: Committee, who: Election, g: set<Header>, gc: nat, r: set<Header>, n: Node, d: Delivery)
    requires WellFormed(c, g) && NodeInv(c, who, g, gc, r, n) && Admissible(c, g, r, d.h)
    ensures Step(c, who, gc, n.state, d.h, d.selected).Some?
    ensures View(c, g, gc, With(r, d.h), Arrived(n.state, d.h))
    ensures Commits(gc, With(r, d.h), Arrived(n.state, d.h), Step(c, who, gc, n.state, d.h, d.selected).value)
    ensures NodeInv(c, who, g, gc, With(r, d.h), Next(c, who, gc, n, d).value)
    ensures Canonical(c, g, gc, n) && CleanStep(c, who, gc, n, d) ==> Canonical(c, g, gc, Next(c, who, gc, n, d).value)
  {
    hide Clean, Rising, CommitAll, Fresh, Commit;
    var s, r1, s1 := n.state, With(r, d.h), Arrived(n.state, d.h);
    ViewInsert(c, g, gc, r, s, d.h);
    ElectShape(c, who, g, gc, r1, s1, d);
    match Elect(c, who, s1, d.h, d.selected).value {
      case None =>
        assert n.leaders + [] == n.leaders;
        assert n.out + [] == n.out;
      case Some(l) =>
        CommitKeeps(c, who, g, gc, r1, s1, n.leaders, l);
    }
  }

  // ----- Whole runs

  lemma ReceivedSnoc(ds: seq<Delivery>)
    requires ds != []
    ensures Received(ds) == With(Received(ds[..|ds| - 1]), ds[|ds| - 1].h)
  {
    var low := ds[..|ds| - 1];
    forall h ensures h in Received(ds) <==> h in With(Received(low), ds[|ds| - 1].h) {
      if h in Received(ds) {
        var i :| 0 <= i < |ds| && ds[i].h.round >= 1 && ds[i].h == h;
        if i < |low| {
          assert low[i] == ds[i];
        }
      }
      if h in Received(low) {
        var i :| 0 <= i < |low| && low[i].h.round >= 1 && low[i].h == h;
        assert ds[i] == low[i];
      }
    }
  }

  lemma CausalPrefix(c: Committee, g: set<Header>, ds: seq<Delivery>, k: nat)
    requires Causal(c, g, ds) && k <= |ds|
    ensures Causal(c, g, ds[..k])
  {
    forall i | 0 <= i < k ensures CausalAt(c, g, ds[..k], i) {
      assert ds[..k][..i] == ds[..i];
      assert CausalAt(c, g, ds, i);
    }
  }

  lemma CleanPrefix(c: Committee, who: Election, gc: nat, ds: seq<Delivery>, k: nat)
    requires CleanRun(c, who, gc, ds) && k <= |ds|
    ensures CleanRun(c, who, gc, ds[..k])
  {
    forall i | 0 <= i < k ensures CleanAt(c, who, gc, ds[..k], i) {
      assert ds[..k][..i] == ds[..i];
      assert CleanAt(c, who, gc, ds, i);
    }
  }

  lemma TimelyPrefix(c: Committee, who: Election, gc: nat, ds: seq<Delivery>, k: nat)
    requires Timely(c, who, gc, ds) && k <= |ds|
    ensures Timely(c, who, gc, ds[..k])
  {
    forall i | 0 <= i < k ensures TimelyAt(c, who, gc, ds[..k], i) {
      assert ds[..k][..i] == ds[..i];
      assert TimelyAt(c, who, gc, ds, i);
    }
  }

  lemma StartKeeps(c: Committee, who: Election, g: set<Header>, gc: nat)
    requires WellFormed(c, g)
    ensures Run(c, who, gc, []).Some?
    ensures NodeInv(c, who, g, gc, {}, Run(c, who, gc, []).value) && Canonical(c, g, gc, Run(c, who, gc, []).value)
    ensures Fresh(Run(c, who, gc, []).value.state)
    ensures Received([]) == {}
  {}

  /** Every causally delivered run is free of panics and keeps the invariant; if all its commits
      are clean its output is canonical. */
  lemma {:induction false} RunKeeps(c: Committee, who: Election, g: set<Header>, gc: nat, ds: seq<Delivery>)
    requires WellFormed(c, g) && Causal(c, g, ds)
    ensures Run(c, who, gc, ds).Some?
    ensures NodeInv(c, who, g, gc, Received(ds), Run(c, who, gc, ds).value)
    ensures CleanRun(c, who, gc, ds) ==> Canonical(c, g, gc, Run(c, who, gc, ds).value)
    decreases |ds|
  {
    hide Run, NodeInv, Canonical, CleanStep, Received, WellFormed, Admissible, With, Step, Commits, View;
    if ds == [] {
      StartKeeps(c, who, g, gc);
    } else {
      var k := |ds| - 1;
      CausalPrefix(c, g, ds, k);
      RunKeeps(c, who, g, gc, ds[..k]);
      assert CausalAt(c, g, ds, k);
      if CleanRun(c, who, gc, ds) {
        assert CleanAt(c, who, gc, ds, k);
        CleanPrefix(c, who, gc, ds, k);
      }
      ReceivedSnoc(ds);
      RunSnoc(c, who, gc, ds);
      StepKeeps(c, who, g, gc, Received(ds[..k]), Run(c, who, gc, ds[..k]).value, ds[k]);
    }
  }

  lemma StepFresh(c: Committee, who: Election, g: set<Header>, gc: nat, r: set<Header>, n: Node, d: Delivery)
    requires WellFormed(c, g) && NodeInv(c, who, g, gc, r, n) && Admissible(c, g, r, d.h)
    requires Fresh(n.state) && !Stale(n.state.lastCommitted, d.h)
    ensures Next(c, who, gc, n, d).Some? && Fresh(Next(c, who, gc, n, d).value.state)
    ensures CleanStep(c, who, gc, n, d)
  {
    hide NodeInv, Clean, Fresh, CommitAll, WellFormed, Step;
    StepKeeps(c, who, g, gc, r, n, d);
    var e := Step(c, who, gc, n.state, d.h, d.selected).value;
    FreshInsert(n.state, d.h);
    if e.leaders != [] {
      FreshIsClean(c, g, gc, With(r, d.h), Arrived(n.state, d.h), e.leaders[0]);
    }
  }

  lemma {:induction false} RunFresh(c: Committee, who: Election, g: set<Header>, gc: nat, ds: seq<Delivery>)
    requires WellFormed(c, g) && Causal(c, g, ds) && Timely(c, who, gc, ds)
    ensures Run(c, who, gc, ds).Some? && Fresh(Run(c, who, gc, ds).value.state)
    decreases |ds|
  {
    hide Run, NodeInv, CleanStep, Received, WellFormed, Admissible, Next, Fresh;
    if ds == [] {
      StartKeeps(c, who, g, gc);
    } else {
      var k := |ds| - 1;
      CausalPrefix(c, g, ds, k);
      TimelyPrefix(c, who, gc, ds, k);
      RunFresh(c, who, g, gc, ds[..k]);
      RunKeeps(c, who, g, gc, ds[..k]);
      assert CausalAt(c, g, ds, k) && TimelyAt(c, who, gc, ds, k);
      RunSnoc(c, who, gc, ds);
      StepFresh(c, who, g, gc, Received(ds[..k]), Run(c, who, gc, ds[..k]).value, ds[k]);
    }
  }

  lemma DeliveredAt(c: Committee, who: Election, g: set<Header>, gc: nat, ds: seq<Delivery>, i: nat)
    requires Causal(c, g, ds) && Timely(c, who, gc, ds) && i < |ds|
    ensures CausalAt(c, g, ds, i) && TimelyAt(c, who, gc, ds, i)
  {}

  /** Without stale deliveries every commit is clean. */
  lemma TimelyIsClean(c: Committee, who: Election, g: set<Header>, gc: nat, ds: seq<Delivery>)
    requires WellFormed(c, g) && Causal(c, g, ds) && Timely(c, who, gc, ds)
    ensures CleanRun(c, who, gc, ds)
  {
    hide Run, NodeInv, CleanStep, Received, WellFormed, Admissible, Next, Fresh, Causal, Timely;
    forall i | 0 <= i < |ds| ensures CleanAt(c, who, gc, ds, i) {
      CausalPrefix(c, g, ds, i);
      TimelyPrefix(c, who, gc, ds, i);
      RunFresh(c, who, g, gc, ds[..i]);
      RunKeeps(c, who, g, gc, ds[..i]);
      DeliveredAt(c, who, g, gc, ds, i);
      StepFresh(c, who, g, gc, Received(ds[..i]), Run(c, who, gc, ds[..i]).value, ds[i]);
    }
  }

  // ----- Theorems

  /** No panic, and nothing above the last committed round is ever lost: in every causally
      delivered run the `expect`s hold and all received live rounds are still in the DAG. */
  lemma HistoryIntact(c: Committee, who: Election, g: set<Header>, gc: nat, ds: seq<Delivery>)
    requires WellFormed(c, g) && Causal(c, g, ds)
    ensures Run(c, who, gc, ds).Some?
    ensures var n := Run(c, who, gc, ds).value;
            && n.state.lastRound == (if n.leaders == [] then 0 else n.leaders[|n.leaders| - 1].round)
            && n.state.lastRound % 2 == 0
            && (forall h: Header :: h.round > n.state.lastRound ==> (h in Received(ds) <==> Has(n.state.dag, h)))
  {
    hide Reverse, Run, FullChain, Supported;
    RunKeeps(c, who, g, gc, ds);
    var n := Run(c, who, gc, ds).value;
    forall h: Header | h.round > n.state.lastRound ensures h in Received(ds) <==> Has(n.state.dag, h) {
      AboveLast(c, g, gc, Received(ds), n.state, h);
      ContentsHas(n.state.dag, h);
    }
  }

  /** The committed leaders are the canonical chain of the last one down to round 2, however
      the commits were split. */
  lemma LeadersAreChain(c: Committee, who: Election, g: set<Header>, gc: nat, ds: seq<Delivery>)
    requires WellFormed(c, g) && Causal(c, g, ds)
    ensures Run(c, who, gc, ds).Some?
    ensures var ls := Run(c, who, gc, ds).value.leaders;
            ls != [] ==> Supported(c, g, ls[|ls| - 1]) && ls == Reverse(FullChain(who, g, ls[|ls| - 1]))
  {
    RunKeeps(c, who, g, gc, ds);
  }

  /** Chains of two supported leaders are one a prefix of the other. */
  lemma ChainsAgree(c: Committee, who: Election, g: set<Header>, a: Header, b: Header)
    requires WellFormed(c, g)
    requires IsLeader(who, g, a, a.round) && Supported(c, g, a) && a.round >= 2 && a.round % 2 == 0
    requires IsLeader(who, g, b, b.round) && b.round % 2 == 0 && a.round <= b.round
    ensures Reverse(FullChain(who, g, a)) <= Reverse(FullChain(who, g, b))
  {
    if a.round == b.round {
      assert SameSlot(a, b);
    } else {
      SupportedIsInescapable(c, who, g, a);
      FullChainSplits(who, g, a, b);
      var top := [b] + Chain(who, g, b, b.round - 2, a.round);
      ReverseConcat(top, FullChain(who, g, a));
    }
  }

  /** Leader agreement: two replicas that consume causally closed streams of one DAG, in any
      order, with any direct-commit verdicts, commit prefix-related leader sequences. No
      assumption on stale deliveries is needed. */
  lemma LeaderAgreement(c: Committee, who: Election, g: set<Header>, gc: nat, gc': nat, ds: seq<Delivery>,
                        ds': seq<Delivery>)
    requires WellFormed(c, g) && Causal(c, g, ds) && Causal(c, g, ds')
    ensures Run(c, who, gc, ds).Some? && Run(c, who, gc', ds').Some?
    ensures var a, b := Run(c, who, gc, ds).value.leaders, Run(c, who, gc', ds').value.leaders;
            a <= b || b <= a
  {
    RunKeeps(c, who, g, gc, ds);
    RunKeeps(c, who, g, gc', ds');
    var a, b := Run(c, who, gc, ds).value.leaders, Run(c, who, gc', ds').value.leaders;
    if a != [] && b != [] {
      var x, y := a[|a| - 1], b[|b| - 1];
      if x.round <= y.round {
        ChainsAgree(c, who, g, x, y);
      } else {
        ChainsAgree(c, who, g, y, x);
      }
    }
  }
}
