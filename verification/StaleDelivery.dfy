/** Why stale deliveries must be excluded: a run over a well-formed DAG in which one certificate is
    delivered a second time after later work of its author was committed. It is output twice,
    and the replica no longer agrees with one that did not see the repetition. */
module StaleDelivery {
  import opened Types
  import opened DagTheory
  import opened Ordering
  import opened SubDag
  import opened Views
  import opened Agreement
  import opened Outputs

  /** Two authorities; the first holds a quorum of stake alone and leads every even round. */
  function Pair(): Committee {
    Committee([0, 1], map[0 := 7, 1 := 1], map[0 := {}, 1 := {}])
  }

  function Mk(a: Key, r: nat, ps: seq<Digest>): Header {
    Header(a, r, map[], ps, HeaderHash(a, r, map[], ps))
  }

  /** The second authority's only header; the leader of round 4 is the first to lead to it. */
  function B2(): Header {
    Mk(1, 2, [Mk(0, 1, [Genesis(0).Ref()]).Ref()])
  }

  /** The first authority's header of each round, each on top of the one before. */
  function A(r: nat): Header {
    if r <= 1 then Mk(0, 1, [Genesis(0).Ref()])
    else if r == 3 then Mk(0, 3, [A(2).Ref(), B2().Ref()])
    else Mk(0, r, [A(r - 1).Ref()])
  }

  function Whole(): set<Header> {
    {A(1), A(2), A(3), A(4), A(5), A(6), A(7), B2()}
  }

  lemma Shapes()
    ensures A(1) == Mk(0, 1, [Genesis(0).Ref()])
    ensures A(2) == Mk(0, 2, [A(1).Ref()]) && A(3) == Mk(0, 3, [A(2).Ref(), B2().Ref()])
    ensures A(4) == Mk(0, 4, [A(3).Ref()]) && A(5) == Mk(0, 5, [A(4).Ref()])
    ensures A(6) == Mk(0, 6, [A(5).Ref()]) && A(7) == Mk(0, 7, [A(6).Ref()])
    ensures B2() == Mk(1, 2, [A(1).Ref()])
  {}

  /** Any set with the first authority in it is a quorum and a validity set. */
  lemma Heavy(s: set<Key>)
    requires 0 in s
    ensures Pair().Valid()
    ensures Pair().Weight(s) >= Pair().QuorumThreshold() && Pair().Weight(s) >= Pair().ValidityThreshold()
  {
    var c := Pair();
    assert c.names[1..] == [1] && c.names[1..][1..] == [];
    assert c.TotalIn([1]) == 1;
    assert c.Total() == 8;
    assert c.WeightIn(c.names, s) == 7 + c.WeightIn([1], s);
  }

  lemma WholeIsGood(h: Header)
    requires h in Whole()
    ensures GoodHeader(Pair(), Whole(), h)
  {
    hide A;
    Shapes();
    forall d | d in h.parents ensures GoodParent(Whole(), h, d) {
      if d == Genesis(0).Ref() {
      } else if d == B2().Ref() {
        assert B2() in Whole();
      } else {
        var p :| p in Whole() && p.Ref() == d;
      }
    }
    assert h.parents[0].origin == 0 && h.parents[0] in h.parents;
    Heavy(Origins(h.parents));
  }

  lemma OneSlot(h: Header)
    requires h in Whole()
    ensures h == if h.author == 0 then A(h.round) else B2()
  {
    hide A;
    Shapes();
  }

  lemma WholeIsWellFormed()
    ensures WellFormed(Pair(), Whole())
  {
    hide A, Whole, GoodHeader, B2;
    forall h | h in Whole() ensures GoodHeader(Pair(), Whole(), h) {
      WholeIsGood(h);
    }
    forall h, k | h in Whole() && k in Whole() && SameSlot(h, k) ensures h == k {
      OneSlot(h);
      OneSlot(k);
    }
    Heavy({0});
  }

  function D(h: Header): Delivery {
    Delivery(h, true)
  }

  function First(): seq<Delivery> {
    [D(A(1)), D(A(2)), D(B2()), D(A(3)), D(A(4)), D(A(5))]
  }

  function Timed(): seq<Delivery> {
    First() + [D(A(6)), D(A(7))]
  }

  function Repeated(): seq<Delivery> {
    First() + [D(A(1)), D(A(6)), D(A(7))]
  }

  const GC := 10

  ghost function RunOf(ds: seq<Delivery>): Option<Node> {
    Run(Pair(), Pair().LeaderKey, GC, ds)
  }

  lemma AdmissibleAfter(r: set<Header>, h: Header)
    requires h in Whole() && forall p :: p in Whole() && Parent(h, p) ==> p in r
    ensures Admissible(Pair(), Whole(), r, h)
  {
    WholeIsGood(h);
  }

  lemma RunMore(ds: seq<Delivery>, d: Delivery, n: Node)
    requires RunOf(ds) == Some(n)
    ensures RunOf(ds + [d]) == Next(Pair(), Pair().LeaderKey, GC, n, d)
  {
    assert (ds + [d])[..|ds|] == ds;
    RunSnoc(Pair(), Pair().LeaderKey, GC, ds + [d]);
  }

  /** What the state knows when the header of round `l + 3` elects the leader of round `l`. */
  lemma Elects(s: State, l: nat)
    requires l in {2, 4} && s.lastRound == l - 2
    requires Has(s.dag, A(l)) && Has(s.dag, A(l + 1))
    ensures Elect(Pair(), Pair().LeaderKey, s, A(l + 3), true) == Some(Some(A(l)))
    ensures Commit(Pair().LeaderKey, GC, s, A(l))
         == Some(Effect(Updates(GC, s, OrderDag(GC, s, A(l))), [A(l)], OrderDag(GC, s, A(l))))
  {
    var c, who := Pair(), Pair().LeaderKey;
    hide A, OrderDag;
    Shapes();
    assert LeaderAt(who, s.dag, l) == Some(A(l));
    var row := s.dag[l + 1];
    assert row[0] == A(l + 1) && A(l).Ref() in A(l + 1).parents;
    assert 0 in Backers(row, A(l).Ref());
    Heavy(Backers(row, A(l).Ref()));
    assert Fallbacks(who, s.dag, A(l), l - 2, s.lastRound) == Some([]);
    assert [A(l)] + [] == [A(l)];
    assert OrderLeaders(who, s, A(l)) == Some([A(l)]);
    assert Reverse([A(l)]) == [A(l)];
    var sub := OrderDag(GC, s, A(l));
    assert CommitAll(GC, Updates(GC, s, sub), []) == (Updates(GC, s, sub), []);
    assert [A(l)][1..] == [];
    assert sub + [] == sub;
  }

  /** An uneventful delivery only stores the certificate. */
  lemma Idle(n: Node, h: Header)
    requires h.round < 5 || h.round % 2 == 0
    ensures Next(Pair(), Pair().LeaderKey, GC, n, D(h))
         == Some(Node(n.state.(dag := Insert(n.state.dag, h)), n.leaders, n.out))
  {
    assert n.leaders + [] == n.leaders && n.out + [] == n.out;
  }

  /** The parents of each header. */
  function Ps(h: Header): set<Header> {
    if h.round <= 1 then {}
    else if h.round == 2 then {A(1)}
    else if h.round == 3 then {A(2), B2()}
    else {A(h.round - 1)}
  }

  lemma ParentsOf(h: Header, p: Header)
    requires h in Whole() && p in Whole() && Parent(h, p)
    ensures p in Ps(h)
  {
    hide A;
    Shapes();
    OneSlot(h);
    OneSlot(p);
  }

  /** A causal stream grows by a header whose parents it already carries. */
  lemma Grow(ds: seq<Delivery>, h: Header)
    requires Causal(Pair(), Whole(), ds) && h in Whole() && Ps(h) <= Received(ds)
    ensures Causal(Pair(), Whole(), ds + [D(h)]) && Received(ds + [D(h)]) == Received(ds) + {h}
  {
    hide Whole, A, Ps;
    var es := ds + [D(h)];
    forall p | p in Whole() && Parent(h, p) ensures p in Received(ds) {
      ParentsOf(h, p);
    }
    AdmissibleAfter(Received(ds), h);
    assert es[..|ds|] == ds;
    forall i | 0 <= i < |es| ensures CausalAt(Pair(), Whole(), es, i) {
      assert i < |ds| ==> CausalAt(Pair(), Whole(), ds, i);
      assert i < |ds| ==> es[..i] == ds[..i] && es[i] == ds[i];
    }
    WholeIsGood(h);
    ReceivedSnoc(es);
  }

  lemma CausalNothing()
    ensures Causal(Pair(), Whole(), []) && Received([]) == {}
  {}

  lemma FirstIsCausal()
    ensures Causal(Pair(), Whole(), First()) && Received(First()) == {A(1), A(2), A(3), A(4), A(5), B2()}
    ensures Causal(Pair(), Whole(), First()[..5]) && Received(First()[..5]) == {A(1), A(2), A(3), A(4), B2()}
  {
    hide A, Parent, Causal, Received;
    Shapes();
    var d1 := [] + [D(A(1))];
    var d2 := d1 + [D(A(2))];
    var d3 := d2 + [D(B2())];
    var d4 := d3 + [D(A(3))];
    var d5 := d4 + [D(A(4))];
    CausalNothing();
    Grow([], A(1));
    Grow(d1, A(2));
    Grow(d2, B2());
    Grow(d3, A(3));
    Grow(d4, A(4));
    Grow(d5, A(5));
    assert First() == d5 + [D(A(5))] && First()[..5] == d5;
  }

  lemma StreamsAreCausal()
    ensures Causal(Pair(), Whole(), Timed()) && Causal(Pair(), Whole(), Repeated())
  {
    FirstIsCausal();
    hide A, Parent, Causal, Received, First;
    Shapes();
    Grow(First(), A(6));
    Grow(First() + [D(A(6))], A(7));
    assert Timed() == First() + [D(A(6))] + [D(A(7))];
    Grow(First(), A(1));
    Grow(First() + [D(A(1))], A(6));
    Grow(First() + [D(A(1))] + [D(A(6))], A(7));
    assert Repeated() == First() + [D(A(1))] + [D(A(6))] + [D(A(7))];
  }

  /** A state in which the leader of round 2 is committed and the second authority is not. */
  ghost predicate PastTwo(s: State) {
    && s.lastRound == 2
    && s.lastCommitted.Keys == {0, 1} && s.lastCommitted[0] == 2 && s.lastCommitted[1] == 0
  }

  function Six(): set<Header> {
    {A(1), A(2), A(3), A(4), A(5), B2()}
  }

  ghost predicate AfterFirst(n: Node) {
    && RunOf(First()) == Some(n)
    && View(Pair(), Whole(), GC, Six(), n.state) && Fresh(n.state) && PastTwo(n.state)
    && A(1) in n.out && A(2) in n.out
  }

  lemma {:induction false} RaiseAllOthers(lc: map<Key, nat>, xs: seq<Header>, a: Key)
    requires a in lc && forall x :: x in xs ==> x.author != a
    ensures a in RaiseAll(lc, xs) && RaiseAll(lc, xs)[a] == lc[a]
    decreases |xs|
  {
    if xs != [] {
      RaiseAllOthers(Raise(lc, xs[0]), xs[1..], a);
    }
  }

  lemma NextIdle(ds: seq<Delivery>, h: Header, n: Node) returns (m: Node)
    requires RunOf(ds) == Some(n) && (h.round < 5 || h.round % 2 == 0)
    ensures RunOf(ds + [D(h)]) == Some(m)
    ensures m == Node(n.state.(dag := Insert(n.state.dag, h)), n.leaders, n.out)
  {
    RunMore(ds, D(h), n);
    Idle(n, h);
    m := Node(n.state.(dag := Insert(n.state.dag, h)), n.leaders, n.out);
  }

  /** The first five deliveries commit nothing. */
  lemma BeforeCommit() returns (n: Node)
    ensures RunOf(First()[..5]) == Some(n) && n.out == [] && n.leaders == []
    ensures n.state.lastRound == 0 && n.state.lastCommitted == map[0 := 0, 1 := 0]
  {
    hide A, B2;
    Shapes();
    var d1 := [] + [D(A(1))];
    var d2 := d1 + [D(A(2))];
    var d3 := d2 + [D(B2())];
    var d4 := d3 + [D(A(3))];
    var d5 := d4 + [D(A(4))];
    assert First()[..5] == d5;
    n := Node(InitialState(Pair()), [], []);
    n := NextIdle([], A(1), n);
    n := NextIdle(d1, A(2), n);
    n := NextIdle(d2, B2(), n);
    n := NextIdle(d3, A(3), n);
    n := NextIdle(d4, A(4), n);
  }

  /** The flattening of the leader of round 2 holds it and the header below, nothing else. */
  lemma SubDagOfTwo(s: State)
    requires View(Pair(), Whole(), GC, Six(), s) && s.lastRound == 0 && s.lastCommitted == map[0 := 0, 1 := 0]
    ensures var sub := OrderDag(GC, s, A(2));
            NoDup(sub) && A(1) in sub && A(2) in sub && forall x :: x in sub ==> x.author == 0
  {
    hide A, B2, OrderDag, Whole, Closed;
    Shapes();
    OrderDagCorrect(GC, s, A(2));
    var live := Live(s);
    assert A(1) in Six() && A(1).round == 1;
    assert Has(s.dag, A(1));
    ContentsHas(s.dag, A(1));
    assert Parent(A(2), A(1)) && A(1) in live;
    assert Reaches(live, A(1), A(1));
    assert Reaches(live, A(2), A(1)) && Reaches(live, A(2), A(2));
    forall x | Reaches(live, A(2), x) ensures x.author == 0 {
      if x != A(2) {
        ReachesDown(live, A(2), x);
        ContentsHas(s.dag, x);
        assert x.round >= 1 && x in Six();
      }
    }
  }

  lemma CommitTwo(s: State)
    requires View(Pair(), Whole(), GC, Six(), s) && s.lastRound == 0 && s.lastCommitted == map[0 := 0, 1 := 0]
    ensures var t := Updates(GC, s, OrderDag(GC, s, A(2)));
            View(Pair(), Whole(), GC, Six(), t) && Fresh(t) && PastTwo(t)
  {
    hide A, B2, OrderDag, Whole, Closed;
    Shapes();
    SubDagOfTwo(s);
    WholeIsWellFormed();
    var sub := OrderDag(GC, s, A(2));
    OrderDagCommits(Pair(), Whole(), GC, Six(), s, A(2));
    UpdatesRaise(GC, s, sub);
    UpdatesTop(GC, s, sub);
    RaiseAllCovers(s.lastCommitted, sub);
    RaiseAllOthers(s.lastCommitted, sub, 1);
  }

  lemma FirstSplits()
    ensures |First()| == 6 && First()[5] == D(A(5)) && First() == First()[..5] + [D(A(5))]
  {
    hide A, B2;
  }

  lemma FifthAdmissible()
    ensures Admissible(Pair(), Whole(), {A(1), A(2), A(3), A(4), B2()}, A(5))
  {
    FirstSplits();
    FirstIsCausal();
    hide A, B2, Whole, First, Received, Admissible;
    assert CausalAt(Pair(), Whole(), First(), 5);
  }

  /** The state in which the fifth round's header elects the leader of round 2. */
  lemma ReadyForTwo() returns (n: Node, s: State)
    ensures RunOf(First()[..5]) == Some(n) && n.out == [] && n.leaders == []
    ensures s == n.state.(dag := Insert(n.state.dag, A(5)))
    ensures View(Pair(), Whole(), GC, Six(), s) && s.lastRound == 0 && s.lastCommitted == map[0 := 0, 1 := 0]
  {
    hide A, B2, Whole, Causal, Admissible, Received, First, Run, Insert, Canonical, CleanRun, Led, WellFormed;
    Shapes();
    FirstSplits();
    n := BeforeCommit();
    s := n.state.(dag := Insert(n.state.dag, A(5)));
    FirstIsCausal();
    WholeIsWellFormed();
    RunKeeps(Pair(), Pair().LeaderKey, Whole(), GC, First()[..5]);
    FifthAdmissible();
    ViewInsert(Pair(), Whole(), GC, Received(First()[..5]), n.state, A(5));
    assert With({A(1), A(2), A(3), A(4), B2()}, A(5)) == Six();
  }

  lemma FirstCommit() returns (n: Node)
    ensures AfterFirst(n)
  {
    hide A, B2, Whole, First, Received, Causal, OrderDag, Admissible, Run, RunOf, Insert, WellFormed;
    Shapes();
    FirstIsCausal();
    FirstSplits();
    var n5, s := ReadyForTwo();
    RunMore(First()[..5], D(A(5)), n5);
    Elects(s, 2);
    SubDagOfTwo(s);
    CommitTwo(s);
    var sub := OrderDag(GC, s, A(2));
    assert [] + sub == sub;
    n := Node(Updates(GC, s, sub), [] + [A(2)], sub);
  }

  /** Two more rounds commit the leader of round 4 on top of whatever was output. */
  lemma SecondCommit(ds: seq<Delivery>, n: Node) returns (m: Node, s: State)
    requires RunOf(ds) == Some(n) && View(Pair(), Whole(), GC, Six(), n.state) && PastTwo(n.state)
    ensures RunOf(ds + [D(A(6))] + [D(A(7))]) == Some(m) && m.out == n.out + OrderDag(GC, s, A(4))
    ensures s == n.state.(dag := Insert(Insert(n.state.dag, A(6)), A(7)))
  {
    hide A, B2, Whole, OrderDag, Admissible, Run, RunOf, Insert, WellFormed;
    Shapes();
    var n6 := NextIdle(ds, A(6), n);
    s := n6.state.(dag := Insert(n6.state.dag, A(7)));
    RunMore(ds + [D(A(6))], D(A(7)), n6);
    forall h | h in {A(4), A(5)} ensures Has(s.dag, h) {
      InsertHas(n.state.dag, A(6), h);
      InsertHas(n6.state.dag, A(7), h);
    }
    Elects(s, 4);
    var sub := OrderDag(GC, s, A(4));
    m := Node(Updates(GC, s, sub), n.leaders + [A(4)], n.out + sub);
  }

  lemma KeyedInsert(dag: Dag, h: Header)
    requires Keyed(dag)
    ensures Keyed(Insert(dag, h))
  {}

  lemma LiveOf(n: Node, s: State, h: Header)
    requires View(Pair(), Whole(), GC, Six(), n.state) && PastTwo(n.state) && Keyed(s.dag)
    requires s.lastCommitted == n.state.lastCommitted
    requires h in {A(3), B2()} && (Has(n.state.dag, h) ==> Has(s.dag, h))
    ensures h in Live(s)
  {
    hide A, B2, Whole;
    Shapes();
    assert h in Six();
    assert Has(n.state.dag, h);
    ContentsHas(s.dag, h);
  }

  lemma LivePath(live: set<Header>)
    requires A(3) in live && B2() in live && A(1) in live
    ensures Reaches(live, A(4), A(1))
  {
    hide A, B2;
    Shapes();
    assert Reaches(live, A(1), A(1));
    assert Parent(B2(), A(1)) && Parent(A(3), B2()) && Parent(A(4), A(3));
    assert Reaches(live, B2(), A(1));
    assert Reaches(live, A(3), A(1));
  }

  /** The leader of round 4 leads back to the first header exactly when the DAG holds it. */
  lemma LeadsBack(n: Node, s: State)
    requires View(Pair(), Whole(), GC, Six(), n.state) && PastTwo(n.state)
    requires s == n.state.(dag := Insert(Insert(n.state.dag, A(6)), A(7)))
    ensures var sub := OrderDag(GC, s, A(4));
            && NoDup(sub) && sub != [] && sub[|sub| - 1] == A(4)
            && (A(1) in sub <==> Has(n.state.dag, A(1)))
  {
    hide A, B2, Whole, OrderDag, WellFormed, Insert;
    Shapes();
    var live := Live(s);
    forall h
      ensures Has(s.dag, h)
         <==> h == A(7) || h == A(6) || (Has(n.state.dag, h) && !SameSlot(h, A(6)) && !SameSlot(h, A(7)))
    {
      InsertHas(n.state.dag, A(6), h);
      InsertHas(Insert(n.state.dag, A(6)), A(7), h);
    }
    assert Keyed(s.dag) by {
      KeyedInsert(n.state.dag, A(6));
      KeyedInsert(Insert(n.state.dag, A(6)), A(7));
    }
    OrderDagCorrect(GC, s, A(4));
    ContentsHas(s.dag, A(1));
    if Has(n.state.dag, A(1)) {
      LiveOf(n, s, A(3));
      LiveOf(n, s, B2());
      LivePath(live);
    }
    if Reaches(live, A(4), A(1)) {
      ReachesDown(live, A(4), A(1));
    }
  }

  lemma RepeatedIsDirty()
    requires WellFormed(Pair(), Whole()) && Causal(Pair(), Whole(), Repeated())
    requires RunOf(Repeated()).Some? && !NoDup(RunOf(Repeated()).value.out)
    ensures !CleanRun(Pair(), Pair().LeaderKey, GC, Repeated())
  {
    hide Whole, Repeated, Causal, Run, WellFormed, CleanRun;
    if CleanRun(Pair(), Pair().LeaderKey, GC, Repeated()) {
      CleanOutput(Pair(), Pair().LeaderKey, Whole(), GC, Repeated());
    }
  }

  lemma Streams()
    ensures Timed() == First() + [D(A(6))] + [D(A(7))]
    ensures Repeated() == First() + [D(A(1))] + [D(A(6))] + [D(A(7))]
  {
    hide A, First;
  }

  /** Storing the first header again is allowed, but leaves a stale entry. */
  lemma RepeatView(n: Node, n': Node)
    requires AfterFirst(n) && n'.state == n.state.(dag := Insert(n.state.dag, A(1)))
    ensures View(Pair(), Whole(), GC, Six(), n'.state) && PastTwo(n'.state) && !Has(n.state.dag, A(1))
  {
    WholeIsWellFormed();
    hide A, B2, First, Insert, WellFormed, Admissible, RunOf;
    Shapes();
    assert forall p :: p in Whole() ==> !Parent(A(1), p);
    AdmissibleAfter(Six(), A(1));
    ViewInsert(Pair(), Whole(), GC, Six(), n.state, A(1));
    assert With(Six(), A(1)) == Six();
  }

  /** The first header again, after its child. */
  lemma SecondTime(base: seq<Header>, sub: seq<Header>)
    requires A(1) in base && A(2) in base && A(1) in sub
    ensures !NoDup(base + sub) && !ParentsBefore(base + sub)
  {
    hide A;
    Shapes();
    var i :| 0 <= i < |base| && base[i] == A(1);
    var k :| 0 <= k < |base| && base[k] == A(2);
    var j :| 0 <= j < |sub| && sub[j] == A(1);
    var all := base + sub;
    assert all[i] == all[|base| + j] && Parent(all[k], all[|base| + j]);
  }

  /** Stale deliveries matter: over one well-formed DAG, two causally closed streams that differ
      only in one repeated certificate. The replica that gets the repetition outputs that
      certificate twice, the second time after its child, and neither output is a prefix of the
      other. */
  lemma StaleRedelivery()
    ensures WellFormed(Pair(), Whole())
    ensures Causal(Pair(), Whole(), Timed()) && Causal(Pair(), Whole(), Repeated())
    ensures RunOf(Timed()).Some? && RunOf(Repeated()).Some?
    ensures var a, b := RunOf(Timed()).value.out, RunOf(Repeated()).value.out;
            !NoDup(b) && !ParentsBefore(b) && !PrefixRelated(a, b)
    ensures !CleanRun(Pair(), Pair().LeaderKey, GC, Repeated())
  {
    WholeIsWellFormed();
    StreamsAreCausal();
    hide A, B2, Whole, OrderDag, First, Causal, Run, RunOf, Insert, WellFormed, Timed, Repeated;
    Shapes();
    var n := FirstCommit();
    var m, s := SecondCommit(First(), n);
    LeadsBack(n, s);
    var n' := NextIdle(First(), A(1), n);
    InsertHas(n.state.dag, A(1), A(1));
    RepeatView(n, n');
    var m', s' := SecondCommit(First() + [D(A(1))], n');
    LeadsBack(n', s');
    Streams();
    SecondTime(n.out, OrderDag(GC, s', A(4)));
    var sub, sub' := OrderDag(GC, s, A(4)), OrderDag(GC, s', A(4));
    LastOnce(n.out, sub, sub', A(4));
    DivergeOn(n.out + sub, n.out + sub', n.out + sub, n.out + sub');
    RepeatedIsDirty();
  }
}
