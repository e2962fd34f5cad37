/** Agreement on the output, exactly, under one direct-commit schedule. A causal run has a
    reference: all the headers it received, once each and by rising round, under the same
    schedule. The reference is timely and commits at least the same leaders, so a run that is
    not clean disagrees with it. */
module Reference {
  import opened Types
  import opened DagTheory
  import opened Ordering
  import opened SubDag
  import opened Views
  import opened Agreement
  import opened Outputs

  /** Which leader rounds may be committed directly. */
  type Plan = nat -> bool

  function Verdict(v: Plan, h: Header): bool {
    h.round >= 3 && v(h.round - 3)
  }

  /** Every verdict is the plan's for the leader round in question. */
  ghost predicate Scheduled(v: Plan, ds: seq<Delivery>) {
    forall i :: 0 <= i < |ds| ==> ds[i].selected == Verdict(v, ds[i].h)
  }

  function Listed(v: Plan, hs: seq<Header>): seq<Delivery> {
    seq(|hs|, i requires 0 <= i < |hs| => Delivery(hs[i], Verdict(v, hs[i])))
  }

  // ----- Listing a set by rising round

  lemma {:induction false} TopMember(r: set<Header>) returns (x: Header)
    requires r != {}
    ensures x in r && forall h :: h in r ==> h.round <= x.round
    decreases |r|
  {
    x :| x in r;
    if r - {x} != {} {
      var y := TopMember(r - {x});
      if y.round > x.round {
        x := y;
      }
    }
  }

  lemma {:induction false} Listing(r: set<Header>) returns (hs: seq<Header>)
    ensures NoDup(hs) && SortedByRound(hs) && Members(hs) == r
    decreases |r|
  {
    if r == {} {
      hs := [];
    } else {
      var x := TopMember(r);
      var low := Listing(r - {x});
      hs := low + [x];
      forall i | 0 <= i < |low| ensures low[i] != x && low[i].round <= x.round {
        assert low[i] in Members(low);
      }
      assert Members(hs) == Members(low) + {x};
    }
  }

  /** What is listed before place `m`: everything of a lower round. */
  lemma ListedBefore(r: set<Header>, hs: seq<Header>, m: nat)
    requires SortedByRound(hs) && Members(hs) == r && m < |hs|
    ensures forall h :: h in r && h.round < hs[m].round ==> h in Members(hs[..m])
    ensures Members(hs[..m]) <= r
  {
    forall h | h in r && h.round < hs[m].round ensures h in hs[..m] {
      var j :| 0 <= j < |hs| && hs[j] == h;
      assert j < m;
      assert hs[..m][j] == h;
    }
  }

  lemma ListedReceived(v: Plan, hs: seq<Header>, m: nat)
    requires m <= |hs| && forall h :: h in hs ==> h.round >= 1
    ensures Received(Listed(v, hs)[..m]) == Members(hs[..m])
  {
    var ds := Listed(v, hs);
    forall h ensures h in Received(ds[..m]) <==> h in hs[..m] {
      if h in hs[..m] {
        var j :| 0 <= j < m && hs[..m][j] == h;
        assert ds[..m][j].h == h && hs[j] in hs;
      }
      if h in Received(ds[..m]) {
        var j :| 0 <= j < m && ds[..m][j].h.round >= 1 && ds[..m][j].h == h;
        assert hs[..m][j] == h;
      }
    }
  }

  lemma ParentsIn(g: set<Header>, r: set<Header>, h: Header)
    requires Closed(g, r) && h in r
    ensures forall p :: p in g && Parent(h, p) ==> p in r
  {}

  lemma ListingIsCausal(c: Committee, g: set<Header>, r: set<Header>, hs: seq<Header>, v: Plan)
    requires WellFormed(c, g) && r <= g && Closed(g, r) && SortedByRound(hs) && Members(hs) == r
    ensures Causal(c, g, Listed(v, hs)) && Scheduled(v, Listed(v, hs))
    ensures forall h :: h in hs ==> h.round >= 1
  {
    forall h | h in hs ensures GoodHeader(c, g, h) {
      assert h in Members(hs);
    }
    var ds := Listed(v, hs);
    hide WellFormed, Received, Closed;
    forall i | 0 <= i < |ds| ensures CausalAt(c, g, ds, i) {
      ListedReceived(v, hs, i);
      ListedBefore(r, hs, i);
      assert hs[i] in hs && hs[i] in Members(hs);
      ParentsIn(g, r, hs[i]);
    }
  }

  // ----- How far a run has committed

  lemma ElectRound(c: Committee, who: Election, s: State, h: Header, selected: bool)
    requires Keyed(s.dag)
    ensures var o := Elect(c, who, s, h, selected);
            o.Some? && o.value.Some? ==> selected && h.round >= 5 && o.value.value.round + 3 == h.round
  {}

  /** A delivery commits nothing, or up to the leader three rounds below it. */
  lemma StepElects(c: Committee, who: Election, g: set<Header>, gc: nat, r: set<Header>, n: Node, d: Delivery)
    requires WellFormed(c, g) && NodeInv(c, who, g, gc, r, n) && Admissible(c, g, r, d.h)
    ensures var o := Elect(c, who, Arrived(n.state, d.h), d.h, d.selected);
            && o.Some? && Next(c, who, gc, n, d).Some?
            && var m := Next(c, who, gc, n, d).value;
            && (o.value.None? ==> m.leaders == n.leaders && m.state.lastRound == n.state.lastRound)
            && (o.value.Some? ==>
                  && m.leaders != [] && m.leaders[|m.leaders| - 1] == o.value.value
                  && o.value.value.round > n.state.lastRound && o.value.value.round + 3 == d.h.round)
  {
    hide CommitAll, Fallbacks, IsLeader, Supported, WellFormed, NewLeaders, Led, Rising;
    var s, r1 := Arrived(n.state, d.h), With(r, d.h);
    ViewInsert(c, g, gc, r, n.state, d.h);
    ElectShape(c, who, g, gc, r1, s, d);
    ElectRound(c, who, s, d.h, d.selected);
    hide View, Elect;
    var o := Elect(c, who, s, d.h, d.selected).value;
    if o.Some? {
      CommitShape(c, who, g, gc, r1, s, o.value);
      NewLeadersRise(c, who, g, gc, r1, s, o.value);
    } else {
      assert n.leaders + [] == n.leaders;
    }
  }

  /** The last committed round is that of the last leader. */
  lemma LedRound(c: Committee, who: Election, g: set<Header>, gc: nat, r: set<Header>, n: Node)
    requires NodeInv(c, who, g, gc, r, n)
    ensures n.state.lastRound == if n.leaders == [] then 0 else n.leaders[|n.leaders| - 1].round
  {
    hide View, FullChain, IsLeader, Supported;
  }

  /** After one delivery the last committed round is the old one or three below the delivery. */
  lemma StepRound(c: Committee, who: Election, g: set<Header>, gc: nat, r: set<Header>, n: Node, d: Delivery)
    requires WellFormed(c, g) && NodeInv(c, who, g, gc, r, n) && Admissible(c, g, r, d.h)
    ensures Next(c, who, gc, n, d).Some?
    ensures var m := Next(c, who, gc, n, d).value;
            && m.state.lastRound >= n.state.lastRound
            && (m.state.lastRound == n.state.lastRound || m.state.lastRound + 3 == d.h.round)
    ensures var o := Elect(c, who, Arrived(n.state, d.h), d.h, d.selected);
            o.Some? && (o.value.Some? ==> Next(c, who, gc, n, d).value.state.lastRound == o.value.value.round)
  {
    hide NodeInv, WellFormed, Admissible, Next, Elect, With, Step, Commits, View, Canonical, CleanStep, Arrived;
    StepElects(c, who, g, gc, r, n, d);
    StepKeeps(c, who, g, gc, r, n, d);
    LedRound(c, who, g, gc, With(r, d.h), Next(c, who, gc, n, d).value);
  }

  /** Everything committed lies three rounds below something delivered. */
  ghost predicate Beneath(ds: seq<Delivery>, lastRound: nat) {
    lastRound == 0 || exists i :: 0 <= i < |ds| && ds[i].h.round == lastRound + 3
  }

  lemma BeneathSnoc(ds: seq<Delivery>, before: nat, after: nat)
    requires ds != [] && Beneath(ds[..|ds| - 1], before)
    requires after == before || after + 3 == ds[|ds| - 1].h.round
    ensures Beneath(ds, after)
  {
    if after == before && before > 0 {
      var i :| 0 <= i < |ds| - 1 && ds[..|ds| - 1][i].h.round == before + 3;
      assert ds[i].h.round == after + 3;
    }
  }

  lemma NothingBeneath()
    ensures Beneath([], 0)
  {}

  lemma StartsAtZero(c: Committee, who: Election, gc: nat)
    ensures Run(c, who, gc, []).Some?
    ensures Run(c, who, gc, []).value.state.lastRound == 0 && Run(c, who, gc, []).value.leaders == []
  {}

  lemma {:induction false} RunBeneath(c: Committee, who: Election, g: set<Header>, gc: nat, ds: seq<Delivery>)
    requires WellFormed(c, g) && Causal(c, g, ds)
    ensures Run(c, who, gc, ds).Some? && Beneath(ds, Run(c, who, gc, ds).value.state.lastRound)
    decreases |ds|
  {
    StartsAtZero(c, who, gc);
    hide Run, NodeInv, Received, WellFormed, Admissible, Next, Beneath, Canonical, CleanRun, Elect;
    if ds == [] {
      assert Beneath([], 0) by {
        NothingBeneath();
      }
    } else {
      var k := |ds| - 1;
      CausalPrefix(c, g, ds, k);
      RunBeneath(c, who, g, gc, ds[..k]);
      RunKeeps(c, who, g, gc, ds[..k]);
      assert CausalAt(c, g, ds, k);
      RunSnoc(c, who, gc, ds);
      var n := Run(c, who, gc, ds[..k]).value;
      StepRound(c, who, g, gc, Received(ds[..k]), n, ds[k]);
      BeneathSnoc(ds, n.state.lastRound, Run(c, who, gc, ds).value.state.lastRound);
    }
  }

  lemma DeliveryAdmissible(c: Committee, g: set<Header>, ds: seq<Delivery>, k: nat)
    requires Causal(c, g, ds) && k < |ds|
    ensures Admissible(c, g, Received(ds[..k]), ds[k].h)
  {
    hide Admissible, Received;
    assert CausalAt(c, g, ds, k);
  }

  /** The last committed round never falls. */
  lemma {:induction false} LastRises(c: Committee, who: Election, g: set<Header>, gc: nat, ds: seq<Delivery>, m: nat)
    requires WellFormed(c, g) && Causal(c, g, ds) && m <= |ds|
    ensures Run(c, who, gc, ds[..m]).Some? && Run(c, who, gc, ds).Some?
    ensures Run(c, who, gc, ds[..m]).value.state.lastRound <= Run(c, who, gc, ds).value.state.lastRound
    decreases |ds|
  {
    hide Run, NodeInv, Received, WellFormed, Admissible, Next, Canonical, CleanRun, Elect, Causal;
    RunKeeps(c, who, g, gc, ds);
    if m == |ds| {
      assert ds[..m] == ds;
    } else {
      var k := |ds| - 1;
      CausalPrefix(c, g, ds, k);
      LastRises(c, who, g, gc, ds[..k], m);
      assert ds[..k][..m] == ds[..m];
      RunKeeps(c, who, g, gc, ds[..k]);
      DeliveryAdmissible(c, g, ds, k);
      RunSnoc(c, who, gc, ds);
      StepRound(c, who, g, gc, Received(ds[..k]), Run(c, who, gc, ds[..k]).value, ds[k]);
    }
  }

  // ----- The reference is timely

  lemma ListedAbove(hs: seq<Header>, v: Plan, i: nat, lastRound: nat)
    requires SortedByRound(hs) && i < |hs| && Beneath(Listed(v, hs)[..i], lastRound)
    ensures lastRound <= hs[i].round
  {
    if lastRound > 0 {
      var j :| 0 <= j < i && Listed(v, hs)[..i][j].h.round == lastRound + 3;
      assert hs[j].round <= hs[i].round;
    }
  }

  lemma ListingIsTimely(c: Committee, who: Election, g: set<Header>, gc: nat, hs: seq<Header>, v: Plan)
    requires WellFormed(c, g) && Causal(c, g, Listed(v, hs)) && SortedByRound(hs)
    ensures Timely(c, who, gc, Listed(v, hs))
  {
    var ds := Listed(v, hs);
    hide Run, Received, WellFormed, Causal, Led, Beneath;
    forall i | 0 <= i < |ds| ensures TimelyAt(c, who, gc, ds, i) {
      CausalPrefix(c, g, ds, i);
      RunBeneath(c, who, g, gc, ds[..i]);
      RunKeeps(c, who, g, gc, ds[..i]);
      ListedAbove(hs, v, i, Run(c, who, gc, ds[..i]).value.state.lastRound);
    }
  }

  // ----- Supported leaders are committed

  lemma ElectsIf(c: Committee, who: Election, s: State, h: Header, l: Header)
    requires Has(s.dag, l) && who(l.round) == l.author && l.round > s.lastRound
    requires l.round >= 2 && l.round % 2 == 0 && h.round == l.round + 3 && l.round + 1 in s.dag
    requires c.Weight(Backers(s.dag[l.round + 1], l.Ref())) >= c.ValidityThreshold()
    ensures Elect(c, who, s, h, true) == Some(Some(l))
  {
    hide Backers;
  }

  lemma KeyedView(c: Committee, g: set<Header>, gc: nat, r: set<Header>, s: State)
    requires View(c, g, gc, r, s)
    ensures Keyed(s.dag)
  {}

  /** What supports a leader among the received backs it in the row above. */
  lemma SupportersBack(c: Committee, g: set<Header>, gc: nat, r: set<Header>, s: State, l: Header)
    requires View(c, g, gc, r, s) && l.round > s.lastRound && l.round + 1 in s.dag
    ensures Supporters(r, l) <= Backers(s.dag[l.round + 1], l.Ref())
  {
    forall y | y in r && y.round > s.lastRound ensures Has(s.dag, y) {
      AboveLast(c, g, gc, r, s, y);
      ContentsHas(s.dag, y);
    }
    hide View;
    var row := s.dag[l.round + 1];
    forall a | a in Supporters(r, l) ensures a in Backers(row, l.Ref()) {
      var y :| y in r && Parent(y, l) && y.author == a;
    }
  }

  /** A leader above the last committed round, supported among the received, is elected. */
  lemma SupportElects(c: Committee, who: Election, g: set<Header>, gc: nat, r: set<Header>, s: State, h: Header,
                      l: Header)
    requires WellFormed(c, g) && View(c, g, gc, r, s) && h in r && l in r
    requires who(l.round) == l.author && l.round > s.lastRound && h.round == l.round + 3
    requires l.round >= 2 && l.round % 2 == 0 && c.Weight(Supporters(r, l)) >= c.ValidityThreshold()
    ensures Elect(c, who, s, h, true) == Some(Some(l))
  {
    RowsAbove(c, g, gc, r, s, h, l.round + 1);
    AboveLast(c, g, gc, r, s, l);
    KeyedView(c, g, gc, r, s);
    hide View, WellFormed, Supporters, Backers, Elect;
    ContentsHas(s.dag, l);
    SupportersBack(c, g, gc, r, s, l);
    c.WeightMonotone(Supporters(r, l), Backers(s.dag[l.round + 1], l.Ref()));
    ElectsIf(c, who, s, h, l);
  }

  lemma SupportersGrow(r: set<Header>, r': set<Header>, l: Header)
    requires r <= r'
    ensures Supporters(r, l) <= Supporters(r', l)
  {}

  lemma SupportCommits(c: Committee, who: Election, g: set<Header>, gc: nat, r: set<Header>, n: Node, d: Delivery,
                       l: Header)
    requires WellFormed(c, g) && NodeInv(c, who, g, gc, r, n) && Admissible(c, g, r, d.h)
    requires l in r && who(l.round) == l.author && d.h.round == l.round + 3 && d.selected
    requires l.round >= 2 && l.round % 2 == 0 && c.Weight(Supporters(r, l)) >= c.ValidityThreshold()
    ensures Next(c, who, gc, n, d).Some? && Next(c, who, gc, n, d).value.state.lastRound >= l.round
  {
    hide WellFormed, View, Led, Admissible, Next, Elect, Supporters;
    StepRound(c, who, g, gc, r, n, d);
    if n.state.lastRound < l.round {
      ViewInsert(c, g, gc, r, n.state, d.h);
      SupportersGrow(r, With(r, d.h), l);
      c.WeightMonotone(Supporters(r, l), Supporters(With(r, d.h), l));
      SupportElects(c, who, g, gc, With(r, d.h), Arrived(n.state, d.h), d.h, l);
    }
  }

  /** A run whose last delivery is the highest, three rounds above a leader supported among what
      was received before, has committed exactly up to that leader. */
  lemma ReachesExactly(c: Committee, who: Election, g: set<Header>, gc: nat, ds: seq<Delivery>, l: Header)
    requires WellFormed(c, g) && Causal(c, g, ds) && ds != []
    requires var low, d := ds[..|ds| - 1], ds[|ds| - 1];
             && l in Received(low) && who(l.round) == l.author && d.h.round == l.round + 3 && d.selected
             && c.Weight(Supporters(Received(low), l)) >= c.ValidityThreshold()
    requires l.round >= 2 && l.round % 2 == 0
    requires forall i :: 0 <= i < |ds| ==> ds[i].h.round <= l.round + 3
    ensures var o := Run(c, who, gc, ds); o.Some? && o.value.state.lastRound == l.round && o.value.leaders != []
  {
    RunBeneath(c, who, g, gc, ds);
    hide Run, WellFormed, NodeInv, Causal, Received, Supporters, Next, Canonical, CleanRun, Admissible;
    var k := |ds| - 1;
    CausalPrefix(c, g, ds, k);
    RunKeeps(c, who, g, gc, ds[..k]);
    DeliveryAdmissible(c, g, ds, k);
    RunSnoc(c, who, gc, ds);
    SupportCommits(c, who, g, gc, Received(ds[..k]), Run(c, who, gc, ds[..k]).value, ds[k], l);
    RunKeeps(c, who, g, gc, ds);
    LedRound(c, who, g, gc, Received(ds), Run(c, who, gc, ds).value);
  }

  // ----- The reference commits as much

  ghost predicate ElectsAt(c: Committee, who: Election, gc: nat, ds: seq<Delivery>, k: int, l: Header)
    requires 0 <= k < |ds|
  {
    var o := Run(c, who, gc, ds[..k]);
    o.Some? && Elect(c, who, Arrived(o.value.state, ds[k].h), ds[k].h, ds[k].selected) == Some(Some(l))
  }

  /** The last delivery of a run elects the last leader or none. */
  lemma LastStep(c: Committee, who: Election, g: set<Header>, gc: nat, ds: seq<Delivery>)
    requires WellFormed(c, g) && Causal(c, g, ds) && ds != []
    requires Run(c, who, gc, ds[..|ds| - 1]).Some? && Run(c, who, gc, ds).Some?
    requires NodeInv(c, who, g, gc, Received(ds[..|ds| - 1]), Run(c, who, gc, ds[..|ds| - 1]).value)
    ensures var k := |ds| - 1;
            var n, m := Run(c, who, gc, ds[..k]).value, Run(c, who, gc, ds).value;
            var o := Elect(c, who, Arrived(n.state, ds[k].h), ds[k].h, ds[k].selected);
            && o.Some?
            && (o.value.None? ==> m.leaders == n.leaders)
            && (o.value.Some? && m.leaders != [] ==> ElectsAt(c, who, gc, ds, k, m.leaders[|m.leaders| - 1]))
  {
    hide Run, NodeInv, Received, WellFormed, Admissible, Next, Elect, Arrived;
    var k := |ds| - 1;
    DeliveryAdmissible(c, g, ds, k);
    RunSnoc(c, who, gc, ds);
    StepElects(c, who, g, gc, Received(ds[..k]), Run(c, who, gc, ds[..k]).value, ds[k]);
  }

  lemma ElectsLater(c: Committee, who: Election, gc: nat, ds: seq<Delivery>, n: nat, k: nat, l: Header)
    requires k < n <= |ds| && ElectsAt(c, who, gc, ds[..n], k, l)
    ensures ElectsAt(c, who, gc, ds, k, l)
  {
    hide Run, Elect;
    assert ds[..n][..k] == ds[..k] && ds[..n][k] == ds[k];
  }

  /** Some delivery elected the last leader committed. */
  lemma {:induction false} LastElection(c: Committee, who: Election, g: set<Header>, gc: nat, ds: seq<Delivery>)
    returns (k: nat)
    requires WellFormed(c, g) && Causal(c, g, ds)
    requires Run(c, who, gc, ds).Some? && Run(c, who, gc, ds).value.leaders != []
    ensures k < |ds|
    ensures var ls := Run(c, who, gc, ds).value.leaders; ElectsAt(c, who, gc, ds, k, ls[|ls| - 1])
    decreases |ds|
  {
    hide Run, NodeInv, Received, WellFormed, Admissible, Next, Elect, Arrived, ElectsAt, Causal, Canonical, CleanRun;
    StartsAtZero(c, who, gc);
    assert ds != [];
    var n := |ds| - 1;
    var low := ds[..n];
    CausalPrefix(c, g, ds, n);
    RunKeeps(c, who, g, gc, low);
    LastStep(c, who, g, gc, ds);
    if Elect(c, who, Arrived(Run(c, who, gc, low).value.state, ds[n].h), ds[n].h, ds[n].selected).value.None? {
      k := LastElection(c, who, g, gc, low);
      var ls := Run(c, who, gc, low).value.leaders;
      ElectsLater(c, who, gc, ds, n, k, ls[|ls| - 1]);
    } else {
      k := n;
    }
  }

  lemma ReceivedGrows(ds: seq<Delivery>, i: nat)
    requires i <= |ds|
    ensures Received(ds[..i]) <= Received(ds)
  {
    forall h | h in Received(ds[..i]) ensures h in Received(ds) {
      var j :| 0 <= j < i && ds[..i][j].h.round >= 1 && ds[..i][j].h == h;
      assert ds[j].h == h;
    }
  }

  lemma ReceivedHas(ds: seq<Delivery>, k: nat)
    requires k < |ds| && ds[k].h.round >= 1
    ensures ds[k].h in Received(ds)
  {}

  lemma SameVerdict(v: Plan, ds: seq<Delivery>, k: nat, hs: seq<Header>, m: nat)
    requires Scheduled(v, ds) && k < |ds| && m < |hs| && hs[m] == ds[k].h
    ensures m < |Listed(v, hs)| && Listed(v, hs)[m] == ds[k]
  {}

  lemma PrefixSnoc(c: Committee, who: Election, gc: nat, ds: seq<Delivery>, m: nat)
    requires m < |ds| && Run(c, who, gc, ds[..m]).Some?
    ensures Run(c, who, gc, ds[..m + 1]) == Next(c, who, gc, Run(c, who, gc, ds[..m]).value, ds[m])
  {
    hide Next, Run;
    assert ds[..m + 1][..m] == ds[..m];
    RunSnoc(c, who, gc, ds[..m + 1]);
  }

  /** What elects a leader is support among the received. */
  lemma ElectedSupport(c: Committee, who: Election, g: set<Header>, gc: nat, r: set<Header>, s: State, h: Header,
                       selected: bool, l: Header)
    requires View(c, g, gc, r, s) && Elect(c, who, s, h, selected) == Some(Some(l))
    ensures selected && l in r && who(l.round) == l.author
    ensures l.round >= 2 && l.round % 2 == 0 && h.round == l.round + 3
    ensures c.Weight(Supporters(r, l)) >= c.ValidityThreshold()
  {
    assert Has(s.dag, l);
    var row := s.dag[l.round + 1];
    forall a | a in Backers(row, l.Ref()) ensures a in Supporters(r, l) {
      assert Has(s.dag, row[a]);
      assert Parent(row[a], l);
    }
    c.WeightMonotone(Backers(row, l.Ref()), Supporters(r, l));
  }

  lemma LowerSupport(c: Committee, r: set<Header>, r': set<Header>, h: Header, l: Header)
    requires h.round == l.round + 3 && forall k :: k in r && k.round < h.round ==> k in r'
    requires l in With(r, h) && c.Weight(Supporters(With(r, h), l)) >= c.ValidityThreshold()
    ensures l in r' && c.Weight(Supporters(r', l)) >= c.ValidityThreshold()
  {
    forall a | a in Supporters(With(r, h), l) ensures a in Supporters(r', l) {
      var y :| y in With(r, h) && Parent(y, l) && y.author == a;
    }
    c.WeightMonotone(Supporters(With(r, h), l), Supporters(r', l));
  }

  /** Where the reference delivers the header that elected `l`, it has committed up to `l`. */
  lemma ListedElection(c: Committee, who: Election, g: set<Header>, gc: nat, ds: seq<Delivery>, k: nat, l: Header,
                       all: seq<Delivery>, m: nat)
    requires WellFormed(c, g) && Causal(c, g, ds) && k < |ds| && ElectsAt(c, who, gc, ds, k, l)
    requires Causal(c, g, all) && m < |all| && all[m] == ds[k]
    requires forall h :: h in Received(ds[..k]) && h.round < ds[k].h.round ==> h in Received(all[..m])
    ensures Run(c, who, gc, all[..m + 1]).Some?
    ensures Run(c, who, gc, all[..m + 1]).value.state.lastRound >= l.round
  {
    hide Run, Received, WellFormed, View, Led, Causal, Elect, Canonical, CleanRun, Next, Admissible, Supporters, With;
    CausalPrefix(c, g, ds, k);
    RunKeeps(c, who, g, gc, ds[..k]);
    CausalPrefix(c, g, all, m);
    RunKeeps(c, who, g, gc, all[..m]);
    DeliveryAdmissible(c, g, ds, k);
    DeliveryAdmissible(c, g, all, m);
    var h, r, n := ds[k].h, Received(ds[..k]), Run(c, who, gc, ds[..k]).value;
    ViewInsert(c, g, gc, r, n.state, h);
    ElectedSupport(c, who, g, gc, With(r, h), Arrived(n.state, h), h, ds[k].selected, l);
    LowerSupport(c, r, Received(all[..m]), h, l);
    PrefixSnoc(c, who, gc, all, m);
    SupportCommits(c, who, g, gc, Received(all[..m]), Run(c, who, gc, all[..m]).value, all[m], l);
  }

  lemma ListedLower(v: Plan, ds: seq<Delivery>, k: nat, hs: seq<Header>, m: nat)
    requires SortedByRound(hs) && Members(hs) == Received(ds) && forall h :: h in hs ==> h.round >= 1
    requires k < |ds| && m < |hs| && hs[m] == ds[k].h
    ensures forall h :: h in Received(ds[..k]) && h.round < ds[k].h.round ==> h in Received(Listed(v, hs)[..m])
  {
    hide Received, Listed;
    ListedReceived(v, hs, m);
    ListedBefore(Received(ds), hs, m);
    ReceivedGrows(ds, k);
  }

  lemma ElectedHigh(c: Committee, who: Election, g: set<Header>, gc: nat, ds: seq<Delivery>, k: nat, l: Header)
    requires WellFormed(c, g) && Causal(c, g, ds) && k < |ds| && ElectsAt(c, who, gc, ds, k, l)
    ensures ds[k].h.round >= 5
  {
    hide Run, WellFormed, Causal;
  }

  /** The reference commits at least as far as the run. */
  lemma ReferenceReaches(c: Committee, who: Election, g: set<Header>, gc: nat, ds: seq<Delivery>, v: Plan,
                         hs: seq<Header>)
    requires WellFormed(c, g) && Causal(c, g, ds) && Scheduled(v, ds)
    requires Run(c, who, gc, ds).Some? && Run(c, who, gc, ds).value.leaders != []
    requires SortedByRound(hs) && Members(hs) == Received(ds)
    requires Causal(c, g, Listed(v, hs)) && forall h :: h in hs ==> h.round >= 1
    ensures Run(c, who, gc, Listed(v, hs)).Some?
    ensures var ls := Run(c, who, gc, ds).value.leaders;
            Run(c, who, gc, Listed(v, hs)).value.state.lastRound >= ls[|ls| - 1].round
  {
    hide Run, NodeInv, Received, WellFormed, Causal, Elect, SortedByRound, Listed;
    var k := LastElection(c, who, g, gc, ds);
    var ls := Run(c, who, gc, ds).value.leaders;
    ElectedHigh(c, who, g, gc, ds, k, ls[|ls| - 1]);
    ReceivedHas(ds, k);
    assert ds[k].h in Members(hs);
    var m :| 0 <= m < |hs| && hs[m] == ds[k].h;
    SameVerdict(v, ds, k, hs, m);
    ListedLower(v, ds, k, hs, m);
    ListedElection(c, who, g, gc, ds, k, ls[|ls| - 1], Listed(v, hs), m);
    LastRises(c, who, g, gc, Listed(v, hs), m + 1);
  }

  // ----- The theorem

  /** The output is prefix-related to that of every timely replica under the same plan. */
  ghost predicate AgreesWithTimely(c: Committee, who: Election, g: set<Header>, gc: nat, v: Plan, ds: seq<Delivery>) {
    forall ds' {:trigger Timely(c, who, gc, ds')} ::
      Causal(c, g, ds') && Scheduled(v, ds') && Timely(c, who, gc, ds') ==>
        OutputsAgree(Run(c, who, gc, ds), Run(c, who, gc, ds'))
  }

  lemma CleanAgrees(c: Committee, who: Election, g: set<Header>, gc: nat, v: Plan, ds: seq<Delivery>)
    requires WellFormed(c, g) && Causal(c, g, ds) && CleanRun(c, who, gc, ds)
    ensures AgreesWithTimely(c, who, g, gc, v, ds)
  {
    hide Run, Causal, WellFormed, Timely, CleanRun, Scheduled;
    forall ds' | Causal(c, g, ds') && Scheduled(v, ds') && Timely(c, who, gc, ds')
      ensures OutputsAgree(Run(c, who, gc, ds), Run(c, who, gc, ds'))
    {
      TimelyIsClean(c, who, g, gc, ds');
      FlattenedAgreement(c, who, g, gc, ds, ds');
    }
  }

  /** A run that diverges from its ledger has committed something. */
  lemma LedgerNeedsLeaders(c: Committee, who: Election, g: set<Header>, gc: nat, ds: seq<Delivery>)
    requires Run(c, who, gc, ds).Some?
    requires var n := Run(c, who, gc, ds).value; Diverge(n.out, LedgerOf(c, g, gc, n.leaders).out)
    ensures Run(c, who, gc, ds).value.leaders != []
  {
    LedgerStart(c, g, gc);
    hide Run;
  }

  /** A node that has committed as far has committed at least the same leaders. */
  lemma FartherExtends(c: Committee, who: Election, g: set<Header>, gc: nat, r: set<Header>, n: Node, r': set<Header>,
                       m: Node)
    requires WellFormed(c, g) && NodeInv(c, who, g, gc, r, n) && NodeInv(c, who, g, gc, r', m)
    requires n.leaders != [] && m.state.lastRound >= n.leaders[|n.leaders| - 1].round
    ensures n.leaders <= m.leaders
  {
    hide FullChain, View, WellFormed, IsLeader, Supported;
    var a, b := n.leaders[|n.leaders| - 1], m.leaders[|m.leaders| - 1];
    ChainsAgree(c, who, g, a, b);
  }

  lemma ReceivedClosed(c: Committee, who: Election, g: set<Header>, gc: nat, ds: seq<Delivery>)
    requires WellFormed(c, g) && Causal(c, g, ds)
    ensures Received(ds) <= g && Closed(g, Received(ds))
  {
    RunKeeps(c, who, g, gc, ds);
    hide Run, Received, WellFormed, Causal, Led, Canonical, Closed;
  }

  lemma ReferenceLedger(c: Committee, who: Election, g: set<Header>, gc: nat, ds: seq<Delivery>, all: seq<Delivery>,
                        n: Node)
    requires WellFormed(c, g) && Causal(c, g, ds) && Causal(c, g, all) && CleanRun(c, who, gc, all)
    requires Run(c, who, gc, ds) == Some(n) && n.leaders != [] && Diverge(n.out, LedgerOf(c, g, gc, n.leaders).out)
    requires Run(c, who, gc, all).Some?
    requires Run(c, who, gc, all).value.state.lastRound >= n.leaders[|n.leaders| - 1].round
    ensures !OutputsAgree(Run(c, who, gc, ds), Run(c, who, gc, all))
  {
    hide Run, Causal, WellFormed, CleanRun, LedgerOf, NodeInv, Received, Diverge;
    RunKeeps(c, who, g, gc, ds);
    RunKeeps(c, who, g, gc, all);
    var m := Run(c, who, gc, all).value;
    FartherExtends(c, who, g, gc, Received(ds), n, Received(all), m);
    LedgerPrefix(c, g, gc, n.leaders, m.leaders);
    DivergeOn(n.out, LedgerOf(c, g, gc, n.leaders).out, n.out, m.out);
  }

  lemma DirtyDisagrees(c: Committee, who: Election, g: set<Header>, gc: nat, v: Plan, ds: seq<Delivery>)
    requires WellFormed(c, g) && Causal(c, g, ds) && Scheduled(v, ds) && !CleanRun(c, who, gc, ds)
    ensures !AgreesWithTimely(c, who, g, gc, v, ds)
  {
    hide Run, Causal, WellFormed, Timely, CleanRun, Scheduled, LedgerOf, NodeInv, Listed, Diverge, Received, Closed;
    DirtyDiverges(c, who, g, gc, ds);
    var n := Run(c, who, gc, ds).value;
    LedgerNeedsLeaders(c, who, g, gc, ds);
    ReceivedClosed(c, who, g, gc, ds);
    var hs := Listing(Received(ds));
    var all := Listed(v, hs);
    ListingIsCausal(c, g, Received(ds), hs, v);
    ListingIsTimely(c, who, g, gc, hs, v);
    TimelyIsClean(c, who, g, gc, all);
    ReferenceReaches(c, who, g, gc, ds, v, hs);
    ReferenceLedger(c, who, g, gc, ds, all, n);
  }

  /** Agreement on the output, exactly: under one plan, a replica's output is prefix-related to
      that of every replica without stale deliveries if and only if each of its commits is
      clean. */
  lemma AgreementExactly(c: Committee, who: Election, g: set<Header>, gc: nat, v: Plan, ds: seq<Delivery>)
    requires WellFormed(c, g) && Causal(c, g, ds) && Scheduled(v, ds)
    ensures AgreesWithTimely(c, who, g, gc, v, ds) <==> CleanRun(c, who, gc, ds)
  {
    if CleanRun(c, who, gc, ds) {
      CleanAgrees(c, who, g, gc, v, ds);
    } else {
      DirtyDisagrees(c, who, g, gc, v, ds);
    }
  }
}
