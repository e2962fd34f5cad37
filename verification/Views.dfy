/** What one replica's pruned, partial DAG has in common with the global DAG. */
module Views {
  import opened Types
  import opened DagTheory
  import opened Ordering
  import opened SubDag

  // ----- The frontier loop and paths

  /** From the headers at round `hi` that `a` reaches, the loop gets to those at round `lo`. */
  lemma {:induction false} WalkReaches(dag: Dag, a: Header, s: set<Header>, hi: nat, lo: nat)
    requires Keyed(dag) && lo <= hi <= a.round
    requires forall r :: lo <= r < hi ==> r in dag
    requires forall x :: x in s <==> Reaches(Contents(dag), a, x) && x.round == hi
    ensures Walk(dag, s, hi, lo).Some?
    ensures forall x :: x in Walk(dag, s, hi, lo).value <==> Reaches(Contents(dag), a, x) && x.round == lo
    decreases hi
  {
    if hi > lo {
      var next := Named(dag[hi - 1], s);
      forall x ensures x in next <==> Reaches(Contents(dag), a, x) && x.round == hi - 1 {
        if x in next {
          var y :| y in s && x.Ref() in y.parents;
          ReachesThen(Contents(dag), a, y, x);
        }
        if Reaches(Contents(dag), a, x) && x.round == hi - 1 {
          var y := ReachesLast(Contents(dag), a, x);
          ContentsHas(dag, x);
          assert y in s;
          assert dag[hi - 1][x.author] == x;
        }
      }
      WalkReaches(dag, a, next, hi - 1, lo);
    }
  }

  /** `linked` refines reachability: on any DAG with the rows in between present, the loop
      answers whether a path of parent links exists. */
  lemma LinkedCorrect(dag: Dag, a: Header, b: Header)
    requires Keyed(dag) && Has(dag, b)
    requires a.Ref() == b.Ref() ==> a == b
    requires forall r :: b.round <= r < a.round ==> r in dag
    ensures Linked(dag, a, b) == Some(Reaches(Contents(dag), a, b))
  {
    var live := Contents(dag);
    forall x | Reaches(live, a, x) && x.round == a.round ensures x == a {
      ReachesDown(live, a, x);
    }
    if a.round >= b.round {
      WalkReaches(dag, a, {a}, a.round, b.round);
      var s := Walk(dag, {a}, a.round, b.round).value;
      forall x | x in s && x.Ref() == b.Ref() ensures x == b {
        ReachesDown(live, a, x);
      }
    } else if Reaches(live, a, b) {
      ReachesDown(live, a, b);
    }
  }

  // ----- Views

  /** State `s` is a view of `g` that received `r`: it holds nothing but received headers
      (round 0 apart) and has lost nothing but stale ones and those behind the window. */
  ghost predicate View(c: Committee, g: set<Header>, gc: nat, r: set<Header>, s: State) {
    && Keyed(s.dag)
    && (forall h {:trigger Has(s.dag, h)} :: Has(s.dag, h) ==> h.author in c.names && (h.round >= 1 ==> h in r))
    && (forall h {:trigger Has(s.dag, h)} ::
          h in r && !Stale(s.lastCommitted, h) && InWindow(gc, s.lastRound, h) ==> Has(s.dag, h))
    && (forall a :: a in c.names <==> a in s.lastCommitted)
    && (forall a :: a in s.lastCommitted ==> s.lastCommitted[a] <= s.lastRound)
    && r <= g && Closed(g, r)
    && (forall h :: h in r ==> h.round >= 1)
  }

  /** No entry lies below its author's last committed round. */
  ghost predicate Fresh(s: State) {
    forall h {:trigger Has(s.dag, h)} :: Has(s.dag, h) ==> !Stale(s.lastCommitted, h)
  }

  /** A certificate that consensus may be handed: of round 0, or with all its parents received. */
  ghost predicate Admissible(c: Committee, g: set<Header>, r: set<Header>, h: Header) {
    && h.author in c.names
    && (h.round >= 1 ==> h in g && forall p :: p in g && Parent(h, p) ==> p in r)
  }

  function With(r: set<Header>, h: Header): set<Header> {
    if h.round >= 1 then r + {h} else r
  }

  lemma InsertHas(dag: Dag, h: Header, k: Header)
    ensures Has(Insert(dag, h), k) <==> k == h || (Has(dag, k) && !SameSlot(h, k))
  {}

  lemma ViewInsert(c: Committee, g: set<Header>, gc: nat, r: set<Header>, s: State, h: Header)
    requires WellFormed(c, g) && View(c, g, gc, r, s) && Admissible(c, g, r, h)
    ensures View(c, g, gc, With(r, h), s.(dag := Insert(s.dag, h)))
  {
    var dag := Insert(s.dag, h);
    forall k ensures Has(dag, k) <==> k == h || (Has(s.dag, k) && !SameSlot(h, k)) {
      InsertHas(s.dag, h, k);
    }
  }

  /** Inserting keeps the view fresh exactly when the certificate is not stale. */
  lemma FreshInsert(s: State, h: Header)
    requires Fresh(s)
    ensures Fresh(s.(dag := Insert(s.dag, h))) <==> !Stale(s.lastCommitted, h)
  {
    var t := s.(dag := Insert(s.dag, h));
    assert Has(t.dag, h);
    forall k ensures Has(t.dag, k) <==> k == h || (Has(s.dag, k) && !SameSlot(h, k)) {
      InsertHas(s.dag, h, k);
    }
  }

  lemma PruneHas(gc: nat, lc: map<Key, nat>, lastRound: nat, dag: Dag, h: Header)
    requires Keyed(dag)
    ensures Has(Prune(gc, lc, lastRound, dag), h) <==> Has(dag, h) && !Stale(lc, h) && InWindow(gc, lastRound, h)
  {
    if Has(dag, h) && !Stale(lc, h) {
      assert h.author in Kept(lc, h.round, dag[h.round]);
    }
  }

  lemma ViewUpdate(c: Committee, g: set<Header>, gc: nat, r: set<Header>, s: State, x: Header)
    requires View(c, g, gc, r, s) && x.author in c.names
    ensures View(c, g, gc, r, Update(gc, s, x)) && Fresh(Update(gc, s, x))
  {
    var t := Update(gc, s, x);
    forall h ensures Has(t.dag, h) <==> Has(s.dag, h) && !Stale(t.lastCommitted, h) && InWindow(gc, t.lastRound, h) {
      PruneHas(gc, t.lastCommitted, t.lastRound, s.dag, h);
    }
  }

  lemma {:induction false} ViewUpdates(c: Committee, g: set<Header>, gc: nat, r: set<Header>, s: State, xs: seq<Header>)
    requires View(c, g, gc, r, s) && forall x :: x in xs ==> x.author in c.names
    ensures View(c, g, gc, r, Updates(gc, s, xs))
    ensures Fresh(s) || xs != [] ==> Fresh(Updates(gc, s, xs))
    decreases |xs|
  {
    if xs != [] {
      ViewUpdate(c, g, gc, r, s, xs[0]);
      ViewUpdates(c, g, gc, r, Update(gc, s, xs[0]), xs[1..]);
    }
  }

  /** Everything received above the last committed round is still held. */
  lemma AboveLast(c: Committee, g: set<Header>, gc: nat, r: set<Header>, s: State, h: Header)
    requires View(c, g, gc, r, s) && h.round > s.lastRound
    ensures h in r <==> h in Contents(s.dag)
  {
    ContentsHas(s.dag, h);
  }

  /** Every round between the last committed one and a received header has a row. */
  lemma RowsAbove(c: Committee, g: set<Header>, gc: nat, r: set<Header>, s: State, h: Header, q: nat)
    requires WellFormed(c, g) && View(c, g, gc, r, s) && h in r && s.lastRound < q <= h.round
    ensures q in s.dag
  {
    var p := AncestorAt(c, g, h, q);
    ClosedAncestors(g, r, h, p);
    AboveLast(c, g, gc, r, s, p);
    ContentsHas(s.dag, p);
  }

  /** On a view, `linked` answers for the global DAG. */
  lemma LinkedGlobally(c: Committee, g: set<Header>, gc: nat, r: set<Header>, s: State, a: Header, b: Header)
    requires WellFormed(c, g) && View(c, g, gc, r, s) && a in r && Has(s.dag, b) && b.round > s.lastRound
    ensures Linked(s.dag, a, b) == Some(Reaches(g, a, b))
  {
    forall q: nat | b.round <= q < a.round ensures q in s.dag {
      RowsAbove(c, g, gc, r, s, a, q);
    }
    assert b in r && b in g && a in g;
    assert a.Ref() == b.Ref() ==> SameSlot(a, b);
    LinkedCorrect(s.dag, a, b);
    forall h: Header | h.round > s.lastRound ensures h in r <==> h in Contents(s.dag) {
      AboveLast(c, g, gc, r, s, h);
    }
    ReachesLocally(g, r, Contents(s.dag), s.lastRound, a, b);
  }

  lemma LeaderSeen(c: Committee, who: Election, g: set<Header>, gc: nat, r: set<Header>, s: State, cur: Header, q: nat)
    requires WellFormed(c, g) && View(c, g, gc, r, s) && cur in r && s.lastRound < q < cur.round
    ensures match LeaderAt(who, s.dag, q)
            case Some(p) => p in r && Linked(s.dag, cur, p) == Some(LinkedLeader(who, g, cur, q) == Some(p))
                            && (LinkedLeader(who, g, cur, q).Some? ==> LinkedLeader(who, g, cur, q) == Some(p))
            case None => LinkedLeader(who, g, cur, q) == None
  {
    var o := LinkedLeader(who, g, cur, q);
    if o.Some? {
      ClosedAncestors(g, r, cur, o.value);
      AboveLast(c, g, gc, r, s, o.value);
      ContentsHas(s.dag, o.value);
    }
    var a := LeaderAt(who, s.dag, q);
    if a.Some? {
      var p := a.value;
      assert Has(s.dag, p);
      LinkedGlobally(c, g, gc, r, s, cur, p);
      assert IsLeader(who, g, p, q);
      assert o.Some? ==> SameSlot(o.value, p);
    }
  }

  /** The fallback walk of a replica is the canonical chain cut at its last committed round. */
  lemma {:induction false} FallbacksAreChain(c: Committee, who: Election, g: set<Header>, gc: nat, r: set<Header>,
                                             s: State, cur: Header, q: int)
    requires WellFormed(c, g) && View(c, g, gc, r, s) && cur in r && q < cur.round
    ensures Fallbacks(who, s.dag, cur, q, s.lastRound) == Some(Chain(who, g, cur, q, s.lastRound))
    decreases q
  {
    hide LinkedLeader, LeaderAt, Linked;
    if q >= s.lastRound + 2 {
      ChainStep(who, g, cur, q, s.lastRound);
      LeaderSeen(c, who, g, gc, r, s, cur, q);
      match LinkedLeader(who, g, cur, q) {
        case Some(p) => FallbacksAreChain(c, who, g, gc, r, s, p, q - 2);
        case None => FallbacksAreChain(c, who, g, gc, r, s, cur, q - 2);
      }
    }
  }

  // ----- The canonical ledger

  /** What the outputs so far say, independently of any replica's DAG. */
  datatype Ledger = Ledger(lastRound: nat, lastCommitted: map<Key, nat>, out: seq<Header>)

  ghost predicate Open(led: Ledger, gc: nat, h: Header) {
    && (h.author in led.lastCommitted ==> led.lastCommitted[h.author] < h.round)
    && InWindow(gc, led.lastRound, h)
  }

  ghost function OpenSet(g: set<Header>, gc: nat, led: Ledger): set<Header> {
    set h | h in g && Open(led, gc, h)
  }

  /** The sub-DAG of a leader, computed on the global DAG. */
  ghost function SubDagOf(g: set<Header>, gc: nat, led: Ledger, l: Header): seq<Header> {
    SortByRound(Dfs(OpenSet(g, gc, led), [l], {}))
  }

  function RaiseAll(lc: map<Key, nat>, xs: seq<Header>): map<Key, nat>
    decreases |xs|
  {
    if xs == [] then lc else RaiseAll(Raise(lc, xs[0]), xs[1..])
  }

  ghost function Extend(g: set<Header>, gc: nat, led: Ledger, l: Header): Ledger {
    var sub := SubDagOf(g, gc, led, l);
    Ledger(Max(led.lastRound, TopRound(sub)), RaiseAll(led.lastCommitted, sub), led.out + sub)
  }

  ghost function ExtendAll(g: set<Header>, gc: nat, led: Ledger, ls: seq<Header>): Ledger
    decreases |ls|
  {
    if ls == [] then led else ExtendAll(g, gc, Extend(g, gc, led, ls[0]), ls[1..])
  }

  /** The ledger of a leader sequence. */
  ghost function LedgerOf(c: Committee, g: set<Header>, gc: nat, ls: seq<Header>): Ledger {
    ExtendAll(g, gc, Ledger(0, InitialState(c).lastCommitted, []), ls)
  }

  lemma {:induction false} ExtendAllConcat(g: set<Header>, gc: nat, led: Ledger, a: seq<Header>, b: seq<Header>)
    ensures ExtendAll(g, gc, led, a + b) == ExtendAll(g, gc, ExtendAll(g, gc, led, a), b)
    decreases |a|
  {
    if a == [] {
      assert a + b == b;
    } else {
      var led' := Extend(g, gc, led, a[0]);
      assert (a + b)[1..] == a[1..] + b;
      assert ExtendAll(g, gc, led, a + b) == ExtendAll(g, gc, led', a[1..] + b);
      ExtendAllConcat(g, gc, led', a[1..], b);
    }
  }

  /** Later leaders only append. */
  lemma {:induction false} ExtendAllAppends(g: set<Header>, gc: nat, led: Ledger, ls: seq<Header>)
    ensures led.out <= ExtendAll(g, gc, led, ls).out
    decreases |ls|
  {
    if ls != [] {
      ExtendAllAppends(g, gc, Extend(g, gc, led, ls[0]), ls[1..]);
    }
  }

  lemma {:induction false} UpdatesRaise(gc: nat, s: State, xs: seq<Header>)
    ensures Updates(gc, s, xs).lastCommitted == RaiseAll(s.lastCommitted, xs)
    decreases |xs|
  {
    if xs != [] {
      UpdatesRaise(gc, Update(gc, s, xs[0]), xs[1..]);
    }
  }

  lemma {:induction false} UpdatesTop(gc: nat, s: State, xs: seq<Header>)
    ensures Updates(gc, s, xs).lastRound == Max(s.lastRound, TopRound(xs))
    decreases |xs|
  {
    if xs != [] {
      UpdatesTop(gc, Update(gc, s, xs[0]), xs[1..]);
    }
  }

  lemma {:induction false} RaiseAllCovers(lc: map<Key, nat>, xs: seq<Header>)
    ensures forall a :: a in lc ==> a in RaiseAll(lc, xs) && lc[a] <= RaiseAll(lc, xs)[a]
    ensures forall x :: x in xs ==> x.author in RaiseAll(lc, xs) && x.round <= RaiseAll(lc, xs)[x.author]
    ensures forall a :: a in RaiseAll(lc, xs) ==>
              (a in lc && RaiseAll(lc, xs)[a] == lc[a]) || RaiseAll(lc, xs)[a] <= TopRound(xs)
    decreases |xs|
  {
    if xs != [] {
      RaiseAllCovers(Raise(lc, xs[0]), xs[1..]);
    }
  }

  ghost predicate Tracks(s: State, led: Ledger) {
    s.lastRound == led.lastRound && s.lastCommitted == led.lastCommitted
  }

  /** A search inside the window loses nothing to the window filter. */
  lemma {:induction false} WindowedAll(gc: nat, lr: nat, s: seq<Header>)
    requires forall x :: x in s ==> InWindow(gc, lr, x)
    ensures Windowed(gc, lr, s) == s
  {
    if s != [] {
      WindowedAll(gc, lr, s[1..]);
    }
  }

  lemma SubDagFacts(c: Committee, g: set<Header>, gc: nat, led: Ledger, l: Header)
    requires WellFormed(c, g) && Open(led, gc, l)
    ensures var sub := SubDagOf(g, gc, led, l);
            && NoDup(sub) && SortedByRound(sub)
            && (forall x :: x in sub <==> Reaches(OpenSet(g, gc, led), l, x))
  {
    var live := OpenSet(g, gc, led);
    forall p, q | p in live && q in live && p.Ref() == q.Ref() ensures p == q {
      assert SameSlot(p, q);
    }
    OrderCorrect(gc, led.lastRound, live, l);
    forall x | Reaches(live, l, x) ensures InWindow(gc, led.lastRound, x) {
      ReachesDown(live, l, x);
    }
    forall x | x in Dfs(live, [l], {}) ensures Reaches(live, l, x) {
      DfsVisits(live, l, x);
    }
    WindowedAll(gc, led.lastRound, Dfs(live, [l], {}));
  }

  /** What flattening leader `l` outputs: all that it reaches over retained links the skip test
      lets through, inside the window. */
  ghost predicate Flattened(gc: nat, s: State, l: Header, x: Header) {
    Reaches(Live(s), l, x) && InWindow(gc, s.lastRound, x)
  }

  /** Nothing that flattening `l` outputs lies below its author's last committed round. */
  ghost predicate Clean(gc: nat, s: State, l: Header) {
    forall x {:trigger Flattened(gc, s, l, x)} :: Flattened(gc, s, l, x) ==> !Stale(s.lastCommitted, x)
  }

  lemma FreshIsClean(c: Committee, g: set<Header>, gc: nat, r: set<Header>, s: State, l: Header)
    requires View(c, g, gc, r, s) && Fresh(s) && l.round > s.lastRound
    ensures Clean(gc, s, l)
  {
    forall x | Flattened(gc, s, l, x) ensures !Stale(s.lastCommitted, x) {
      ReachesDown(Live(s), l, x);
      ContentsHas(s.dag, x);
    }
  }

  lemma SameChildOf(c: Committee, g: set<Header>, gc: nat, r: set<Header>, s: State, led: Ledger, l: Header,
                    k: set<Header>, x: Header, d: Digest)
    requires WellFormed(c, g) && View(c, g, gc, r, s) && Tracks(s, led) && Clean(gc, s, l)
    requires k == set y | y in r && Reaches(Live(s), l, y)
    requires x in k && d in x.parents
    ensures SameChild(gc, s.lastRound, Live(s), OpenSet(g, gc, led), k, x, d)
  {
    var live, ref := Live(s), OpenSet(g, gc, led);
    var p, q := Child(live, x, d), Child(ref, x, d);
    if q.Some? {
      assert Parent(x, q.value);
      assert Has(s.dag, q.value);
      ContentsHas(s.dag, q.value);
      assert q.value in live;
      ReachesThen(live, l, x, q.value);
      assert p.Some? && p.value in r && SameSlot(p.value, q.value) by {
        ContentsHas(s.dag, p.value);
      }
    }
    if p.Some? && InWindow(gc, s.lastRound, p.value) {
      ContentsHas(s.dag, p.value);
      assert Parent(x, p.value);
      ReachesThen(live, l, x, p.value);
      assert Flattened(gc, s, l, p.value);
      assert p.value in ref;
      assert q.Some? && SameSlot(p.value, q.value);
    }
  }

  /** A clean flattening is the canonical sub-DAG, order included, whatever was pruned when. */
  lemma CleanIsCanonical(c: Committee, g: set<Header>, gc: nat, r: set<Header>, s: State, led: Ledger, l: Header)
    requires WellFormed(c, g) && View(c, g, gc, r, s) && Tracks(s, led) && Clean(gc, s, l)
    requires l in r && l.round > s.lastRound
    ensures OrderDag(gc, s, l) == SubDagOf(g, gc, led, l)
  {
    var live, ref := Live(s), OpenSet(g, gc, led);
    var k := set y | y in r && Reaches(live, l, y);
    hide Clean, View, WellFormed, Reaches;
    forall x, d | x in k && InWindow(gc, s.lastRound, x) && d in x.parents
      ensures SameChild(gc, s.lastRound, live, ref, k, x, d)
    {
      SameChildOf(c, g, gc, r, s, led, l, k, x, d);
    }
    assert l in k by {
      SelfReaches(live, l);
    }
    DfsSame(gc, s.lastRound, live, ref, k, [l], {}, {});
    assert Windowed(gc, s.lastRound, [l]) == [l];
  }

  /** Flattening gives the canonical sub-DAG if and only if it outputs nothing stale. */
  lemma CanonicalExactly(c: Committee, g: set<Header>, gc: nat, r: set<Header>, s: State, led: Ledger, l: Header)
    requires WellFormed(c, g) && View(c, g, gc, r, s) && Tracks(s, led)
    requires l in r && l.round > s.lastRound
    ensures OrderDag(gc, s, l) == SubDagOf(g, gc, led, l) <==> Clean(gc, s, l)
  {
    if Clean(gc, s, l) {
      CleanIsCanonical(c, g, gc, r, s, led, l);
    }
    if OrderDag(gc, s, l) == SubDagOf(g, gc, led, l) {
      var sub := OrderDag(gc, s, l);
      OrderDagCorrect(gc, s, l);
      SubDagFacts(c, g, gc, led, l);
      forall x | Flattened(gc, s, l, x) ensures !Stale(s.lastCommitted, x) {
        assert x in sub;
        ReachesDown(OpenSet(g, gc, led), l, x);
      }
    }
  }
}
