/** The order of a flattening. The stack search is a recursive one that takes the children of a
    header in the order of its parent list, the last one first; the sort by round keeps, within
    each round, the order of that search. */
module Search {
  import opened Types
  import opened Ordering
  import opened SubDag

  // ----- The children of a visit

  /** Where a digest first occurs in a parent list. */
  function FirstAt(ps: seq<Digest>, d: Digest): nat {
    if ps == [] || ps[0] == d then 0 else 1 + FirstAt(ps[1..], d)
  }

  ghost predicate InOrder(ps: seq<Digest>, kids: seq<Header>) {
    forall i, j :: 0 <= i < j < |kids| ==> FirstAt(ps, kids[i].Ref()) < FirstAt(ps, kids[j].Ref())
  }

  /** The children pushed by one visit: exactly the live, unseen parents, in the order of the
      parent list. */
  ghost predicate Children(live: set<Header>, x: Header, seen: set<Digest>, kids: seq<Header>) {
    && (forall p :: p in kids <==> p in live && p.round + 1 == x.round && p.Ref() in x.parents && p.Ref() !in seen)
    && InOrder(x.parents, kids)
  }

  /** One digest in front of those of `rest`. */
  lemma LaterFirstAt(ps: seq<Digest>, rest: seq<Header>)
    requires ps != [] && forall k :: k in rest ==> k.Ref() != ps[0]
    ensures FirstAt(ps, ps[0]) == 0
    ensures forall i :: 0 <= i < |rest| ==> FirstAt(ps, rest[i].Ref()) == 1 + FirstAt(ps[1..], rest[i].Ref())
  {}

  lemma InOrderCons(ps: seq<Digest>, first: seq<Header>, rest: seq<Header>)
    requires ps != [] && InOrder(ps[1..], rest) && forall k :: k in rest ==> k.Ref() != ps[0]
    requires first == [] || (|first| == 1 && first[0].Ref() == ps[0])
    ensures InOrder(ps, first + rest)
  {
    LaterFirstAt(ps, rest);
    hide FirstAt;
    var kids := first + rest;
    forall i, j | 0 <= i < j < |kids| ensures FirstAt(ps, kids[i].Ref()) < FirstAt(ps, kids[j].Ref()) {
      assert kids[j] == rest[j - |first|];
      if i >= |first| {
        assert kids[i] == rest[i - |first|];
      }
    }
  }

  lemma {:induction false} PushedInOrder(live: set<Header>, x: Header, ps: seq<Digest>, seen: set<Digest>)
    ensures InOrder(ps, Pushed(live, x, ps, seen))
  {
    if ps != [] {
      var o := Child(live, x, ps[0]);
      var (first, marked) := if o.Some? && ps[0] !in seen then ([o.value], seen + {ps[0]}) else ([], seen);
      var rest := Pushed(live, x, ps[1..], marked);
      PushedInOrder(live, x, ps[1..], marked);
      InOrderCons(ps, first, rest);
      assert Pushed(live, x, ps, seen) == first + rest;
      hide Pushed, FirstAt;
    }
  }

  lemma PushedExactly(live: set<Header>, x: Header, seen: set<Digest>)
    requires UniqueRefs(live)
    ensures Children(live, x, seen, Pushed(live, x, x.parents, seen))
  {
    PushedAll(live, x, x.parents, seen);
    PushedInOrder(live, x, x.parents, seen);
    hide Pushed, FirstAt;
  }

  // ----- The recursive search

  /** The headers visited from `x`, and the digests marked by then: `x`, then what is visited from
      its unseen children, which are all marked first. */
  ghost function Explore(live: set<Header>, x: Header, seen: set<Digest>): (seq<Header>, set<Digest>)
    decreases x.round, 0
  {
    var kids := Pushed(live, x, x.parents, seen);
    if kids == [] then ([x], seen)
    else
      assert kids[0] in kids;
      var (rest, marked) := ExploreAll(live, kids, seen + Refs(kids), x.round - 1);
      ([x] + rest, marked)
  }

  /** One header after the other, the last one first. */
  ghost function ExploreAll(live: set<Header>, xs: seq<Header>, seen: set<Digest>, top: nat): (seq<Header>, set<Digest>)
    requires forall x :: x in xs ==> x.round <= top
    decreases top, |xs|
  {
    if xs == [] then ([], seen)
    else
      var n := |xs| - 1;
      var (first, marked) := Explore(live, xs[n], seen);
      var (rest, all) := ExploreAll(live, xs[..n], marked, top);
      (first + rest, all)
  }

  lemma {:induction false} DfsExplores(live: set<Header>, low: seq<Header>, x: Header, seen: set<Digest>)
    ensures var (visit, marked) := Explore(live, x, seen);
            Dfs(live, low + [x], seen) == visit + Dfs(live, low, marked)
    decreases x.round, 0
  {
    var kids := Pushed(live, x, x.parents, seen);
    DfsPop(live, low, x, seen);
    hide Dfs, Pushed;
    if kids == [] {
      assert low + kids == low && seen + Refs(kids) == seen;
    } else {
      assert kids[0] in kids;
      DfsExploresAll(live, low, kids, seen + Refs(kids), x.round - 1);
      var (rest, marked) := ExploreAll(live, kids, seen + Refs(kids), x.round - 1);
      assert [x] + (rest + Dfs(live, low, marked)) == ([x] + rest) + Dfs(live, low, marked);
    }
  }

  lemma {:induction false} DfsExploresAll(live: set<Header>, low: seq<Header>, xs: seq<Header>, seen: set<Digest>,
                                          top: nat)
    requires forall x :: x in xs ==> x.round <= top
    ensures var (visit, marked) := ExploreAll(live, xs, seen, top);
            Dfs(live, low + xs, seen) == visit + Dfs(live, low, marked)
    decreases top, |xs|
  {
    hide Dfs, Pushed;
    if xs == [] {
      assert low + xs == low;
      assert [] + Dfs(live, low, seen) == Dfs(live, low, seen);
    } else {
      var n := |xs| - 1;
      assert low + xs == (low + xs[..n]) + [xs[n]];
      DfsExplores(live, low + xs[..n], xs[n], seen);
      var (first, marked) := Explore(live, xs[n], seen);
      DfsExploresAll(live, low, xs[..n], marked, top);
      var (rest, all) := ExploreAll(live, xs[..n], marked, top);
      assert first + (rest + Dfs(live, low, all)) == (first + rest) + Dfs(live, low, all);
      hide Explore;
    }
  }

  /** The search with a stack is the recursive one. */
  lemma SearchIsRecursive(live: set<Header>, l: Header)
    ensures Dfs(live, [l], {}) == Explore(live, l, {}).0
  {
    DfsExplores(live, [], l, {});
    var (visit, marked) := Explore(live, l, {});
    assert [] + [l] == [l];
    assert Dfs(live, [], marked) == [];
    assert visit + [] == visit;
    hide Dfs, Explore;
  }

  // ----- The order within a round

  lemma {:induction false} AtRoundNone(s: seq<Header>, r: nat)
    requires forall x :: x in s ==> x.round != r
    ensures AtRound(s, r) == []
  {
    if s != [] {
      AtRoundNone(s[1..], r);
    }
  }

  /** The sort is stable: each round keeps its members in their order. */
  lemma SortIsStable(s: seq<Header>, r: nat)
    ensures AtRound(SortByRound(s), r) == AtRound(s, r)
  {
    TopRoundBounds(s);
    SortStable(s, TopRound(s), r);
    if r > TopRound(s) {
      AtRoundNone(s, r);
    }
    hide SortUpTo, AtRound, TopRound;
  }

  lemma {:induction false} AtRoundWindowed(gc: nat, lr: nat, s: seq<Header>, r: nat)
    ensures AtRound(Windowed(gc, lr, s), r) == if r + gc >= lr then AtRound(s, r) else []
  {
    if s != [] {
      AtRoundWindowed(gc, lr, s[1..], r);
      var rest := Windowed(gc, lr, s[1..]);
      if InWindow(gc, lr, s[0]) {
        AtRoundCons(s[0], rest, r);
      } else {
        assert [] + rest == rest;
      }
      hide Windowed;
    }
  }

  lemma HeadAtRound(s: seq<Header>)
    requires s != []
    ensures AtRound(s, s[0].round) != []
  {}

  lemma SameEmpty(a: seq<Header>, b: seq<Header>)
    requires forall r: nat :: AtRound(a, r) == AtRound(b, r)
    ensures a == [] <==> b == []
  {
    if a != [] {
      HeadAtRound(a);
    }
    if b != [] {
      HeadAtRound(b);
    }
  }

  lemma {:induction false} AtRoundIn(s: seq<Header>, r: nat)
    ensures forall x :: x in AtRound(s, r) ==> x in s && x.round == r
  {
    if s != [] {
      AtRoundIn(s[1..], r);
    }
  }

  lemma HeadOf(s: seq<Header>)
    requires s != []
    ensures AtRound(s, s[0].round) != [] && AtRound(s, s[0].round)[0] == s[0]
  {}

  /** Where the first list starts, the second has a round at most as high. */
  lemma HeadIsLower(a: seq<Header>, b: seq<Header>)
    requires a != [] && b != [] && SortedByRound(b)
    requires AtRound(a, a[0].round) == AtRound(b, a[0].round)
    ensures b[0].round <= a[0].round
  {
    AtRoundIn(b, a[0].round);
    HeadOf(a);
    hide AtRound;
    assert a[0] in AtRound(b, a[0].round);
  }

  lemma SameHead(a: seq<Header>, b: seq<Header>)
    requires a != [] && b != [] && SortedByRound(a) && SortedByRound(b)
    requires forall r: nat :: AtRound(a, r) == AtRound(b, r)
    ensures a[0] == b[0]
  {
    HeadOf(a);
    HeadOf(b);
    hide AtRound, SortedByRound;
    HeadIsLower(a, b);
    HeadIsLower(b, a);
  }

  /** A list in rising rounds is determined by what it holds at each round. */
  lemma {:induction false} RoundsDetermine(a: seq<Header>, b: seq<Header>)
    requires SortedByRound(a) && SortedByRound(b) && forall r: nat :: AtRound(a, r) == AtRound(b, r)
    ensures a == b
  {
    SameEmpty(a, b);
    if a != [] {
      SameHead(a, b);
      forall r: nat ensures AtRound(a[1..], r) == AtRound(b[1..], r) {
        AtRoundCons(a[0], a[1..], r);
        AtRoundCons(b[0], b[1..], r);
        assert a == [a[0]] + a[1..] && b == [b[0]] + b[1..];
        var head := if a[0].round == r then [a[0]] else [];
        assert AtRound(a[1..], r) == AtRound(a, r)[|head|..];
        assert AtRound(b[1..], r) == AtRound(b, r)[|head|..];
      }
      RoundsDetermine(a[1..], b[1..]);
    }
  }

  /** Rising rounds, and within each round of the window everything that the recursive search
      visits there, in the order of the search. */
  ghost predicate SearchOrder(gc: nat, s: State, l: Header, out: seq<Header>) {
    && SortedByRound(out)
    && forall r: nat :: AtRound(out, r) == if r + gc >= s.lastRound then AtRound(Explore(Live(s), l, {}).0, r) else []
  }

  lemma OrderDagSearches(gc: nat, s: State, l: Header)
    ensures SearchOrder(gc, s, l, OrderDag(gc, s, l))
  {
    hide Explore, Dfs, AtRound, Windowed, SortByRound;
    var visit := Explore(Live(s), l, {}).0;
    SearchIsRecursive(Live(s), l);
    SortPermutes(Windowed(gc, s.lastRound, visit));
    forall r: nat
      ensures AtRound(OrderDag(gc, s, l), r) == if r + gc >= s.lastRound then AtRound(visit, r) else []
    {
      SortIsStable(Windowed(gc, s.lastRound, visit), r);
      AtRoundWindowed(gc, s.lastRound, visit, r);
    }
  }

  /** The flattening in full: it is the one list in that order. */
  lemma OrderDagExactly(gc: nat, s: State, l: Header, out: seq<Header>)
    ensures SearchOrder(gc, s, l, out) <==> out == OrderDag(gc, s, l)
  {
    OrderDagSearches(gc, s, l);
    if SearchOrder(gc, s, l, out) {
      hide Explore, OrderDag;
      RoundsDetermine(out, OrderDag(gc, s, l));
    }
  }
}
