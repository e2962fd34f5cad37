/** Correctness of the sub-DAG flattening: the depth-first search visits exactly the live
    history of the leader, once, and the sort is a stable permutation. */
module SubDag {
  import opened Types
  import opened DagTheory
  import opened Ordering

  // ----- Sorting and filtering

  ghost predicate SortedByRound(s: seq<Header>) {
    forall i, j :: 0 <= i < j < |s| ==> s[i].round <= s[j].round
  }

  lemma {:induction false} AtRoundCounts(s: seq<Header>, r: nat, x: Header)
    ensures multiset(AtRound(s, r))[x] == if x.round == r then multiset(s)[x] else 0
  {
    if s != [] {
      AtRoundCounts(s[1..], r, x);
      assert s == [s[0]] + s[1..];
    }
  }

  lemma {:induction false} WindowedCounts(gc: nat, lr: nat, s: seq<Header>, x: Header)
    ensures multiset(Windowed(gc, lr, s))[x] == if InWindow(gc, lr, x) then multiset(s)[x] else 0
  {
    if s != [] {
      WindowedCounts(gc, lr, s[1..], x);
      assert s == [s[0]] + s[1..];
    }
  }

  lemma {:induction false} SortUpToCounts(s: seq<Header>, top: int, x: Header)
    ensures multiset(SortUpTo(s, top))[x] == if x.round <= top then multiset(s)[x] else 0
    decreases top + 1
  {
    if top >= 0 {
      SortUpToCounts(s, top - 1, x);
      AtRoundCounts(s, top, x);
    }
  }

  lemma {:induction false} AtRoundMembers(s: seq<Header>, r: nat)
    ensures forall x :: x in AtRound(s, r) ==> x.round == r
  {
    if s != [] {
      AtRoundMembers(s[1..], r);
    }
  }

  lemma SortedConcat(a: seq<Header>, b: seq<Header>, top: nat)
    requires SortedByRound(a) && forall x :: x in a ==> x.round <= top
    requires forall x :: x in b ==> x.round == top
    ensures SortedByRound(a + b)
  {
    forall i, j | 0 <= i < j < |a + b| ensures (a + b)[i].round <= (a + b)[j].round {
      assert (a + b)[i] == if i < |a| then a[i] else b[i - |a|];
      assert (a + b)[j] == if j < |a| then a[j] else b[j - |a|];
    }
  }

  lemma {:induction false} SortUpToSorted(s: seq<Header>, top: int)
    ensures SortedByRound(SortUpTo(s, top))
    ensures forall x :: x in SortUpTo(s, top) ==> x.round <= top
    decreases top + 1
  {
    if top >= 0 {
      hide AtRound;
      SortUpToSorted(s, top - 1);
      AtRoundMembers(s, top);
      SortedConcat(SortUpTo(s, top - 1), AtRound(s, top), top);
    }
  }

  lemma {:induction false} TopRoundBounds(s: seq<Header>)
    ensures forall x :: x in s ==> x.round <= TopRound(s)
  {
    if s != [] {
      TopRoundBounds(s[1..]);
    }
  }

  /** The sort permutes its input. */
  lemma SortPermutes(s: seq<Header>)
    ensures multiset(SortByRound(s)) == multiset(s)
    ensures SortedByRound(SortByRound(s))
  {
    TopRoundBounds(s);
    SortUpToSorted(s, TopRound(s));
    forall x ensures multiset(SortByRound(s))[x] == multiset(s)[x] {
      SortUpToCounts(s, TopRound(s), x);
      if x.round > TopRound(s) {
        assert x !in s;
        assert x !in multiset(s);
      }
    }
  }

  lemma AtRoundCons(x: Header, s: seq<Header>, r: nat)
    ensures AtRound([x] + s, r) == (if x.round == r then [x] else []) + AtRound(s, r)
  {
    assert ([x] + s)[1..] == s;
  }

  lemma {:induction false} AtRoundConcat(a: seq<Header>, b: seq<Header>, r: nat)
    ensures AtRound(a + b, r) == AtRound(a, r) + AtRound(b, r)
  {
    if a == [] {
      assert a + b == b;
    } else {
      hide AtRound;
      AtRoundConcat(a[1..], b, r);
      AtRoundCons(a[0], a[1..], r);
      AtRoundCons(a[0], a[1..] + b, r);
      assert a == [a[0]] + a[1..];
      assert a + b == [a[0]] + (a[1..] + b);
    }
  }

  lemma {:induction false} AtRoundTwice(s: seq<Header>, r: nat, q: nat)
    ensures AtRound(AtRound(s, r), q) == if q == r then AtRound(s, r) else []
  {
    if s != [] {
      AtRoundTwice(s[1..], r, q);
      if s[0].round == r {
        AtRoundConcat([s[0]], AtRound(s[1..], r), q);
        assert AtRound([s[0]], q) == if q == r then [s[0]] else [];
        assert AtRound(s, r) == [s[0]] + AtRound(s[1..], r);
      } else {
        assert AtRound(s, r) == AtRound(s[1..], r);
      }
    }
  }

  /** The sort is stable: each round keeps its members in their order. */
  lemma {:induction false} SortStable(s: seq<Header>, top: int, r: nat)
    ensures AtRound(SortUpTo(s, top), r) == if r <= top then AtRound(s, r) else []
    decreases top + 1
  {
    if top >= 0 {
      hide AtRound;
      var low, row := SortUpTo(s, top - 1), AtRound(s, top);
      SortStable(s, top - 1, r);
      AtRoundConcat(low, row, r);
      AtRoundTwice(s, top, r);
      if r == top {
        assert [] + row == row;
      } else {
        assert AtRound(low, r) + [] == AtRound(low, r);
      }
    }
  }

  lemma {:induction false} NoDupCounts<T>(s: seq<T>)
    ensures NoDup(s) <==> forall x :: multiset(s)[x] <= 1
  {
    if s != [] {
      assert s == [s[0]] + s[1..];
      NoDupCounts(s[1..]);
      var t := s[1..];
      if NoDup(s) {
        assert NoDup(t) by {
          assert forall i, j :: 0 <= i < j < |t| ==> t[i] == s[i + 1] && t[j] == s[j + 1];
        }
        assert s[0] !in t;
        assert s[0] !in multiset(t);
      }
      if forall x :: multiset(s)[x] <= 1 {
        forall x ensures multiset(t)[x] <= 1 {
          assert multiset(s)[x] <= 1;
        }
        assert multiset(s)[s[0]] <= 1;
        assert s[0] !in multiset(t);
        assert s[0] !in t;
      }
    }
  }

  // ----- Depth-first search

  predicate DistinctRefs(s: seq<Header>) {
    forall i, j :: 0 <= i < j < |s| ==> s[i].Ref() != s[j].Ref()
  }

  ghost predicate UniqueRefs(live: set<Header>) {
    forall p, q :: p in live && q in live && p.Ref() == q.Ref() ==> p == q
  }

  lemma {:induction false} PushedDistinct(live: set<Header>, x: Header, ps: seq<Digest>, seen: set<Digest>)
    ensures DistinctRefs(Pushed(live, x, ps, seen))
  {
    if ps != [] {
      PushedDistinct(live, x, ps[1..], seen);
      PushedDistinct(live, x, ps[1..], seen + {ps[0]});
    }
  }

  /** A visit leaves no live child unseen. */
  lemma {:induction false} PushedAll(live: set<Header>, x: Header, ps: seq<Digest>, seen: set<Digest>)
    requires UniqueRefs(live)
    ensures forall p :: p in live && p.Ref() in ps && p.round + 1 == x.round ==>
                p.Ref() in seen || p in Pushed(live, x, ps, seen)
  {
    if ps != [] {
      PushedAll(live, x, ps[1..], seen);
      PushedAll(live, x, ps[1..], seen + {ps[0]});
    }
  }

  lemma DfsPop(live: set<Header>, low: seq<Header>, x: Header, seen: set<Digest>)
    ensures var kids := Pushed(live, x, x.parents, seen);
            Dfs(live, low + [x], seen) == [x] + Dfs(live, low + kids, seen + Refs(kids))
  {
    assert (low + [x])[..|low|] == low;
  }

  lemma {:induction false} DfsSound(live: set<Header>, stack: seq<Header>, seen: set<Digest>)
    ensures forall y :: y in Dfs(live, stack, seen) ==> exists x :: x in stack && Reaches(live, x, y)
    decreases |Unseen(live, seen)|, |stack|
  {
    if stack != [] {
      var x := stack[|stack| - 1];
      var kids := Pushed(live, x, x.parents, seen);
      PushedShrinks(live, x, seen);
      var rest := Dfs(live, stack[..|stack| - 1] + kids, seen + Refs(kids));
      DfsSound(live, stack[..|stack| - 1] + kids, seen + Refs(kids));
      assert Reaches(live, x, x);
      forall y | y in rest ensures exists z :: z in stack && Reaches(live, z, y) {
        var z :| z in stack[..|stack| - 1] + kids && Reaches(live, z, y);
        if z in kids {
          assert Parent(x, z);
          assert Reaches(live, x, y);
        }
      }
    }
  }

  /** Every live parent of a visited header was seen before or is visited. */
  lemma {:induction false} DfsClosed(live: set<Header>, stack: seq<Header>, seen: set<Digest>)
    requires UniqueRefs(live)
    ensures forall x :: x in stack ==> x in Dfs(live, stack, seen)
    ensures forall y, p :: y in Dfs(live, stack, seen) && p in live && Parent(y, p) ==>
                p.Ref() in seen || p in Dfs(live, stack, seen)
    decreases |Unseen(live, seen)|, |stack|
  {
    if stack != [] {
      var x := stack[|stack| - 1];
      var kids := Pushed(live, x, x.parents, seen);
      PushedShrinks(live, x, seen);
      PushedAll(live, x, x.parents, seen);
      var stack' := stack[..|stack| - 1] + kids;
      DfsClosed(live, stack', seen + Refs(kids));
      assert forall z :: z in stack ==> z == x || z in stack';
      forall p | p in live && p.Ref() in Refs(kids) ensures p in kids {
        var k :| k in kids && k.Ref() == p.Ref();
      }
    }
  }

  lemma DistinctCons(x: Header, rest: seq<Header>)
    requires DistinctRefs(rest) && forall y :: y in rest ==> x.Ref() != y.Ref()
    ensures DistinctRefs([x] + rest)
  {}

  /** Replacing the top of the stack by fresh children one round below keeps it distinct. */
  lemma StackDistinct(stack: seq<Header>, kids: seq<Header>, seen: set<Digest>, top: nat)
    requires stack != [] && DistinctRefs(stack) && DistinctRefs(kids)
    requires forall x :: x in stack ==> x.round <= top && (x.Ref() in seen || x.round == top)
    requires forall k :: k in kids ==> k.round < top && k.Ref() !in seen
    ensures DistinctRefs(stack[..|stack| - 1] + kids)
    ensures forall x :: x in stack[..|stack| - 1] ==> x.Ref() != stack[|stack| - 1].Ref()
  {
    var low := stack[..|stack| - 1];
    forall i, j | 0 <= i < j < |low + kids| ensures (low + kids)[i].Ref() != (low + kids)[j].Ref() {
      if i < |low| <= j {
        assert (low + kids)[i] in stack && (low + kids)[j] in kids;
      }
    }
  }

  /** No header is visited twice. Headers at round `top` need not be marked as seen, since
      nothing leads back up to them. */
  lemma {:induction false} DfsDistinct(live: set<Header>, stack: seq<Header>, seen: set<Digest>, top: nat)
    requires DistinctRefs(stack)
    requires forall x :: x in stack ==> x.round <= top && (x.Ref() in seen || x.round == top)
    ensures DistinctRefs(Dfs(live, stack, seen))
    ensures forall y :: y in Dfs(live, stack, seen) ==> y in stack || (y.Ref() !in seen && y.round < top)
    decreases |Unseen(live, seen)|, |stack|
  {
    if stack != [] {
      var x := stack[|stack| - 1];
      var kids := Pushed(live, x, x.parents, seen);
      PushedShrinks(live, x, seen);
      hide Dfs, Pushed;
      PushedDistinct(live, x, x.parents, seen);
      var stack' := stack[..|stack| - 1] + kids;
      StackDistinct(stack, kids, seen, top);
      DfsPop(live, stack[..|stack| - 1], x, seen);
      assert stack == stack[..|stack| - 1] + [x];
      DfsDistinct(live, stack', seen + Refs(kids), top);
      var rest := Dfs(live, stack', seen + Refs(kids));
      forall y | y in rest ensures x.Ref() != y.Ref() && (y in stack || (y.Ref() !in seen && y.round < top)) {
        if y in stack' && y !in kids {
          assert y in stack[..|stack| - 1];
        }
      }
      DistinctCons(x, rest);
    }
  }

  lemma DfsVisits(live: set<Header>, l: Header, x: Header)
    requires UniqueRefs(live)
    ensures x in Dfs(live, [l], {}) <==> Reaches(live, l, x)
  {
    var visit := Dfs(live, [l], {});
    DfsSound(live, [l], {});
    DfsClosed(live, [l], {});
    var visited := set y | y in visit;
    assert Closed(live, visited);
    if Reaches(live, l, x) {
      ClosedAncestors(live, visited, l, x);
    }
  }

  lemma SortedWindow(gc: nat, lr: nat, visit: seq<Header>)
    requires NoDup(visit)
    ensures var out := SortByRound(Windowed(gc, lr, visit));
            NoDup(out) && SortedByRound(out) && (forall x :: x in out <==> x in visit && InWindow(gc, lr, x))
  {
    var out := SortByRound(Windowed(gc, lr, visit));
    SortPermutes(Windowed(gc, lr, visit));
    NoDupCounts(visit);
    NoDupCounts(out);
    forall x ensures multiset(out)[x] <= 1 && (x in out <==> x in visit && InWindow(gc, lr, x)) {
      WindowedCounts(gc, lr, visit, x);
      assert x in out <==> x in multiset(out);
      assert x in visit <==> x in multiset(visit);
    }
  }

  lemma LeaderLast(live: set<Header>, l: Header, out: seq<Header>)
    requires SortedByRound(out) && l in out
    requires forall x :: x in out ==> Reaches(live, l, x)
    ensures |out| > 0 && out[|out| - 1] == l
  {
    var i :| 0 <= i < |out| && out[i] == l;
    ReachesDown(live, l, out[|out| - 1]);
    assert i < |out| - 1 ==> out[i].round <= out[|out| - 1].round;
  }

  lemma OrderCorrect(gc: nat, lr: nat, live: set<Header>, l: Header)
    requires UniqueRefs(live) && InWindow(gc, lr, l)
    ensures var out := SortByRound(Windowed(gc, lr, Dfs(live, [l], {})));
            && NoDup(out)
            && SortedByRound(out)
            && |out| > 0 && out[|out| - 1] == l
            && (forall x :: x in out <==> Reaches(live, l, x) && InWindow(gc, lr, x))
  {
    hide Dfs, SortByRound, Windowed, NoDup, SortedByRound, Reaches, UniqueRefs;
    var visit := Dfs(live, [l], {});
    var out := SortByRound(Windowed(gc, lr, visit));
    SelfReaches(live, l);
    DfsDistinct(live, [l], {}, l.round);
    SortedWindow(gc, lr, visit);
    forall x ensures x in out <==> Reaches(live, l, x) && InWindow(gc, lr, x) {
      DfsVisits(live, l, x);
    }
    LeaderLast(live, l, out);
  }

  /** The flattening of a leader is its live history inside the window: exactly the headers
      that uncommitted retained links lead to, each once, by rising round, the leader last. */
  lemma OrderDagCorrect(gc: nat, s: State, l: Header)
    requires Keyed(s.dag) && InWindow(gc, s.lastRound, l)
    ensures var out := OrderDag(gc, s, l);
            && NoDup(out)
            && SortedByRound(out)
            && |out| > 0 && out[|out| - 1] == l
            && (forall x :: x in out <==> Reaches(Live(s), l, x) && InWindow(gc, s.lastRound, x))
  {
    OrderCorrect(gc, s.lastRound, Live(s), l);
  }

  /** Minimality: any set that holds the leader and is closed under live parents contains it all. */
  lemma OrderDagLeast(gc: nat, s: State, l: Header, t: set<Header>)
    requires Keyed(s.dag) && InWindow(gc, s.lastRound, l)
    requires l in t && Closed(Live(s), t)
    ensures forall x :: x in OrderDag(gc, s, l) ==> x in t
  {
    OrderDagCorrect(gc, s, l);
    forall x | x in OrderDag(gc, s, l) ensures x in t {
      ClosedAncestors(Live(s), t, l, x);
    }
  }

  // ----- Two views of one history

  ghost predicate SameChild(gc: nat, lr: nat, live: set<Header>, ref: set<Header>, k: set<Header>, x: Header,
                            d: Digest) {
    var p, q := Child(live, x, d), Child(ref, x, d);
    && (q.Some? ==> q == p && q.value in k)
    && (p.Some? && InWindow(gc, lr, p.value) ==> q == p)
  }

  /** `live` and `ref` lead from the in-window headers of `k` to the same in-window children. */
  ghost predicate SameChildren(gc: nat, lr: nat, live: set<Header>, ref: set<Header>, k: set<Header>) {
    && (forall q :: q in ref ==> InWindow(gc, lr, q))
    && (forall x, d :: x in k && InWindow(gc, lr, x) && d in x.parents ==> SameChild(gc, lr, live, ref, k, x, d))
  }

  ghost predicate SameSeen(ref: set<Header>, seen: set<Digest>, seen': set<Digest>) {
    forall q :: q in ref ==> (q.Ref() in seen <==> q.Ref() in seen')
  }

  lemma WindowedCons(gc: nat, lr: nat, x: Header, s: seq<Header>)
    ensures Windowed(gc, lr, [x] + s) == (if InWindow(gc, lr, x) then [x] else []) + Windowed(gc, lr, s)
  {
    assert ([x] + s)[1..] == s;
  }

  lemma {:induction false} WindowedConcat(gc: nat, lr: nat, a: seq<Header>, b: seq<Header>)
    ensures Windowed(gc, lr, a + b) == Windowed(gc, lr, a) + Windowed(gc, lr, b)
  {
    if a == [] {
      assert a + b == b;
    } else {
      hide Windowed;
      WindowedConcat(gc, lr, a[1..], b);
      WindowedCons(gc, lr, a[0], a[1..]);
      WindowedCons(gc, lr, a[0], a[1..] + b);
      assert a == [a[0]] + a[1..];
      assert a + b == [a[0]] + (a[1..] + b);
    }
  }

  lemma {:induction false} PushedSame(gc: nat, lr: nat, live: set<Header>, ref: set<Header>, k: set<Header>,
                                      x: Header, ps: seq<Digest>, seen: set<Digest>, seen': set<Digest>)
    requires forall q :: q in ref ==> InWindow(gc, lr, q)
    requires forall d :: d in ps ==> SameChild(gc, lr, live, ref, k, x, d)
    requires SameSeen(ref, seen, seen')
    ensures Windowed(gc, lr, Pushed(live, x, ps, seen)) == Pushed(ref, x, ps, seen')
    ensures forall q :: q in Pushed(ref, x, ps, seen') ==> q in k
    decreases |ps|
  {
    if ps != [] {
      var d := ps[0];
      assert SameChild(gc, lr, live, ref, k, x, d);
      assert forall e :: e in ps[1..] ==> e in ps;
      var p := Child(live, x, d);
      PushedSame(gc, lr, live, ref, k, x, ps[1..], seen, seen');
      if p.Some? && d !in seen {
        if InWindow(gc, lr, p.value) {
          PushedSame(gc, lr, live, ref, k, x, ps[1..], seen + {d}, seen' + {d});
        } else {
          assert forall q :: q in ref ==> q.Ref() != d by {
            assert d == CertHash(p.value.id, p.value.round, p.value.author);
          }
          PushedSame(gc, lr, live, ref, k, x, ps[1..], seen + {d}, seen');
        }
        assert Pushed(live, x, ps, seen)[1..] == Pushed(live, x, ps[1..], seen + {d});
      }
    }
  }

  lemma {:induction false} WindowedNone(gc: nat, lr: nat, s: seq<Header>)
    requires forall x :: x in s ==> !InWindow(gc, lr, x)
    ensures Windowed(gc, lr, s) == []
  {
    if s != [] {
      WindowedNone(gc, lr, s[1..]);
    }
  }

  lemma {:induction false} WindowedMembers(gc: nat, lr: nat, s: seq<Header>)
    ensures forall x :: x in Windowed(gc, lr, s) <==> x in s && InWindow(gc, lr, x)
  {
    if s != [] {
      WindowedMembers(gc, lr, s[1..]);
    }
  }

  /** Marking the pushed headers as seen keeps the two seen sets in step. */
  lemma SameSeenAfter(gc: nat, lr: nat, ref: set<Header>, kids: seq<Header>, seen: set<Digest>, seen': set<Digest>)
    requires SameSeen(ref, seen, seen')
    requires forall q :: q in ref ==> InWindow(gc, lr, q)
    ensures SameSeen(ref, seen + Refs(kids), seen' + Refs(Windowed(gc, lr, kids)))
  {
    WindowedMembers(gc, lr, kids);
    forall q | q in ref && q.Ref() in Refs(kids) ensures q.Ref() in Refs(Windowed(gc, lr, kids)) {
      var k :| k in kids && k.Ref() == q.Ref();
      assert k in Windowed(gc, lr, kids);
    }
  }

  lemma DfsSamePop(gc: nat, lr: nat, live: set<Header>, ref: set<Header>,
                   low: seq<Header>, x: Header, seen: set<Digest>, seen': set<Digest>)
    requires var kids := Pushed(live, x, x.parents, seen);
             var kids' := Windowed(gc, lr, kids);
             && (InWindow(gc, lr, x) ==> kids' == Pushed(ref, x, x.parents, seen'))
             && (!InWindow(gc, lr, x) ==> kids' == [])
             && Windowed(gc, lr, Dfs(live, low + kids, seen + Refs(kids)))
                == Dfs(ref, Windowed(gc, lr, low + kids), seen' + Refs(kids'))
    ensures Windowed(gc, lr, Dfs(live, low + [x], seen)) == Dfs(ref, Windowed(gc, lr, low + [x]), seen')
  {
    var kids := Pushed(live, x, x.parents, seen);
    var rest := Dfs(live, low + kids, seen + Refs(kids));
    WindowedConcat(gc, lr, low, [x]);
    WindowedConcat(gc, lr, low, kids);
    WindowedConcat(gc, lr, [x], rest);
    DfsPop(live, low, x, seen);
    if InWindow(gc, lr, x) {
      DfsPop(ref, Windowed(gc, lr, low), x, seen');
      assert Windowed(gc, lr, [x]) == [x];
    } else {
      assert Windowed(gc, lr, [x]) == [];
      assert seen' + Refs([]) == seen';
    }
  }

  /** Inside the window a search over `live` visits what a search over `ref` visits, in the
      same order, whatever `live` holds below the window. */
  lemma {:induction false} DfsSame(gc: nat, lr: nat, live: set<Header>, ref: set<Header>, k: set<Header>,
                                   stack: seq<Header>, seen: set<Digest>, seen': set<Digest>)
    requires SameChildren(gc, lr, live, ref, k) && SameSeen(ref, seen, seen')
    requires forall x :: x in stack && InWindow(gc, lr, x) ==> x in k
    ensures Windowed(gc, lr, Dfs(live, stack, seen)) == Dfs(ref, Windowed(gc, lr, stack), seen')
    decreases |Unseen(live, seen)|, |stack|
  {
    if stack != [] {
      var x, low := stack[|stack| - 1], stack[..|stack| - 1];
      assert stack == low + [x];
      var kids := Pushed(live, x, x.parents, seen);
      var kids' := Windowed(gc, lr, kids);
      PushedShrinks(live, x, seen);
      SameSeenAfter(gc, lr, ref, kids, seen, seen');
      if InWindow(gc, lr, x) {
        PushedSame(gc, lr, live, ref, k, x, x.parents, seen, seen');
      } else {
        WindowedNone(gc, lr, kids);
      }
      WindowedMembers(gc, lr, kids);
      assert forall z :: z in low + kids && InWindow(gc, lr, z) ==> z in k by {
        assert forall z :: z in low ==> z in stack;
      }
      DfsSame(gc, lr, live, ref, k, low + kids, seen + Refs(kids), seen' + Refs(kids'));
      DfsSamePop(gc, lr, live, ref, low, x, seen, seen');
    }
  }
}
