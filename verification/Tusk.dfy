/** The ordering engine as it runs: a mutable state that certificates are fed to. Every
    method is tied to the functions of `Ordering`. */
module Tusk {
  import opened Types
  import opened Ordering
  import Agreement

  lemma ElectedRound(c: Committee, who: Election, s: State, h: Header, selected: bool)
    requires Keyed(s.dag)
    ensures var o := Elect(c, who, s, h, selected);
            o.Some? && o.value.Some? ==> o.value.value.round >= 2
  {}

  lemma {:induction false} PanicStays(c: Committee, who: Election, gc: nat, ds: seq<Agreement.Delivery>, i: nat)
    requires i <= |ds| && Agreement.Run(c, who, gc, ds[..i]).None?
    ensures Agreement.Run(c, who, gc, ds).None?
    decreases |ds|
  {
    hide Agreement.Next;
    if i < |ds| {
      assert ds[..|ds| - 1][..i] == ds[..i];
      PanicStays(c, who, gc, ds[..|ds| - 1], i);
    } else {
      assert ds[..i] == ds;
    }
  }

  /** Committing `all` from `start` comes to having output `out`, with `rest` to go from `s`. */
  ghost predicate CommitsTo(gc: nat, start: State, all: seq<Header>, s: State, rest: seq<Header>, out: seq<Header>) {
    && CommitAll(gc, start, all).0 == CommitAll(gc, s, rest).0
    && CommitAll(gc, start, all).1 == out + CommitAll(gc, s, rest).1
  }

  /** One parent digest more: it pushes the child it leads to, if that is not yet seen. */
  lemma PushesOneMore(live: set<Header>, x: Header, ps: seq<Digest>, i: nat, seen: set<Digest>)
    requires i < |ps|
    ensures Pushed(live, x, ps[i..], seen) ==
      match Child(live, x, ps[i])
      case Some(p) =>
        if ps[i] in seen then Pushed(live, x, ps[i + 1..], seen)
        else [p] + Pushed(live, x, ps[i + 1..], seen + {ps[i]})
      case None => Pushed(live, x, ps[i + 1..], seen)
  {
    assert ps[i..][1..] == ps[i + 1..];
  }

  lemma PushesNothing(live: set<Header>, x: Header, seen: set<Digest>)
    ensures Pushed(live, x, [], seen) == []
  {}

  ghost predicate IsTop(lc: map<Key, nat>, top: nat) {
    && (exists a :: a in lc && lc[a] == top)
    && (forall a :: a in lc ==> lc[a] <= top)
  }

  method GreatestRound(lc: map<Key, nat>) returns (top: nat)
    requires lc != map[]
    ensures IsTop(lc, top)
  {
    var first :| first in lc;
    top := lc[first];
    var todo := lc.Keys;
    while todo != {}
      invariant todo <= lc.Keys
      invariant exists a :: a in lc && lc[a] == top
      invariant forall a :: a in lc && a !in todo ==> lc[a] <= top
      decreases |todo|
    {
      var a :| a in todo;
      top := Max(top, lc[a]);
      todo := todo - {a};
    }
  }

  lemma TopAfterRaise(lc: map<Key, nat>, last: nat, h: Header, top: nat)
    requires IsTop(lc, last) && IsTop(Raise(lc, h), top)
    ensures top == Max(last, h.round)
  {
    var lc' := Raise(lc, h);
    var a :| a in lc && lc[a] == last;
    assert lc'[a] >= last && lc'[h.author] >= h.round;
    var b :| b in lc' && lc'[b] == top;
  }

  function Without(name: Key, round: nat, r: nat, row: map<Key, Header>): map<Key, Header> {
    map n | n in row && (n != name || r >= round) :: row[n]
  }

  /** One pass of the cleanup: what the nested `retain`s do for one author. */
  function PruneName(gc: nat, name: Key, round: nat, lastRound: nat, dag: Dag): Dag {
    map r | r in dag && r + gc >= lastRound && Without(name, round, r, dag[r]) != map[] ::
      Without(name, round, r, dag[r])
  }

  function OnlyFor(lc: map<Key, nat>, names: set<Key>): map<Key, nat> {
    map a | a in lc && a in names :: lc[a]
  }

  lemma OnlyForAll(lc: map<Key, nat>, names: set<Key>)
    requires lc.Keys <= names
    ensures OnlyFor(lc, names) == lc
  {}

  /** The passes compose: pruning for one more author keeps the filter form. */
  lemma PruneOneMore(gc: nat, lc: map<Key, nat>, done: set<Key>, name: Key, top: nat, dag0: Dag)
    requires name in lc && name !in done
    ensures var dag := if done == {} then dag0 else Prune(gc, OnlyFor(lc, done), top, dag0);
            PruneName(gc, name, lc[name], top, dag) == Prune(gc, OnlyFor(lc, done + {name}), top, dag0)
  {
    var dag := if done == {} then dag0 else Prune(gc, OnlyFor(lc, done), top, dag0);
    var both := OnlyFor(lc, done + {name});
    forall r | r in dag0 && r + gc >= top
      ensures r in dag ==> Without(name, lc[name], r, dag[r]) == Kept(both, r, dag0[r])
      ensures r !in dag ==> Kept(both, r, dag0[r]) == map[]
    {
      if r !in dag {
        forall n | n in Kept(both, r, dag0[r]) ensures n in Kept(OnlyFor(lc, done), r, dag0[r]) {}
      }
    }
  }

  class Consensus {
    const committee: Committee
    const gcDepth: nat
    var lastCommittedRound: nat
    var lastCommitted: map<Key, nat>
    var dag: Dag

    ghost function Value(): State
      reads this
    {
      State(lastCommittedRound, lastCommitted, dag)
    }

    /** The last committed round is the greatest of the per-author ones. */
    ghost predicate Valid()
      reads this
    {
      && committee.Valid()
      && Keyed(dag)
      && IsTop(lastCommitted, lastCommittedRound)
    }

    constructor (c: Committee, gc: nat)
      requires c.Valid()
      ensures Valid() && committee == c && gcDepth == gc
      ensures Value() == InitialState(c)
    {
      committee, gcDepth := c, gc;
      lastCommittedRound := 0;
      lastCommitted := map a | a in c.names :: 0;
      dag := map[0 := map a | a in c.names :: Genesis(a)];
      new;
      assert c.names[0] in lastCommitted;
    }

    /** The stake of the authors in `row` whose certificate names `d` as a parent. */
    method SupportStake(row: map<Key, Header>, d: Digest) returns (stake: nat)
      requires committee.Valid()
      ensures stake == committee.Weight(Backers(row, d))
    {
      stake := 0;
      var todo := row.Keys;
      ghost var seen: set<Key> := {};
      committee.WeightEmptyIn(committee.names);
      while todo != {}
        invariant todo <= row.Keys && seen == set a | a in row && a !in todo && d in row[a].parents
        invariant stake == committee.Weight(seen)
        decreases |todo|
      {
        var a :| a in todo;
        if d in row[a].parents {
          committee.WeightInsert(seen, a);
          stake := stake + committee.Stake(a);
          seen := seen + {a};
        }
        todo := todo - {a};
      }
      assert seen == Backers(row, d);
    }

    /** The leader, if any, that the arrival of `h` commits directly; `None` is a panic.
        `selected` is the direct-commit verdict for the leader round. */
    method Elect(h: Header, selected: bool) returns (elected: Option<Option<Header>>)
      requires Valid()
      ensures elected == Ordering.Elect(committee, committee.LeaderKey, Value(), h, selected)
    {
      // The round below, wrapping around at round 0.
      var r := if h.round == 0 then 0xFFFF_FFFF_FFFF_FFFF else h.round - 1;
      if r % 2 != 0 || r < 4 {
        return Some(None);
      }
      var leaderRound := r - 2;
      if leaderRound <= lastCommittedRound || !selected {
        return Some(None);
      }
      var leader := LeaderAt(committee.LeaderKey, dag, leaderRound);
      if leader.None? {
        return Some(None);
      }
      if r - 1 !in dag {
        return None;
      }
      var stake := SupportStake(dag[r - 1], leader.value.Ref());
      if stake < committee.ValidityThreshold() {
        return Some(None);
      }
      return Some(leader);
    }

    /** Drop what is committed past or out of the window, one author after the other. */
    method CleanUp()
      requires lastCommitted != map[]
      modifies this`dag
      ensures dag == Prune(gcDepth, lastCommitted, lastCommittedRound, old(dag))
    {
      hide Prune, PruneName, OnlyFor;
      var todo := lastCommitted.Keys;
      ghost var done: set<Key> := {};
      ghost var dag0 := dag;
      while todo != {}
        invariant todo <= lastCommitted.Keys && done == lastCommitted.Keys - todo
        invariant done == {} ==> dag == dag0
        invariant done != {} ==> dag == Prune(gcDepth, OnlyFor(lastCommitted, done), lastCommittedRound, dag0)
        decreases |todo|
      {
        var name :| name in todo;
        PruneOneMore(gcDepth, lastCommitted, done, name, lastCommittedRound, dag0);
        dag := PruneName(gcDepth, name, lastCommitted[name], lastCommittedRound, dag);
        todo, done := todo - {name}, done + {name};
        assert done == lastCommitted.Keys - todo;
      }
      OnlyForAll(lastCommitted, done);
    }

    /** Record one committed certificate and clean up. */
    method UpdateOne(h: Header)
      requires Valid()
      modifies this
      ensures Valid() && Value() == Ordering.Update(gcDepth, old(Value()), h)
    {
      lastCommitted := lastCommitted[h.author :=
        if h.author in lastCommitted then Max(lastCommitted[h.author], h.round) else h.round];
      assert h.author in lastCommitted;
      var top := GreatestRound(lastCommitted);
      TopAfterRaise(old(lastCommitted), old(lastCommittedRound), h, top);
      lastCommittedRound := top;
      CleanUp();
    }

    /** The committed certificates of one sub-DAG update the state one by one. */
    method UpdateAll(xs: seq<Header>)
      requires Valid()
      modifies this
      ensures Valid() && Value() == Updates(gcDepth, old(Value()), xs)
    {
      var i := 0;
      while i < |xs|
        invariant 0 <= i <= |xs|
        invariant Valid() && Updates(gcDepth, old(Value()), xs) == Updates(gcDepth, Value(), xs[i..])
      {
        UpdateOne(xs[i]);
        assert xs[i..][1..] == xs[i + 1..];
        i := i + 1;
      }
    }

    /** The entry one round below `x` with digest `d`, unless it is committed at its round. */
    method FindChild(x: Header, d: Digest) returns (found: Option<Header>)
      requires Valid()
      ensures found == Child(Live(Value()), x, d)
    {
      found := None;
      // At round 0 the round below wraps around to one that no certificate has.
      if x.round >= 1 && x.round - 1 in dag {
        var row := dag[x.round - 1];
        if a :| a in row && row[a].Ref() == d {
          if !Committed(lastCommitted, row[a]) {
            found := Some(row[a]);
          }
        }
      }
      ghost var live := Live(Value());
      forall p | p in live && p.Ref() == d && p.round + 1 == x.round ensures found == Some(p) {
        ContentsHas(dag, p);
      }
    }

    /** Push the uncommitted, not yet seen parents of `x`, in the order of its parent list. */
    method PushParents(x: Header, low: seq<Header>, seen: set<Digest>)
      returns (buffer: seq<Header>, alreadyOrdered: set<Digest>)
      requires Valid()
      ensures var kids := Pushed(Live(Value()), x, x.parents, seen);
              buffer == low + kids && alreadyOrdered == seen + Refs(kids)
    {
      hide Pushed, Live;
      ghost var live, kids := Live(Value()), [];
      buffer, alreadyOrdered := low, seen;
      assert x.parents[0..] == x.parents;
      var i := 0;
      while i < |x.parents|
        invariant 0 <= i <= |x.parents|
        invariant buffer == low + kids && alreadyOrdered == seen + Refs(kids)
        invariant Pushed(live, x, x.parents, seen) == kids + Pushed(live, x, x.parents[i..], alreadyOrdered)
      {
        var d := x.parents[i];
        var found := FindChild(x, d);
        PushesOneMore(live, x, x.parents, i, alreadyOrdered);
        if found.Some? && d !in alreadyOrdered {
          ghost var rest := Pushed(live, x, x.parents[i + 1..], alreadyOrdered + {d});
          assert kids + ([found.value] + rest) == kids + [found.value] + rest;
          buffer := buffer + [found.value];
          alreadyOrdered := alreadyOrdered + {d};
          kids := kids + [found.value];
        }
        i := i + 1;
      }
      assert x.parents[i..] == [];
      PushesNothing(live, x, alreadyOrdered);
    }

    /** Flatten the sub-DAG of a leader. */
    method OrderDag(leader: Header) returns (ordered: seq<Header>)
      requires Valid()
      ensures ordered == Ordering.OrderDag(gcDepth, Value(), leader)
    {
      ghost var live := Live(Value());
      ordered := [];
      var buffer, alreadyOrdered := [leader], {};
      while buffer != []
        invariant Dfs(live, [leader], {}) == ordered + Dfs(live, buffer, alreadyOrdered)
        decreases |Unseen(live, alreadyOrdered)|, |buffer|
      {
        var x, low := buffer[|buffer| - 1], buffer[..|buffer| - 1];
        ghost var seen := alreadyOrdered;
        ghost var kids := Pushed(live, x, x.parents, seen);
        PushedShrinks(live, x, seen);
        assert ordered + ([x] + Dfs(live, low + kids, seen + Refs(kids)))
            == ordered + [x] + Dfs(live, low + kids, seen + Refs(kids));
        ordered := ordered + [x];
        buffer, alreadyOrdered := PushParents(x, low, alreadyOrdered);
      }
      assert ordered + [] == ordered;
      ordered := Windowed(gcDepth, lastCommittedRound, ordered);
      ordered := SortByRound(ordered);
    }

    /** Commit leaders oldest first, each with its sub-DAG. */
    method CommitLeaders(leaders: seq<Header>) returns (sequence: seq<Header>)
      requires Valid()
      modifies this
      ensures Valid() && CommitAll(gcDepth, old(Value()), leaders) == (Value(), sequence)
    {
      sequence := [];
      var i := 0;
      while i < |leaders|
        invariant 0 <= i <= |leaders|
        invariant Valid()
        invariant CommitsTo(gcDepth, old(Value()), leaders, Value(), leaders[i..], sequence)
      {
        ghost var s := Value();
        var sub := OrderDag(leaders[i]);
        UpdateAll(sub);
        sequence := sequence + sub;
        i := i + 1;
      }
      assert leaders[i..] == [];
      assert sequence + [] == sequence;
    }

    /** Whether a path of parent links leads from `leader` to `prev`. */
    method Linked(leader: Header, prev: Header) returns (linked: Option<bool>)
      ensures linked == Ordering.Linked(dag, leader, prev)
    {
      var parents := {leader};
      var r: nat := leader.round;
      while r > prev.round
        invariant Walk(dag, {leader}, leader.round, prev.round) == Walk(dag, parents, r, prev.round)
      {
        r := r - 1;
        if r !in dag {
          return None;
        }
        parents := Named(dag[r], parents);
      }
      return Some(exists x :: x in parents && x.Ref() == prev.Ref());
    }

    /** The leader and the earlier leaders to commit, newest first. */
    method OrderLeaders(leader: Header) returns (toCommit: Option<seq<Header>>)
      requires leader.round >= 2
      ensures toCommit == Ordering.OrderLeaders(committee.LeaderKey, Value(), leader)
    {
      var list, cur := [leader], leader;
      var r: int := leader.round - 2;
      while r >= lastCommittedRound + 2
        invariant r >= lastCommittedRound || r == leader.round - 2
        invariant Ordering.OrderLeaders(committee.LeaderKey, Value(), leader)
               == match Fallbacks(committee.LeaderKey, dag, cur, r, lastCommittedRound)
                  case None => None
                  case Some(rest) => Some(list + rest)
        decreases r
      {
        var prev := LeaderAt(committee.LeaderKey, dag, r);
        if prev.Some? {
          var linked := Linked(cur, prev.value);
          if linked.None? {
            return None;
          }
          if linked.value {
            ghost var rest := Fallbacks(committee.LeaderKey, dag, prev.value, r - 2, lastCommittedRound);
            assert rest.Some? ==> list + ([prev.value] + rest.value) == list + [prev.value] + rest.value;
            list := list + [prev.value];
            cur := prev.value;
          }
        }
        r := r - 2;
      }
      assert list + [] == list;
      return Some(list);
    }

    /** Feed one certificate. `None` is a panic; otherwise the certificates committed now, in
        output order, and their leaders. */
    method Deliver(h: Header, selected: bool) returns (out: Option<seq<Header>>, leaders: seq<Header>)
      requires Valid()
      modifies this
      ensures out.None? <==> Step(committee, committee.LeaderKey, gcDepth, old(Value()), h, selected).None?
      ensures out.Some? ==>
        Valid() && Step(committee, committee.LeaderKey, gcDepth, old(Value()), h, selected)
          == Some(Effect(Value(), leaders, out.value))
    {
      hide Ordering.Elect, Ordering.OrderLeaders, CommitAll;
      var row := if h.round in dag then dag[h.round] else map[];
      dag := dag[h.round := row[h.author := h]];
      out, leaders := Some([]), [];
      var elected := Elect(h, selected);
      if elected.None? {
        out := None;
        return;
      }
      if elected.value.None? {
        return;
      }
      ElectedRound(committee, committee.LeaderKey, Value(), h, selected);
      var toCommit := OrderLeaders(elected.value.value);
      if toCommit.None? {
        out := None;
        return;
      }
      leaders := Reverse(toCommit.value);
      var sequence := CommitLeaders(leaders);
      out := Some(sequence);
    }

    /** The task over the certificates it is fed. `alive` is false after a panic. */
    method Loop(ds: seq<Agreement.Delivery>) returns (alive: bool, leaders: seq<Header>, out: seq<Header>)
      requires Valid() && Value() == InitialState(committee)
      modifies this
      ensures alive <==> Agreement.Run(committee, committee.LeaderKey, gcDepth, ds).Some?
      ensures alive ==>
        Valid() && Agreement.Run(committee, committee.LeaderKey, gcDepth, ds)
          == Some(Agreement.Node(Value(), leaders, out))
    {
      hide Step;
      leaders, out := [], [];
      for i := 0 to |ds|
        invariant Valid()
        invariant Agreement.Run(committee, committee.LeaderKey, gcDepth, ds[..i])
            == Some(Agreement.Node(Value(), leaders, out))
      {
        assert ds[..i + 1][..i] == ds[..i];
        var committed, led := Deliver(ds[i].h, ds[i].selected);
        if committed.None? {
          PanicStays(committee, committee.LeaderKey, gcDepth, ds, i + 1);
          return false, leaders, out;
        }
        leaders, out := leaders + led, out + committed.value;
      }
      assert ds[..|ds|] == ds;
      return true, leaders, out;
    }
  }
}
