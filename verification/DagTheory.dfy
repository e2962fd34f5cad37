/** The global DAG of certified headers: paths, the inevitability of a supported leader,
    and the backward chain of leaders that every replica walks. */
module DagTheory {
  import opened Types

  ghost predicate GoodParent(g: set<Header>, h: Header, d: Digest) {
    && d.CertHash?
    && d.round + 1 == h.round
    && (d.round >= 1 ==> exists p :: p in g && p.Ref() == d)
  }

  /** What the certification layer guarantees of one certified header of round 1 or later.
      Parents of round 0 are genesis digests and have no entry in `g`. */
  ghost predicate GoodHeader(c: Committee, g: set<Header>, h: Header) {
    && h.WellId()
    && h.round >= 1
    && h.author in c.names
    && (forall d :: d in h.parents ==> GoodParent(g, h, d))
    && c.Weight(Origins(h.parents)) >= c.QuorumThreshold()
  }

  predicate SameSlot(h: Header, k: Header) {
    h.round == k.round && h.author == k.author
  }

  /** A well-formed, non-equivocating DAG. (The triggers keep the verifier from unfolding
      the whole DAG wherever one of its headers is mentioned.) */
  ghost predicate WellFormed(c: Committee, g: set<Header>) {
    && c.Valid()
    && (forall h {:trigger GoodHeader(c, g, h)} :: h in g ==> GoodHeader(c, g, h))
    && (forall h, k {:trigger SameSlot(h, k)} :: h in g && k in g && SameSlot(h, k) ==> h == k)
  }

  /** `p` is a parent of `h`, one round below. */
  predicate Parent(h: Header, p: Header) {
    p.round + 1 == h.round && p.Ref() in h.parents
  }

  /** There is a path of parent links from `a` to `b`, all of whose nodes after `a` lie in `g`. */
  ghost predicate Reaches(g: set<Header>, a: Header, b: Header)
    decreases a.round
  {
    a == b || exists p :: p in g && Parent(a, p) && Reaches(g, p, b)
  }

  lemma SelfReaches(g: set<Header>, l: Header)
    ensures Reaches(g, l, l)
  {}

  lemma ReachesDown(g: set<Header>, a: Header, b: Header)
    requires Reaches(g, a, b)
    ensures b.round <= a.round
    ensures b.round == a.round ==> a == b
    ensures b == a || b in g
    decreases a.round
  {
    if a != b {
      var p :| p in g && Parent(a, p) && Reaches(g, p, b);
      ReachesDown(g, p, b);
    }
  }

  /** A path may be prolonged at its end. */
  lemma {:induction false} ReachesThen(g: set<Header>, a: Header, y: Header, x: Header)
    requires Reaches(g, a, y) && x in g && Parent(y, x)
    ensures Reaches(g, a, x)
    decreases a.round
  {
    if a != y {
      var p :| p in g && Parent(a, p) && Reaches(g, p, y);
      ReachesThen(g, p, y, x);
    } else {
      assert Reaches(g, x, x);
    }
  }

  /** The last link of a path. */
  lemma {:induction false} ReachesLast(g: set<Header>, a: Header, x: Header) returns (y: Header)
    requires Reaches(g, a, x) && a != x
    ensures Reaches(g, a, y) && Parent(y, x) && x in g && (y == a || y in g)
    decreases a.round
  {
    var p :| p in g && Parent(a, p) && Reaches(g, p, x);
    if p == x {
      y := a;
    } else {
      y := ReachesLast(g, p, x);
    }
  }

  lemma {:induction false} ReachesTrans(g: set<Header>, a: Header, b: Header, x: Header)
    requires Reaches(g, a, b) && Reaches(g, b, x)
    ensures Reaches(g, a, x)
    decreases a.round
  {
    if a != b {
      var p :| p in g && Parent(a, p) && Reaches(g, p, b);
      ReachesTrans(g, p, b, x);
    }
  }

  /** `r` holds, with every header, all of its ancestors in `g`. */
  ghost predicate Closed(g: set<Header>, r: set<Header>) {
    forall h, p {:trigger Parent(h, p)} :: h in r && p in g && Parent(h, p) ==> p in r
  }

  lemma {:induction false} ClosedAncestors(g: set<Header>, r: set<Header>, a: Header, b: Header)
    requires Closed(g, r) && a in r && Reaches(g, a, b)
    ensures b in r
    decreases a.round
  {
    if a != b {
      var p :| p in g && Parent(a, p) && Reaches(g, p, b);
      ClosedAncestors(g, r, p, b);
    }
  }

  /** A part of the DAG that keeps everything of a closed set above round `m` sees exactly
      the paths of the whole DAG that end above `m`. */
  lemma {:induction false} ReachesLocally(g: set<Header>, r: set<Header>, part: set<Header>, m: int, a: Header,
                                          b: Header)
    requires Closed(g, r) && r <= g && a in r && b.round > m
    requires forall h :: h in r && h.round > m ==> h in part
    requires forall h :: h in part && h.round > m ==> h in g
    ensures Reaches(g, a, b) <==> Reaches(part, a, b)
    decreases a.round
  {
    if a != b {
      if Reaches(g, a, b) {
        var p :| p in g && Parent(a, p) && Reaches(g, p, b);
        ReachesDown(g, p, b);
        ReachesLocally(g, r, part, m, p, b);
      }
      if Reaches(part, a, b) {
        var p :| p in part && Parent(a, p) && Reaches(part, p, b);
        ReachesDown(part, p, b);
        ReachesLocally(g, r, part, m, p, b);
      }
    }
  }

  /** The keys of the headers one round above `l` that name `l` as a parent. */
  ghost function Supporters(g: set<Header>, l: Header): set<Key> {
    set h | h in g && Parent(h, l) :: h.author
  }

  ghost predicate Supported(c: Committee, g: set<Header>, l: Header) {
    l in g && c.Weight(Supporters(g, l)) >= c.ValidityThreshold()
  }

  lemma AnyParent(c: Committee, g: set<Header>, h: Header) returns (p: Header)
    requires WellFormed(c, g) && h in g && h.round >= 2
    ensures p in g && Parent(h, p)
  {
    assert GoodHeader(c, g, h);
    c.QuorumNotEmpty(Origins(h.parents));
    var k :| k in Origins(h.parents);
    var d :| d in h.parents && d.CertHash? && d.origin == k;
    assert GoodParent(g, h, d);
    p :| p in g && p.Ref() == d;
  }

  /** Every round below that of a header holds one of its ancestors. */
  lemma {:induction false} AncestorAt(c: Committee, g: set<Header>, h: Header, r: nat) returns (p: Header)
    requires WellFormed(c, g) && h in g && 1 <= r <= h.round
    ensures p in g && p.round == r && Reaches(g, h, p)
    decreases h.round
  {
    if r == h.round {
      p := h;
    } else {
      var q := AnyParent(c, g, h);
      p := AncestorAt(c, g, q, r);
    }
  }

  /** Inevitability: once f+1 of the stake of the next round names a header as parent, every
      header two or more rounds above it, anywhere in the DAG, has a path to it. */
  lemma {:induction false} Inevitable(c: Committee, g: set<Header>, l: Header, h: Header)
    requires WellFormed(c, g) && Supported(c, g, l)
    requires h in g && h.round >= l.round + 2
    ensures Reaches(g, h, l)
    decreases h.round
  {
    if h.round > l.round + 2 {
      var p := AnyParent(c, g, h);
      Inevitable(c, g, l, p);
    } else {
      assert GoodHeader(c, g, h) && GoodHeader(c, g, l);
      c.QuorumMeetsValidity(Origins(h.parents), Supporters(g, l));
      var k :| k in Origins(h.parents) * Supporters(g, l);
      var d :| d in h.parents && d.CertHash? && d.origin == k;
      assert GoodParent(g, h, d);
      var p :| p in g && p.Ref() == d;
      var s :| s in g && Parent(s, l) && s.author == k;
      assert SameSlot(p, s);
      assert Reaches(g, l, l);
      assert Reaches(g, p, l);
    }
  }

  /** `p` is the certified header of the leader of round `r`. */
  ghost predicate IsLeader(who: Election, g: set<Header>, p: Header, r: int)
  {
    p in g && p.round == r && p.author == who(p.round)
  }

  /** The leader of round `r`, if `cur` has a path to its header. */
  ghost function LinkedLeader(who: Election, g: set<Header>, cur: Header, r: int): (o: Option<Header>)
    ensures o.Some? ==> IsLeader(who, g, o.value, r) && Reaches(g, cur, o.value)
    ensures o.None? ==> forall p :: IsLeader(who, g, p, r) ==> !Reaches(g, cur, p)
  {
    if p :| IsLeader(who, g, p, r) && Reaches(g, cur, p) then Some(p) else None
  }

  /** The canonical backward chain: from `cur`, the leaders at rounds `r`, `r - 2`, ... above
      `floor`, each reachable from the one taken before it. */
  ghost function Chain(who: Election, g: set<Header>, cur: Header, r: int, floor: nat): seq<Header>
    decreases r
  {
    if r < floor + 2 then []
    else match LinkedLeader(who, g, cur, r)
      case Some(p) => [p] + Chain(who, g, p, r - 2, floor)
      case None => Chain(who, g, cur, r - 2, floor)
  }

  /** The whole chain of a leader, down to round 2. */
  ghost function FullChain(who: Election, g: set<Header>, l: Header): seq<Header>
  {
    [l] + Chain(who, g, l, l.round - 2, 0)
  }

  /** Every walk that comes from two or more rounds above `l` takes `l` when it gets there. */
  ghost predicate Inescapable(who: Election, g: set<Header>, l: Header) {
    forall cur {:trigger LinkedLeader(who, g, cur, l.round)} ::
      cur in g && cur.round >= l.round + 2 ==> LinkedLeader(who, g, cur, l.round) == Some(l)
  }

  lemma SupportedIsInescapable(c: Committee, who: Election, g: set<Header>, l: Header)
    requires WellFormed(c, g) && Supported(c, g, l) && IsLeader(who, g, l, l.round)
    ensures Inescapable(who, g, l)
  {
    forall cur | cur in g && cur.round >= l.round + 2
      ensures LinkedLeader(who, g, cur, l.round) == Some(l)
    {
      Inevitable(c, g, l, cur);
      assert IsLeader(who, g, l, l.round);
      assert SameSlot(LinkedLeader(who, g, cur, l.round).value, l);
    }
  }

  lemma ChainStep(who: Election, g: set<Header>, cur: Header, r: int, floor: nat)
    ensures r < floor + 2 ==> Chain(who, g, cur, r, floor) == []
    ensures r >= floor + 2 ==>
      Chain(who, g, cur, r, floor) ==
        match LinkedLeader(who, g, cur, r)
        case Some(p) => [p] + Chain(who, g, p, r - 2, floor)
        case None => Chain(who, g, cur, r - 2, floor)
  {}

  /** Chain composition: a walk that passes a supported leader continues from there exactly
      as that leader's own chain, wherever the walk is split. */
  lemma {:induction false} ChainSplits(who: Election, g: set<Header>, l: Header, cur: Header, k: nat)
    requires Inescapable(who, g, l) && l.round >= 2
    requires cur in g && cur.round >= l.round + 2 * k + 2
    ensures Chain(who, g, cur, l.round + 2 * k, 0)
         == Chain(who, g, cur, l.round + 2 * k, l.round) + FullChain(who, g, l)
    decreases k
  {
    hide LinkedLeader, Chain;
    var r := l.round + 2 * k;
    ChainStep(who, g, cur, r, 0);
    ChainStep(who, g, cur, r, l.round);
    if k > 0 {
      match LinkedLeader(who, g, cur, r) {
        case Some(p) => ChainSplits(who, g, l, p, k - 1);
        case None => ChainSplits(who, g, l, cur, k - 1);
      }
    }
  }

  lemma StepsBetween(low: nat, high: nat) returns (k: nat)
    requires low % 2 == 0 && high % 2 == 0 && low < high
    ensures high - 2 == low + 2 * k
  {
    k := (high - 2 - low) / 2;
  }

  /** The whole chain of a later leader ends in the whole chain of an inescapable one. */
  lemma FullChainSplits(who: Election, g: set<Header>, a: Header, b: Header)
    requires Inescapable(who, g, a) && a.round >= 2 && a.round % 2 == 0
    requires b in g && b.round > a.round && b.round % 2 == 0
    ensures FullChain(who, g, b) == [b] + Chain(who, g, b, b.round - 2, a.round) + FullChain(who, g, a)
  {
    hide LinkedLeader;
    var k := StepsBetween(a.round, b.round);
    ChainSplits(who, g, a, b, k);
  }

  ghost predicate ChainMember(who: Election, g: set<Header>, cur: Header, r: int, floor: nat, h: Header)
  {
    && IsLeader(who, g, h, h.round)
    && floor + 2 <= h.round <= r
    && h.round % 2 == 0
    && Reaches(g, cur, h)
  }

  ghost predicate ChainShape(who: Election, g: set<Header>, cur: Header, r: int, floor: nat, s: seq<Header>)
  {
    && (forall h :: h in s ==> ChainMember(who, g, cur, r, floor, h))
    && (forall i, j :: 0 <= i < j < |s| ==> s[i].round > s[j].round)
  }

  /** The members of a chain are leaders, at falling rounds between the floor and `r`, each
      reachable from the header the walk started at. */
  lemma {:induction false} ChainMembers(who: Election, g: set<Header>, cur: Header, r: int, floor: nat)
    requires r % 2 == 0
    ensures ChainShape(who, g, cur, r, floor, Chain(who, g, cur, r, floor))
    decreases r
  {
    hide LinkedLeader;
    if r >= floor + 2 {
      match LinkedLeader(who, g, cur, r) {
        case Some(p) =>
          var rest := Chain(who, g, p, r - 2, floor);
          ChainMembers(who, g, p, r - 2, floor);
          forall h | h in rest ensures ChainMember(who, g, cur, r, floor, h) {
            assert ChainMember(who, g, p, r - 2, floor, h);
            ReachesTrans(g, cur, p, h);
          }
          assert forall k :: 0 <= k < |rest| ==> ChainMember(who, g, p, r - 2, floor, rest[k]);
        case None =>
          var rest := Chain(who, g, cur, r - 2, floor);
          ChainMembers(who, g, cur, r - 2, floor);
          forall h | h in rest ensures ChainMember(who, g, cur, r, floor, h) {
            assert ChainMember(who, g, cur, r - 2, floor, h);
          }
      }
    }
  }
}
