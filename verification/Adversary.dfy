/** The scheduled adversary: which authorities stay silent in a round, and in which leader
    rounds the leader may be committed directly. */
module Adversary {
  import opened Types
  import opened Ranking

  /** The hash of an authority, a round and a domain under one seed. */
  type Score = (Key, nat, nat) -> nat

  function LeaderOf(authorities: seq<Key>, round: nat): Key
    requires authorities != []
  {
    authorities[round % |authorities|]
  }

  function Scored(score: Score, round: nat, keys: seq<Key>): seq<Entry> {
    seq(|keys|, i requires 0 <= i < |keys| => Entry(score(keys[i], round, 0), keys[i]))
  }

  function Without(keys: seq<Key>, leader: Key): seq<Key> {
    if keys == [] then []
    else if keys[0] == leader then Without(keys[1..], leader)
    else [keys[0]] + Without(keys[1..], leader)
  }

  // ----- Windows of leader rounds

  /** The half of the first leader round of the window that holds `round`. */
  function WindowStart(window: nat, round: nat): nat
    requires window > 0
  {
    var ordinal := round / 2;
    (if ordinal == 0 then 0 else (ordinal - 1) / window) * window + 1
  }

  /** The leader rounds of a window. */
  function Rounds(window: nat, start: nat): seq<nat> {
    seq(window, o requires 0 <= o < window => 2 * (start + o))
  }

  /** Rounds with the scores of their leaders. */
  function LeaderSlots(score: Score, authorities: seq<Key>, rounds: seq<nat>, domain: nat): seq<Entry>
    requires authorities != []
  {
    seq(|rounds|, i requires 0 <= i < |rounds| =>
      Entry(score(LeaderOf(authorities, rounds[i]), rounds[i], domain), rounds[i]))
  }

  predicate LeaderIsSilent(score: Score, authorities: seq<Key>, round: nat, faults: nat)
    requires authorities != []
  {
    var window := 3 * faults + 1;
    round in LowestTags(LeaderSlots(score, authorities, Rounds(window, WindowStart(window, round)), 2), faults)
  }

  // ----- Silent authorities

  predicate Selected(score: Score, authority: Key, authorities: seq<Key>, round: nat, faults: nat) {
    var faults := Min(faults, |authorities|);
    if faults == 0 then false
    else
      var own := Entry(score(authority, round, 0), authority);
      if round % 2 == 0 then
        var silent := LeaderIsSilent(score, authorities, round, faults);
        var leader := LeaderOf(authorities, round);
        if authority == leader then silent
        else Below(Scored(score, round, Without(authorities, leader)), own) < faults - (if silent then 1 else 0)
      else Below(Scored(score, round, authorities), own) < faults
  }

  function SilentSet(score: Score, authorities: seq<Key>, round: nat, faults: nat): set<Key> {
    set a | a in authorities && Selected(score, a, authorities, round, faults)
  }

  lemma {:induction false} WithoutExactly(keys: seq<Key>, leader: Key)
    ensures forall k :: k in Without(keys, leader) <==> k in keys && k != leader
    ensures NoDup(keys) ==> NoDup(Without(keys, leader))
    ensures NoDup(keys) ==> |Without(keys, leader)| == |keys| - (if leader in keys then 1 else 0)
  {
    if keys != [] {
      var t := keys[1..];
      WithoutExactly(t, leader);
      assert forall k :: k in keys <==> k == keys[0] || k in t;
      if NoDup(keys) {
        assert NoDup(t);
        assert keys[0] !in t;
      }
    }
  }

  lemma ScoredTags(score: Score, round: nat, keys: seq<Key>)
    ensures Tags(Scored(score, round, keys)) == keys
  {}

  /** Among distinct keys, those with fewer than `k` others before them are exactly `k`. */
  lemma RankedExactly(score: Score, round: nat, keys: seq<Key>, k: nat)
    requires NoDup(keys)
    ensures var chosen := LowestTags(Scored(score, round, keys), k);
            && |chosen| == Min(k, |keys|) && chosen <= Members(keys)
            && forall a :: a in keys ==>
                 (a in chosen <==> Below(Scored(score, round, keys), Entry(score(a, round, 0), a)) < k)
  {
    var es := Scored(score, round, keys);
    ScoredTags(score, round, keys);
    LowestTagsExactly(es, k);
    forall a | a in keys
      ensures a in LowestTags(es, k) <==> Below(es, Entry(score(a, round, 0), a)) < k
    {
      var i :| 0 <= i < |keys| && keys[i] == a;
      assert es[i] in es;
    }
  }

  lemma SilentOdd(score: Score, authorities: seq<Key>, round: nat, faults: nat)
    requires NoDup(authorities) && round % 2 == 1
    ensures |SilentSet(score, authorities, round, faults)| == Min(faults, |authorities|)
  {
    var f := Min(faults, |authorities|);
    hide Below, Scored, LeaderIsSilent, LowestTags;
    RankedExactly(score, round, authorities, f);
    if f > 0 {
      assert SilentSet(score, authorities, round, faults) == LowestTags(Scored(score, round, authorities), f);
    }
  }

  /** The silent ones of an even round: the chosen others, and the leader if its turn is silent. */
  lemma SilentMembers(score: Score, authorities: seq<Key>, round: nat, f: nat, faults: nat, leader: Key,
                      chosen: set<Key>)
    requires authorities != [] && round % 2 == 0 && f == Min(faults, |authorities|) > 0
    requires leader == LeaderOf(authorities, round) && leader in authorities
    requires chosen <= Members(authorities) - {leader}
    requires var k := f - (if LeaderIsSilent(score, authorities, round, f) then 1 else 0);
             var others := Without(authorities, leader);
             forall a :: a in others ==>
               (a in chosen <==> Below(Scored(score, round, others), Entry(score(a, round, 0), a)) < k)
    ensures SilentSet(score, authorities, round, faults) ==
              if LeaderIsSilent(score, authorities, round, f) then chosen + {leader} else chosen
  {
    WithoutExactly(authorities, leader);
    hide Below, Scored, LeaderIsSilent, Without, NoDup;
  }

  lemma SilentEven(score: Score, authorities: seq<Key>, round: nat, faults: nat)
    requires NoDup(authorities) && round % 2 == 0 && authorities != [] && faults > 0
    ensures var f := Min(faults, |authorities|);
            |SilentSet(score, authorities, round, faults)| ==
              if LeaderIsSilent(score, authorities, round, f) then f else Min(f, |authorities| - 1)
  {
    var f := Min(faults, |authorities|);
    var leader := LeaderOf(authorities, round);
    var k := f - (if LeaderIsSilent(score, authorities, round, f) then 1 else 0);
    var others := Without(authorities, leader);
    var chosen := LowestTags(Scored(score, round, others), k);
    WithoutExactly(authorities, leader);
    RankedExactly(score, round, others, k);
    hide Below, Scored, LeaderIsSilent, LowestTags, Without, NoDup, SilentSet;
    SilentMembers(score, authorities, round, f, faults, leader, chosen);
  }

  lemma NobodySilent(score: Score, authorities: seq<Key>, round: nat, faults: nat)
    requires Min(faults, |authorities|) == 0
    ensures SilentSet(score, authorities, round, faults) == {}
  {}

  /** How many authorities are silent in a round, for every round and fault count: as many as
      the (clamped) faults, but for an even round in which all should be silent and the
      leader's turn is not among its window's silent ones. */
  lemma SilentExactly(score: Score, authorities: seq<Key>, round: nat, faults: nat)
    requires NoDup(authorities)
    ensures var f := Min(faults, |authorities|);
            |SilentSet(score, authorities, round, faults)| ==
              if f > 0 && f == |authorities| && round % 2 == 0 && !LeaderIsSilent(score, authorities, round, f)
              then f - 1 else f
  {
    hide SilentSet, LeaderIsSilent;
    if round % 2 == 1 {
      SilentOdd(score, authorities, round, faults);
    } else if Min(faults, |authorities|) > 0 {
      SilentEven(score, authorities, round, faults);
    } else {
      NobodySilent(score, authorities, round, faults);
    }
  }

  /** With more than three times as many authorities as faults, exactly the faults, always. */
  lemma ExactlyFaults(score: Score, authorities: seq<Key>, round: nat, faults: nat)
    requires NoDup(authorities) && |authorities| >= 3 * faults + 1
    ensures |SilentSet(score, authorities, round, faults)| == faults
  {
    SilentExactly(score, authorities, round, faults);
  }

  // ----- Counting over a window

  /** Half the first round of window number `b`. */
  function Edge(window: nat, b: nat): nat {
    b * window + 1
  }

  /** The leader rounds of window number `w`. */
  function WindowRounds(window: nat, w: nat): seq<nat> {
    Rounds(window, Edge(window, w))
  }

  lemma Multiples(a: nat, b: nat, n: nat)
    requires a < b
    ensures a * n + n <= b * n
  {
    assert b * n == a * n + (b - a) * n;
    assert (b - a) * n == n + (b - a - 1) * n;
  }

  lemma Quotient(window: nat, w: nat, o: nat)
    requires o < window
    ensures (w * window + o) / window == w
  {
    var q, r := (w * window + o) / window, (w * window + o) % window;
    assert w * window + o == q * window + r;
    if w < q {
      Multiples(w, q, window);
    } else if q < w {
      Multiples(q, w, window);
    }
  }

  /** Every round of a window finds the start of the window, and so its number. */
  lemma RoundFindsWindow(window: nat, w: nat, round: nat)
    requires window > 0 && round in WindowRounds(window, w)
    ensures WindowStart(window, round) == Edge(window, w) && (round / 2 - 1) / window == w
  {
    var o :| 0 <= o < window && WindowRounds(window, w)[o] == round;
    Quotient(window, w, o);
    assert round / 2 - 1 == w * window + o;
  }

  /** The windows tile the even rounds from two up. */
  lemma WindowsTile(window: nat, round: nat)
    requires window > 0
    ensures round % 2 == 0 && round >= 2 <==> exists w: nat :: round in WindowRounds(window, w)
    ensures forall v: nat, w: nat :: round in WindowRounds(window, v) && round in WindowRounds(window, w) ==> v == w
  {
    if round % 2 == 0 && round >= 2 {
      var w, o := (round / 2 - 1) / window, (round / 2 - 1) % window;
      assert WindowRounds(window, w)[o] == round;
    }
    forall v: nat, w: nat | round in WindowRounds(window, v) && round in WindowRounds(window, w) ensures v == w {
      RoundFindsWindow(window, v, round);
      RoundFindsWindow(window, w, round);
    }
  }

  lemma SlotTags(score: Score, authorities: seq<Key>, window: nat, start: nat, domain: nat)
    requires authorities != []
    ensures Tags(LeaderSlots(score, authorities, Rounds(window, start), domain)) == Rounds(window, start)
    ensures NoDup(Rounds(window, start))
  {}

  ghost predicate OneWindow(window: nat, start: nat) {
    window > 0 && forall r :: r in Rounds(window, start) ==> WindowStart(window, r) == start
  }

  function SilentLeaders(score: Score, authorities: seq<Key>, faults: nat, start: nat): set<nat>
    requires authorities != []
  {
    set r | r in Rounds(3 * faults + 1, start) && Selected(score, LeaderOf(authorities, r), authorities, r, faults)
  }

  /** A leader is selected in its round exactly when its turn is among the silent ones. */
  lemma LeaderSelected(score: Score, authorities: seq<Key>, round: nat, faults: nat)
    requires 1 <= faults <= |authorities| && round % 2 == 0
    ensures Selected(score, LeaderOf(authorities, round), authorities, round, faults)
       <==> LeaderIsSilent(score, authorities, round, faults)
  {}

  lemma SilentOfRound(score: Score, authorities: seq<Key>, faults: nat, start: nat, round: nat)
    requires 1 <= faults <= |authorities| && OneWindow(3 * faults + 1, start) && round in Rounds(3 * faults + 1, start)
    ensures Selected(score, LeaderOf(authorities, round), authorities, round, faults)
       <==> round in LowestTags(LeaderSlots(score, authorities, Rounds(3 * faults + 1, start), 2), faults)
  {
    hide Selected, LowestTags;
    LeaderSelected(score, authorities, round, faults);
  }

  lemma SilentOfWindow(score: Score, authorities: seq<Key>, faults: nat, start: nat)
    requires 1 <= faults <= |authorities| && OneWindow(3 * faults + 1, start)
    ensures |SilentLeaders(score, authorities, faults, start)| == faults
  {
    var rounds := Rounds(3 * faults + 1, start);
    var slots := LeaderSlots(score, authorities, rounds, 2);
    SlotTags(score, authorities, 3 * faults + 1, start, 2);
    LowestTagsCount(slots, faults);
    hide Selected, LowestTags, Tags, Rounds, NoDup, OneWindow, LeaderSlots, LeaderOf;
    forall r | r in rounds
      ensures Selected(score, LeaderOf(authorities, r), authorities, r, faults) <==> r in LowestTags(slots, faults)
    {
      SilentOfRound(score, authorities, faults, start, r);
    }
    assert SilentLeaders(score, authorities, faults, start) == LowestTags(slots, faults);
  }

  // ----- Direct commits

  /** The slots of those rounds whose leaders are not silent. */
  function Available(score: Score, authorities: seq<Key>, rounds: seq<nat>, faults: nat): seq<Entry>
    requires authorities != []
  {
    if rounds == [] then []
    else
      var before := Available(score, authorities, rounds[..|rounds| - 1], faults);
      var round := rounds[|rounds| - 1];
      var leader := LeaderOf(authorities, round);
      if Selected(score, leader, authorities, round, faults) then before
      else before + [Entry(score(leader, round, 1), round)]
  }

  predicate DirectCommit(score: Score, authorities: seq<Key>, round: nat, faults: nat) {
    if faults == 0 || authorities == [] then true
    else
      var window := 3 * faults + 1;
      var available := Available(score, authorities, Rounds(window, WindowStart(window, round)), faults);
      round in LowestTags(available, Min(faults + 2, window))
  }

  method DirectCommitSelected(score: Score, authorities: seq<Key>, leaderRound: nat, faults: nat) returns (direct: bool)
    ensures direct <==> DirectCommit(score, authorities, leaderRound, faults)
  {
    hide Selected, LowestTags;
    if faults == 0 || authorities == [] {
      return true;
    }
    var window := 3 * faults + 1;
    var target := Min(faults + 2, window);
    var start := WindowStart(window, leaderRound);
    var available: seq<Entry> := [];
    ghost var rounds := Rounds(window, start);
    for offset := 0 to window
      invariant available == Available(score, authorities, rounds[..offset], faults)
    {
      assert rounds[..offset + 1][..offset] == rounds[..offset];
      var round := 2 * (start + offset);
      var leader := LeaderOf(authorities, round);
      if !Selected(score, leader, authorities, round, faults) {
        available := available + [Entry(score(leader, round, 1), round)];
      }
    }
    assert rounds[..window] == rounds;
    return leaderRound in LowestTags(available, target);
  }

  lemma {:induction false} AvailableExactly(score: Score, authorities: seq<Key>, rounds: seq<nat>, faults: nat)
    requires authorities != [] && NoDup(rounds)
    ensures var tags := Tags(Available(score, authorities, rounds, faults));
            && NoDup(tags)
            && forall r :: r in tags <==>
                 r in rounds && !Selected(score, LeaderOf(authorities, r), authorities, r, faults)
    decreases |rounds|
  {
    hide Selected;
    if rounds != [] {
      var low, last := rounds[..|rounds| - 1], rounds[|rounds| - 1];
      AvailableExactly(score, authorities, low, faults);
      assert rounds == low + [last];
      var before, all := Available(score, authorities, low, faults), Available(score, authorities, rounds, faults);
      assert last !in low;
      if all != before {
        assert Tags(all) == Tags(before) + [last];
      }
    }
  }

  lemma AwakeOfWindow(score: Score, authorities: seq<Key>, faults: nat, start: nat)
    requires 1 <= faults <= |authorities| && OneWindow(3 * faults + 1, start)
    ensures var es := Available(score, authorities, Rounds(3 * faults + 1, start), faults);
            && NoDup(Tags(es)) && |es| == 2 * faults + 1
            && Members(Tags(es)) !! SilentLeaders(score, authorities, faults, start)
            && Members(Tags(es)) <= Members(Rounds(3 * faults + 1, start))
  {
    var rounds := Rounds(3 * faults + 1, start);
    var es := Available(score, authorities, rounds, faults);
    var silent := SilentLeaders(score, authorities, faults, start);
    SlotTags(score, authorities, 3 * faults + 1, start, 2);
    AvailableExactly(score, authorities, rounds, faults);
    SilentOfWindow(score, authorities, faults, start);
    CountMembers(rounds);
    CountMembers(Tags(es));
    hide Selected, Available, Rounds, NoDup, OneWindow, LeaderOf;
    assert Members(rounds) == silent + Members(Tags(es));
    assert silent !! Members(Tags(es));
  }

  // ----- Counting silent leaders

  /** How many of the numbers from `lo` up to `hi` meet `p`. */
  function Count(p: nat -> bool, lo: nat, hi: nat): nat
    requires lo <= hi
  {
    if lo == hi then 0 else Count(p, lo, hi - 1) + if p(hi - 1) then 1 else 0
  }

  lemma {:induction false} CountSplits(p: nat -> bool, lo: nat, mid: nat, hi: nat)
    requires lo <= mid <= hi
    ensures Count(p, lo, hi) == Count(p, lo, mid) + Count(p, mid, hi)
    ensures Count(p, mid, hi) <= hi - mid
    decreases hi
  {
    if mid < hi {
      CountSplits(p, lo, mid, hi - 1);
    }
  }

  /** In every window `n` numbers meet `p`. */
  ghost predicate Even(p: nat -> bool, window: nat, n: nat) {
    forall b: nat :: Edge(window, b) <= Edge(window, b + 1) && Count(p, Edge(window, b), Edge(window, b + 1)) == n
  }

  lemma {:induction false} WholeWindows(p: nat -> bool, window: nat, n: nat, b: nat, t: nat)
    requires Even(p, window, n)
    ensures Edge(window, b) <= Edge(window, b + t) && Count(p, Edge(window, b), Edge(window, b + t)) == t * n
  {
    hide Edge;
    if t > 0 {
      WholeWindows(p, window, n, b, t - 1);
      assert Edge(window, b + (t - 1)) <= Edge(window, b + (t - 1) + 1);
      CountSplits(p, Edge(window, b), Edge(window, b + (t - 1)), Edge(window, b + t));
      assert (t - 1) * n + n == t * n;
    }
  }

  /** The windows that two numbers fall into. */
  lemma WindowOf(window: nat, x: nat) returns (b: nat)
    requires window > 0 && x >= 1
    ensures Edge(window, b) <= x < Edge(window, b + 1)
  {
    b := (x - 1) / window;
    assert (b + 1) * window == b * window + window;
  }

  lemma Outer(p: nat -> bool, window: nat, n: nat, lo: nat, hi: nat, b: nat, d: nat)
    requires Even(p, window, n) && Edge(window, b) <= lo <= hi <= Edge(window, b + d + 1)
    ensures Count(p, lo, hi) <= (d + 1) * n
  {
    WholeWindows(p, window, n, b, d + 1);
    hide Edge, Even;
    CountSplits(p, Edge(window, b), lo, Edge(window, b + d + 1));
    CountSplits(p, lo, hi, Edge(window, b + d + 1));
  }

  /** An interval around one whole window. */
  lemma Around(p: nat -> bool, window: nat, n: nat, lo: nat, hi: nat, b: nat)
    requires Even(p, window, n) && lo <= Edge(window, b) && Edge(window, b + 1) <= hi
    ensures Count(p, lo, hi) <= n + (hi - lo - window)
  {
    var x, y := Edge(window, b), Edge(window, b + 1);
    assert y == x + window;
    assert Count(p, x, y) == n;
    hide Edge, Even;
    CountSplits(p, lo, lo, x);
    CountSplits(p, lo, x, hi);
    CountSplits(p, x, y, hi);
  }

  /** The distance of the windows at both ends bounds the length from below. */
  lemma Span(window: nat, lo: nat, hi: nat, b: nat, d: nat)
    requires d >= 1 && lo < Edge(window, b + 1) && Edge(window, b + d) < hi
    ensures (d - 1) * window + 2 <= hi - lo
  {
    assert (b + d) * window == (b + 1) * window + (d - 1) * window;
  }

  lemma ManyWindows(n: nat, faults: nat, d: nat)
    requires d >= 3 && n >= 1 && (d - 1) * (3 * n + 1) + 2 <= 3 * faults + 1
    ensures (d + 1) * n <= 2 * faults - 1
  {
    var m := (d - 1) * n;
    assert (d - 1) * (3 * n + 1) == 3 * m + (d - 1);
    assert (d + 1) * n == m + 2 * n;
    assert m == (d - 3) * n + 2 * n;
  }

  lemma EdgesRise(window: nat, b: nat, c: nat)
    requires b <= c
    ensures Edge(window, b) <= Edge(window, c)
  {
    assert c * window == b * window + (c - b) * window;
  }

  /** Longer windows, of any offset, leave more than `faults + 1` numbers out. */
  lemma Sparse(p: nat -> bool, n: nat, faults: nat, lo: nat)
    requires 1 <= n < faults && lo >= 1 && Even(p, 3 * n + 1, n)
    ensures Count(p, lo, lo + 3 * faults + 1) <= 2 * faults - 1
  {
    var window, hi := 3 * n + 1, lo + 3 * faults + 1;
    var b := WindowOf(window, lo);
    var e := WindowOf(window, hi - 1);
    if e < b {
      EdgesRise(window, e + 1, b);
    }
    var d := e - b;
    hide Count, Even;
    Outer(p, window, n, lo, hi, b, d);
    if d == 2 {
      Around(p, window, n, lo, hi, b + 1);
    } else if d >= 3 {
      hide Edge;
      Span(window, lo, hi, b, d);
      ManyWindows(n, faults, d);
    }
  }

  /** Whether the leader of round `2 * half` is silent. */
  function SilentLeader(score: Score, authorities: seq<Key>, faults: nat): nat -> bool
    requires authorities != []
  {
    (half: nat) => Selected(score, LeaderOf(authorities, 2 * half), authorities, 2 * half, faults)
  }

  lemma {:induction false} AvailableCount(score: Score, authorities: seq<Key>, faults: nat, window: nat, start: nat,
                                          k: nat)
    requires authorities != [] && k <= window
    ensures |Available(score, authorities, Rounds(window, start)[..k], faults)|
          + Count(SilentLeader(score, authorities, faults), start, start + k) == k
  {
    hide Selected;
    if k > 0 {
      AvailableCount(score, authorities, faults, window, start, k - 1);
      var rounds := Rounds(window, start)[..k];
      assert rounds[..k - 1] == Rounds(window, start)[..k - 1];
    }
  }

  /** More faults than authorities select as many as there are. */
  lemma ClampedSelected(score: Score, authorities: seq<Key>, faults: nat)
    requires authorities != []
    ensures forall a, r :: Selected(score, a, authorities, r, faults)
                      <==> Selected(score, a, authorities, r, Min(faults, |authorities|))
  {}

  lemma {:induction false} SameCount(p: nat -> bool, q: nat -> bool, lo: nat, hi: nat)
    requires lo <= hi && forall x :: p(x) == q(x)
    ensures Count(p, lo, hi) == Count(q, lo, hi)
  {
    if lo < hi {
      SameCount(p, q, lo, hi - 1);
    }
  }

  lemma AvailableOfWindow(score: Score, authorities: seq<Key>, faults: nat, window: nat, start: nat)
    requires authorities != []
    ensures |Available(score, authorities, Rounds(window, start), faults)|
          + Count(SilentLeader(score, authorities, faults), start, start + window) == window
  {
    AvailableCount(score, authorities, faults, window, start, window);
    hide Available, Count, SilentLeader;
    assert Rounds(window, start)[..window] == Rounds(window, start);
  }

  lemma SilentInWindow(score: Score, authorities: seq<Key>, f: nat, start: nat)
    requires 1 <= f <= |authorities| && OneWindow(3 * f + 1, start)
    ensures Count(SilentLeader(score, authorities, f), start, start + (3 * f + 1)) == f
  {
    hide *;
    AwakeOfWindow(score, authorities, f, start);
    AvailableOfWindow(score, authorities, f, 3 * f + 1, start);
  }

  lemma NextEdge(window: nat, b: nat)
    ensures Edge(window, b + 1) == Edge(window, b) + window
  {}

  lemma WindowIsOne(window: nat, w: nat)
    requires window > 0
    ensures OneWindow(window, Edge(window, w))
  {
    forall r | r in Rounds(window, Edge(window, w)) ensures WindowStart(window, r) == Edge(window, w) {
      RoundFindsWindow(window, w, r);
    }
  }

  lemma SilentBetween(score: Score, authorities: seq<Key>, f: nat, b: nat)
    requires 1 <= f <= |authorities|
    ensures var window := 3 * f + 1;
            && Edge(window, b) <= Edge(window, b + 1)
            && Count(SilentLeader(score, authorities, f), Edge(window, b), Edge(window, b + 1)) == f
  {
    hide *;
    NextEdge(3 * f + 1, b);
    WindowIsOne(3 * f + 1, b);
    SilentInWindow(score, authorities, f, Edge(3 * f + 1, b));
  }

  lemma SilentEvenly(score: Score, authorities: seq<Key>, f: nat)
    requires 1 <= f <= |authorities|
    ensures Even(SilentLeader(score, authorities, f), 3 * f + 1, f)
  {
    var window, p := 3 * f + 1, SilentLeader(score, authorities, f);
    hide Count, SilentLeader, OneWindow, Edge;
    forall b: nat ensures Edge(window, b) <= Edge(window, b + 1) && Count(p, Edge(window, b), Edge(window, b + 1)) == f
    {
      SilentBetween(score, authorities, f, b);
    }
  }

  // ----- Windows of direct commits

  function DirectCommits(score: Score, authorities: seq<Key>, faults: nat, start: nat): set<nat> {
    set r | r in Rounds(3 * faults + 1, start) && DirectCommit(score, authorities, r, faults)
  }

  lemma DirectOfRound(score: Score, authorities: seq<Key>, faults: nat, start: nat, round: nat)
    requires 1 <= faults && authorities != []
    requires OneWindow(3 * faults + 1, start) && round in Rounds(3 * faults + 1, start)
    ensures DirectCommit(score, authorities, round, faults)
       <==> round in LowestTags(Available(score, authorities, Rounds(3 * faults + 1, start), faults), faults + 2)
  {
    hide Available, LowestTags, Rounds;
  }

  lemma Filtered(rounds: seq<nat>, chosen: set<nat>, kept: set<nat>)
    requires chosen <= Members(rounds)
    requires forall r :: r in kept <==> r in rounds && r in chosen
    ensures kept == chosen
  {}

  lemma SameLeaders(score: Score, authorities: seq<Key>, faults: nat)
    requires 1 <= |authorities| < faults
    ensures forall x ::
              SilentLeader(score, authorities, faults)(x) == SilentLeader(score, authorities, |authorities|)(x)
  {
    ClampedSelected(score, authorities, faults);
    hide Selected;
  }

  lemma AwakeOfMany(score: Score, authorities: seq<Key>, faults: nat, start: nat)
    requires 1 <= |authorities| < faults && start >= 1
    ensures |Available(score, authorities, Rounds(3 * faults + 1, start), faults)| >= faults + 2
  {
    hide *;
    var window, n := 3 * faults + 1, |authorities|;
    var p, q := SilentLeader(score, authorities, faults), SilentLeader(score, authorities, n);
    SameLeaders(score, authorities, faults);
    SilentEvenly(score, authorities, n);
    Sparse(q, n, faults, start);
    SameCount(p, q, start, start + window);
    AvailableOfWindow(score, authorities, faults, window, start);
  }

  lemma AwakeInWindow(score: Score, authorities: seq<Key>, faults: nat, start: nat)
    requires 1 <= faults && authorities != [] && start >= 1 && OneWindow(3 * faults + 1, start)
    ensures |Available(score, authorities, Rounds(3 * faults + 1, start), faults)| >= faults + 2
  {
    hide Selected, Available, Rounds, OneWindow;
    if faults <= |authorities| {
      AwakeOfWindow(score, authorities, faults, start);
    } else {
      AwakeOfMany(score, authorities, faults, start);
    }
  }

  lemma AwakeAreNotSilent(score: Score, authorities: seq<Key>, faults: nat, start: nat)
    requires authorities != []
    ensures var es := Available(score, authorities, Rounds(3 * faults + 1, start), faults);
            && NoDup(Tags(es)) && Members(Tags(es)) !! SilentLeaders(score, authorities, faults, start)
            && Members(Tags(es)) <= Members(Rounds(3 * faults + 1, start))
  {
    SlotTags(score, authorities, 3 * faults + 1, start, 2);
    hide Selected, Available, Rounds, NoDup, LeaderOf, Tags;
    AvailableExactly(score, authorities, Rounds(3 * faults + 1, start), faults);
  }

  lemma DirectOfWindow(score: Score, authorities: seq<Key>, faults: nat, start: nat)
    requires 1 <= faults && authorities != [] && start >= 1 && OneWindow(3 * faults + 1, start)
    ensures |DirectCommits(score, authorities, faults, start)| == faults + 2
    ensures DirectCommits(score, authorities, faults, start) !! SilentLeaders(score, authorities, faults, start)
  {
    hide SilentLeaders, LowestTags, Tags, Available, Rounds, NoDup, OneWindow, DirectCommit;
    var rounds := Rounds(3 * faults + 1, start);
    var es := Available(score, authorities, rounds, faults);
    var chosen := LowestTags(es, faults + 2);
    AwakeInWindow(score, authorities, faults, start);
    AwakeAreNotSilent(score, authorities, faults, start);
    LowestTagsCount(es, faults + 2);
    forall r | r in rounds ensures DirectCommit(score, authorities, r, faults) <==> r in chosen {
      DirectOfRound(score, authorities, faults, start, r);
    }
    Filtered(rounds, chosen, DirectCommits(score, authorities, faults, start));
  }

  /** For every fault count: in every window of the silent leaders, whose size is set by the
      clamped faults, exactly that many are silent; in every window of the direct commits, whose
      size is set by the faults as given, exactly `faults + 2` leader rounds allow one, none of
      them with a silent leader. Up to as many faults as authorities the windows are the same. */
  lemma WindowExactly(score: Score, authorities: seq<Key>, faults: nat, w: nat)
    requires faults >= 1 && authorities != []
    ensures var f := Min(faults, |authorities|);
            |SilentLeaders(score, authorities, f, Edge(3 * f + 1, w))| == f
    ensures var start := Edge(3 * faults + 1, w);
            && |DirectCommits(score, authorities, faults, start)| == faults + 2
            && DirectCommits(score, authorities, faults, start) !! SilentLeaders(score, authorities, faults, start)
  {
    var f := Min(faults, |authorities|);
    assert f == (if faults < |authorities| then faults else |authorities|);
    WindowIsOne(3 * f + 1, w);
    WindowIsOne(3 * faults + 1, w);
    hide *;
    SilentOfWindow(score, authorities, f, Edge(3 * f + 1, w));
    DirectOfWindow(score, authorities, faults, Edge(3 * faults + 1, w));
  }
}
