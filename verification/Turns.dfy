/** Whose turn it is, in plain counts: an authority is silent, a leader round is silent or may be
    committed directly, if and only if few enough others have a lower score. The leaders are
    those that consensus elects. */
module Turns {
  import opened Types
  import opened Ranking
  import opened Adversary

  // ----- Ranks as counts

  /** `u` comes before `t`: by a lower value, or by a lower number at the same value. */
  predicate Before(value: nat -> nat, u: nat, t: nat) {
    value(u) < value(t) || (value(u) == value(t) && u < t)
  }

  lemma TagsCons(e: Entry, es: seq<Entry>)
    requires NoDup(Tags([e] + es))
    ensures NoDup(Tags(es)) && e.tag !in Tags(es)
    ensures forall g :: g in Tags([e] + es) <==> g == e.tag || g in Tags(es)
  {
    var all := Tags([e] + es);
    assert all == [e.tag] + Tags(es);
    forall i, j | 0 <= i < j < |es| ensures Tags(es)[i] != Tags(es)[j] {
      assert all[i + 1] != all[j + 1];
    }
    forall i | 0 <= i < |es| ensures Tags(es)[i] != e.tag {
      assert all[0] != all[i + 1];
    }
  }

  /** With distinct tags, the entries below one are as many as the tags that come before its tag. */
  lemma {:induction false} BelowCounts(es: seq<Entry>, value: nat -> nat, t: nat)
    requires NoDup(Tags(es)) && forall e :: e in es ==> e.score == value(e.tag)
    ensures Below(es, Entry(value(t), t)) == |set u | u in Tags(es) && Before(value, u, t)|
  {
    var lower := set u | u in Tags(es) && Before(value, u, t);
    if es == [] {
      assert lower == {};
    } else {
      var e, rest := es[0], es[1..];
      assert es == [e] + rest;
      TagsCons(e, rest);
      BelowCounts(rest, value, t);
      hide Tags, NoDup;
      var others := set u | u in Tags(rest) && Before(value, u, t);
      assert lower == if Before(value, e.tag, t) then others + {e.tag} else others;
    }
  }

  /** Chosen among the lowest `k` means fewer than `k` before it. */
  lemma ChosenExactly(es: seq<Entry>, value: nat -> nat, k: nat, t: nat)
    requires NoDup(Tags(es)) && forall e :: e in es ==> e.score == value(e.tag)
    ensures t in LowestTags(es, k) <==> t in Tags(es) && |set u | u in Tags(es) && Before(value, u, t)| < k
  {
    LowestTagsExactly(es, k);
    TagIsOf(es, t);
    BelowCounts(es, value, t);
    hide LowestTags, Below, NoDup, Tags;
    if t in Tags(es) {
      var e :| e in es && e.tag == t;
      assert e == Entry(value(t), t);
    }
  }

  // ----- Windows

  /** The leader rounds in the same window as `round`: windows hold `size` even rounds each, the first
      one from round 2. */
  function Window(size: nat, round: nat): set<nat>
    requires size > 0 && round >= 2
  {
    var first := (round / 2 - 1) / size * size;
    set q: nat | 2 * first < q <= 2 * (first + size) && q % 2 == 0
  }

  lemma WindowExactly(size: nat, round: nat)
    requires size > 0 && round >= 2
    ensures forall q :: q in Rounds(size, WindowStart(size, round)) <==> q in Window(size, round)
    ensures round % 2 == 0 ==> round in Window(size, round)
    ensures NoDup(Rounds(size, WindowStart(size, round)))
  {
    var first := (round / 2 - 1) / size * size;
    assert WindowStart(size, round) == first + 1;
    var rounds := Rounds(size, first + 1);
    forall q | q in Window(size, round) ensures q in rounds {
      assert rounds[q / 2 - 1 - first] == q;
    }
    var n := round / 2 - 1;
    assert n == n / size * size + n % size;
  }

  // ----- Leaders

  lemma Remainder(q: nat, n: nat, r: nat)
    requires r < n
    ensures (q * n + r) % n == r
  {
    Quotient(n, q, r);
    assert q * n + r == (q * n + r) / n * n + (q * n + r) % n;
  }

  lemma NextTurn(round: nat, n: nat)
    requires n > 0 && round % n + 1 < n
    ensures (round + 1) % n == round % n + 1
  {
    var q := round / n;
    assert round + 1 == q * n + (round % n + 1);
    Remainder(q, n, round % n + 1);
  }

  lemma FirstTurn(round: nat, n: nat)
    requires n > 0 && round % n + 1 == n
    ensures (round + 1) % n == 0
  {
    var q := round / n;
    assert round + 1 == (q + 1) * n + 0;
    Remainder(q + 1, n, 0);
  }

  /** The schedule and consensus take the same leader for a round: the members in turn, from the
      lowest key at round 0. */
  lemma SameLeaders(c: Committee, round: nat)
    requires c.names != []
    ensures LeaderOf(c.names, round) == c.LeaderKey(round)
    ensures c.LeaderKey(0) == c.names[0]
    ensures forall i :: 0 <= i < |c.names| && c.LeaderKey(round) == c.names[i] && c.Valid() ==>
              c.LeaderKey(round + 1) == c.names[if i + 1 < |c.names| then i + 1 else 0]
  {
    var n := |c.names|;
    if round % n + 1 < n {
      NextTurn(round, n);
    } else {
      FirstTurn(round, n);
    }
  }

  // ----- Silent leaders

  /** The score of the leader of a round, in one domain. */
  function LeaderScore(score: Score, authorities: seq<Key>, domain: nat): nat -> nat
    requires authorities != []
  {
    (q: nat) => score(authorities[q % |authorities|], q, domain)
  }

  lemma LeaderScoreIs(score: Score, authorities: seq<Key>, round: nat, domain: nat)
    requires authorities != []
    ensures LeaderScore(score, authorities, domain)(round) == score(LeaderOf(authorities, round), round, domain)
  {}

  lemma SlotScores(score: Score, authorities: seq<Key>, rounds: seq<nat>, domain: nat)
    requires authorities != []
    ensures Tags(LeaderSlots(score, authorities, rounds, domain)) == rounds
    ensures forall e :: e in LeaderSlots(score, authorities, rounds, domain) ==>
              e.score == LeaderScore(score, authorities, domain)(e.tag)
  {
    var es := LeaderSlots(score, authorities, rounds, domain);
    forall e | e in es ensures e.score == LeaderScore(score, authorities, domain)(e.tag) {
      var i :| 0 <= i < |rounds| && es[i] == e;
      LeaderScoreIs(score, authorities, rounds[i], domain);
      hide LeaderOf, LeaderScore;
      assert e == Entry(score(LeaderOf(authorities, rounds[i]), rounds[i], domain), rounds[i]);
    }
  }

  /** The leader of a round is silent if and only if fewer than `faults` rounds of its window come before
      it by the scores of their leaders in domain 2. */
  lemma SilentLeaderExactly(score: Score, authorities: seq<Key>, round: nat, faults: nat)
    requires authorities != [] && round % 2 == 0 && round >= 2
    ensures var value := LeaderScore(score, authorities, 2);
            LeaderIsSilent(score, authorities, round, faults) <==>
              |set q | q in Window(3 * faults + 1, round) && Before(value, q, round)| < faults
  {
    var size, value := 3 * faults + 1, LeaderScore(score, authorities, 2);
    var rounds := Rounds(size, WindowStart(size, round));
    WindowExactly(size, round);
    SlotScores(score, authorities, rounds, 2);
    ChosenExactly(LeaderSlots(score, authorities, rounds, 2), value, faults, round);
    hide LeaderSlots, LeaderScore, Rounds, Window, NoDup, LowestTags, Before, WindowStart;
    assert (set q | q in rounds && Before(value, q, round)) ==
      set q | q in Window(size, round) && Before(value, q, round);
  }

  // ----- Silent authorities

  function OwnScore(score: Score, round: nat): nat -> nat {
    (k: nat) => score(k, round, 0)
  }

  lemma OwnScores(score: Score, round: nat, keys: seq<Key>, k: Key)
    requires NoDup(keys)
    ensures Below(Scored(score, round, keys), Entry(score(k, round, 0), k)) ==
              |set b | b in keys && Before(OwnScore(score, round), b, k)|
  {
    var es, value := Scored(score, round, keys), OwnScore(score, round);
    ScoredTags(score, round, keys);
    assert forall e :: e in es ==> e.score == value(e.tag);
    BelowCounts(es, value, k);
  }

  /** The number of silent leaders this round takes out of the faults. */
  ghost predicate LeaderSilent(score: Score, authorities: seq<Key>, round: nat, f: nat)
    requires authorities != [] && round >= 2
  {
    |set q | q in Window(3 * f + 1, round) && Before(LeaderScore(score, authorities, 2), q, round)| < f
  }

  lemma OthersExactly(score: Score, k: Key, authorities: seq<Key>, round: nat)
    requires NoDup(authorities) && authorities != []
    ensures var leader, value := authorities[round % |authorities|], OwnScore(score, round);
            Below(Scored(score, round, Without(authorities, leader)), Entry(score(k, round, 0), k)) ==
              |set b | b in authorities && b != leader && Before(value, b, k)|
  {
    var leader, value := authorities[round % |authorities|], OwnScore(score, round);
    var others := Without(authorities, leader);
    WithoutExactly(authorities, leader);
    OwnScores(score, round, others, k);
    hide Before, Below, Scored, OwnScore, Without, NoDup;
    assert (set b | b in others && Before(value, b, k)) ==
      set b | b in authorities && b != leader && Before(value, b, k);
  }

  /** Who is silent, for every round from 1: in odd rounds those with fewer than `f` authorities before
      them in domain 0; in even rounds the leader by its turn, and of the others those with too few
      others before them. `f` are the faults, at most all authorities. */
  lemma SelectedExactly(score: Score, k: Key, authorities: seq<Key>, round: nat, faults: nat)
    requires NoDup(authorities) && authorities != [] && round >= 1
    ensures var f := if faults < |authorities| then faults else |authorities|;
            var leader, value := authorities[round % |authorities|], OwnScore(score, round);
            Selected(score, k, authorities, round, faults) <==>
              if f == 0 then false
              else if round % 2 == 1 then |set b | b in authorities && Before(value, b, k)| < f
              else if k == leader then LeaderSilent(score, authorities, round, f)
              else |set b | b in authorities && b != leader && Before(value, b, k)|
                     < f - (if LeaderSilent(score, authorities, round, f) then 1 else 0)
  {
    var f := Min(faults, |authorities|);
    if f > 0 && round % 2 == 1 {
      OwnScores(score, round, authorities, k);
      hide Before, Below, Scored, OwnScore, LeaderIsSilent, NoDup;
    } else if f > 0 {
      SilentLeaderExactly(score, authorities, round, f);
      hide Before, Below, Scored, OwnScore, Window, LeaderScore, LeaderIsSilent, Without, NoDup;
      OthersExactly(score, k, authorities, round);
    }
  }

  // ----- Direct commits

  /** The leader of the round is awake. */
  predicate Awake(score: Score, authorities: seq<Key>, faults: nat, round: nat)
    requires authorities != []
  {
    !Selected(score, authorities[round % |authorities|], authorities, round, faults)
  }

  lemma {:induction false} AvailableScores(score: Score, authorities: seq<Key>, rounds: seq<nat>, faults: nat)
    requires authorities != []
    ensures forall e :: e in Available(score, authorities, rounds, faults) ==>
              e.score == LeaderScore(score, authorities, 1)(e.tag)
    decreases |rounds|
  {
    hide Selected;
    if rounds != [] {
      AvailableScores(score, authorities, rounds[..|rounds| - 1], faults);
    }
  }

  lemma AvailableTags(score: Score, authorities: seq<Key>, round: nat, faults: nat)
    requires authorities != [] && round >= 2
    ensures var size := 3 * faults + 1;
            var es := Available(score, authorities, Rounds(size, WindowStart(size, round)), faults);
            && NoDup(Tags(es))
            && forall q :: q in Tags(es) <==> q in Window(size, round) && Awake(score, authorities, faults, q)
  {
    var size := 3 * faults + 1;
    WindowExactly(size, round);
    hide Available, Selected, Rounds, Window, NoDup, WindowStart, Tags;
    AvailableExactly(score, authorities, Rounds(size, WindowStart(size, round)), faults);
  }

  lemma DirectIsChosen(score: Score, authorities: seq<Key>, round: nat, faults: nat)
    requires faults >= 1 && authorities != []
    ensures var size := 3 * faults + 1;
            var es := Available(score, authorities, Rounds(size, WindowStart(size, round)), faults);
            DirectCommit(score, authorities, round, faults) <==> round in LowestTags(es, faults + 2)
  {
    hide Available, LowestTags, Rounds, WindowStart;
  }

  lemma RoundIsInside(size: nat, round: nat)
    requires size > 0 && round >= 2 && round % 2 == 0
    ensures round in Window(size, round)
  {
    WindowExactly(size, round);
  }

  lemma AwakeBefore(score: Score, authorities: seq<Key>, round: nat, faults: nat, tags: seq<nat>)
    requires authorities != [] && round >= 2
    requires forall q :: q in tags <==> q in Window(3 * faults + 1, round) && Awake(score, authorities, faults, q)
    ensures var value := LeaderScore(score, authorities, 1);
            |set q | q in tags && Before(value, q, round)| ==
              |set q | q in Window(3 * faults + 1, round) && Awake(score, authorities, faults, q)
                       && Before(value, q, round)|
  {
    hide *;
    var value := LeaderScore(score, authorities, 1);
    assert (set q | q in tags && Before(value, q, round)) ==
      set q | q in Window(3 * faults + 1, round) && Awake(score, authorities, faults, q) && Before(value, q, round);
  }

  /** A leader round may be committed directly if and only if its leader is awake and fewer than
      `faults + 2` awake rounds of its window come before it by the scores of their leaders in
      domain 1. */
  lemma DirectExactly(score: Score, authorities: seq<Key>, round: nat, faults: nat)
    requires faults >= 1 && authorities != [] && round % 2 == 0 && round >= 2
    ensures var value := LeaderScore(score, authorities, 1);
            DirectCommit(score, authorities, round, faults) <==>
              && Awake(score, authorities, faults, round)
              && |set q | q in Window(3 * faults + 1, round) && Awake(score, authorities, faults, q)
                       && Before(value, q, round)| < faults + 2
  {
    hide *;
    var es := Available(score, authorities, Rounds(3 * faults + 1, WindowStart(3 * faults + 1, round)), faults);
    AvailableTags(score, authorities, round, faults);
    AvailableScores(score, authorities, Rounds(3 * faults + 1, WindowStart(3 * faults + 1, round)), faults);
    ChosenExactly(es, LeaderScore(score, authorities, 1), faults + 2, round);
    DirectIsChosen(score, authorities, round, faults);
    RoundIsInside(3 * faults + 1, round);
    AwakeBefore(score, authorities, round, faults, Tags(es));
  }
}
