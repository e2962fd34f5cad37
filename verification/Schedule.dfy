/** The benchmark client's schedule, computed by sorting and slicing: bit for bit the silence
    that the primaries compute by counting ranks. */
module Schedule {
  import opened Types
  import opened Ranking
  import opened Adversary

  function InsertKey(k: Key, s: seq<Key>): seq<Key> {
    if s == [] || k <= s[0] then [k] + s else [s[0]] + InsertKey(k, s[1..])
  }

  /** `sorted`, on keys. */
  function SortKeys(s: seq<Key>): seq<Key> {
    if s == [] then [] else InsertKey(s[0], SortKeys(s[1..]))
  }

  lemma {:induction false} InsertKeyExactly(k: Key, s: seq<Key>)
    requires forall i, j :: 0 <= i < j < |s| ==> s[i] <= s[j]
    ensures var t := InsertKey(k, s);
            && |t| == |s| + 1 && (forall x :: x in t <==> x == k || x in s)
            && forall i, j :: 0 <= i < j < |t| ==> t[i] <= t[j]
  {
    if s != [] && k > s[0] {
      InsertKeyExactly(k, s[1..]);
      var t := InsertKey(k, s[1..]);
      forall i | 0 <= i < |t| ensures s[0] <= t[i] {
        assert t[i] in t;
      }
    }
  }

  /** The same keys in increasing order: the order of the committee. */
  lemma {:induction false} SortKeysExactly(s: seq<Key>)
    ensures var t := SortKeys(s);
            && |t| == |s| && (forall x :: x in t <==> x in s)
            && forall i, j :: 0 <= i < j < |t| ==> t[i] <= t[j]
  {
    if s != [] {
      SortKeysExactly(s[1..]);
      InsertKeyExactly(s[0], SortKeys(s[1..]));
      assert forall x :: x in s <==> x == s[0] || x in s[1..];
    }
  }

  /** Sorting by score and slicing picks the keys with few others before them, repeated keys
      included. */
  lemma SliceIsRank(score: Score, round: nat, keys: seq<Key>, k: nat, a: Key)
    requires a in keys
    ensures a in LowestTags(Scored(score, round, keys), k)
       <==> Below(Scored(score, round, keys), Entry(score(a, round, 0), a)) < k
  {
    var es := Scored(score, round, keys);
    var own := Entry(score(a, round, 0), a);
    var i :| 0 <= i < |keys| && keys[i] == a;
    assert es[i] == own;
    LowestByRank(es, k, own);
    LowestIsPart(es, k);
    TagIsOf(Lowest(es, k), a);
    if e :| e in Lowest(es, k) && e.tag == a {
      var j :| 0 <= j < |es| && es[j] == e;
      assert e == own;
    }
  }

  lemma SliceIsPart(score: Score, round: nat, keys: seq<Key>, k: nat)
    ensures forall a :: a in LowestTags(Scored(score, round, keys), k) ==> a in keys
  {
    var es := Scored(score, round, keys);
    LowestIsPart(es, k);
    forall a | a in LowestTags(es, k) ensures a in keys {
      TagIsOf(Lowest(es, k), a);
      var e :| e in Lowest(es, k) && e.tag == a;
      var j :| 0 <= j < |es| && es[j] == e;
      assert keys[j] == a;
    }
  }

  lemma SlotsSnoc(score: Score, authorities: seq<Key>, rounds: seq<nat>, o: nat)
    requires authorities != [] && o < |rounds|
    ensures LeaderSlots(score, authorities, rounds[..o + 1], 2) ==
              LeaderSlots(score, authorities, rounds[..o], 2)
              + [Entry(score(LeaderOf(authorities, rounds[o]), rounds[o], 2), rounds[o])]
  {}

  lemma NoSlots(score: Score, authorities: seq<Key>)
    requires authorities != []
    ensures LeaderSlots(score, authorities, [], 2) == []
  {}

  /** The silent leader rounds of the window of an even round. */
  method SilentLeaderRounds(score: Score, ordered: seq<Key>, faults: nat, round: nat) returns (silent: set<nat>)
    requires ordered != []
    ensures round in silent <==> LeaderIsSilent(score, ordered, round, faults)
  {
    hide LowestTags, LeaderSlots;
    var window := 3 * faults + 1;
    var ordinal := round / 2;
    var windowStart := ((Max(ordinal, 1) - 1) / window) * window + 1;
    assert windowStart == WindowStart(window, round);
    ghost var rounds := Rounds(window, windowStart);
    var leaderSlots: seq<Entry> := [];
    NoSlots(score, ordered);
    for offset := 0 to window
      invariant leaderSlots == LeaderSlots(score, ordered, rounds[..offset], 2)
    {
      var candidateRound := 2 * (windowStart + offset);
      var leader := LeaderOf(ordered, candidateRound);
      SlotsSnoc(score, ordered, rounds, offset);
      leaderSlots := leaderSlots + [Entry(score(leader, candidateRound, 2), candidateRound)];
    }
    assert rounds[..window] == rounds;
    return LowestTags(leaderSlots, faults);
  }

  /** The `k` candidates with the lowest scores. */
  method Choose(score: Score, round: nat, candidates: seq<Key>, k: nat) returns (chosen: set<Key>)
    ensures forall a :: a in chosen <==>
              a in candidates && Below(Scored(score, round, candidates), Entry(score(a, round, 0), a)) < k
  {
    chosen := LowestTags(Scored(score, round, candidates), k);
    hide LowestTags, Below, Scored;
    SliceIsPart(score, round, candidates, k);
    forall a | a in candidates
      ensures a in chosen <==> Below(Scored(score, round, candidates), Entry(score(a, round, 0), a)) < k
    {
      SliceIsRank(score, round, candidates, k, a);
    }
  }

  /** One round of the schedule. */
  method SelectedIn(score: Score, ordered: seq<Key>, faults: nat, round: nat) returns (selected: set<Key>)
    requires faults <= |ordered|
    ensures forall a :: a in selected <==> a in ordered && Selected(score, a, ordered, round, faults)
  {
    hide Below, Scored, LeaderIsSilent;
    if faults > 0 && round % 2 == 0 {
      var silentLeaderRounds := SilentLeaderRounds(score, ordered, faults, round);
      var leader := LeaderOf(ordered, round);
      var leaderIsSilent := round in silentLeaderRounds;
      WithoutExactly(ordered, leader);
      selected := Choose(score, round, Without(ordered, leader), faults - (if leaderIsSilent then 1 else 0));
      if leaderIsSilent {
        selected := selected + {leader};
      }
    } else {
      selected := Choose(score, round, ordered, faults);
    }
  }

  /** The bits of one client: silent in round `i + 1` exactly when its primary is,
      if clients pause at all. */
  ghost predicate Faithful(score: Score, authorities: seq<Key>, faults: nat, pause: bool, k: Key, bits: seq<bool>,
                           slots: nat) {
    && |bits| == slots
    && forall i :: 0 <= i < slots ==> (bits[i] <==> pause && Selected(score, k, authorities, i + 1, faults))
  }

  ghost predicate AllFaithful(score: Score, authorities: seq<Key>, faults: nat, pause: bool, names: seq<Key>,
                              schedules: map<Key, seq<bool>>, done: nat, slots: nat)
    requires done <= |names|
  {
    && schedules.Keys == Members(names)
    && (forall j :: 0 <= j < done
          ==> Faithful(score, authorities, faults, pause, names[j], schedules[names[j]], slots + 1))
    && (forall j :: done <= j < |names|
          ==> Faithful(score, authorities, faults, pause, names[j], schedules[names[j]], slots))
  }

  lemma EverybodyDone(score: Score, authorities: seq<Key>, faults: nat, pause: bool, names: seq<Key>,
                      schedules: map<Key, seq<bool>>, slots: nat)
    requires AllFaithful(score, authorities, Min(faults, |authorities|), pause, names, schedules, 0, slots)
    ensures schedules.Keys == Members(names)
    ensures forall k :: k in names ==> Faithful(score, authorities, faults, pause, k, schedules[k], slots)
  {
    forall k | k in names ensures Faithful(score, authorities, faults, pause, k, schedules[k], slots) {
      var j :| 0 <= j < |names| && names[j] == k;
    }
  }

  /** One more bit for every client. */
  method AppendBits(score: Score, ordered: seq<Key>, faults: nat, pause: bool, names: seq<Key>, round: nat,
                    selected: set<Key>, before: map<Key, seq<bool>>) returns (schedules: map<Key, seq<bool>>)
    requires NoDup(names) && round >= 1 && AllFaithful(score, ordered, faults, pause, names, before, 0, round - 1)
    requires forall k :: k in names ==> (k in selected <==> Selected(score, k, ordered, round, faults))
    ensures AllFaithful(score, ordered, faults, pause, names, schedules, 0, round)
    ensures schedules.Keys == before.Keys
  {
    schedules := before;
    assert schedules.Keys == Members(names);
    hide Selected, AllFaithful, Faithful, NoDup;
    for i := 0 to |names|
      invariant schedules.Keys == before.Keys == Members(names)
      invariant AllFaithful(score, ordered, faults, pause, names, schedules, i, round - 1)
    {
      var name := names[i];
      var silent := pause && name in selected;
      schedules := schedules[name := schedules[name] + [silent]];
    }
  }

  /** The schedules agree with `Selected` for all committees, seeds, fault counts and rounds; a
      negative fault count, which the primaries do not parse, counts as zero on both sides. */
  method BuildClientSchedules(score: Score, names: seq<Key>, faults: int, slots: nat, pause: bool)
      returns (schedules: map<Key, seq<bool>>)
    requires NoDup(names)
    ensures schedules.Keys == Members(names)
    ensures forall k :: k in names ==>
              Faithful(score, SortKeys(names), if faults < 0 then 0 else faults, pause, k, schedules[k], slots)
  {
    var ordered := SortKeys(names);
    SortKeysExactly(names);
    var positive := if faults < 0 then 0 else faults;
    var clamped := Min(positive, |ordered|);
    schedules := map k | k in names :: [];
    assert AllFaithful(score, ordered, clamped, pause, names, schedules, 0, 0);
    hide Selected, SortKeys, AllFaithful, Faithful, NoDup;
    for round := 1 to slots + 1
      invariant schedules.Keys == Members(names)
      invariant AllFaithful(score, ordered, clamped, pause, names, schedules, 0, round - 1)
    {
      var selected := SelectedIn(score, ordered, clamped, round);
      schedules := AppendBits(score, ordered, clamped, pause, names, round, selected, schedules);
    }
    EverybodyDone(score, ordered, positive, pause, names, schedules, slots);
  }
}
