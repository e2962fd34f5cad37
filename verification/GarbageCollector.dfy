/** The garbage collector: publishes the highest round that consensus has committed. */
module GarbageCollector {
  /** The rounds of a list that exceed `from` and everything before them. */
  function Rises(rounds: seq<nat>, from: nat): seq<nat> {
    if rounds == [] then []
    else if rounds[0] > from then [rounds[0]] + Rises(rounds[1..], rounds[0])
    else Rises(rounds[1..], from)
  }

  /** `k` exceeds `from` and, where it first comes, everything before it. */
  ghost predicate IsRise(rounds: seq<nat>, from: nat, k: nat) {
    k > from && exists i :: 0 <= i < |rounds| && rounds[i] == k && forall j :: 0 <= j < i ==> rounds[j] < k
  }

  ghost predicate Rising(rs: seq<nat>) {
    forall i, j :: 0 <= i < j < |rs| ==> rs[i] < rs[j]
  }

  function Top(rounds: seq<nat>, from: nat): nat {
    var rs := Rises(rounds, from);
    if rs == [] then from else rs[|rs| - 1]
  }

  lemma RiseCons(rounds: seq<nat>, from: nat, k: nat)
    requires rounds != []
    ensures IsRise(rounds, from, k)
       <==> (rounds[0] == k && k > from) || IsRise(rounds[1..], if rounds[0] > from then rounds[0] else from, k)
  {
    var t, low := rounds[1..], if rounds[0] > from then rounds[0] else from;
    if IsRise(rounds, from, k) && rounds[0] != k {
      var i :| 0 <= i < |rounds| && rounds[i] == k && forall j :: 0 <= j < i ==> rounds[j] < k;
      assert t[i - 1] == k && forall j :: 0 <= j < i - 1 ==> t[j] == rounds[j + 1];
    }
    if IsRise(t, low, k) {
      var i :| 0 <= i < |t| && t[i] == k && forall j :: 0 <= j < i ==> t[j] < k;
      assert rounds[i + 1] == k && forall j :: 1 <= j < i + 1 ==> rounds[j] == t[j - 1];
    }
  }

  lemma {:induction false} RisesAbove(rounds: seq<nat>, from: nat)
    ensures forall i :: 0 <= i < |Rises(rounds, from)| ==> Rises(rounds, from)[i] > from
  {
    if rounds != [] {
      RisesAbove(rounds[1..], if rounds[0] > from then rounds[0] else from);
    }
  }

  /** They are exactly the running maxima, in rising order; the last is the maximum of all. */
  lemma {:induction false} RisesExactly(rounds: seq<nat>, from: nat)
    ensures forall k :: k in Rises(rounds, from) <==> IsRise(rounds, from, k)
    ensures Rising(Rises(rounds, from))
    ensures from <= Top(rounds, from) && forall r :: r in rounds ==> r <= Top(rounds, from)
  {
    if rounds != [] {
      var low := if rounds[0] > from then rounds[0] else from;
      RisesExactly(rounds[1..], low);
      forall k: nat ensures IsRise(rounds, from, k) <==> (rounds[0] == k && k > from) || IsRise(rounds[1..], low, k) {
        RiseCons(rounds, from, k);
      }
      RisesAbove(rounds[1..], low);
      assert Top(rounds, from) == Top(rounds[1..], low);
      assert forall r :: r in rounds ==> r == rounds[0] || r in rounds[1..];
    }
  }

  class GarbageCollector {
    var lastCommittedRound: nat
    var consensusRound: nat
    var cleanups: seq<nat>

    constructor ()
      ensures lastCommittedRound == 0 && consensusRound == 0 && cleanups == []
    {
      lastCommittedRound, consensusRound, cleanups := 0, 0, [];
    }

    /** The published round becomes the highest committed, and the workers are told of every
        rise. */
    method Run(rounds: seq<nat>)
      requires lastCommittedRound == consensusRound
      modifies this
      ensures lastCommittedRound == consensusRound == Top(rounds, old(consensusRound))
      ensures cleanups == old(cleanups) + Rises(rounds, old(consensusRound))
    {
      assert rounds[0..] == rounds;
      ghost var was, told := consensusRound, cleanups;
      for i := 0 to |rounds|
        invariant lastCommittedRound == consensusRound
        invariant told + Rises(rounds, was) == cleanups + Rises(rounds[i..], consensusRound)
        invariant Top(rounds, was) == Top(rounds[i..], consensusRound)
      {
        var round := rounds[i];
        assert rounds[i..][0] == round && rounds[i..][1..] == rounds[i + 1..];
        if round > lastCommittedRound {
          lastCommittedRound := round;
          consensusRound := round;
          cleanups := cleanups + [round];
        }
      }
    }
  }
}
