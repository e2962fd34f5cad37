/** Keys, ideal digests, headers, votes, certificates and the committee, with the
    arithmetic of stake that every quorum argument rests on. */
module Types {
  /** A public key; the source orders keys by their bytes, the model as numbers. */
  type Key = nat

  type BatchDigest = nat

  type WorkerId = nat

  datatype Option<+T> = None | Some(value: T)

  /** Hashing is ideal: a digest is the tuple of the fields that were hashed, so equal
      digests mean equal fields. `Zero` is the default digest of genesis headers. A vote
      and the certificate of the same header hash the same three fields. */
  datatype Digest =
    | Zero
    | HeaderHash(author: Key, round: nat, payload: map<BatchDigest, WorkerId>, parents: seq<Digest>)
    | CertHash(id: Digest, round: nat, origin: Key)

  /** A header. `parents` lists the set of parent digests in its iteration order. */
  datatype Header = Header(
    author: Key,
    round: nat,
    payload: map<BatchDigest, WorkerId>,
    parents: seq<Digest>,
    id: Digest)
  {
    /** The digest of the certificate of this header. */
    function Ref(): Digest {
      CertHash(id, round, author)
    }

    predicate WellId() {
      id == HeaderHash(author, round, payload, parents)
    }
  }

  /** Who leads which round. The ordering theorems hold for every election rule. */
  type Election = nat -> Key

  /** The keys that the digests of a parent list name. */
  function Origins(ps: seq<Digest>): set<Key> {
    set d | d in ps && d.CertHash? :: d.origin
  }

  function Members<T>(s: seq<T>): set<T> {
    set x | x in s
  }

  predicate NoDup<T(==)>(s: seq<T>) {
    forall i, j :: 0 <= i < j < |s| ==> s[i] != s[j]
  }

  function Max(a: nat, b: nat): nat {
    if a < b then b else a
  }

  /** The committee: `names` in increasing order, with their stakes and worker ids. */
  datatype Committee = Committee(names: seq<Key>, stakes: map<Key, nat>, workers: map<Key, set<WorkerId>>) {

    ghost predicate Valid() {
      && |names| > 0
      && (forall i, j :: 0 <= i < j < |names| ==> names[i] < names[j])
      && (forall k :: k in names <==> k in stakes)
    }

    function Stake(k: Key): nat {
      if k in stakes then stakes[k] else 0
    }

    /** The stake that the keys of `s` hold together. */
    ghost function Weight(s: set<Key>): nat {
      WeightIn(names, s)
    }

    ghost function WeightIn(ns: seq<Key>, s: set<Key>): nat {
      if ns == [] then 0
      else (if ns[0] in s then Stake(ns[0]) else 0) + WeightIn(ns[1..], s)
    }

    function Total(): nat {
      TotalIn(names)
    }

    function TotalIn(ns: seq<Key>): nat {
      if ns == [] then 0 else Stake(ns[0]) + TotalIn(ns[1..])
    }

    /** 2f+1 */
    function QuorumThreshold(): nat {
      2 * Total() / 3 + 1
    }

    /** f+1 */
    function ValidityThreshold(): nat {
      (Total() + 2) / 3
    }

    /** The round-robin leader of a round, `keys[coin % size]` with the round as the coin. */
    function LeaderKey(round: nat): Key {
      if |names| == 0 then 0 else names[round % |names|]
    }

    lemma {:induction false} WeightUnionIn(ns: seq<Key>, a: set<Key>, b: set<Key>)
      ensures WeightIn(ns, a + b) + WeightIn(ns, a * b) == WeightIn(ns, a) + WeightIn(ns, b)
      ensures WeightIn(ns, a) <= WeightIn(ns, a + b) <= TotalIn(ns)
    {
      if ns != [] {
        WeightUnionIn(ns[1..], a, b);
      }
    }

    lemma {:induction false} WeightSingletonIn(ns: seq<Key>, k: Key)
      requires forall i, j :: 0 <= i < j < |ns| ==> ns[i] < ns[j]
      ensures WeightIn(ns, {k}) == if k in ns then Stake(k) else 0
    {
      if ns != [] {
        WeightSingletonIn(ns[1..], k);
      }
    }

    lemma {:induction false} WeightEmptyIn(ns: seq<Key>)
      ensures WeightIn(ns, {}) == 0
    {
      if ns != [] {
        WeightEmptyIn(ns[1..]);
      }
    }

    /** The stakes along a list of keys, as the loops of the source add them up. */
    function SumStake(ks: seq<Key>): nat {
      if ks == [] then 0 else Stake(ks[0]) + SumStake(ks[1..])
    }

    /** Over distinct keys the sum is the weight of their set. */
    lemma {:induction false} SumIsWeight(ks: seq<Key>)
      requires Valid() && NoDup(ks)
      ensures SumStake(ks) == Weight(Members(ks))
    {
      if ks == [] {
        WeightEmptyIn(names);
        assert Members(ks) == {};
      } else {
        var t := ks[1..];
        assert forall i, j :: 0 <= i < j < |t| ==> t[i] == ks[i + 1] && t[j] == ks[j + 1];
        SumIsWeight(t);
        var low, all := Members(t), Members(ks);
        assert ks[0] !in low;
        WeightInsert(low, ks[0]);
        assert all == low + {ks[0]} by {
          assert forall k :: k in ks <==> k == ks[0] || k in t;
        }
      }
    }

    /** Keys outside the committee weigh nothing. */
    lemma {:induction false} WeightOfMembers(ns: seq<Key>, a: set<Key>)
      ensures WeightIn(ns, a) == WeightIn(ns, a * Members(ns))
    {
      if ns != [] {
        var here, rest := a * Members(ns), a * Members(ns[1..]);
        WeightOfMembers(ns[1..], a);
        WeightOfMembers(ns[1..], here);
        assert here * Members(ns[1..]) == rest;
      }
    }

    /** Weight is monotone and never exceeds the total. */
    lemma WeightMonotone(a: set<Key>, b: set<Key>)
      requires a <= b
      ensures Weight(a) <= Weight(b) <= Total()
    {
      assert a + b == b;
      WeightUnionIn(names, a, b);
    }

    /** A new key adds exactly its stake. */
    lemma WeightInsert(a: set<Key>, k: Key)
      requires Valid() && k !in a
      ensures Weight(a + {k}) == Weight(a) + Stake(k)
    {
      WeightUnionIn(names, a, {k});
      WeightSingletonIn(names, k);
      assert a * {k} == {};
      WeightEmptyIn(names);
    }

    /** With 3f + 1 + k of the stake in all, k less than 3, a quorum is all but f and a validity
        set has f + 1. */
    lemma Thresholds(f: nat, k: nat)
      requires Total() == 3 * f + 1 + k && k < 3
      ensures QuorumThreshold() == Total() - f && ValidityThreshold() == f + 1
    {}

    /** A quorum and a validity set always share a key; in particular a quorum is not empty. */
    lemma QuorumMeetsValidity(a: set<Key>, b: set<Key>)
      requires Weight(a) >= QuorumThreshold() && Weight(b) >= ValidityThreshold()
      ensures a * b != {}
    {
      WeightUnionIn(names, a, b);
      if a * b == {} {
        WeightEmptyIn(names);
        assert false;
      }
    }

    lemma QuorumNotEmpty(a: set<Key>)
      requires Weight(a) >= QuorumThreshold()
      ensures a != {}
    {
      WeightEmptyIn(names);
    }

    /** Two quorums overlap in at least a validity threshold of stake. */
    lemma QuorumsOverlap(a: set<Key>, b: set<Key>)
      requires Weight(a) >= QuorumThreshold() && Weight(b) >= QuorumThreshold()
      ensures Weight(a * b) >= ValidityThreshold()
    {
      WeightUnionIn(names, a, b);
    }
  }
}
