/** A small committee in which one authority holds a quorum, and its chain of certificates: a
    primary that takes the certificates hands them to its consensus, which commits, and only
    then may the primary read the round that consensus has reached. */
module Chain {
  import opened Types
  import opened Messages
  import opened Primary
  import DagTheory
  import Ordering
  import Agreement
  import Reference

  const WORKERS: map<Key, set<WorkerId>> := map[0 := {0}, 1 := {0}, 2 := {0}]
  const THREE := Committee([0, 1, 2], map[0 := 1, 1 := 1, 2 := 5], WORKERS)
  /** Authority 2 holds the quorum; 1 is the primary looked at; 0 need not be honest. */
  const LEAD: Key := 2
  const ME: Key := 1
  const GENESIS: seq<Digest> := [GenesisRef(0), GenesisRef(1), GenesisRef(2)]

  /** The header of round `r` of the chain. */
  function A(r: nat): Header {
    var ps := if r <= 1 then GENESIS else [A(r - 1).Ref()];
    Header(LEAD, r, map[], ps, HeaderHash(LEAD, r, map[], ps))
  }

  function Cert(r: nat): Certificate {
    Certificate(A(r), [(LEAD, Signature(LEAD, A(r).Ref()))])
  }

  // ----- The committee

  lemma ThreeIsValid()
    ensures THREE.Valid() && THREE.QuorumThreshold() == 5 && THREE.ValidityThreshold() == 3
    ensures GenesisParents(THREE) == GENESIS
  {
    var ns := THREE.names;
    assert ns[1..] == [1, 2] && ns[1..][1..] == [2];
    assert THREE.TotalIn([2]) == 5;
    assert THREE.TotalIn([1, 2]) == 6;
    assert THREE.Total() == 7;
  }

  lemma LeadWeighs(s: set<Key>)
    requires LEAD in s
    ensures THREE.Weight(s) >= 5
  {
    ThreeIsValid();
    THREE.WeightSingletonIn(THREE.names, LEAD);
    THREE.WeightMonotone({LEAD}, s);
  }

  lemma GenesisStakes()
    ensures THREE.SumStake([0, 1, 2]) == 7 && THREE.SumStake([2]) == 5
  {
    assert [0, 1, 2][1..] == [1, 2] && [1, 2][1..] == [2];
    assert THREE.SumStake([2]) == 5;
    assert THREE.SumStake([1, 2]) == 6;
  }

  // ----- Headers on the chain's parents

  /** Genesis parents are always at hand. */
  lemma {:induction false} GenesisAtHand(c: Committee, store: map<Digest, Certificate>, ps: seq<Digest>)
    requires forall d :: d in ps ==> IsGenesisRef(c, d)
    ensures GetParents(c, store, ps).Some?
    ensures var hs := GetParents(c, store, ps).value;
            |hs| == |ps| && forall i :: 0 <= i < |ps| ==> ps[i].CertHash? && hs[i] == Ordering.Genesis(ps[i].origin)
  {
    if ps != [] {
      assert ps[0] in ps;
      GenesisAtHand(c, store, ps[1..]);
    }
  }

  /** A header of round 1 on all genesis certificates passes the parent check. */
  lemma GenesisPass(store: map<Digest, Certificate>, h: Header)
    requires h.round == 1 && h.parents == GENESIS
    ensures var o := GetParents(THREE, store, h.parents);
            o.Some? && o.value != [] && CheckParents(THREE, o.value, h).None?
  {
    ThreeIsValid();
    GenesisAtHand(THREE, store, GENESIS);
    var ps := GetParents(THREE, store, GENESIS).value;
    hide GetParents, Committee.TotalIn, Committee.SumStake;
    assert Authors(ps) == [0, 1, 2];
    GenesisStakes();
  }

  ghost predicate ParentStored(store: map<Digest, Certificate>, r: nat) {
    r <= 1 || (A(r - 1).Ref() in store && store[A(r - 1).Ref()] == Cert(r - 1))
  }

  lemma ParentAtHand(store: map<Digest, Certificate>, r: nat)
    requires r >= 2 && ParentStored(store, r)
    ensures GetParents(THREE, store, A(r).parents) == Some([A(r - 1)])
    ensures Deliverable(THREE, store, A(r).parents)
  {
    var d := A(r - 1).Ref();
    assert A(r).parents == [d] && store[d].header == A(r - 1);
    hide A;
    assert [d][1..] == [];
    assert GetParents(THREE, store, []) == Some([]);
    assert [A(r - 1)] + [] == [A(r - 1)];
  }

  lemma ParentChecks(r: nat)
    requires r >= 2
    ensures CheckParents(THREE, [A(r - 1)], A(r)).None?
  {
    ThreeIsValid();
    GenesisStakes();
    hide Committee.TotalIn, Committee.SumStake;
    assert Authors([A(r - 1)]) == [2] && A(r - 1).round + 1 == A(r).round;
    hide A;
  }

  lemma ChainPass(store: map<Digest, Certificate>, r: nat)
    requires r >= 1 && ParentStored(store, r)
    ensures var o := GetParents(THREE, store, A(r).parents);
            o.Some? && o.value != [] && CheckParents(THREE, o.value, A(r)).None?
    ensures Deliverable(THREE, store, A(r).parents)
  {
    if r == 1 {
      GenesisPass(store, A(1));
    } else {
      ParentAtHand(store, r);
      ParentChecks(r);
      hide A, GetParents, CheckParents, ParentStored;
    }
  }

  lemma ChainIsFine(r: nat)
    requires r >= 1
    ensures HeaderOk(THREE, A(r)) && NoDup(A(r).parents)
  {}

  lemma CertVerifies(genuine: set<Signature>, r: nat)
    requires r >= 1 && Signature(LEAD, A(r).Ref()) in genuine
    ensures CertificateOk(THREE, genuine, Cert(r))
  {
    ThreeIsValid();
    ChainIsFine(r);
    hide HeaderOk, A;
    assert Cert(r).Voters() == [LEAD];
    assert LEAD in Members([LEAD]);
    LeadWeighs(Members([LEAD]));
  }

  // ----- Consensus on the chain

  function Stream(n: nat): seq<Agreement.Delivery> {
    seq(n, i requires 0 <= i < n => Agreement.Delivery(A(i + 1), true))
  }

  function Headers(n: nat): set<Header> {
    set i | 1 <= i <= n :: A(i)
  }

  lemma HeadersAreGood(n: nat, r: nat)
    requires 1 <= r <= n
    ensures DagTheory.GoodHeader(THREE, Headers(n), A(r))
  {
    var h := A(r);
    forall d | d in h.parents ensures DagTheory.GoodParent(Headers(n), h, d) {
      if r > 1 {
        assert A(r - 1) in Headers(n);
      }
    }
    ThreeIsValid();
    assert (if r == 1 then GenesisRef(LEAD) else A(r - 1).Ref()) in h.parents;
    assert LEAD in Origins(h.parents);
    LeadWeighs(Origins(h.parents));
  }

  lemma ChainIsWellFormed(n: nat)
    ensures DagTheory.WellFormed(THREE, Headers(n))
  {
    ThreeIsValid();
    forall h | h in Headers(n) ensures DagTheory.GoodHeader(THREE, Headers(n), h) {
      var r :| 1 <= r <= n && h == A(r);
      HeadersAreGood(n, r);
    }
    forall h, k | h in Headers(n) && k in Headers(n) && DagTheory.SameSlot(h, k) ensures h == k {
      var r :| 1 <= r <= n && h == A(r);
      var q :| 1 <= q <= n && k == A(q);
      assert A(r).round == r && A(q).round == q;
    }
  }

  lemma StreamReceived(n: nat, i: nat)
    requires i <= n
    ensures Agreement.Received(Stream(n)[..i]) == Headers(i)
  {
    var ds := Stream(n)[..i];
    forall h ensures h in Agreement.Received(ds) <==> h in Headers(i) {
      if h in Agreement.Received(ds) {
        var j :| 0 <= j < i && ds[j].h.round >= 1 && ds[j].h == h;
        assert h == A(j + 1);
      }
      if h in Headers(i) {
        var r :| 1 <= r <= i && h == A(r);
        assert ds[r - 1].h == A(r) && A(r).round == r;
      }
    }
  }

  lemma OnlyParent(n: nat, r: nat)
    requires 1 <= r <= n
    ensures A(r).author in THREE.names
    ensures forall p :: p in Headers(n) && DagTheory.Parent(A(r), p) ==> p in Headers(r - 1)
  {
    forall p | p in Headers(n) && DagTheory.Parent(A(r), p) ensures p in Headers(r - 1) {
      var q :| 1 <= q <= n && p == A(q);
      assert A(q).round == q && A(r).round == r;
    }
  }

  lemma StreamIsCausal(n: nat)
    ensures Agreement.Causal(THREE, Headers(n), Stream(n))
  {
    forall i | 0 <= i < n ensures Agreement.CausalAt(THREE, Headers(n), Stream(n), i) {
      StreamReceived(n, i);
      OnlyParent(n, i + 1);
      assert A(i + 1) in Headers(n);
      hide A, Agreement.Received;
    }
  }

  /** A round that authority 2 leads, more than `gcDepth` above round 1. */
  function LeaderRound(gcDepth: nat): nat {
    if gcDepth == 0 then 2 else LeaderRound(gcDepth - 1) + 6
  }

  lemma {:induction false} Leads(gcDepth: nat)
    ensures var l := LeaderRound(gcDepth);
            l % 3 == 2 && l % 2 == 0 && l >= gcDepth + 2 && THREE.LeaderKey(l) == LEAD
  {
    if gcDepth > 0 {
      Leads(gcDepth - 1);
    }
  }

  lemma TopRounds(n: nat)
    requires n >= 1
    ensures |Stream(n)| == n && Stream(n)[n - 1] == Agreement.Delivery(A(n), true)
    ensures forall i :: 0 <= i < n ==> Stream(n)[i].h.round <= n
    ensures A(n).round == n && A(n).author == LEAD
  {
    forall i | 0 <= i < n ensures Stream(n)[i].h.round <= n {
      assert A(i + 1).round == i + 1;
    }
  }

  lemma LeaderBacked(n: nat, l: nat)
    requires 1 <= l && l + 1 <= n
    ensures A(l) in Headers(n) && THREE.Weight(DagTheory.Supporters(Headers(n), A(l))) >= THREE.ValidityThreshold()
  {
    ThreeIsValid();
    assert A(l + 1) in Headers(n) && A(l) in Headers(n);
    assert A(l).round == l && A(l + 1).round == l + 1 && A(l).Ref() in A(l + 1).parents && A(l + 1).author == LEAD;
    assert DagTheory.Parent(A(l + 1), A(l));
    hide A, Headers, Committee.QuorumThreshold, Committee.TotalIn;
    LeadWeighs(DagTheory.Supporters(Headers(n), A(l)));
  }

  /** Fed with the chain up to three rounds above a leader of authority 2, consensus has reached
      exactly the round of that leader. */
  lemma ConsensusReaches(gcDepth: nat)
    ensures var o := Agreement.Run(THREE, THREE.LeaderKey, gcDepth, Stream(LeaderRound(gcDepth) + 3));
            o.Some? && o.value.state.lastRound == LeaderRound(gcDepth) && o.value.leaders != []
  {
    hide *;
    var l := LeaderRound(gcDepth);
    var n := l + 3;
    Leads(gcDepth);
    ChainIsWellFormed(n);
    StreamIsCausal(n);
    StreamReceived(n, n - 1);
    TopRounds(n);
    TopRounds(l);
    LeaderBacked(n - 1, l);
    Reference.ReachesExactly(THREE, THREE.LeaderKey, Headers(n), gcDepth, Stream(n), A(l));
  }
}
