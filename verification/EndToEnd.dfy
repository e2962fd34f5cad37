/** All primaries together, up to a validity threshold of them arbitrary: certificates are
    unique, the certified headers form a well-formed DAG, every honest primary feeds its
    consensus causally, and so all honest replicas agree. */
module EndToEnd {
  import opened Types
  import opened Messages
  import opened Aggregators
  import opened Primary
  import opened Certification
  import opened OwnHeaders
  import opened VoteOnce
  import DagTheory
  import Agreement
  import Outputs
  import Views

  /** The runs of the honest primaries and all the signatures that ever existed. What the
      other primaries do shows only in the messages and in the signatures. */
  datatype World = World(
    c: Committee,
    gcDepth: nat,
    honest: set<Key>,
    runs: map<Key, seq<Event>>,
    genuine: set<Signature>)

  function Of(w: World, k: Key): Ctx {
    Ctx(w.c, k, w.genuine)
  }

  ghost function Final(w: World, k: Key): Core
    requires k in w.runs
  {
    RunCore(w.c, k, w.gcDepth, w.genuine, w.runs[k])
  }

  ghost predicate VotedFor(w: World, k: Key, d: Digest)
    requires k in w.runs
  {
    exists v :: v in Final(w, k).cast && v.Hash() == d
  }

  /** Less than a validity threshold of stake is not honest; honest primaries run the code on
      legal events, none of which is a late rival; and their vote signatures come from their own
      votes. */
  ghost predicate Valid(w: World) {
    && w.c.Valid()
    && w.honest <= Members(w.c.names) && w.honest <= w.runs.Keys
    && w.c.Weight(Members(w.c.names) - w.honest) < w.c.ValidityThreshold()
    && (forall k {:trigger Of(w, k)} :: k in w.honest ==>
          LegalRun(Of(w, k), w.gcDepth, w.runs[k]) && RivalFree(Of(w, k), w.gcDepth, w.runs[k]))
    && (forall sig {:trigger sig in w.genuine} ::
          sig in w.genuine && sig.signer in w.honest && sig.message.CertHash? ==>
          VotedFor(w, sig.signer, sig.message))
  }

  lemma FinalInv(w: World, k: Key)
    requires Valid(w) && k in w.honest
    ensures Inv(Of(w, k), Final(w, k))
  {
    RunReaches(Of(w, k), w.gcDepth, w.runs[k]);
  }

  /** A validity threshold of stake always has an honest member. */
  lemma HonestMember(w: World, a: set<Key>) returns (k: Key)
    requires Valid(w) && w.c.Weight(a) >= w.c.ValidityThreshold()
    ensures k in a && k in w.honest
  {
    if a * w.honest == {} {
      forall x | x in a * Members(w.c.names) ensures x in Members(w.c.names) - w.honest {
        assert x !in a * w.honest;
      }
      w.c.WeightOfMembers(w.c.names, a);
      w.c.WeightMonotone(a * Members(w.c.names), Members(w.c.names) - w.honest);
      assert false;
    }
    k :| k in a * w.honest;
  }

  /** Whatever an honest primary counts as a signature of an honest voter is a vote. */
  lemma EntryIsVote(w: World, k: Key, d: Digest, e: (Key, Signature))
    requires Valid(w) && k in w.honest && e.0 in w.honest && d.CertHash?
    requires EntryOk(Of(w, k), Final(w, k).cast, d, e)
    ensures VotedFor(w, e.0, d)
  {
    FinalInv(w, k);
    if e.1 !in w.genuine {
      var v :| v in Final(w, k).cast && v.signature == e.1;
      assert v.Hash() == d;
    }
  }

  /** Vote once: an honest primary never votes for two headers of one author and round. */
  lemma VotesOnce(w: World, k: Key, d: Digest, e: Digest)
    requires Valid(w) && k in w.honest && VotedFor(w, k, d) && VotedFor(w, k, e)
    requires d.CertHash? && e.CertHash? && d.round == e.round && d.origin == e.origin
    ensures d == e
  {
    RunVotesExactly(Of(w, k), w.gcDepth, w.runs[k]);
    var v :| v in Final(w, k).cast && v.Hash() == d;
    var u :| u in Final(w, k).cast && u.Hash() == e;
    assert v.id == u.id;
  }

  lemma VoterEntry(cert: Certificate, k: Key) returns (e: (Key, Signature))
    requires k in cert.Voters()
    ensures e in cert.votes && e.0 == k
  {
    var i :| 0 <= i < |cert.Voters()| && cert.Voters()[i] == k;
    e := cert.votes[i];
  }

  lemma BackedVoter(w: World, k: Key, cert: Certificate, voter: Key)
    requires Valid(w) && k in w.honest && Backed(Of(w, k), Final(w, k).cast, cert)
    requires voter in w.honest && voter in Members(cert.Voters())
    ensures VotedFor(w, voter, cert.Hash())
  {
    var e := VoterEntry(cert, voter);
    EntryIsVote(w, k, cert.Hash(), e);
  }

  lemma CheckedHasParent(x: Ctx, store: map<Digest, Certificate>, h: Header)
    requires Checked(x, store, h)
    ensures h.parents != [] && h.round >= 1
  {
    assert OriginsOf([]) == [] && x.c.SumStake([]) == 0;
    assert h.parents != [];
    assert ParentChecked(x, store, h, h.parents[0]);
  }

  /** A backed certificate's header was checked by an honest voter. */
  lemma BackedIsChecked(w: World, k: Key, cert: Certificate) returns (j: Key)
    requires Valid(w) && k in w.honest && Sound(Of(w, k), Final(w, k).cast, cert)
    requires !IsGenesisRef(w.c, cert.Hash())
    ensures j in w.honest && Checked(Of(w, j), Final(w, j).store, cert.header)
    ensures cert.header.round >= 1
  {
    j := HonestMember(w, Members(cert.Voters()));
    BackedVoter(w, k, cert, j);
    FinalInv(w, j);
    hide Final, StoreInv, CountingInv, WaitingInv, ProposingInv, OwnInv, Backed, Valid;
    var v :| v in Final(w, j).cast && v.Hash() == cert.Hash();
    var h :| h in Final(w, j).headers && VoteFor(v, h);
    assert Checked(Of(w, j), Final(w, j).store, h);
    CheckedHasParent(Of(w, j), Final(w, j).store, h);
  }

  /** Certificate uniqueness: any two certificates that honest primaries accept for one author
      and round have the same digest, and above genesis the same header. */
  lemma CertificatesUnique(w: World, k: Key, k': Key, cert: Certificate, cert': Certificate)
    requires Valid(w) && k in w.honest && k' in w.honest
    requires Sound(Of(w, k), Final(w, k).cast, cert) && Sound(Of(w, k'), Final(w, k').cast, cert')
    requires cert.header.round == cert'.header.round && cert.header.author == cert'.header.author
    ensures cert.Hash() == cert'.Hash()
    ensures cert.header.round >= 1 ==> cert.header == cert'.header
  {
    if !IsGenesisRef(w.c, cert.Hash()) || !IsGenesisRef(w.c, cert'.Hash()) {
      if !IsGenesisRef(w.c, cert.Hash()) {
        var j := BackedIsChecked(w, k, cert);
      }
      if !IsGenesisRef(w.c, cert'.Hash()) {
        var j' := BackedIsChecked(w, k', cert');
      }
      w.c.QuorumsOverlap(Members(cert.Voters()), Members(cert'.Voters()));
      var v := HonestMember(w, Members(cert.Voters()) * Members(cert'.Voters()));
      BackedVoter(w, k, cert, v);
      BackedVoter(w, k', cert', v);
      VotesOnce(w, v, cert.Hash(), cert'.Hash());
    }
  }

  /** In particular for certificates that verify. */
  lemma VerifiedUnique(w: World, cert: Certificate, cert': Certificate)
    requires Valid(w) && CertificateOk(w.c, w.genuine, cert) && CertificateOk(w.c, w.genuine, cert')
    requires cert.header.round == cert'.header.round && cert.header.author == cert'.header.author
    ensures cert.header.id == cert'.header.id
  {
    w.c.WeightMonotone({}, Members(w.c.names));
    if !IsGenesisRef(w.c, cert.Hash()) || !IsGenesisRef(w.c, cert'.Hash()) {
      var quorum := if !IsGenesisRef(w.c, cert.Hash()) then cert else cert';
      var k := HonestMember(w, Members(quorum.Voters()));
      CertificatesUnique(w, k, k, cert, cert');
    }
  }

  // ----- The DAG

  /** All headers above genesis that honest primaries handed to their consensus. */
  ghost function Dag(w: World): set<Header>
    requires w.honest <= w.runs.Keys
  {
    set k, i | k in w.honest && 0 <= i < |Final(w, k).toConsensus| && Final(w, k).toConsensus[i].header.round >= 1
      :: Final(w, k).toConsensus[i].header
  }

  lemma DagMember(w: World, h: Header) returns (k: Key, i: nat)
    requires Valid(w) && h in Dag(w)
    ensures k in w.honest && i < |Final(w, k).toConsensus| && Final(w, k).toConsensus[i].header == h
    ensures Sound(Of(w, k), Final(w, k).cast, Final(w, k).toConsensus[i])
  {
    var k', i' :| k' in w.honest && 0 <= i' < |Final(w, k').toConsensus|
      && Final(w, k').toConsensus[i'].header.round >= 1
                  && Final(w, k').toConsensus[i'].header == h;
    k, i := k', i';
    FinalInv(w, k);
  }

  lemma AcceptedParent(w: World, j: Key, d: Digest) returns (cert: Certificate)
    requires Valid(w) && j in w.honest && (IsGenesisRef(w.c, d) || d in Final(w, j).store)
    ensures cert.Hash() == d && Sound(Of(w, j), Final(w, j).cast, cert)
  {
    FinalInv(w, j);
    var s := Final(w, j);
    if IsGenesisRef(w.c, d) {
      cert := Certificate(Header(d.origin, 0, map[], [], Zero), []);
    } else {
      cert := s.store[d];
      var i :| 0 <= i < |s.toConsensus| && s.toConsensus[i] == cert;
    }
  }

  /** Two accepted parents of one round by one author are the same digest. */
  lemma ParentsDistinct(w: World, j: Key, h: Header, d: Digest, e: Digest)
    requires Valid(w) && j in w.honest && Checked(Of(w, j), Final(w, j).store, h)
    requires d in h.parents && e in h.parents && d.origin == e.origin
    requires d.CertHash? && e.CertHash?
    ensures d == e
  {
    FinalInv(w, j);
    var s := Final(w, j);
    assert ParentChecked(Of(w, j), s.store, h, d) && ParentChecked(Of(w, j), s.store, h, e);
    var a := AcceptedParent(w, j, d);
    var b := AcceptedParent(w, j, e);
    CertificatesUnique(w, j, j, a, b);
  }

  lemma InDag(w: World, k: Key, i: nat)
    requires Valid(w) && k in w.honest && i < |Final(w, k).toConsensus|
    ensures Final(w, k).toConsensus[i].header.round >= 1 ==> Final(w, k).toConsensus[i].header in Dag(w)
  {
    hide Final;
  }

  lemma ParentInDag(w: World, j: Key, h: Header, d: Digest)
    requires Valid(w) && j in w.honest && Checked(Of(w, j), Final(w, j).store, h) && d in h.parents
    ensures DagTheory.GoodParent(Dag(w), h, d)
  {
    FinalInv(w, j);
    hide Final, Dag, VotingInv, CountingInv, WaitingInv, ProposingInv, OwnInv, Sound, HeaderFine;
    var s := Final(w, j);
    assert ParentChecked(Of(w, j), s.store, h, d);
    if d.round >= 1 {
      assert s.store[d] in s.toConsensus;
      var n :| 0 <= n < |s.toConsensus| && s.toConsensus[n] == s.store[d];
      InDag(w, j, n);
    }
  }

  lemma DagMemberIsGood(w: World, h: Header)
    requires Valid(w) && h in Dag(w)
    ensures DagTheory.GoodHeader(w.c, Dag(w), h)
  {
    var k, i := DagMember(w, h);
    var j := BackedIsChecked(w, k, Final(w, k).toConsensus[i]);
    hide Final, Dag, Sound, DagTheory.GoodParent, IsGenesisRef;
    forall d | d in h.parents ensures DagTheory.GoodParent(Dag(w), h, d) && d.CertHash? {
      ParentInDag(w, j, h, d);
      assert ParentChecked(Of(w, j), Final(w, j).store, h, d);
    }
    forall d, e | d in h.parents && e in h.parents && d.origin == e.origin ensures d == e {
      ParentsDistinct(w, j, h, d, e);
    }
    SumOfParents(w.c, h.parents);
  }

  /** The certification layer delivers what the ordering engine assumes: one header per author
      and round, parents one round below with a quorum, all of them in the DAG. */
  lemma DagIsWellFormed(w: World)
    requires Valid(w)
    ensures DagTheory.WellFormed(w.c, Dag(w))
  {
    forall h | h in Dag(w) ensures DagTheory.GoodHeader(w.c, Dag(w), h) {
      DagMemberIsGood(w, h);
    }
    forall h, k | h in Dag(w) && k in Dag(w) && DagTheory.SameSlot(h, k) ensures h == k {
      var a, i := DagMember(w, h);
      var b, j := DagMember(w, k);
      CertificatesUnique(w, a, b, Final(w, a).toConsensus[i], Final(w, b).toConsensus[j]);
    }
  }

  /** What a primary's consensus receives, with arbitrary direct-commit verdicts. */
  ghost function Stream(w: World, k: Key, verdict: nat -> bool): seq<Agreement.Delivery>
    requires k in w.runs
  {
    seq(|Final(w, k).toConsensus|, i requires 0 <= i < |Final(w, k).toConsensus| =>
      Agreement.Delivery(Final(w, k).toConsensus[i].header, verdict(i)))
  }

  lemma GenesisAuthor(w: World, k: Key, cert: Certificate)
    requires Valid(w) && k in w.honest && Sound(Of(w, k), Final(w, k).cast, cert) && cert.header.round == 0
    ensures cert.header.author in w.c.names
  {
    if !IsGenesisRef(w.c, cert.Hash()) {
      var j := BackedIsChecked(w, k, cert);
    }
  }

  lemma DagAuthor(w: World, p: Header)
    requires Valid(w) && p in Dag(w)
    ensures p.round >= 1
  {}

  lemma EarlierHash(w: World, k: Key, i: nat, p: Header) returns (j: nat)
    requires Valid(w) && k in w.honest && i < |Final(w, k).toConsensus| && p in Dag(w)
    requires DagTheory.Parent(Final(w, k).toConsensus[i].header, p)
    ensures j < i && Final(w, k).toConsensus[j].Hash() == p.Ref()
  {
    DagAuthor(w, p);
    FinalInv(w, k);
    hide Final, Dag, VotingInv, CountingInv, WaitingInv, ProposingInv, OwnInv, Sound, HeaderFine;
    var out := Final(w, k).toConsensus;
    assert Ordered(w.c, out, i);
    assert !IsGenesisRef(w.c, p.Ref());
    var j' :| 0 <= j' < i && out[j'].Hash() == p.Ref();
    j := j';
  }

  lemma SlotsUnique(w: World, h: Header, k: Header)
    requires Valid(w) && h in Dag(w) && k in Dag(w) && h.round == k.round && h.author == k.author
    ensures h == k
  {
    DagIsWellFormed(w);
    hide Dag;
    assert DagTheory.SameSlot(h, k);
  }

  /** A parent in the DAG of a delivered certificate was delivered before. */
  lemma ParentDelivered(w: World, k: Key, i: nat, p: Header) returns (j: nat)
    requires Valid(w) && k in w.honest && i < |Final(w, k).toConsensus|
    requires p in Dag(w) && DagTheory.Parent(Final(w, k).toConsensus[i].header, p)
    ensures j < i && Final(w, k).toConsensus[j].header == p
  {
    hide Final, Dag;
    var out := Final(w, k).toConsensus;
    j := EarlierHash(w, k, i, p);
    DagAuthor(w, p);
    InDag(w, k, j);
    SlotsUnique(w, out[j].header, p);
  }

  lemma StreamAt(w: World, k: Key, verdict: nat -> bool, i: nat)
    requires Valid(w) && k in w.honest && i < |Final(w, k).toConsensus|
    ensures |Stream(w, k, verdict)| == |Final(w, k).toConsensus|
    ensures Stream(w, k, verdict)[i].h == Final(w, k).toConsensus[i].header
    ensures forall j :: 0 <= j < i && Final(w, k).toConsensus[j].header.round >= 1 ==>
              Final(w, k).toConsensus[j].header in Agreement.Received(Stream(w, k, verdict)[..i])
  {
    hide Final;
    var ds, out := Stream(w, k, verdict), Final(w, k).toConsensus;
    forall j | 0 <= j < i && out[j].header.round >= 1 ensures out[j].header in Agreement.Received(ds[..i]) {
      assert ds[..i][j].h == out[j].header;
    }
  }

  lemma SoundDelivery(w: World, k: Key, i: nat)
    requires Valid(w) && k in w.honest && i < |Final(w, k).toConsensus|
    ensures Sound(Of(w, k), Final(w, k).cast, Final(w, k).toConsensus[i])
  {
    FinalInv(w, k);
    hide Final, Sound, VotingInv, CountingInv, WaitingInv, ProposingInv, OwnInv;
  }

  lemma DeliveryAdmissible(w: World, k: Key, verdict: nat -> bool, i: nat)
    requires Valid(w) && k in w.honest && i < |Final(w, k).toConsensus|
    ensures Views.Admissible(w.c, Dag(w), Agreement.Received(Stream(w, k, verdict)[..i]),
        Final(w, k).toConsensus[i].header)
  {
    hide Final, Dag, Sound, Stream, Agreement.Received;
    var cert := Final(w, k).toConsensus[i];
    StreamAt(w, k, verdict, i);
    SoundDelivery(w, k, i);
    InDag(w, k, i);
    if cert.header.round >= 1 {
      DagIsWellFormed(w);
      assert DagTheory.GoodHeader(w.c, Dag(w), cert.header);
      forall p | p in Dag(w) && DagTheory.Parent(cert.header, p)
        ensures p in Agreement.Received(Stream(w, k, verdict)[..i])
      {
        var j := ParentDelivered(w, k, i, p);
        DagAuthor(w, p);
      }
    } else {
      GenesisAuthor(w, k, cert);
    }
  }

  /** Causal delivery: every certificate reaches consensus after all its parents. */
  lemma StreamIsCausal(w: World, k: Key, verdict: nat -> bool)
    requires Valid(w) && k in w.honest
    ensures Agreement.Causal(w.c, Dag(w), Stream(w, k, verdict))
  {
    hide Final, Dag, Views.Admissible, Agreement.Received;
    var ds := Stream(w, k, verdict);
    forall i | 0 <= i < |ds| ensures Agreement.CausalAt(w.c, Dag(w), ds, i) {
      DeliveryAdmissible(w, k, verdict, i);
    }
  }

  /** All honest replicas agree on the leaders, with no panic, whatever the others do. */
  lemma HonestAgreement(w: World, who: Election, j: Key, k: Key, verdict: nat -> bool, verdict': nat -> bool)
    requires Valid(w) && j in w.honest && k in w.honest
    ensures var a := Agreement.Run(w.c, who, w.gcDepth, Stream(w, j, verdict));
            var b := Agreement.Run(w.c, who, w.gcDepth, Stream(w, k, verdict'));
            a.Some? && b.Some? && (a.value.leaders <= b.value.leaders || b.value.leaders <= a.value.leaders)
  {
    DagIsWellFormed(w);
    StreamIsCausal(w, j, verdict);
    StreamIsCausal(w, k, verdict');
    Agreement.LeaderAgreement(w.c, who, Dag(w), w.gcDepth, w.gcDepth, Stream(w, j, verdict), Stream(w, k, verdict'));
  }

  /** If moreover each of their commits is clean, for which it suffices that their consensus gets
      no stale certificate, they agree on the whole output, which repeats nothing and puts
      parents first. */
  lemma HonestOutputAgreement(w: World, who: Election, j: Key, k: Key, verdict: nat -> bool, verdict': nat -> bool)
    requires Valid(w) && j in w.honest && k in w.honest
    requires Agreement.CleanRun(w.c, who, w.gcDepth, Stream(w, j, verdict))
    requires Agreement.CleanRun(w.c, who, w.gcDepth, Stream(w, k, verdict'))
    ensures var a := Agreement.Run(w.c, who, w.gcDepth, Stream(w, j, verdict));
            var b := Agreement.Run(w.c, who, w.gcDepth, Stream(w, k, verdict'));
            Outputs.OutputsAgree(a, b) && NoDup(a.value.out) && Outputs.ParentsBefore(a.value.out)
  {
    DagIsWellFormed(w);
    StreamIsCausal(w, j, verdict);
    StreamIsCausal(w, k, verdict');
    Outputs.FlattenedAgreement(w.c, who, Dag(w), w.gcDepth, Stream(w, j, verdict), Stream(w, k, verdict'));
    Outputs.CleanOutput(w.c, who, Dag(w), w.gcDepth, Stream(w, j, verdict));
  }
}
