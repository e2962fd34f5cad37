/** The hypotheses on all primaries together can be met by runs that commit: authority 2 builds
    the chain, authority 1 takes its certificates and its consensus commits a leader. */
module Witness {
  import opened Types
  import opened Messages
  import opened Aggregators
  import opened Primary
  import opened Certification
  import opened OwnHeaders
  import opened VoteOnce
  import opened Chain
  import opened ChainRun
  import opened EndToEnd
  import Agreement

  /** Authority 2 is handed its next header. */
  function Leading(r: nat): Event {
    Event(OwnHeader(A(r)), {}, 0)
  }

  function Lead(n: nat): seq<Event> {
    seq(n, i requires 0 <= i < n => Leading(i + 1))
  }

  /** Authority 2 after `r` headers: each is certified and offered as the next parent. */
  ghost predicate Built(s: Core, r: nat) {
    && s.gcRound == s.consensusRound == 0
    && (forall h :: h in s.own ==> h.round <= r)
    && (forall q: nat, k :: Entered(s.lastVoted, q, k) ==> q <= r)
    && (forall q :: q in s.counts ==> q <= r)
    && ParentStored(s.store, r + 1)
    && (r > 0 ==> ([A(r).Ref()], r) in s.toProposer)
    && (forall q: nat :: 1 <= q <= r ==> NewVote(A(q), LEAD) in s.cast)
  }

  lemma LeadingIsLegal(genuine: set<Signature>, s: Core, r: nat)
    requires r >= 1 && Built(s, r - 1)
    ensures Legal(Ctx(THREE, LEAD, genuine), s, Leading(r))
  {
    ThreeIsValid();
    ChainIsFine(r);
    assert A(r).author == LEAD && A(r).round == r;
    if r == 1 {
      assert A(1).parents == GENESIS;
    } else {
      assert A(r).parents == [A(r - 1).Ref()];
      assert ([A(r - 1).Ref()], r - 1) in s.toProposer;
    }
    hide A, HeaderOk, NoDup, GenesisParents;
  }

  /** Its own vote is a quorum. */
  lemma Certifies(r: nat)
    ensures AppendVote(THREE, NO_VOTES, NewVote(A(r), LEAD), A(r))
        == (VoteCount(0, Cert(r).votes, {LEAD}), Complete(Cert(r)))
    ensures AppendCert(THREE, NO_CERTIFICATES, Cert(r)) == (CertCount(0, [], {LEAD}), Some([A(r).Ref()]))
  {
    ThreeIsValid();
    assert A(r).author == LEAD;
    hide A, Committee.QuorumThreshold;
    assert THREE.Stake(LEAD) == 5;
    assert [] + [(LEAD, NewVote(A(r), LEAD).signature)] == Cert(r).votes;
    assert [] + [Cert(r).Hash()] == [A(r).Ref()];
    assert {} + {LEAD} == {LEAD};
  }

  /** The header passes and gets the vote of its author. */
  lemma LeadExamines(s: Core, r: nat)
    requires r >= 1 && ParentStored(s.store, r) && !Entered(s.lastVoted, r, LEAD)
    ensures var (t, vote, status) := Examine(THREE, LEAD, {}, s, A(r));
            && vote && status == Fine && Entered(t.processing, r, A(r).id)
            && t == s.(processing := t.processing, headers := s.headers + {A(r)},
                       lastVoted := Enter(s.lastVoted, r, LEAD))
  {
    ChainPass(s.store, r);
    assert A(r).author == LEAD && A(r).round == r;
    hide A, GetParents, CheckParents, ParentStored;
  }

  lemma LeadDelivers(s: Core, r: nat)
    requires r >= 1 && ParentStored(s.store, r) && r !in s.counts
    ensures Deliver(THREE, s, Cert(r)) ==
      (s.(store := s.store[A(r).Ref() := Cert(r)], counts := s.counts[r := CertCount(0, [], {LEAD})],
          toProposer := s.toProposer + [([A(r).Ref()], r)], toConsensus := s.toConsensus + [Cert(r)]), Fine)
  {
    ChainPass(s.store, r);
    Certifies(r);
    assert A(r).round == r && Cert(r).header == A(r);
    hide A, AppendCert, ParentStored, Deliverable;
  }

  /** What the header leaves of the state it met. */
  ghost predicate Led(s: Core, t: Core, r: nat) {
    && t.gcRound == s.gcRound && t.consensusRound == s.consensusRound && t.own == s.own + [A(r)]
    && t.lastVoted == Enter(s.lastVoted, r, LEAD)
    && t.counts == s.counts[r := CertCount(0, [], {LEAD})]
    && t.store == s.store[A(r).Ref() := Cert(r)]
    && t.toProposer == s.toProposer + [([A(r).Ref()], r)]
    && t.cast == s.cast + [NewVote(A(r), LEAD)]
  }

  lemma LeadVotes(s: Core, r: nat)
    requires r >= 1 && ParentStored(s.store, r) && r !in s.counts
    requires s.votes == NO_VOTES && s.current == A(r) && Entered(s.processing, r, A(r).id)
    ensures var v := NewVote(A(r), LEAD);
            ProcessVote(THREE, LEAD, {}, s, v) ==
              Deliver(THREE, s.(votes := VoteCount(0, Cert(r).votes, {LEAD})), Cert(r))
    ensures Deliver(THREE, s.(votes := VoteCount(0, Cert(r).votes, {LEAD})), Cert(r)) ==
      (s.(votes := VoteCount(0, Cert(r).votes, {LEAD}),
          store := s.store[A(r).Ref() := Cert(r)], counts := s.counts[r := CertCount(0, [], {LEAD})],
          toProposer := s.toProposer + [([A(r).Ref()], r)], toConsensus := s.toConsensus + [Cert(r)]), Fine)
  {
    Certifies(r);
    LeadDelivers(s.(votes := VoteCount(0, Cert(r).votes, {LEAD})), r);
    assert A(r).round == r && Cert(r).header == A(r);
    hide A, Cert, Deliver, ParentStored, Entered, AppendVote;
  }

  lemma LeadTakes(s: Core, r: nat)
    requires r >= 1 && ParentStored(s.store, r) && !Entered(s.lastVoted, r, LEAD) && r !in s.counts
    ensures Led(s, ProcessOwnHeader(THREE, LEAD, {}, s, A(r)).0, r)
  {
    var s1 := s.(current := A(r), votes := NO_VOTES, own := s.own + [A(r)]);
    LeadExamines(s1, r);
    Certifies(r);
    assert A(r).author == LEAD && A(r).round == r && Cert(r).header == A(r);
    var s2 := Examine(THREE, LEAD, {}, s1, A(r)).0;
    hide A, Examine, ParentStored, Enter, Entered, ProcessVote, Cert;
    LeadVotes(s2.(cast := s2.cast + [NewVote(A(r), LEAD)]), r);
  }

  lemma LedBuilds(s: Core, t: Core, r: nat)
    requires r >= 1 && Built(s, r - 1) && Led(s, t, r)
    ensures Built(t, r)
  {
    assert A(r).round == r;
    hide A, Cert;
    assert forall q: nat, k :: Entered(t.lastVoted, q, k) ==> Entered(s.lastVoted, q, k) || q == r;
  }

  lemma OwnTurn(c: Committee, me: Key, gcDepth: nat, genuine: set<Signature>, s: Core, h: Header)
    requires ProcessOwnHeader(c, me, {}, s, h).0.consensusRound == 0
    ensures Turn(c, me, gcDepth, genuine, s, Event(OwnHeader(h), {}, 0)).0 == ProcessOwnHeader(c, me, {}, s, h).0
  {
    hide ProcessOwnHeader, From;
  }

  lemma LeadTurns(gcDepth: nat, genuine: set<Signature>, s: Core, r: nat)
    requires r >= 1 && Built(s, r - 1)
    ensures Built(Turn(THREE, LEAD, gcDepth, genuine, s, Leading(r)).0, r)
  {
    LeadTakes(s, r);
    hide A, ProcessOwnHeader, Turn, ParentStored, Entered;
    OwnTurn(THREE, LEAD, gcDepth, genuine, s, A(r));
    LedBuilds(s, ProcessOwnHeader(THREE, LEAD, {}, s, A(r)).0, r);
  }

  lemma LeadSnoc(n: nat)
    requires n >= 1
    ensures Lead(n) == Lead(n - 1) + [Leading(n)]
  {
    hide Leading;
  }

  ghost predicate BuiltRun(x: Ctx, gcDepth: nat, n: nat) {
    && LegalRun(x, gcDepth, Lead(n))
    && Built(RunCore(THREE, LEAD, gcDepth, x.genuine, Lead(n)), n)
  }

  lemma BuildsOne(x: Ctx, gcDepth: nat, n: nat)
    requires x.c == THREE && x.me == LEAD && n >= 1 && BuiltRun(x, gcDepth, n - 1)
    ensures BuiltRun(x, gcDepth, n)
  {
    var s := RunCore(THREE, LEAD, gcDepth, x.genuine, Lead(n - 1));
    LeadSnoc(n);
    hide A, Built, Legal, LegalRun, Turn, Lead, Leading, RunCore;
    assert x == Ctx(THREE, LEAD, x.genuine);
    LeadingIsLegal(x.genuine, s, n);
    LeadTurns(gcDepth, x.genuine, s, n);
    LegalSnoc(x, gcDepth, Lead(n - 1), Leading(n));
    RunSnoc(x, gcDepth, Lead(n - 1), Leading(n));
  }

  /** Authority 2 builds the chain on its own. */
  lemma {:induction false} Builds(x: Ctx, gcDepth: nat, n: nat)
    requires x.c == THREE && x.me == LEAD
    ensures BuiltRun(x, gcDepth, n)
  {
    if n > 0 {
      hide BuiltRun;
      Builds(x, gcDepth, n - 1);
      BuildsOne(x, gcDepth, n);
    }
  }

  /** Without loopbacks nothing is a late rival. */
  lemma NoneReturns(x: Ctx, gcDepth: nat, es: seq<Event>)
    requires forall e :: e in es ==> !e.m.LoopHeader? && !e.m.LoopCertificate?
    ensures RivalFree(x, gcDepth, es)
  {
    hide RunCore, Passes;
    forall i | 0 <= i < |es| ensures !LateRivalAt(x, gcDepth, es, i) {
      assert es[i] in es;
    }
  }

  /** Authorities 1 and 2 are honest. */
  function Honest(gcDepth: nat): World {
    var n := LeaderRound(gcDepth) + 3;
    World(THREE, gcDepth, {ME, LEAD}, map[ME := Feed(n), LEAD := Lead(n)], Signatures(n))
  }

  lemma FromStart(x: Ctx, gcDepth: nat, n: nat)
    requires x.c == THREE && x.me == ME && forall r :: 1 <= r <= n ==> Signature(LEAD, A(r).Ref()) in x.genuine
    ensures LegalRun(x, gcDepth, Feed(n)) && RunCore(THREE, ME, gcDepth, x.genuine, Feed(n)).toConsensus == Certs(n)
  {
    Feeds(x, gcDepth, [], n);
    hide A, Feed, Certs;
    assert [] + Feed(n) == Feed(n);
  }

  lemma HonestRuns(gcDepth: nat, k: Key)
    requires k == ME || k == LEAD
    ensures var w := Honest(gcDepth);
            LegalRun(Of(w, k), gcDepth, w.runs[k]) && RivalFree(Of(w, k), gcDepth, w.runs[k])
  {
    var w, n := Honest(gcDepth), LeaderRound(gcDepth) + 3;
    NoneReturns(Of(w, k), gcDepth, w.runs[k]);
    if k == ME {
      FromStart(Of(w, k), gcDepth, n);
    } else {
      Builds(Of(w, k), gcDepth, n);
    }
    hide A, LegalRun, RivalFree, Feed, Lead, LeaderRound, Fed;
  }

  lemma LeadVoted(gcDepth: nat, sig: Signature)
    requires sig in Honest(gcDepth).genuine
    ensures sig.signer == LEAD && VotedFor(Honest(gcDepth), LEAD, sig.message)
  {
    var n := LeaderRound(gcDepth) + 3;
    var r :| 1 <= r <= n && sig == Signature(LEAD, A(r).Ref());
    Builds(Of(Honest(gcDepth), LEAD), gcDepth, n);
    assert NewVote(A(r), LEAD) in Final(Honest(gcDepth), LEAD).cast;
    hide A, RunCore, LeaderRound, Lead;
    assert NewVote(A(r), LEAD).Hash() == sig.message;
  }

  lemma HonestIsValid(gcDepth: nat)
    ensures Valid(Honest(gcDepth))
  {
    var w := Honest(gcDepth);
    ThreeIsValid();
    THREE.WeightSingletonIn(THREE.names, 0);
    assert Members(THREE.names) - {ME, LEAD} == {0};
    hide Committee.Valid, A, LegalRun, RivalFree, Feed, Lead, Signatures, LeaderRound, VotedFor;
    forall k | k in w.honest ensures LegalRun(Of(w, k), w.gcDepth, w.runs[k])
      && RivalFree(Of(w, k), w.gcDepth, w.runs[k]) {
      HonestRuns(gcDepth, k);
    }
    forall sig | sig in w.genuine && sig.signer in w.honest && sig.message.CertHash?
      ensures VotedFor(w, sig.signer, sig.message) {
      LeadVoted(gcDepth, sig);
    }
  }

  lemma ChainStream(w: World, n: nat)
    requires ME in w.runs && Final(w, ME).toConsensus == Certs(n)
    ensures EndToEnd.Stream(w, ME, (i: nat) => true) == Chain.Stream(n)
  {
    hide A, Final;
  }

  lemma StreamIsChain(gcDepth: nat)
    ensures EndToEnd.Stream(Honest(gcDepth), ME, (i: nat) => true) == Chain.Stream(LeaderRound(gcDepth) + 3)
  {
    var n := LeaderRound(gcDepth) + 3;
    FromStart(Of(Honest(gcDepth), ME), gcDepth, n);
    hide LeaderRound, A, RunCore, Feed, LegalRun, Certs, EndToEnd.Stream, Chain.Stream;
    ChainStream(Honest(gcDepth), n);
  }

  /** For every depth, honest primaries that meet all hypotheses, one of which commits. */
  lemma HonestCommits(gcDepth: nat)
    ensures Valid(Honest(gcDepth))
    ensures var o := Agreement.Run(THREE, THREE.LeaderKey, gcDepth,
        EndToEnd.Stream(Honest(gcDepth), ME, (i: nat) => true));
            o.Some? && o.value.state.lastRound == LeaderRound(gcDepth) && o.value.leaders != []
  {
    hide Valid, Agreement.Run, EndToEnd.Stream, Chain.Stream;
    HonestIsValid(gcDepth);
    ConsensusReaches(gcDepth);
    StreamIsChain(gcDepth);
  }
}
