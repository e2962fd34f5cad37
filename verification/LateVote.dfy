/** A legal run in which an `expect` of an honest primary fails: its header is collected before
    the vote that completes the certificate arrives. The run is in step with the primary's own
    consensus. */
module LateVote {
  import opened Types
  import opened Messages
  import opened Aggregators
  import opened Primary
  import opened Certification
  import opened OwnHeaders
  import opened Panics
  import opened Chain
  import opened ChainRun

  /** The header that the primary, authority 1, proposes in round 1. */
  const OWN := Header(ME, 1, map[], GENESIS, HeaderHash(ME, 1, map[], GENESIS))

  function VoteOf(k: Key): Vote {
    Vote(OWN.id, 1, ME, k, Signature(k, OWN.Ref()))
  }

  function Y(gcDepth: nat): Ctx {
    Ctx(THREE, ME, Signatures(LeaderRound(gcDepth) + 3) + {Signature(0, OWN.Ref()), Signature(2, OWN.Ref())})
  }

  const PROPOSES := Event(OwnHeader(OWN), {}, 0)

  function Arrives(gcDepth: nat, k: Key): Event {
    Event(NetVote(VoteOf(k)), {}, LeaderRound(gcDepth))
  }

  /** Its header; the chain, on which consensus commits; a first vote. */
  function Votes(gcDepth: nat): seq<Event> {
    [PROPOSES] + Feed(LeaderRound(gcDepth) + 3) + [Arrives(gcDepth, 0)]
  }

  ghost function State(gcDepth: nat, es: seq<Event>): Core {
    RunCore(THREE, ME, gcDepth, Y(gcDepth).genuine, es)
  }

  lemma OwnIsFine()
    ensures HeaderOk(THREE, OWN) && NoDup(OWN.parents) && Members(OWN.parents) == Members(GenesisParents(THREE))
  {
    ThreeIsValid();
  }

  const MINE := NewVote(OWN, ME)
  const PROPOSED := START.(
    current := OWN, votes := VoteCount(1, [(ME, MINE.signature)], {ME}), own := [OWN],
    processing := Enter(map[], 1, OWN.id), headers := {OWN}, lastVoted := Enter(map[], 1, ME), cast := [MINE])

  lemma MineCounts()
    ensures ProcessVote(THREE, ME, {}, PROPOSED.(votes := NO_VOTES), MINE) == (PROPOSED, Fine)
  {
    ThreeIsValid();
    hide Committee.QuorumThreshold, ProcessCertificate, Enter;
    assert THREE.Stake(ME) == 1;
    assert [] + [(ME, MINE.signature)] == [(ME, MINE.signature)] && {} + {ME} == {ME};
  }

  lemma OwnIsExamined(s: Core)
    requires s == START.(current := OWN, votes := NO_VOTES, own := [OWN])
    ensures Examine(THREE, ME, {}, s, OWN) ==
              (s.(processing := Enter(map[], 1, OWN.id), headers := {OWN}, lastVoted := Enter(map[], 1, ME)),
               true, Fine)
  {
    GenesisPass(s.store, OWN);
    hide GetParents, CheckParents;
    assert {} + {OWN} == {OWN};
    assert !Entered(s.lastVoted, 1, ME);
  }

  lemma OwnIsProcessed(s: Core)
    requires s == START.(current := OWN, votes := NO_VOTES, own := [OWN])
    ensures ProcessHeader(THREE, ME, {}, s, OWN) == (PROPOSED, Fine)
  {
    OwnIsExamined(s);
    MineCounts();
    hide Examine, ProcessVote, Enter;
    assert [] + [MINE] == [MINE];
  }

  lemma ProposalIsLegal(gcDepth: nat)
    ensures Legal(Y(gcDepth), START, PROPOSES)
  {
    OwnIsFine();
    hide HeaderOk, GenesisParents, NoDup, Signatures;
  }

  lemma NothingCollected(gcDepth: nat, s: Core)
    requires s.consensusRound == 0
    ensures Cleanup(gcDepth, s, 0) == s
  {}

  lemma OwnIsHandled(c: Committee, me: Key, genuine: set<Signature>, s: Core, e: Event)
    requires e.m.OwnHeader?
    ensures Handle(c, me, genuine, s, e) ==
              ProcessHeader(c, me, e.payload, s.(current := e.m.h, votes := NO_VOTES, own := s.own + [e.m.h]), e.m.h)
  {
    hide ProcessHeader;
  }

  lemma ProposalHandled(genuine: set<Signature>)
    ensures Handle(THREE, ME, genuine, START, PROPOSES) == (PROPOSED, Fine)
  {
    assert START.own + [OWN] == [OWN];
    OwnIsProcessed(START.(current := OWN, votes := NO_VOTES, own := [OWN]));
    OwnIsHandled(THREE, ME, genuine, START, PROPOSES);
    hide Handle, ProcessHeader, Enter;
  }

  lemma ProposalTurn(gcDepth: nat)
    ensures Turn(THREE, ME, gcDepth, Y(gcDepth).genuine, START, PROPOSES).0 == PROPOSED
  {
    ProposalHandled(Y(gcDepth).genuine);
    NothingCollected(gcDepth, PROPOSED);
    hide Handle, Cleanup, Y;
  }

  lemma Proposes(gcDepth: nat)
    ensures InStep(Y(gcDepth), gcDepth, [PROPOSES])
    ensures State(gcDepth, [PROPOSES]) == PROPOSED
  {
    ProposalIsLegal(gcDepth);
    ProposalTurn(gcDepth);
    hide Legal, Turn, Enter, Signatures;
    assert [PROPOSES][..0] == [];
    assert State(gcDepth, []) == START;
  }

  /** One vote more is no quorum. */
  lemma CountsOne(gcDepth: nat, s: Core)
    requires s.current == OWN && s.own == [OWN] && s.votes == PROPOSED.votes && s.consensusRound == 0
    ensures Legal(Y(gcDepth), s, Arrives(gcDepth, 0))
    ensures var t := Turn(THREE, ME, gcDepth, Y(gcDepth).genuine, s, Arrives(gcDepth, 0)).0;
            && t.current == OWN && t.own == [OWN] && t.votes.weight == 2 && t.votes.used == {ME, 0}
            && t.gcRound >= 2 && t.consensusRound == LeaderRound(gcDepth) && t.toConsensus == s.toConsensus
  {
    ThreeIsValid();
    Leads(gcDepth);
    hide Committee.QuorumThreshold, ProcessCertificate, From, Signatures, LeaderRound;
    assert THREE.Stake(0) == 1;
    assert {ME} + {0} == {ME, 0};
  }

  lemma CompletesLate(gcDepth: nat, s: Core)
    requires s.current == OWN && s.own == [OWN] && s.votes.weight == 2 && s.votes.used == {ME, 0}
    requires s.gcRound >= 2 && s.consensusRound == LeaderRound(gcDepth)
    ensures Legal(Y(gcDepth), s, Arrives(gcDepth, 2)) && LateCompletion(Y(gcDepth), s, Arrives(gcDepth, 2))
  {
    ThreeIsValid();
    hide Committee.QuorumThreshold, Signatures, LeaderRound;
    assert THREE.Stake(2) == 5;
  }

  /** For every depth: a legal run in step with consensus after which a legal vote, read in step,
      panics. */
  lemma LateVoteRun(gcDepth: nat)
    ensures THREE.Valid() && InStep(Y(gcDepth), gcDepth, Votes(gcDepth) + [Arrives(gcDepth, 2)])
    ensures Turn(THREE, ME, gcDepth, Y(gcDepth).genuine, State(gcDepth, Votes(gcDepth)), Arrives(gcDepth, 2)).1
        == Panicked
  {
    var y, n := Y(gcDepth), LeaderRound(gcDepth) + 3;
    var pre, fed := [PROPOSES], [PROPOSES] + Feed(n);
    ThreeIsValid();
    Proposes(gcDepth);
    Feeds(y, gcDepth, pre, n);
    FedReaches(gcDepth);
    hide Committee.Valid, RunCore, Turn, Legal, LeaderRound, A, Reaches, LegalRun, Feed, Certs, LateCompletion;
    CountsOne(gcDepth, State(gcDepth, fed));
    StepSnoc(y, gcDepth, fed, Arrives(gcDepth, 0));
    RunSnoc(y, gcDepth, fed, Arrives(gcDepth, 0));
    CompletesLate(gcDepth, State(gcDepth, Votes(gcDepth)));
    RunPanicsExactly(y, gcDepth, Votes(gcDepth), Arrives(gcDepth, 2));
    StepSnoc(y, gcDepth, Votes(gcDepth), Arrives(gcDepth, 2));
  }
}
