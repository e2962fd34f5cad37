/** How a primary votes twice in one slot: a header that waited for its batches comes back past
    the garbage collection guard. The run is in step with the primary's own consensus. */
module Loopback {
  import opened Types
  import opened Messages
  import opened Aggregators
  import opened Primary
  import opened Certification
  import opened VoteOnce
  import opened Chain
  import opened ChainRun

  /** A header of round 1 by authority 0, which is not honest. */
  function HeaderWith(payload: map<BatchDigest, WorkerId>): Header {
    Header(0, 1, payload, GENESIS, HeaderHash(0, 1, payload, GENESIS))
  }

  const FIRST := HeaderWith(map[])
  const SECOND := HeaderWith(map[7 := 0])

  function X(gcDepth: nat): Ctx {
    Ctx(THREE, ME, Signatures(LeaderRound(gcDepth) + 3))
  }

  const ARRIVES := Event(NetHeader(SECOND), {}, 0)

  function Voted(gcDepth: nat): Event {
    Event(NetHeader(FIRST), {FIRST}, LeaderRound(gcDepth))
  }

  function Returns(gcDepth: nat): Event {
    Event(LoopHeader(SECOND), {SECOND}, LeaderRound(gcDepth))
  }

  function Before(gcDepth: nat): seq<Event> {
    [ARRIVES] + Feed(LeaderRound(gcDepth) + 3)
  }

  function Between(gcDepth: nat): seq<Event> {
    Before(gcDepth) + [Voted(gcDepth)]
  }

  /** The second header arrives without its batch; consensus gets the chain and commits; the
      first header gets the vote; the second comes back. */
  function Events(gcDepth: nat): seq<Event> {
    Between(gcDepth) + [Returns(gcDepth)]
  }

  ghost function State(gcDepth: nat, es: seq<Event>): Core {
    RunCore(THREE, ME, gcDepth, X(gcDepth).genuine, es)
  }

  lemma HeadersAreFine(own: seq<Header>, h: Header)
    requires h == FIRST || h == SECOND
    ensures HeaderOk(THREE, h) && NoDup(h.parents) && HeaderFine(X(0), own, h) && h.author != ME
  {}

  lemma HeadersPass(x: Ctx, s: Core, payload: set<Header>, h: Header)
    requires (h == FIRST || h == SECOND) && x.c == THREE && x.me == ME && h in payload
    ensures Passes(x, payload, s, h) && HeaderFine(x, s.own, h) && HeaderOk(THREE, h) && NoDup(h.parents)
  {
    ThreeIsValid();
    GenesisStakes();
    HeadersAreFine(s.own, h);
    assert OriginsOf(GENESIS) == [0, 1, 2];
    hide HeaderOk, Committee.SumStake, Committee.QuorumThreshold;
  }

  /** The second header waits. */
  lemma StepOne(gcDepth: nat)
    ensures InStep(X(gcDepth), gcDepth, [ARRIVES])
    ensures var s := State(gcDepth, [ARRIVES]);
            && SECOND in s.waitingHeaders && s.gcRound == s.consensusRound == 0 && s.toConsensus == []
            && s.lastVoted == map[]
  {
    HeadersAreFine([], SECOND);
    GenesisPass(START.store, SECOND);
    hide HeaderOk, GetParents, CheckParents;
    assert [ARRIVES][..0] == [];
    assert State(gcDepth, []) == START;
  }

  lemma StillWaits(payload: set<Header>, s: Core, h: Header)
    requires h.author != ME
    ensures var t := ProcessHeader(THREE, ME, payload, s, h).0;
            && s.waitingHeaders <= t.waitingHeaders && t.toConsensus == s.toConsensus
            && t.gcRound == s.gcRound && t.consensusRound == s.consensusRound
  {
    hide GetParents, CheckParents, Enter, Entered;
  }

  lemma CleanedUp(gcDepth: nat, s: Core)
    ensures var t := Cleanup(gcDepth, s, LeaderRound(gcDepth));
            && t.gcRound >= 2 && t.consensusRound == LeaderRound(gcDepth) && t.cast == s.cast
            && t.waitingHeaders == s.waitingHeaders && t.toConsensus == s.toConsensus
  {
    Leads(gcDepth);
  }

  /** The second header waits, its slot has no vote, and consensus has committed. */
  ghost predicate Waiting(gcDepth: nat, s: Core) {
    && s.gcRound == s.consensusRound == 0 && SECOND in s.waitingHeaders && !Entered(s.lastVoted, 1, 0)
    && Reaches(THREE, gcDepth, s.toConsensus, LeaderRound(gcDepth))
  }

  /** The first header has its vote, the second still waits, and its round is collected. */
  ghost predicate VotedOnce(gcDepth: nat, s: Core) {
    && s.gcRound >= 2 && s.consensusRound == LeaderRound(gcDepth) && SECOND in s.waitingHeaders
    && NewVote(FIRST, ME) in s.cast
    && Reaches(THREE, gcDepth, s.toConsensus, LeaderRound(gcDepth))
  }

  lemma StepTwo(gcDepth: nat, s: Core)
    requires Settled(X(gcDepth), gcDepth, s) && Waiting(gcDepth, s)
    ensures Legal(X(gcDepth), s, Voted(gcDepth))
    ensures VotedOnce(gcDepth, Turn(THREE, ME, gcDepth, X(gcDepth).genuine, s, Voted(gcDepth)).0)
  {
    var x := X(gcDepth);
    HeadersPass(x, s, {FIRST}, FIRST);
    ForeignVote(x, {FIRST}, s, FIRST);
    StillWaits({FIRST}, s, FIRST);
    hide Settled, Passes, HeaderFine, HeaderOk, ProcessHeader, Cleanup, LeaderRound, Entered, Reaches, Signatures;
    CleanedUp(gcDepth, ProcessHeader(THREE, ME, {FIRST}, s, FIRST).0);
  }

  lemma ReturnIsLegal(gcDepth: nat, s: Core)
    requires VotedOnce(gcDepth, s)
    ensures Legal(X(gcDepth), s, Returns(gcDepth))
  {
    hide Reaches, LeaderRound, Signatures;
  }

  lemma SecondVote(x: Ctx, gcDepth: nat, s: Core)
    requires x.c == THREE && x.me == ME && Settled(x, gcDepth, s) && s.gcRound >= 2
    ensures ProcessHeader(THREE, ME, {SECOND}, s, SECOND).0.cast == s.cast + [NewVote(SECOND, ME)]
  {
    HeadersPass(x, s, {SECOND}, SECOND);
    SlotRemembered(x, gcDepth, s, SECOND);
    hide Settled, Passes, HeaderFine, HeaderOk, ProcessHeader, Entered;
    ForeignVote(x, {SECOND}, s, SECOND);
  }

  lemma ReturnCasts(c: Committee, me: Key, gcDepth: nat, genuine: set<Signature>, s: Core, e: Event)
    requires e.m.LoopHeader?
    ensures Turn(c, me, gcDepth, genuine, s, e).0.cast == ProcessHeader(c, me, e.payload, s, e.m.h).0.cast
  {
    hide ProcessHeader, From;
  }

  /** The second header gets a vote as well. */
  lemma StepThree(gcDepth: nat, s: Core)
    requires Settled(X(gcDepth), gcDepth, s) && VotedOnce(gcDepth, s)
    ensures Legal(X(gcDepth), s, Returns(gcDepth))
    ensures Turn(THREE, ME, gcDepth, X(gcDepth).genuine, s, Returns(gcDepth)).0.cast == s.cast + [NewVote(SECOND, ME)]
  {
    ReturnIsLegal(gcDepth, s);
    ReturnCasts(THREE, ME, gcDepth, X(gcDepth).genuine, s, Returns(gcDepth));
    SecondVote(X(gcDepth), gcDepth, s);
    hide Turn, Settled, Legal, ProcessHeader, LeaderRound, Reaches, Signatures, HeaderWith;
  }

  lemma Genuine(gcDepth: nat)
    ensures forall r :: 1 <= r <= LeaderRound(gcDepth) + 3 ==> Signature(LEAD, A(r).Ref()) in X(gcDepth).genuine
    ensures X(gcDepth).c == THREE && X(gcDepth).me == ME
  {}

  lemma ChainArrives(gcDepth: nat)
    ensures Fed(X(gcDepth), gcDepth, [ARRIVES], LeaderRound(gcDepth) + 3)
  {
    Genuine(gcDepth);
    StepOne(gcDepth);
    assert State(gcDepth, [ARRIVES]) == RunCore(THREE, ME, gcDepth, X(gcDepth).genuine, [ARRIVES]);
    hide *;
    Feeds(X(gcDepth), gcDepth, [ARRIVES], LeaderRound(gcDepth) + 3);
  }

  lemma AfterChain(gcDepth: nat)
    ensures InStep(X(gcDepth), gcDepth, Before(gcDepth)) && Waiting(gcDepth, State(gcDepth, Before(gcDepth)))
    ensures Settled(X(gcDepth), gcDepth, State(gcDepth, Before(gcDepth)))
  {
    StepOne(gcDepth);
    ChainArrives(gcDepth);
    FedReaches(gcDepth);
    ThreeIsValid();
    hide HeaderWith, Committee.Valid, RunCore, Settled, LeaderRound, A, InStep, Feed, Certs, ParentStored, Reaches,
      Signatures;
    InStepSettles(X(gcDepth), gcDepth, Before(gcDepth));
  }

  lemma AfterVote(gcDepth: nat)
    ensures InStep(X(gcDepth), gcDepth, Between(gcDepth)) && VotedOnce(gcDepth, State(gcDepth, Between(gcDepth)))
    ensures Settled(X(gcDepth), gcDepth, State(gcDepth, Between(gcDepth)))
  {
    ThreeIsValid();
    AfterChain(gcDepth);
    hide HeaderWith, Committee.Valid, RunCore, Turn, Settled, Legal, LeaderRound, Reaches, InStep, Before, VotedOnce,
      Signatures;
    StepTwo(gcDepth, State(gcDepth, Before(gcDepth)));
    Extends(X(gcDepth), gcDepth, Before(gcDepth), Voted(gcDepth));
  }

  lemma Rivals()
    ensures FIRST.id != SECOND.id && FIRST.round == SECOND.round && FIRST.author == SECOND.author
    ensures THREE.Valid() && THREE.Weight({0}) < THREE.ValidityThreshold()
  {
    ThreeIsValid();
    THREE.WeightSingletonIn(THREE.names, 0);
    assert 7 in SECOND.payload && 7 !in FIRST.payload;
  }

  /** For every depth, a legal run in step with consensus in which an honest primary signs two
      different headers of one author and round. */
  lemma LoopbackVotesTwice(gcDepth: nat)
    ensures THREE.Valid() && THREE.Weight({0}) < THREE.ValidityThreshold()
    ensures InStep(X(gcDepth), gcDepth, Events(gcDepth))
    ensures var cast := State(gcDepth, Events(gcDepth)).cast;
            NewVote(FIRST, ME) in cast && NewVote(SECOND, ME) in cast
    ensures FIRST.id != SECOND.id && FIRST.round == SECOND.round && FIRST.author == SECOND.author
  {
    Rivals();
    AfterVote(gcDepth);
    hide HeaderWith, Committee.Valid, Committee.ValidityThreshold, RunCore, Turn, Settled, Legal, LeaderRound, Reaches,
      InStep, Between, Signatures;
    StepThree(gcDepth, State(gcDepth, Between(gcDepth)));
    Extends(X(gcDepth), gcDepth, Between(gcDepth), Returns(gcDepth));
  }
}
