/** From votes to certificates: as soon as the counted voters of the current header hold a quorum, its
    certificate is stored and handed to consensus, unless the header was collected before. */
module Assembly {
  import opened Types
  import opened Messages
  import opened Aggregators
  import opened Primary
  import opened Certification
  import opened OwnHeaders

  /** A certificate of the current header, by voters that hold a quorum, was handed to consensus. */
  ghost predicate HandedOver(c: Committee, s: Core) {
    exists cert :: cert in s.toConsensus && Assembled(c, cert, s.current)
  }

  /** The vote counter has fired only if the certificate was handed over. */
  ghost predicate Accounted(c: Committee, s: Core) {
    exists fired :: VotesCounted(c, s.votes, fired) && (fired != {} ==> HandedOver(c, s))
  }

  /** The current header is marked as processed and its parents are at hand. */
  ghost predicate Open(c: Committee, s: Core) {
    Entered(s.processing, s.current.round, s.current.id) && Deliverable(c, s.store, s.current.parents)
  }

  ghost predicate Keeps(c: Committee, s: Core, t: Core) {
    && t.current == s.current
    && (Open(c, s) ==> Open(c, t))
    && (Open(c, s) && Accounted(c, s) ==> Accounted(c, t))
  }

  lemma KeepsTrans(c: Committee, s: Core, t: Core, u: Core)
    requires Keeps(c, s, t) && Keeps(c, t, u)
    ensures Keeps(c, s, u)
  {
    hide Open, Accounted;
  }

  /** What leaves the counter alone and only adds to the other tables. */
  lemma GrowingKeeps(c: Committee, s: Core, t: Core)
    requires t.current == s.current && t.votes == s.votes && s.store.Keys <= t.store.Keys
    requires forall r, d :: Entered(s.processing, r, d) ==> Entered(t.processing, r, d)
    requires forall cert :: cert in s.toConsensus ==> cert in t.toConsensus
    ensures Keeps(c, s, t)
  {
    hide VotesCounted, Assembled, Entered;
    if Open(c, s) && Accounted(c, s) {
      var fired :| VotesCounted(c, s.votes, fired) && (fired != {} ==> HandedOver(c, s));
      assert fired != {} ==> HandedOver(c, t);
    }
  }

  lemma ExamineKeeps(c: Committee, me: Key, payload: set<Header>, s: Core, h: Header)
    ensures Keeps(c, s, Examine(c, me, payload, s, h).0)
  {
    ExamineMarks(c, me, payload, s, h);
    var t := Examine(c, me, payload, s, h).0;
    assert t.toConsensus == s.toConsensus by {
      hide GetParents, CheckParents;
    }
    hide Examine, Entered, Deliverable;
    GrowingKeeps(c, s, t);
  }

  lemma DeliverKeeps(c: Committee, s: Core, cert: Certificate)
    ensures Keeps(c, s, Deliver(c, s, cert).0)
    ensures Open(c, s) && cert.header == s.current ==> cert in Deliver(c, s, cert).0.toConsensus
  {
    hide AppendCert, Deliverable, Entered;
    GrowingKeeps(c, s, Deliver(c, s, cert).0);
  }

  lemma DeliverKeepsVotes(c: Committee, s: Core, cert: Certificate)
    ensures var t := Deliver(c, s, cert).0; t.votes == s.votes && t.current == s.current && t.processing == s.processing
  {
    hide AppendCert, Deliverable;
  }

  lemma AssembledByAppend(c: Committee, a: VoteCount, fired: set<Key>, v: Vote, h: Header)
    requires c.Valid() && VotesCounted(c, a, fired) && AppendVote(c, a, v, h).1.Complete?
    ensures Assembled(c, AppendVote(c, a, v, h).1.value, h)
  {
    var fired' := AppendVoteKeeps(c, a, fired, v, h);
    hide AppendVote, Tally;
  }

  /** A vote on an open header: the certificate that it may complete is delivered at once. */
  lemma VoteAccounts(c: Committee, me: Key, payload: set<Header>, s: Core, v: Vote)
    requires c.Valid() && Open(c, s) && Accounted(c, s)
    ensures Open(c, ProcessVote(c, me, payload, s, v).0) && Accounted(c, ProcessVote(c, me, payload, s, v).0)
    ensures ProcessVote(c, me, payload, s, v).0.current == s.current
  {
    var fired :| VotesCounted(c, s.votes, fired) && (fired != {} ==> HandedOver(c, s));
    var (votes, r) := AppendVote(c, s.votes, v, s.current);
    var s1 := s.(votes := votes);
    var fired' := AppendVoteKeeps(c, s.votes, fired, v, s.current);
    hide AppendVote, VotesCounted, Deliver, Deliverable, Entered;
    if r.Complete? {
      DeliverKeeps(c, s1, r.value);
      var t := Deliver(c, s1, r.value).0;
      assert ProcessVote(c, me, payload, s, v).0 == t;
      DeliverKeepsVotes(c, s1, r.value);
      AssembledByAppend(c, s.votes, fired, v, s.current);
      assert r.value in t.toConsensus;
    } else {
      assert HandedOver(c, s) ==> HandedOver(c, s1);
      assert ProcessVote(c, me, payload, s, v).0 == s1;
    }
  }

  lemma {:induction false} VoteKeeps(c: Committee, me: Key, payload: set<Header>, s: Core, v: Vote)
    requires c.Valid()
    ensures Keeps(c, s, ProcessVote(c, me, payload, s, v).0)
    decreases OwnVoteOpen(me, s), if v.author == me then 1 else 4
  {
    VoteMarks(c, me, payload, s, v);
    if Open(c, s) && Accounted(c, s) {
      VoteAccounts(c, me, payload, s, v);
    }
    hide ProcessVote, Accounted, Entered;
  }

  lemma {:induction false} HeaderKeeps(c: Committee, me: Key, payload: set<Header>, s: Core, h: Header)
    requires c.Valid()
    ensures Keeps(c, s, ProcessHeader(c, me, payload, s, h).0)
    decreases OwnVoteOpen(me, s), 2
  {
    hide Examine, Keeps;
    var (s1, vote, status) := Examine(c, me, payload, s, h);
    ExamineKeeps(c, me, payload, s, h);
    ExamineMarks(c, me, payload, s, h);
    if vote {
      var s2 := s1.(cast := s1.cast + [NewVote(h, me)]);
      GrowingKeeps(c, s1, s2);
      KeepsTrans(c, s, s1, s2);
      if h.author == me {
        VoteKeeps(c, me, payload, s2, NewVote(h, me));
        KeepsTrans(c, s, s2, ProcessVote(c, me, payload, s2, NewVote(h, me)).0);
      }
    }
  }

  lemma {:induction false} CertificateKeeps(c: Committee, me: Key, payload: set<Header>, s: Core, cert: Certificate)
    requires c.Valid()
    ensures Keeps(c, s, ProcessCertificate(c, me, payload, s, cert).0)
    decreases OwnVoteOpen(me, s), 3
  {
    hide Keeps, Deliver, ProcessHeader, Entered;
    var h := cert.header;
    var s1 := if Entered(s.processing, h.round, h.id) then s else ProcessHeader(c, me, payload, s, h).0;
    if Entered(s.processing, h.round, h.id) {
      GrowingKeeps(c, s, s);
    } else {
      HeaderKeeps(c, me, payload, s, h);
    }
    DeliverKeeps(c, s1, cert);
    KeepsTrans(c, s, s1, Deliver(c, s1, cert).0);
  }

  // ----- Turns

  /** The current header, unless it is collected, is open and its votes are accounted for. */
  ghost predicate Live(c: Committee, s: Core) {
    s.own != [] && s.current.round >= s.gcRound ==> Open(c, s) && Accounted(c, s)
  }

  lemma OfferedIsDeliverable(x: Ctx, s: Core, h: Header)
    requires Inv(x, s) && HeaderOk(x.c, h) && NoDup(h.parents) && Offered(x.c, s, h)
    ensures Deliverable(x.c, s.store, h.parents)
  {
    OfferedQuorum(x, s, h);
    forall d | d in h.parents ensures IsGenesisRef(x.c, d) || d in s.store {
      assert ParentChecked(x, s.store, h, d);
    }
  }

  lemma ValidOf(x: Ctx, s: Core)
    requires Inv(x, s)
    ensures x.c.Valid()
  {}

  lemma OpenAfterMarks(c: Committee, me: Key, s: Core, t: Core, h: Header)
    requires Marks(c, me, s, t.(cast := s.cast)) && s.current == h
    requires Entered(t.processing, h.round, h.id) && Deliverable(c, s.store, h.parents)
    ensures Open(c, t)
  {
    hide Entered;
  }

  /** A new own header starts open, with its own vote accounted for. */
  lemma OwnHeaderLives(x: Ctx, gcDepth: nat, s: Core, e: Event)
    requires Reached(x, gcDepth, s) && Legal(x, s, e) && e.m.OwnHeader?
    ensures var t := Handle(x.c, x.me, x.genuine, s, e).0;
            t.current == e.m.h && Open(x.c, t) && Accounted(x.c, t)
  {
    var h := e.m.h;
    var s1 := s.(current := h, votes := NO_VOTES, own := s.own + [h]);
    OwnStart(x, gcDepth, s, e);
    OfferedIsDeliverable(x, s, h);
    hide Inv, HeaderOk, ProcessVote, Examine, Offered, Processed;
    OwnVoted(x, e.payload, s1, h, s);
    ExamineMarks(x.c, x.me, e.payload, s1, h);
    var s2 := Examine(x.c, x.me, e.payload, s1, h).0;
    var s3 := s2.(cast := s2.cast + [NewVote(h, x.me)]);
    NoVotesCounted(x.c);
    hide VotesCounted, Deliverable, Entered, Marks;
    assert Open(x.c, s3) by {
      OpenAfterMarks(x.c, x.me, s1, s3, h);
    }
    assert Accounted(x.c, s3);
    ValidOf(x, s);
    VoteAccounts(x.c, x.me, e.payload, s3, NewVote(h, x.me));
  }

  lemma HandleOpen(x: Ctx, s: Core, e: Event)
    requires x.c.Valid() && !e.m.OwnHeader?
    ensures Keeps(x.c, s, Handle(x.c, x.me, x.genuine, s, e).0)
  {
    GrowingKeeps(x.c, s, s);
    hide Keeps, ProcessHeader, ProcessVote, ProcessCertificate, HeaderOk, CertificateOk, VoteOk;
    match e.m
    case NetHeader(h) => HeaderKeeps(x.c, x.me, e.payload, s, h);
    case NetVote(v) => VoteKeeps(x.c, x.me, e.payload, s, v);
    case NetCertificate(cert) => CertificateKeeps(x.c, x.me, e.payload, s, cert);
    case LoopHeader(h) => HeaderKeeps(x.c, x.me, e.payload, s, h);
    case LoopCertificate(cert) => CertificateKeeps(x.c, x.me, e.payload, s, cert);
  }

  lemma HandleLives(x: Ctx, gcDepth: nat, s: Core, e: Event)
    requires Reached(x, gcDepth, s) && Legal(x, s, e) && Live(x.c, s)
    ensures Live(x.c, Handle(x.c, x.me, x.genuine, s, e).0)
  {
    ValidOf(x, s);
    hide Inv, Open, Accounted, Handle, Legal;
    if e.m.OwnHeader? {
      OwnHeaderLives(x, gcDepth, s, e);
    } else {
      HandleKeeps(x, gcDepth, s, e);
      HandleOpen(x, s, e);
    }
  }

  lemma CleanupLives(c: Committee, gcDepth: nat, s: Core, round: nat)
    requires Live(c, s) && s.gcRound <= Cleanup(gcDepth, s, round).gcRound
    ensures Live(c, Cleanup(gcDepth, s, round))
  {
    hide VotesCounted, Assembled, Deliverable;
    var t := Cleanup(gcDepth, s, round);
    forall r: nat, d | r >= t.gcRound && Entered(s.processing, r, d) ensures Entered(t.processing, r, d) {}
    if s.own != [] && s.current.round >= t.gcRound {
      var fired :| VotesCounted(c, s.votes, fired) && (fired != {} ==> HandedOver(c, s));
      assert HandedOver(c, s) ==> HandedOver(c, t);
    }
  }

  // ----- Runs

  lemma TurnLives(x: Ctx, gcDepth: nat, s: Core, e: Event)
    requires Reached(x, gcDepth, s) && Legal(x, s, e) && Live(x.c, s)
    ensures Live(x.c, Turn(x.c, x.me, gcDepth, x.genuine, s, e).0)
  {
    HandleLives(x, gcDepth, s, e);
    HandleKeepsRound(x, gcDepth, s, e);
    TurnReaches(x, gcDepth, s, e);
    var t := Handle(x.c, x.me, x.genuine, s, e).0;
    assert s.gcRound <= Cleanup(gcDepth, t, e.consensusRound).gcRound;
    hide Handle, Cleanup, Live, Inv, Processed, Legal;
    CleanupLives(x.c, gcDepth, t, e.consensusRound);
  }

  lemma {:induction false} RunLives(x: Ctx, gcDepth: nat, es: seq<Event>)
    requires x.c.Valid() && LegalRun(x, gcDepth, es)
    ensures Live(x.c, RunCore(x.c, x.me, gcDepth, x.genuine, es))
    decreases |es|
  {
    if es != [] {
      hide Reached, Legal, Turn, LegalRun, Live;
      var n := |es| - 1;
      LegalPrefix(x, gcDepth, es, n);
      RunLives(x, gcDepth, es[..n]);
      RunReaches(x, gcDepth, es[..n]);
      LegalStep(x, gcDepth, es, n);
      TurnLives(x, gcDepth, RunCore(x.c, x.me, gcDepth, x.genuine, es[..n]), es[n]);
    }
  }

  /** After any legal run: if the header last proposed is not collected and the authors of the votes
      counted for it hold a quorum, then a certificate of it, by distinct voters with a quorum,
      was handed to consensus. */
  lemma QuorumIsCertified(x: Ctx, gcDepth: nat, es: seq<Event>)
    requires x.c.Valid() && LegalRun(x, gcDepth, es)
    ensures var s := RunCore(x.c, x.me, gcDepth, x.genuine, es);
            s.own != [] && s.current.round >= s.gcRound && x.c.Weight(s.votes.used) >= x.c.QuorumThreshold() ==>
              exists cert :: cert in s.toConsensus && Assembled(x.c, cert, s.own[|s.own| - 1])
  {
    RunLives(x, gcDepth, es);
    RunReaches(x, gcDepth, es);
    hide LegalRun, RunCore, Processed, VotingInv, StoreInv, CountingInv, WaitingInv, ProposingInv, Assembled;
    var s := RunCore(x.c, x.me, gcDepth, x.genuine, es);
    if s.own != [] && s.current.round >= s.gcRound {
      var fired :| VotesCounted(x.c, s.votes, fired) && (fired != {} ==> HandedOver(x.c, s));
      assert s.votes.used - {} == s.votes.used;
    }
  }
}
