/** The `expect`s of a primary: own votes and assembled certificates must not fail. A legal event
    makes one fail if and only if it is a vote that completes the certificate of an own header
    too late. */
module Panics {
  import opened Types
  import opened Messages
  import opened Aggregators
  import opened Primary
  import opened Certification
  import opened OwnHeaders

  // ----- Which messages panic

  lemma VotedIsFine(x: Ctx, payload: set<Header>, s: Core, h: Header)
    requires Inv(x, s) && HeaderFine(x, s.own, h)
    ensures Examine(x.c, x.me, payload, s, h).1 && h.author == x.me ==> h in s.own
  {
    ExamineChecks(x, payload, s, h);
    if Checked(x, s.store, h) {
      CheckedIsOk(x, s.store, h);
    }
    hide Inv, Examine, Checked;
  }

  /** No header is voted for by its author here unless it is an own one that comes late. */
  lemma HeaderPanicsExactly(x: Ctx, gcDepth: nat, payload: set<Header>, s: Core, h: Header)
    requires Settled(x, gcDepth, s) && Processed(x, s) && HeaderFine(x, s.own, h)
    ensures ProcessHeader(x.c, x.me, payload, s, h).1 == Panicked <==> h in s.own && h.round < s.gcRound
  {
    var (t, vote, status) := Examine(x.c, x.me, payload, s, h);
    ExamineMarks(x.c, x.me, payload, s, h);
    VotedIsFine(x, payload, s, h);
    if h in s.own {
      OwnAgain(x, gcDepth, payload, s, h);
    }
    hide Settled, Examine, HeaderOk, ProcessCertificate;
  }

  lemma CertificatePanicsExactly(x: Ctx, gcDepth: nat, payload: set<Header>, s: Core, cert: Certificate)
    requires Settled(x, gcDepth, s) && Processed(x, s) && HeaderFine(x, s.own, cert.header)
    ensures ProcessCertificate(x.c, x.me, payload, s, cert).1 == Panicked
       <==> cert.header in s.own && cert.header.round < s.gcRound
  {
    hide Settled, HeaderFine, ProcessHeader, Deliver;
    var h := cert.header;
    HeaderPanicsExactly(x, gcDepth, payload, s, h);
    var s1 := if Entered(s.processing, h.round, h.id) then s else ProcessHeader(x.c, x.me, payload, s, h).0;
    DeliverIsFine(x.c, s1, cert);
  }

  /** A certificate of the current header finds it processed, or it is the default header. */
  lemma CompletedIsFine(x: Ctx, payload: set<Header>, s: Core, cert: Certificate)
    requires cert.header == s.current
    requires Entered(s.processing, s.current.round, s.current.id) || s.current == DEFAULT_HEADER
    ensures ProcessCertificate(x.c, x.me, payload, s, cert).1 == Fine
  {
    hide Deliver;
    var h := cert.header;
    assert h.parents == [] ==> GetParents(x.c, s.store, h.parents) == Some([]);
    var s1 := if Entered(s.processing, h.round, h.id) then s else ProcessHeader(x.c, x.me, payload, s, h).0;
    DeliverIsFine(x.c, s1, cert);
  }

  lemma VoteDoesNotPanic(x: Ctx, payload: set<Header>, s: Core, v: Vote)
    requires Entered(s.processing, s.current.round, s.current.id) || s.current == DEFAULT_HEADER
    ensures ProcessVote(x.c, x.me, payload, s, v).1 != Panicked
    ensures v.author !in s.votes.used ==> ProcessVote(x.c, x.me, payload, s, v).1 == Fine
  {
    hide ProcessCertificate;
    var (votes, r) := AppendVote(x.c, s.votes, v, s.current);
    if r.Complete? {
      CompletedIsFine(x, payload, s.(votes := votes), r.value);
    }
  }

  lemma ExamineIgnoresVotes(x: Ctx, payload: set<Header>, s: Core, t: Core, h: Header)
    requires t == s.(votes := t.votes)
    ensures Examine(x.c, x.me, payload, t, h).1 == Examine(x.c, x.me, payload, s, h).1
  {}

  /** The current header, processed again once its own vote is counted, panics. */
  lemma LateHeaderPanics(x: Ctx, gcDepth: nat, payload: set<Header>, s: Core, t: Core)
    requires Settled(x, gcDepth, s) && Processed(x, s) && s.own != [] && s.current.round < s.gcRound
    requires t == s.(votes := t.votes) && x.me in t.votes.used
    ensures ProcessHeader(x.c, x.me, payload, t, s.current).1 == Panicked
  {
    var h := s.current;
    assert h in s.own;
    OwnAgain(x, gcDepth, payload, s, h);
    ExamineIgnoresVotes(x, payload, s, t, h);
    ExamineMarks(x.c, x.me, payload, t, h);
    hide Settled, Examine, HeaderOk;
  }

  /** A vote panics if and only if it completes the certificate of an own header that is behind
      the collection round by then. */
  lemma LateVotePanics(x: Ctx, gcDepth: nat, payload: set<Header>, s: Core, v: Vote)
    requires Settled(x, gcDepth, s) && Processed(x, s)
    ensures ProcessVote(x.c, x.me, payload, s, v).1 == Panicked
       <==> s.own != [] && s.current.round < s.gcRound && AppendVote(x.c, s.votes, v, s.current).1.Complete?
  {
    var (votes, r) := AppendVote(x.c, s.votes, v, s.current);
    if s.own == [] || s.current.round >= s.gcRound {
      VoteDoesNotPanic(x, payload, s, v);
    } else if r.Complete? {
      assert r.value.header == s.current && x.me in votes.used;
      LateHeaderPanics(x, gcDepth, payload, s, s.(votes := votes));
      hide ProcessHeader;
    }
  }

  lemma OwnHeaderDoesNotPanic(x: Ctx, payload: set<Header>, s: Core, h: Header)
    requires Inv(x, s.(current := h, votes := NO_VOTES, own := s.own + [h]))
    requires HeaderOk(x.c, h) && h.author == x.me && NoDup(h.parents) && Offered(x.c, s, h)
    ensures ProcessOwnHeader(x.c, x.me, payload, s, h).1 == Fine
  {
    hide Inv, Examine, ProcessVote, Entered;
    var s1 := s.(current := h, votes := NO_VOTES, own := s.own + [h]);
    OfferedChecks(x, payload, s1, h);
    ExamineMarks(x.c, x.me, payload, s1, h);
    var (s2, vote, status) := Examine(x.c, x.me, payload, s1, h);
    var v := NewVote(h, x.me);
    VoteDoesNotPanic(x, payload, s2.(cast := s2.cast + [v]), v);
  }

  // ----- Turns

  /** An accepted vote that completes the certificate of an own header, too late. */
  ghost predicate LateCompletion(x: Ctx, s: Core, e: Event) {
    && e.m.NetVote? && ExpectedVote(s, e.m.v) && VoteOk(x.c, x.genuine, e.m.v)
    && AppendVote(x.c, s.votes, e.m.v, s.current).1.Complete?
    && s.own != [] && s.current.round < s.gcRound
  }

  /** Of all legal events, punctual or not, exactly the late completions panic: headers and
      certificates that come back and new own headers never do, however late. */
  lemma TurnPanicsExactly(x: Ctx, gcDepth: nat, s: Core, e: Event)
    requires Settled(x, gcDepth, s) && Processed(x, s) && Legal(x, s, e)
    ensures Turn(x.c, x.me, gcDepth, x.genuine, s, e).1 == Panicked <==> LateCompletion(x, s, e)
  {
    hide VotingInv, StoreInv, CountingInv, ProposingInv, OwnInv, ProcessHeader, ProcessVote, ProcessCertificate,
      ProcessOwnHeader;
    match e.m
    case NetHeader(h) =>
      if h.round >= s.gcRound && HeaderOk(x.c, h) {
        HeaderPanicsExactly(x, gcDepth, e.payload, s, h);
      }
    case NetVote(v) =>
      LateVotePanics(x, gcDepth, e.payload, s, v);
    case NetCertificate(cert) =>
      if cert.header.round >= s.gcRound && CertificateOk(x.c, x.genuine, cert) {
        CertificatePanicsExactly(x, gcDepth, e.payload, s, cert);
      }
    case LoopHeader(h) => HeaderPanicsExactly(x, gcDepth, e.payload, s, h);
    case LoopCertificate(cert) => CertificatePanicsExactly(x, gcDepth, e.payload, s, cert);
    case OwnHeader(h) =>
      OwnStart(x, gcDepth, s, e);
      OwnHeaderDoesNotPanic(x, e.payload, s, h);
  }

  // ----- Runs

  /** After any legal run the next legal event makes an `expect` fail if and only if it is a late
      completion. */
  lemma RunPanicsExactly(x: Ctx, gcDepth: nat, es: seq<Event>, e: Event)
    requires x.c.Valid() && LegalRun(x, gcDepth, es)
    requires Legal(x, RunCore(x.c, x.me, gcDepth, x.genuine, es), e)
    ensures var s := RunCore(x.c, x.me, gcDepth, x.genuine, es);
            Turn(x.c, x.me, gcDepth, x.genuine, s, e).1 == Panicked <==> LateCompletion(x, s, e)
  {
    hide Settled, Processed, Legal, Turn, LegalRun, RunCore, LateCompletion;
    RunReaches(x, gcDepth, es);
    TurnPanicsExactly(x, gcDepth, RunCore(x.c, x.me, gcDepth, x.genuine, es), e);
  }

  lemma PunctualIsNotLate(x: Ctx, s: Core, e: Event)
    requires Punctual(s, e)
    ensures !LateCompletion(x, s, e)
  {}

  /** No punctual event of a legal run panics. */
  lemma RunDoesNotPanic(x: Ctx, gcDepth: nat, es: seq<Event>, n: nat)
    requires x.c.Valid() && LegalRun(x, gcDepth, es) && n < |es|
    requires Punctual(RunCore(x.c, x.me, gcDepth, x.genuine, es[..n]), es[n])
    ensures Turn(x.c, x.me, gcDepth, x.genuine, RunCore(x.c, x.me, gcDepth, x.genuine, es[..n]), es[n]).1 != Panicked
  {
    hide Legal, Punctual, Turn, LegalRun, RunCore, LateCompletion;
    LegalPrefix(x, gcDepth, es, n);
    LegalStep(x, gcDepth, es, n);
    RunPanicsExactly(x, gcDepth, es[..n], es[n]);
    PunctualIsNotLate(x, RunCore(x.c, x.me, gcDepth, x.genuine, es[..n]), es[n]);
  }
}
