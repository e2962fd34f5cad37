/** What becomes of the headers a primary proposes: they are stored, voted for and counted, and
    none ever waits. And what becomes of a certificate that comes again. */
module OwnHeaders {
  import opened Types
  import opened Messages
  import opened Aggregators
  import opened Primary
  import opened Certification

  /** Marked as processed until its round is collected. */
  predicate MarkedUntil(s: Core, h: Header) {
    h.round >= s.gcRound ==> Entered(s.processing, h.round, h.id)
  }

  /** What becomes of own headers: they are stored and counted, the current one is marked as
      processed until its round is collected, and none ever waits. */
  ghost predicate Processed(x: Ctx, s: Core) {
    && (s.own == [] ==> s.current == DEFAULT_HEADER)
    && (s.own != [] ==> x.me in s.votes.used)
    && (forall h :: h in s.own ==> h in s.headers)
    && (s.own != [] && s.current.round >= s.gcRound ==> Entered(s.processing, s.current.round, s.current.id))
    && (forall r :: r in s.processing ==> r >= s.gcRound)
    && NoOwnWaiting(s)
    && (forall cert :: cert in s.toConsensus ==> MarkedUntil(s, cert.header))
  }

  // ----- What a message leaves in place

  /** A header with its parents at hand is only held up for batches of another author. */
  predicate HeldUp(c: Committee, me: Key, s: Core, h: Header) {
    h.author != me || !Deliverable(c, s.store, h.parents)
  }

  ghost predicate Marks(c: Committee, me: Key, s: Core, t: Core) {
    && t.own == s.own && t.current == s.current && t.gcRound == s.gcRound
    && (forall r, d :: Entered(s.processing, r, d) ==> Entered(t.processing, r, d))
    && s.headers <= t.headers && s.votes.used <= t.votes.used && s.store.Keys <= t.store.Keys
    && (forall h :: h in t.waitingHeaders ==> h in s.waitingHeaders || HeldUp(c, me, s, h))
    && (forall cert :: cert in t.waitingCerts
          ==> cert in s.waitingCerts || !Deliverable(c, s.store, cert.header.parents))
    && (forall cert :: cert in t.toConsensus ==>
          cert in s.toConsensus || Entered(t.processing, cert.header.round, cert.header.id))
  }

  lemma MarksTrans(c: Committee, me: Key, s: Core, t: Core, u: Core)
    requires Marks(c, me, s, t) && Marks(c, me, t, u)
    ensures Marks(c, me, s, u)
  {
    forall ps | Deliverable(c, s.store, ps) ensures Deliverable(c, t.store, ps) {}
  }

  lemma {:induction false} GetParentsSome(c: Committee, store: map<Digest, Certificate>, ps: seq<Digest>)
    ensures GetParents(c, store, ps).Some? <==> Deliverable(c, store, ps)
  {
    if ps != [] {
      GetParentsSome(c, store, ps[1..]);
      assert forall d :: d in ps <==> d == ps[0] || d in ps[1..];
    }
  }

  lemma ExamineMarks(c: Committee, me: Key, payload: set<Header>, s: Core, h: Header)
    ensures var (t, vote, status) := Examine(c, me, payload, s, h);
            && Marks(c, me, s, t) && Entered(t.processing, h.round, h.id) && status != Panicked
            && t.votes == s.votes
            && (vote ==> status == Fine && !Entered(s.lastVoted, h.round, h.author))
  {
    GetParentsSome(c, s.store, h.parents);
    hide GetParents, CheckParents, Deliverable;
    var p := Enter(s.processing, h.round, h.id);
    assert forall r, d :: Entered(s.processing, r, d) ==> Entered(p, r, d);
  }

  /** The vote is recorded between the examination and its counting. */
  lemma CastMarks(c: Committee, me: Key, s: Core, t: Core, v: Vote)
    requires Marks(c, me, s, t)
    ensures Marks(c, me, s, t.(cast := t.cast + [v]))
  {}

  lemma MarkStays(c: Committee, me: Key, s: Core, t: Core, h: Header)
    requires Marks(c, me, s, t) && Entered(s.processing, h.round, h.id)
    ensures Entered(t.processing, h.round, h.id) && s.headers <= t.headers
  {}

  lemma SameMarks(c: Committee, me: Key, s: Core)
    ensures Marks(c, me, s, s)
  {}

  lemma DeliverMarks(c: Committee, me: Key, s: Core, cert: Certificate)
    requires Entered(s.processing, cert.header.round, cert.header.id)
    ensures Marks(c, me, s, Deliver(c, s, cert).0)
  {
    hide AppendCert, Deliverable;
  }

  lemma {:induction false} VoteMarks(c: Committee, me: Key, payload: set<Header>, s: Core, v: Vote)
    ensures var t := ProcessVote(c, me, payload, s, v).0;
            Marks(c, me, s, t) && v.author in t.votes.used
    decreases OwnVoteOpen(me, s), if v.author == me then 1 else 4
  {
    hide ProcessCertificate, Deliverable;
    var (votes, r) := AppendVote(c, s.votes, v, s.current);
    var s1 := s.(votes := votes);
    assert Marks(c, me, s, s1);
    if r.Complete? {
      CertificateMarks(c, me, payload, s1, r.value);
      MarksTrans(c, me, s, s1, ProcessCertificate(c, me, payload, s1, r.value).0);
    }
  }

  lemma {:induction false} HeaderMarks(c: Committee, me: Key, payload: set<Header>, s: Core, h: Header)
    ensures var t := ProcessHeader(c, me, payload, s, h).0;
            && Marks(c, me, s, t) && Entered(t.processing, h.round, h.id)
            && Examine(c, me, payload, s, h).0.headers <= t.headers
            && (Examine(c, me, payload, s, h).1 && h.author == me ==> me in t.votes.used)
    decreases OwnVoteOpen(me, s), 2
  {
    hide Examine, Entered, Marks;
    var (s1, vote, status) := Examine(c, me, payload, s, h);
    ExamineMarks(c, me, payload, s, h);
    if vote {
      var v := NewVote(h, me);
      var s2 := s1.(cast := s1.cast + [v]);
      CastMarks(c, me, s, s1, v);
      if h.author == me {
        VoteMarks(c, me, payload, s2, v);
        MarkStays(c, me, s2, ProcessVote(c, me, payload, s2, v).0, h);
        MarksTrans(c, me, s, s2, ProcessVote(c, me, payload, s2, v).0);
      }
    }
  }

  lemma {:induction false} CertificateMarks(c: Committee, me: Key, payload: set<Header>, s: Core, cert: Certificate)
    ensures Marks(c, me, s, ProcessCertificate(c, me, payload, s, cert).0)
    decreases OwnVoteOpen(me, s), 3
  {
    hide Marks, Deliver, Examine, ProcessHeader;
    var h := cert.header;
    var s1 := if Entered(s.processing, h.round, h.id) then s else ProcessHeader(c, me, payload, s, h).0;
    if Entered(s.processing, h.round, h.id) {
      SameMarks(c, me, s);
    } else {
      HeaderMarks(c, me, payload, s, h);
    }
    DeliverMarks(c, me, s1, cert);
    MarksTrans(c, me, s, s1, Deliver(c, s1, cert).0);
  }

  lemma DeliverIsFine(c: Committee, s: Core, cert: Certificate)
    ensures Deliver(c, s, cert).1 == Fine
  {}

  // ----- Own headers, examined again

  lemma CheckedIsOk(x: Ctx, store: map<Digest, Certificate>, h: Header)
    requires Checked(x, store, h)
    ensures HeaderOk(x.c, h) && Deliverable(x.c, store, h.parents)
  {}

  /** An own header passes the examination again, and is voted for again if it is late. */
  lemma OwnAgain(x: Ctx, gcDepth: nat, payload: set<Header>, s: Core, h: Header)
    requires Settled(x, gcDepth, s) && Processed(x, s) && h in s.own
    ensures HeaderOk(x.c, h) && h.author == x.me && Deliverable(x.c, s.store, h.parents)
    ensures Examine(x.c, x.me, payload, s, h).1 <==> h.round < s.gcRound
  {
    assert Checked(x, s.store, h);
    CheckedIsOk(x, s.store, h);
    PassesExamination(x, payload, s, h);
    hide StoreInv, CountingInv, WaitingInv, ProposingInv, Checked, Examine;
  }

  // ----- What a turn keeps of own headers

  lemma OwnStart(x: Ctx, gcDepth: nat, s: Core, e: Event)
    requires Settled(x, gcDepth, s) && Legal(x, s, e) && e.m.OwnHeader?
    ensures Inv(x, s.(current := e.m.h, votes := NO_VOTES, own := s.own + [e.m.h]))
  {
    hide VotingInv, StoreInv, CountingInv, ProposingInv, OwnInv;
    NoVotesCounted(x.c);
    OwnGrows(x, s, s.(current := e.m.h, votes := NO_VOTES, own := s.own + [e.m.h]), e.m.h);
  }

  /** `Processed`, the collected rounds of the processing marks apart. */
  ghost predicate Handled(x: Ctx, t: Core) {
    && (t.own == [] ==> t.current == DEFAULT_HEADER)
    && (t.own != [] ==> x.me in t.votes.used)
    && (forall h :: h in t.own ==> h in t.headers)
    && (t.own != [] && t.current.round >= t.gcRound ==> Entered(t.processing, t.current.round, t.current.id))
    && NoOwnWaiting(t)
    && (forall cert :: cert in t.toConsensus ==> MarkedUntil(t, cert.header))
  }

  lemma MarksHandled(x: Ctx, gcDepth: nat, s: Core, t: Core)
    requires Settled(x, gcDepth, s) && Processed(x, s) && Marks(x.c, x.me, s, t)
    ensures Handled(x, t)
  {
    forall h | h in s.own ensures !HeldUp(x.c, x.me, s, h) {
      OwnAgain(x, gcDepth, {}, s, h);
    }
    hide Settled;
  }

  lemma OwnAtHand(x: Ctx, gcDepth: nat, s: Core, s1: Core, h: Header)
    requires Settled(x, gcDepth, s) && Processed(x, s) && s1 == s.(current := h, votes := NO_VOTES, own := s.own + [h])
    requires HeaderOk(x.c, h) && h.author == x.me && NoDup(h.parents) && Offered(x.c, s, h)
    ensures forall k :: k in s1.own ==> !HeldUp(x.c, x.me, s1, k)
  {
    OfferedQuorum(x, s, h);
    forall k | k in s.own ensures !HeldUp(x.c, x.me, s1, k) {
      OwnAgain(x, gcDepth, {}, s, k);
    }
    hide Settled;
  }

  /** A new own header is stored and voted for: its round is above all voted own rounds. */
  lemma OwnVoted(x: Ctx, payload: set<Header>, s1: Core, h: Header, s: Core)
    requires Inv(x, s) && Inv(x, s1) && s1 == s.(current := h, votes := NO_VOTES, own := s.own + [h])
    requires HeaderOk(x.c, h) && h.author == x.me && NoDup(h.parents) && Offered(x.c, s, h)
    requires forall k :: k in s.own ==> k.round < h.round
    ensures h in Examine(x.c, x.me, payload, s1, h).0.headers && Examine(x.c, x.me, payload, s1, h).1
  {
    OfferedChecks(x, payload, s1, h);
    ExamineChecks(x, payload, s1, h);
    assert !Entered(s1.lastVoted, h.round, x.me);
    hide VotingInv, StoreInv, CountingInv, WaitingInv, ProposingInv, Checked, Examine;
  }

  /** A message that stores, counts and marks a new own header. */
  lemma OwnHandled(x: Ctx, s1: Core, t: Core, h: Header)
    requires Marks(x.c, x.me, s1, t) && s1.current == h
    requires h in t.headers && x.me in t.votes.used && Entered(t.processing, h.round, h.id)
    requires forall k :: k in s1.own && k != h ==> k in s1.headers
    requires forall k :: k in s1.own ==> !HeldUp(x.c, x.me, s1, k)
    requires NoOwnWaiting(s1)
    requires forall cert :: cert in s1.toConsensus ==> MarkedUntil(s1, cert.header)
    requires h in s1.own
    ensures Handled(x, t)
  {
    hide Entered, Deliverable;
  }

  lemma OwnMarks(x: Ctx, gcDepth: nat, s: Core, e: Event)
    requires Settled(x, gcDepth, s) && Processed(x, s) && Legal(x, s, e) && e.m.OwnHeader?
    ensures Handled(x, Handle(x.c, x.me, x.genuine, s, e).0)
  {
    var h := e.m.h;
    var s1 := s.(current := h, votes := NO_VOTES, own := s.own + [h]);
    OwnStart(x, gcDepth, s, e);
    hide Inv, HeaderOk, ProcessHeader, Examine, Deliverable, HeldUp, Entered, Offered, Marks;
    OwnVoted(x, e.payload, s1, h, s);
    HeaderMarks(x.c, x.me, e.payload, s1, h);
    OwnAtHand(x, gcDepth, s, s1, h);
    OwnHandled(x, s1, ProcessHeader(x.c, x.me, e.payload, s1, h).0, h);
  }

  lemma HandleMarks(x: Ctx, gcDepth: nat, s: Core, e: Event)
    requires Settled(x, gcDepth, s) && Processed(x, s) && Legal(x, s, e)
    ensures Handled(x, Handle(x.c, x.me, x.genuine, s, e).0)
  {
    hide Settled, Marks, Legal, Processed, Handled, ProcessHeader, ProcessVote, ProcessCertificate, HeaderOk,
      CertificateOk, VoteOk, Examine;
    match e.m {
      case NetHeader(h) => HeaderMarks(x.c, x.me, e.payload, s, h);
      case NetVote(v) => VoteMarks(x.c, x.me, e.payload, s, v);
      case NetCertificate(cert) => CertificateMarks(x.c, x.me, e.payload, s, cert);
      case LoopHeader(h) => HeaderMarks(x.c, x.me, e.payload, s, h);
      case LoopCertificate(cert) => CertificateMarks(x.c, x.me, e.payload, s, cert);
      case OwnHeader(h) => OwnMarks(x, gcDepth, s, e);
    }
    SameMarks(x.c, x.me, s);
    if !e.m.OwnHeader? {
      MarksHandled(x, gcDepth, s, Handle(x.c, x.me, x.genuine, s, e).0);
    }
  }

  lemma CleanupProcesses(x: Ctx, gcDepth: nat, s: Core, t: Core, round: nat)
    requires Settled(x, gcDepth, s) && Processed(x, s) && Handled(x, t)
    requires t.gcRound == s.gcRound && round >= s.consensusRound
    ensures Processed(x, Cleanup(gcDepth, t, round))
  {
    hide Inv;
    var u := Cleanup(gcDepth, t, round);
    forall r: nat, d ensures Entered(u.processing, r, d)
      <==> Entered(t.processing, r, d) && (round > gcDepth ==> r >= u.gcRound) {}
  }

  lemma HandleKeepsRound(x: Ctx, gcDepth: nat, s: Core, e: Event)
    requires Settled(x, gcDepth, s) && NoOwnWaiting(s) && Legal(x, s, e)
    ensures Handle(x.c, x.me, x.genuine, s, e).0.gcRound == s.gcRound
  {
    hide Settled, Legal, Handle, Inv;
    if e.m.OwnHeader? {
      OwnHeaderKeeps(x, gcDepth, s, e);
    } else {
      HandleKeeps(x, gcDepth, s, e);
    }
  }

  lemma TurnProcesses(x: Ctx, gcDepth: nat, s: Core, e: Event)
    requires Settled(x, gcDepth, s) && Processed(x, s) && Legal(x, s, e)
    ensures Processed(x, Turn(x.c, x.me, gcDepth, x.genuine, s, e).0)
  {
    hide Settled, Handle, Handled, Cleanup;
    HandleMarks(x, gcDepth, s, e);
    HandleKeepsRound(x, gcDepth, s, e);
    CleanupProcesses(x, gcDepth, s, Handle(x.c, x.me, x.genuine, s, e).0, e.consensusRound);
  }

  // ----- Runs

  lemma LegalPrefix(x: Ctx, gcDepth: nat, es: seq<Event>, n: nat)
    requires LegalRun(x, gcDepth, es) && n <= |es|
    ensures LegalRun(x, gcDepth, es[..n])
  {
    hide RunCore, Legal;
    forall i | 0 <= i < n ensures LegalAt(x, gcDepth, es[..n], i) {
      assert es[..n][..i] == es[..i] && LegalAt(x, gcDepth, es, i);
    }
  }

  lemma LegalStep(x: Ctx, gcDepth: nat, es: seq<Event>, n: nat)
    requires LegalRun(x, gcDepth, es) && n < |es|
    ensures Legal(x, RunCore(x.c, x.me, gcDepth, x.genuine, es[..n]), es[n])
  {
    hide RunCore, Legal;
    assert LegalAt(x, gcDepth, es, n);
  }

  lemma LegalSnoc(x: Ctx, gcDepth: nat, es: seq<Event>, e: Event)
    requires LegalRun(x, gcDepth, es) && Legal(x, RunCore(x.c, x.me, gcDepth, x.genuine, es), e)
    ensures LegalRun(x, gcDepth, es + [e])
  {
    hide RunCore, Legal;
    var all := es + [e];
    forall i | 0 <= i < |all| ensures LegalAt(x, gcDepth, all, i) {
      assert all[..i] == if i < |es| then es[..i] else es;
      assert i < |es| ==> LegalAt(x, gcDepth, es, i);
    }
  }

  lemma RunSnoc(x: Ctx, gcDepth: nat, es: seq<Event>, e: Event)
    ensures RunCore(x.c, x.me, gcDepth, x.genuine, es + [e]) ==
              Turn(x.c, x.me, gcDepth, x.genuine, RunCore(x.c, x.me, gcDepth, x.genuine, es), e).0
  {
    hide Turn;
    assert (es + [e])[..|es|] == es;
  }

  ghost predicate Reached(x: Ctx, gcDepth: nat, s: Core) {
    Settled(x, gcDepth, s) && Processed(x, s)
  }

  lemma TurnReaches(x: Ctx, gcDepth: nat, s: Core, e: Event)
    requires Reached(x, gcDepth, s) && Legal(x, s, e)
    ensures Reached(x, gcDepth, Turn(x.c, x.me, gcDepth, x.genuine, s, e).0)
  {
    hide Settled, Turn;
    TurnKeeps(x, gcDepth, s, e);
    TurnProcesses(x, gcDepth, s, e);
  }

  /** Every legal run keeps both invariants, however late its events are. */
  lemma {:induction false} RunReaches(x: Ctx, gcDepth: nat, es: seq<Event>)
    requires x.c.Valid() && LegalRun(x, gcDepth, es)
    ensures Reached(x, gcDepth, RunCore(x.c, x.me, gcDepth, x.genuine, es))
    decreases |es|
  {
    if es == [] {
      StartSettled(x, gcDepth);
    } else {
      hide Reached, Legal, Turn, LegalRun;
      var n := |es| - 1;
      LegalPrefix(x, gcDepth, es, n);
      RunReaches(x, gcDepth, es[..n]);
      LegalStep(x, gcDepth, es, n);
      TurnReaches(x, gcDepth, RunCore(x.c, x.me, gcDepth, x.genuine, es[..n]), es[n]);
    }
  }

  // ----- Repeated certificates

  /** Any certificate that verified, was handed to consensus and is not yet collected may come
      again, legally and punctually, and is handed to consensus again, however old it is there:
      nothing here keeps consensus from stale deliveries. */
  lemma RepeatIsForwarded(x: Ctx, gcDepth: nat, s: Core, cert: Certificate, e: Event)
    requires Settled(x, gcDepth, s) && Processed(x, s)
    requires cert in s.toConsensus && CertificateOk(x.c, x.genuine, cert) && cert.header.round >= s.gcRound
    requires e.m == NetCertificate(cert) && e.consensusRound >= s.consensusRound
    ensures Legal(x, s, e) && Punctual(s, e)
    ensures Turn(x.c, x.me, gcDepth, x.genuine, s, e).0.toConsensus == s.toConsensus + [cert]
  {
    hide VotingInv, CountingInv, WaitingInv, ProposingInv, OwnInv, Sound, CertificateOk, ProcessHeader, AppendCert;
    var i :| 0 <= i < |s.toConsensus| && s.toConsensus[i] == cert;
    assert HeaderFine(x, s.own, cert.header);
    assert Ordered(x.c, s.toConsensus, i);
    assert MarkedUntil(s, cert.header);
    assert Deliverable(x.c, s.store, cert.header.parents);
  }
}
