/** The primary of authority 1 takes the certificates of the chain: it hands them to consensus in
    order and leaves the rest of its state as it was. Runs that go on from there may read the
    round that its consensus has reached. */
module ChainRun {
  import opened Types
  import opened Messages
  import opened Aggregators
  import opened Primary
  import opened Certification
  import opened Chain
  import opened OwnHeaders
  import Agreement

  /** The signatures of authority 2 on its first `n` headers. */
  function Signatures(n: nat): set<Signature> {
    set r | 1 <= r <= n :: Signature(LEAD, A(r).Ref())
  }

  /** A certificate of the chain arrives while consensus has ordered nothing. */
  function Taking(r: nat): Event {
    Event(NetCertificate(Cert(r)), {A(r)}, 0)
  }

  function Feed(n: nat): seq<Event> {
    seq(n, i requires 0 <= i < n => Taking(i + 1))
  }

  function Certs(n: nat): seq<Certificate> {
    seq(n, i requires 0 <= i < n => Cert(i + 1))
  }

  /** What consensus receives, every leader selected for direct commit. */
  function Given(certs: seq<Certificate>): seq<Agreement.Delivery> {
    seq(|certs|, i requires 0 <= i < |certs| => Agreement.Delivery(certs[i].header, true))
  }

  lemma GivenStream(n: nat)
    ensures Given(Certs(n)) == Stream(n)
  {}

  /** Nothing is collected, and all but the slots of authority 2 is left alone. */
  ghost predicate Apart(s: Core, t: Core) {
    && t.own == s.own && t.current == s.current && t.votes == s.votes
    && t.gcRound == s.gcRound && t.consensusRound == s.consensusRound
    && s.waitingHeaders <= t.waitingHeaders && s.cast <= t.cast
    && forall r, k :: k != LEAD && Entered(t.lastVoted, r, k) ==> Entered(s.lastVoted, r, k)
  }

  lemma EnterOnly(m: map<nat, set<Key>>, r: nat, x: Key)
    ensures forall q, k :: Entered(Enter(m, r, x), q, k) ==> Entered(m, q, k) || k == x
  {}

  lemma ExamineApart(s: Core, r: nat)
    requires r >= 1 && ParentStored(s.store, r)
    ensures var (t, vote, status) := Examine(THREE, ME, {A(r)}, s, A(r));
            Apart(s, t) && status == Fine && t.store == s.store && t.toConsensus == s.toConsensus
  {
    ChainPass(s.store, r);
    EnterOnly(s.lastVoted, A(r).round, LEAD);
    assert A(r).author == LEAD;
    hide A, GetParents, CheckParents, ParentStored, Enter, Entered;
  }

  lemma HeaderApart(s: Core, r: nat)
    requires r >= 1 && ParentStored(s.store, r)
    ensures var (t, status) := ProcessHeader(THREE, ME, {A(r)}, s, A(r));
            Apart(s, t) && status == Fine && t.store == s.store && t.toConsensus == s.toConsensus
  {
    ExamineApart(s, r);
    assert A(r).author == LEAD;
    hide A, Examine, Entered, ParentStored;
  }

  lemma DeliverApart(s: Core, r: nat)
    requires r >= 1 && ParentStored(s.store, r)
    ensures var (t, status) := Deliver(THREE, s, Cert(r));
            && Apart(s, t) && status == Fine
            && t.store == s.store[A(r).Ref() := Cert(r)] && t.toConsensus == s.toConsensus + [Cert(r)]
  {
    ChainPass(s.store, r);
    assert Cert(r).header == A(r);
    hide A, AppendCert, ParentStored, Deliverable;
  }

  lemma TakeApart(s: Core, r: nat)
    requires r >= 1 && ParentStored(s.store, r)
    ensures var t := ProcessCertificate(THREE, ME, {A(r)}, s, Cert(r)).0;
            && Apart(s, t) && ParentStored(t.store, r + 1) && t.toConsensus == s.toConsensus + [Cert(r)]
  {
    var h := A(r);
    var s1 := if Entered(s.processing, h.round, h.id) then s else ProcessHeader(THREE, ME, {h}, s, h).0;
    HeaderApart(s, r);
    DeliverApart(s1, r);
    hide A, ProcessHeader, Deliver, Entered;
  }

  lemma Takes(gcDepth: nat, genuine: set<Signature>, s: Core, r: nat)
    requires r >= 1 && ParentStored(s.store, r) && s.gcRound == s.consensusRound == 0
    requires Signature(LEAD, A(r).Ref()) in genuine
    ensures var t := Turn(THREE, ME, gcDepth, genuine, s, Taking(r)).0;
            && Apart(s, t) && ParentStored(t.store, r + 1) && t.toConsensus == s.toConsensus + [Cert(r)]
  {
    CertVerifies(genuine, r);
    TakeApart(s, r);
    hide A, ProcessCertificate, CertificateOk, ParentStored, Entered;
  }

  lemma TakingIsLegal(genuine: set<Signature>, s: Core, r: nat)
    requires r >= 1 && s.consensusRound == 0
    ensures Legal(Ctx(THREE, ME, genuine), s, Taking(r))
  {
    ChainIsFine(r);
    assert A(r).author == LEAD;
    hide A, CertificateOk, HeaderOk;
  }

  // ----- Runs in step with consensus

  /** Fed with these certificates, consensus has this last committed round. */
  ghost predicate Reaches(c: Committee, gcDepth: nat, certs: seq<Certificate>, round: nat) {
    var o := Agreement.Run(c, c.LeaderKey, gcDepth, Given(certs));
    o.Some? && o.value.state.lastRound == round
  }

  ghost predicate ReadsAt(x: Ctx, gcDepth: nat, es: seq<Event>, i: int)
    requires 0 <= i < |es|
  {
    || es[i].consensusRound == 0
    || Reaches(x.c, gcDepth, RunCore(x.c, x.me, gcDepth, x.genuine, es[..i]).toConsensus, es[i].consensusRound)
  }

  /** A legal run in which every consensus round read is the initial one, or the one that this
      primary's own consensus reaches on the certificates it was handed before. */
  ghost predicate InStep(x: Ctx, gcDepth: nat, es: seq<Event>) {
    && LegalRun(x, gcDepth, es)
    && forall i {:trigger ReadsAt(x, gcDepth, es, i)} :: 0 <= i < |es| ==> ReadsAt(x, gcDepth, es, i)
  }

  lemma StepSnoc(x: Ctx, gcDepth: nat, es: seq<Event>, e: Event)
    requires InStep(x, gcDepth, es) && Legal(x, RunCore(x.c, x.me, gcDepth, x.genuine, es), e)
    requires || e.consensusRound == 0
             || Reaches(x.c, gcDepth, RunCore(x.c, x.me, gcDepth, x.genuine, es).toConsensus, e.consensusRound)
    ensures InStep(x, gcDepth, es + [e])
  {
    LegalSnoc(x, gcDepth, es, e);
    hide RunCore, LegalRun, Legal, Reaches;
    var all := es + [e];
    forall i | 0 <= i < |all| ensures ReadsAt(x, gcDepth, all, i) {
      assert all[..i] == if i < |es| then es[..i] else es;
      assert i < |es| ==> ReadsAt(x, gcDepth, es, i);
    }
  }

  lemma InStepSettles(x: Ctx, gcDepth: nat, es: seq<Event>)
    requires x.c.Valid() && InStep(x, gcDepth, es)
    ensures Settled(x, gcDepth, RunCore(x.c, x.me, gcDepth, x.genuine, es))
  {
    hide LegalRun, Settled, RunCore;
    RunReaches(x, gcDepth, es);
  }

  /** One more event of a run in step. */
  lemma Extends(x: Ctx, gcDepth: nat, es: seq<Event>, e: Event)
    requires x.c.Valid() && InStep(x, gcDepth, es) && Legal(x, RunCore(x.c, x.me, gcDepth, x.genuine, es), e)
    requires || e.consensusRound == 0
             || Reaches(x.c, gcDepth, RunCore(x.c, x.me, gcDepth, x.genuine, es).toConsensus, e.consensusRound)
    ensures InStep(x, gcDepth, es + [e])
    ensures var s := RunCore(x.c, x.me, gcDepth, x.genuine, es + [e]);
            s == Turn(x.c, x.me, gcDepth, x.genuine, RunCore(x.c, x.me, gcDepth, x.genuine, es), e).0
            && Settled(x, gcDepth, s)
  {
    hide *;
    StepSnoc(x, gcDepth, es, e);
    RunSnoc(x, gcDepth, es, e);
    InStepSettles(x, gcDepth, es + [e]);
  }

  /** What taking the chain leaves after a run `pre`. */
  ghost predicate Fed(x: Ctx, gcDepth: nat, pre: seq<Event>, n: nat) {
    var s := RunCore(x.c, x.me, gcDepth, x.genuine, pre);
    var t := RunCore(x.c, x.me, gcDepth, x.genuine, pre + Feed(n));
    && InStep(x, gcDepth, pre + Feed(n))
    && Apart(s, t) && ParentStored(t.store, n + 1) && t.toConsensus == Certs(n)
  }

  lemma ApartTrans(s: Core, t: Core, u: Core)
    requires Apart(s, t) && Apart(t, u)
    ensures Apart(s, u)
  {
    hide Entered;
  }

  lemma FeedSnoc(n: nat)
    requires n >= 1
    ensures Feed(n) == Feed(n - 1) + [Taking(n)] && Certs(n) == Certs(n - 1) + [Cert(n)]
  {
    hide Taking, Cert;
  }

  lemma FeedsOne(x: Ctx, gcDepth: nat, pre: seq<Event>, n: nat)
    requires x.c == THREE && x.me == ME && n >= 1 && Fed(x, gcDepth, pre, n - 1)
    requires var s := RunCore(THREE, ME, gcDepth, x.genuine, pre); s.gcRound == s.consensusRound == 0
    requires Signature(LEAD, A(n).Ref()) in x.genuine
    ensures Fed(x, gcDepth, pre, n)
  {
    var es := pre + Feed(n - 1);
    FeedSnoc(n);
    hide Feed, Certs, Taking, A, RunCore, Turn, Legal, InStep, ParentStored;
    assert pre + Feed(n) == es + [Taking(n)];
    var s := RunCore(THREE, ME, gcDepth, x.genuine, es);
    TakingIsLegal(x.genuine, s, n);
    Takes(gcDepth, x.genuine, s, n);
    StepSnoc(x, gcDepth, es, Taking(n));
    RunSnoc(x, gcDepth, es, Taking(n));
    ApartTrans(RunCore(THREE, ME, gcDepth, x.genuine, pre), s, Turn(THREE, ME, gcDepth, x.genuine, s, Taking(n)).0);
    hide Apart;
  }

  /** A run in which consensus has received nothing so far goes on with the chain. */
  lemma {:induction false} Feeds(x: Ctx, gcDepth: nat, pre: seq<Event>, n: nat)
    requires x.c == THREE && x.me == ME && InStep(x, gcDepth, pre)
    requires var s := RunCore(THREE, ME, gcDepth, x.genuine, pre);
             s.gcRound == s.consensusRound == 0 && s.toConsensus == []
    requires forall r :: 1 <= r <= n ==> Signature(LEAD, A(r).Ref()) in x.genuine
    ensures Fed(x, gcDepth, pre, n)
  {
    hide RunCore;
    if n == 0 {
      assert pre + Feed(0) == pre;
    } else {
      hide A, InStep, ParentStored, Taking;
      Feeds(x, gcDepth, pre, n - 1);
      FeedsOne(x, gcDepth, pre, n);
    }
  }

  /** Consensus has reached the leader by the time it has received the chain. */
  lemma FedReaches(gcDepth: nat)
    ensures Reaches(THREE, gcDepth, Certs(LeaderRound(gcDepth) + 3), LeaderRound(gcDepth))
  {
    hide Agreement.Run, Certs, Given, Stream, LeaderRound, Committee.LeaderKey;
    GivenStream(LeaderRound(gcDepth) + 3);
    ConsensusReaches(gcDepth);
  }
}
