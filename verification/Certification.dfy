/** What every turn of a primary keeps, on time or late: it votes only for headers whose parents
    it checked and remembers the votes of rounds not yet collected; it assembles only valid
    certificates; it hands certificates to consensus after their parents; it proposes on valid
    parents. */
module Certification {
  import opened Types
  import opened Messages
  import opened Aggregators
  import opened Primary

  /** One primary, its committee and the signatures that exist. */
  datatype Ctx = Ctx(c: Committee, me: Key, genuine: set<Signature>)

  // ----- Well-formed messages

  /** A signature that exists, or one of the primary's own votes. */
  ghost predicate Signed(x: Ctx, cast: seq<Vote>, sig: Signature) {
    sig in x.genuine || (sig.signer == x.me && exists v :: v in cast && v.signature == sig)
  }

  ghost predicate EntryOk(x: Ctx, cast: seq<Vote>, d: Digest, v: (Key, Signature)) {
    x.c.Stake(v.0) > 0 && v.1 == Signature(v.0, d) && Signed(x, cast, v.1)
  }

  ghost predicate Backed(x: Ctx, cast: seq<Vote>, cert: Certificate) {
    && NoDup(cert.Voters())
    && (forall v :: v in cert.votes ==> EntryOk(x, cast, cert.Hash(), v))
    && x.c.Weight(Members(cert.Voters())) >= x.c.QuorumThreshold()
  }

  ghost predicate Sound(x: Ctx, cast: seq<Vote>, cert: Certificate) {
    || IsGenesisRef(x.c, cert.Hash())
    || (Backed(x, cast, cert) && (HeaderOk(x.c, cert.header) || cert.header.id == Zero))
  }

  /** A header this primary may come across: genuine, or with the default id of round 0. Its
      own ones it was asked to propose. */
  ghost predicate HeaderFine(x: Ctx, own: seq<Header>, h: Header) {
    && NoDup(h.parents)
    && ((h.id == Zero && h.round == 0) || HeaderOk(x.c, h))
    && (HeaderOk(x.c, h) && h.author == x.me ==> h in own)
  }

  ghost predicate ParentChecked(x: Ctx, store: map<Digest, Certificate>, h: Header, d: Digest) {
    && (IsGenesisRef(x.c, d) || d in store)
    && d.CertHash?
    && d.round + 1 == h.round
  }

  /** The parents of `h` are at hand, one round below, with a quorum of stake. */
  ghost predicate Checked(x: Ctx, store: map<Digest, Certificate>, h: Header) {
    && HeaderOk(x.c, h)
    && NoDup(h.parents)
    && (forall d :: d in h.parents ==> ParentChecked(x, store, h, d))
    && x.c.SumStake(OriginsOf(h.parents)) >= x.c.QuorumThreshold()
  }

  predicate VoteFor(v: Vote, h: Header) {
    v.id == h.id && v.round == h.round && v.origin == h.author
  }

  // ----- The invariant

  ghost predicate VotingInv(x: Ctx, s: Core) {
    && (forall v :: v in s.cast ==> v.author == x.me && v.signature == Signature(x.me, v.Hash()))
    && (forall v :: v in s.cast ==> exists h :: h in s.headers && VoteFor(v, h))
    && (forall h :: h in s.headers ==> Checked(x, s.store, h))
    && (forall v :: v in s.cast && v.round >= s.gcRound ==> Entered(s.lastVoted, v.round, v.origin))
  }

  ghost predicate Ordered(c: Committee, out: seq<Certificate>, i: int)
    requires 0 <= i < |out|
  {
    forall d :: d in out[i].header.parents ==> IsGenesisRef(c, d) || exists j :: 0 <= j < i && out[j].Hash() == d
  }

  ghost predicate StoreInv(x: Ctx, s: Core) {
    && (forall d :: d in s.store ==> s.store[d].Hash() == d && s.store[d] in s.toConsensus)
    && (forall i :: 0 <= i < |s.toConsensus| ==>
          && Sound(x, s.cast, s.toConsensus[i]) && HeaderFine(x, s.own, s.toConsensus[i].header)
          && s.toConsensus[i].Hash() in s.store)
    && (forall i {:trigger Ordered(x.c, s.toConsensus, i)} ::
          0 <= i < |s.toConsensus| ==> Ordered(x.c, s.toConsensus, i))
  }

  ghost predicate CountingInv(x: Ctx, s: Core) {
    && (exists fired :: VotesCounted(x.c, s.votes, fired))
    && (forall v :: v in s.votes.votes ==> EntryOk(x, s.cast, s.current.Ref(), v))
    && HeaderFine(x, s.own, s.current)
  }

  ghost predicate WaitingInv(x: Ctx, s: Core) {
    && (forall h :: h in s.waitingHeaders ==> HeaderFine(x, s.own, h))
    && (forall cert :: cert in s.waitingCerts ==> Sound(x, s.cast, cert) && HeaderFine(x, s.own, cert.header))
  }

  ghost predicate Counted(x: Ctx, s: Core, r: nat, a: CertCount) {
    && (exists fired :: CertsCounted(x.c, a, r, fired))
    && (forall d :: d in a.certificates ==> d in s.store)
  }

  ghost predicate ProposingInv(x: Ctx, s: Core) {
    && (forall r :: r in s.counts ==> Counted(x, s, r, s.counts[r]))
    && (forall p :: p in s.toProposer ==> ParentList(x.c, p.0, p.1) && forall d :: d in p.0 ==> d in s.store)
  }

  ghost predicate OwnInv(x: Ctx, s: Core) {
    && (forall h :: h in s.own ==> HeaderOk(x.c, h) && h.author == x.me)
    && (forall h :: h in s.headers && h.author == x.me ==> h in s.own)
    && (forall i, j :: 0 <= i < j < |s.own| ==> s.own[i].round < s.own[j].round)
    && (s.own != [] ==> s.current == s.own[|s.own| - 1])
    && (forall h :: h in s.own && h != s.current && h.round >= s.gcRound ==> Entered(s.lastVoted, h.round, x.me))
    && (forall r :: Entered(s.lastVoted, r, x.me) ==> exists h :: h in s.own && h.round == r)
  }

  ghost predicate Inv(x: Ctx, s: Core) {
    && x.c.Valid()
    && VotingInv(x, s) && StoreInv(x, s) && CountingInv(x, s)
    && WaitingInv(x, s) && ProposingInv(x, s) && OwnInv(x, s)
  }

  /** The logs and the store only grow inside one turn. */
  ghost predicate Grows(s: Core, t: Core) {
    && t.own == s.own && t.current == s.current && t.gcRound == s.gcRound && t.consensusRound == s.consensusRound
    && s.cast <= t.cast && s.toConsensus <= t.toConsensus
    && s.headers <= t.headers && s.store.Keys <= t.store.Keys
    && (forall r, k :: Entered(s.lastVoted, r, k) ==> Entered(t.lastVoted, r, k))
  }

  // ----- Monotonicity

  lemma SoundGrows(x: Ctx, cast: seq<Vote>, cast': seq<Vote>, cert: Certificate)
    requires cast <= cast' && Sound(x, cast, cert)
    ensures Sound(x, cast', cert)
  {
    if Backed(x, cast, cert) {
      forall v | v in cert.votes ensures EntryOk(x, cast', cert.Hash(), v) {
        assert EntryOk(x, cast, cert.Hash(), v);
      }
    }
  }

  // ----- The steps of a turn

  lemma {:induction false} GetParentsSpec(c: Committee, store: map<Digest, Certificate>, ps: seq<Digest>)
    requires forall d :: d in store ==> store[d].Hash() == d
    ensures var o := GetParents(c, store, ps);
            && (o.Some? <==> Deliverable(c, store, ps))
            && (o.Some? ==> |o.value| == |ps|)
            && (o.Some? ==> forall i ::
                  0 <= i < |ps| ==> ps[i] == CertHash(o.value[i].id, o.value[i].round, o.value[i].author))
  {
    if ps != [] {
      GetParentsSpec(c, store, ps[1..]);
      assert forall d :: d in ps <==> d == ps[0] || d in ps[1..];
    }
  }

  /** Headers at hand that pass the loop over the parents make the header checked. */
  lemma ParentsAreChecked(x: Ctx, store: map<Digest, Certificate>, h: Header, ps: seq<Header>)
    requires NoDup(h.parents) && ((h.id == Zero && h.round == 0) || HeaderOk(x.c, h))
    requires Deliverable(x.c, store, h.parents) && |ps| == |h.parents| > 0
    requires forall i :: 0 <= i < |ps| ==> h.parents[i] == CertHash(ps[i].id, ps[i].round, ps[i].author)
    requires CheckParents(x.c, ps, h).None?
    ensures Checked(x, store, h)
  {
    assert Authors(ps) == OriginsOf(h.parents);
    assert ps[0] in ps;
    forall d | d in h.parents ensures ParentChecked(x, store, h, d) {
      var i :| 0 <= i < |h.parents| && h.parents[i] == d;
      assert ps[i] in ps;
    }
  }

  /** A header passes the examination only with its parents checked. */
  lemma ExamineChecks(x: Ctx, payload: set<Header>, s: Core, h: Header)
    requires Inv(x, s) && HeaderFine(x, s.own, h)
    ensures var (t, vote, status) := Examine(x.c, x.me, payload, s, h);
            var s1 := s.(processing := t.processing);
            || (t == s1 && !vote)
            || (t == s1.(waitingHeaders := s.waitingHeaders + {h}) && !vote)
            || (&& Checked(x, s.store, h)
                && t == s1.(headers := s.headers + {h}, lastVoted := Enter(s.lastVoted, h.round, h.author))
                && (vote <==> !Entered(s.lastVoted, h.round, h.author)))
  {
    GetParentsSpec(x.c, s.store, h.parents);
    var o := GetParents(x.c, s.store, h.parents);
    if o.Some? && o.value != [] && CheckParents(x.c, o.value, h).None? {
      ParentsAreChecked(x, s.store, h, o.value);
    }
  }

  lemma StoreSame(x: Ctx, s: Core, t: Core)
    requires StoreInv(x, s) && t.store == s.store && t.toConsensus == s.toConsensus && t.cast == s.cast
        && t.own == s.own
    ensures StoreInv(x, t)
  {
    hide Sound, HeaderFine;
    forall i | 0 <= i < |t.toConsensus| ensures Ordered(x.c, t.toConsensus, i) {
      assert Ordered(x.c, s.toConsensus, i);
    }
  }

  lemma ProposingSame(x: Ctx, s: Core, t: Core)
    requires ProposingInv(x, s) && t.store == s.store && t.toProposer == s.toProposer
    requires forall r :: r in t.counts ==> r in s.counts && t.counts[r] == s.counts[r]
    ensures ProposingInv(x, t)
  {
    hide CertsCounted, ParentList;
    forall r | r in t.counts ensures Counted(x, t, r, t.counts[r]) {
      assert Counted(x, s, r, s.counts[r]);
    }
  }

  lemma SuspendKeeps(x: Ctx, s: Core, t: Core, h: Header)
    requires Inv(x, s) && HeaderFine(x, s.own, h)
    requires t == s.(processing := t.processing)
        || t == s.(processing := t.processing, waitingHeaders := s.waitingHeaders + {h})
    ensures Inv(x, t) && Grows(s, t)
  {
    hide StoreInv, ProposingInv, Sound, HeaderFine, HeaderOk, Checked, EntryOk, VotesCounted;
    StoreSame(x, s, t);
    ProposingSame(x, s, t);
  }

  lemma CastOwn(x: Ctx, s: Core, t: Core, h: Header)
    requires OwnInv(x, s) && HeaderFine(x, s.own, h) && HeaderOk(x.c, h)
    requires t == s.(processing := t.processing, headers := s.headers + {h}, cast := t.cast,
                     lastVoted := Enter(s.lastVoted, h.round, h.author))
    ensures OwnInv(x, t)
  {
    forall r, k ensures Entered(t.lastVoted, r, k) <==> Entered(s.lastVoted, r, k) || (r == h.round && k == h.author) {}
  }

  /** The parts of the invariant that only mention votes through `Signed`. */
  lemma CastGrows(x: Ctx, s: Core, t: Core)
    requires StoreInv(x, s) && CountingInv(x, s) && WaitingInv(x, s) && ProposingInv(x, s)
    requires s.cast <= t.cast
    requires t == s.(processing := t.processing, headers := t.headers, lastVoted := t.lastVoted, cast := t.cast)
    ensures StoreInv(x, t) && CountingInv(x, t) && WaitingInv(x, t) && ProposingInv(x, t)
  {
    hide HeaderFine, HeaderOk, CertsCounted, VotesCounted, ParentList, Backed;
    forall cert | Sound(x, s.cast, cert) ensures Sound(x, t.cast, cert) {
      SoundGrows(x, s.cast, t.cast, cert);
    }
    forall i | 0 <= i < |t.toConsensus| ensures Ordered(x.c, t.toConsensus, i) {
      assert Ordered(x.c, s.toConsensus, i);
    }
    forall v | v in t.votes.votes ensures EntryOk(x, t.cast, t.current.Ref(), v) {
      assert EntryOk(x, s.cast, s.current.Ref(), v);
    }
    forall r | r in t.counts ensures Counted(x, t, r, t.counts[r]) {
      assert Counted(x, s, r, s.counts[r]);
    }
  }

  lemma CastVoting(x: Ctx, s: Core, t: Core, h: Header)
    requires VotingInv(x, s) && Checked(x, s.store, h)
    requires t == s.(processing := t.processing, headers := s.headers + {h},
                     lastVoted := Enter(s.lastVoted, h.round, h.author),
                     cast := if Entered(s.lastVoted, h.round, h.author) then s.cast else s.cast + [NewVote(h, x.me)])
    ensures VotingInv(x, t)
  {
    hide Checked;
    forall v | v in t.cast ensures v in s.cast || (v == NewVote(h, x.me) && !Entered(s.lastVoted, h.round, h.author)) {}
    hide Entered, Enter;
    assert h in t.headers;
    forall v | v in t.cast ensures exists k :: k in t.headers && VoteFor(v, k) {
      if v in s.cast {
        var k :| k in s.headers && VoteFor(v, k);
        assert k in t.headers;
      } else {
        assert VoteFor(v, h);
      }
    }
  }

  /** Recording a vote, or a header already voted in its slot. */
  lemma CastKeeps(x: Ctx, s: Core, t: Core, h: Header)
    requires Inv(x, s) && HeaderFine(x, s.own, h) && Checked(x, s.store, h)
    requires t == s.(processing := t.processing, headers := s.headers + {h},
                     lastVoted := Enter(s.lastVoted, h.round, h.author),
                     cast := if Entered(s.lastVoted, h.round, h.author) then s.cast else s.cast + [NewVote(h, x.me)])
    ensures Inv(x, t) && Grows(s, t)
  {
    assert HeaderOk(x.c, h);
    hide VotingInv, StoreInv, CountingInv, WaitingInv, ProposingInv, OwnInv, HeaderFine, Checked, HeaderOk;
    CastVoting(x, s, t, h);
    CastGrows(x, s, t);
    CastOwn(x, s, t, h);
    hide Entered, Enter;
  }

  lemma CountCounts(x: Ctx, s: Core, v: Vote)
    requires x.c.Valid() && CountingInv(x, s) && EntryOk(x, s.cast, s.current.Ref(), (v.author, v.signature))
    ensures var (votes, r) := AppendVote(x.c, s.votes, v, s.current);
            && CountingInv(x, s.(votes := votes))
            && (r.Complete? ==> r.value.header == s.current && Backed(x, s.cast, r.value))
  {
    var (votes, r) := AppendVote(x.c, s.votes, v, s.current);
    var fired :| VotesCounted(x.c, s.votes, fired);
    var fired' := AppendVoteKeeps(x.c, s.votes, fired, v, s.current);
    hide HeaderFine, Tally, Committee.Valid;
    assert VotesCounted(x.c, votes, fired');
    forall w | w in votes.votes ensures EntryOk(x, s.cast, s.current.Ref(), w) {
      assert w in s.votes.votes || w == (v.author, v.signature);
    }
  }

  /** Counting a valid vote for the current header; a completed certificate is sound. */
  lemma CountKeeps(x: Ctx, s: Core, v: Vote)
    requires Inv(x, s) && EntryOk(x, s.cast, s.current.Ref(), (v.author, v.signature))
    ensures var (votes, r) := AppendVote(x.c, s.votes, v, s.current);
            && Inv(x, s.(votes := votes))
            && (r.Complete? ==> r.value.header == s.current && Sound(x, s.cast, r.value))
  {
    CountCounts(x, s, v);
    StoreSame(x, s, s.(votes := AppendVote(x.c, s.votes, v, s.current).0));
    ProposingSame(x, s, s.(votes := AppendVote(x.c, s.votes, v, s.current).0));
    hide CountingInv, StoreInv, ProposingInv, Checked, AppendVote, EntryOk;
  }

  /** The certificate that the vote counter emits for an own header passes verification. */
  lemma AssembledVerifies(x: Ctx, s: Core, v: Vote)
    requires Inv(x, s) && EntryOk(x, s.cast, s.current.Ref(), (v.author, v.signature)) && s.own != []
    requires forall u :: u in s.cast ==> u.signature in x.genuine
    ensures var r := AppendVote(x.c, s.votes, v, s.current).1;
            r.Complete? ==> r.value.header == s.current && CertificateOk(x.c, x.genuine, r.value)
  {
    var r := AppendVote(x.c, s.votes, v, s.current).1;
    CountKeeps(x, s, v);
    if r.Complete? && !IsGenesisRef(x.c, r.value.Hash()) {
      forall e | e in r.value.votes
        ensures x.c.Stake(e.0) > 0 && e.1 == Signature(e.0, r.value.Hash()) && e.1 in x.genuine
      {
        assert EntryOk(x, s.cast, r.value.Hash(), e);
      }
      assert HeaderOk(x.c, s.current);
    }
  }

  lemma SameVotes(x: Ctx, s: Core, cert: Certificate)
    requires CountingInv(x, s) && OwnInv(x, s)
    ensures CountingInv(x, Deliver(x.c, s, cert).0) && OwnInv(x, Deliver(x.c, s, cert).0)
  {
    hide AppendCert, VotesCounted, EntryOk, HeaderFine, HeaderOk, Deliverable;
  }

  lemma HoldKeeps(x: Ctx, s: Core, cert: Certificate)
    requires Inv(x, s) && Sound(x, s.cast, cert) && HeaderFine(x, s.own, cert.header)
    ensures var t := s.(waitingCerts := s.waitingCerts + {cert});
            Inv(x, t) && Grows(s, t)
  {
    hide StoreInv, ProposingInv, Sound, HeaderFine, HeaderOk, Checked, EntryOk, VotesCounted;
    var t := s.(waitingCerts := s.waitingCerts + {cert});
    StoreSame(x, s, t);
    ProposingSame(x, s, t);
  }

  lemma DeliverVotes(x: Ctx, s: Core, cert: Certificate)
    requires VotingInv(x, s) && Deliverable(x.c, s.store, cert.header.parents)
    ensures VotingInv(x, Deliver(x.c, s, cert).0)
  {
    var t := Deliver(x.c, s, cert).0;
    forall h | h in t.headers ensures Checked(x, t.store, h) {
      assert Checked(x, s.store, h);
      forall d | d in h.parents ensures ParentChecked(x, t.store, h, d) {
        assert ParentChecked(x, s.store, h, d);
      }
    }
  }

  /** The delivered certificate comes after all its parents. */
  lemma DeliverOrders(x: Ctx, s: Core, cert: Certificate)
    requires StoreInv(x, s) && Deliverable(x.c, s.store, cert.header.parents)
    ensures var out := s.toConsensus + [cert];
            forall i :: 0 <= i < |out| ==> Ordered(x.c, out, i)
  {
    hide Sound, HeaderFine;
    var out := s.toConsensus + [cert];
    forall i | 0 <= i < |out| ensures Ordered(x.c, out, i) {
      forall d | d in out[i].header.parents && !IsGenesisRef(x.c, d)
        ensures exists j :: 0 <= j < i && out[j].Hash() == d
      {
        if i < |s.toConsensus| {
          assert Ordered(x.c, s.toConsensus, i);
          var j :| 0 <= j < i && s.toConsensus[j].Hash() == d;
          assert out[j].Hash() == d;
        } else {
          assert s.store[d] in s.toConsensus;
          var j :| 0 <= j < |s.toConsensus| && s.toConsensus[j] == s.store[d];
          assert out[j].Hash() == d;
        }
      }
    }
  }

  lemma DeliverStores(x: Ctx, s: Core, cert: Certificate)
    requires StoreInv(x, s) && Sound(x, s.cast, cert) && HeaderFine(x, s.own, cert.header)
    requires Deliverable(x.c, s.store, cert.header.parents)
    ensures StoreInv(x, Deliver(x.c, s, cert).0)
  {
    var t := Deliver(x.c, s, cert).0;
    DeliverOrders(x, s, cert);
    hide Sound, HeaderFine, Ordered, AppendCert, Deliverable;
    assert t.toConsensus == s.toConsensus + [cert] && t.store == s.store[cert.Hash() := cert];
    assert cert in t.toConsensus;
    forall d | d in t.store ensures t.store[d].Hash() == d && t.store[d] in t.toConsensus {
      assert d != cert.Hash() ==> t.store[d] == s.store[d] && s.store[d] in s.toConsensus;
    }
  }

  /** The counter of one round, before and after one more certificate. */
  lemma CountMore(x: Ctx, s: Core, cert: Certificate)
    requires x.c.Valid() && ProposingInv(x, s)
    ensures var r := cert.header.round;
            var (a, o) := AppendCert(x.c, if r in s.counts then s.counts[r] else NO_CERTIFICATES, cert);
            && (exists fired :: CertsCounted(x.c, a, r, fired))
            && (forall d :: d in a.certificates ==> d in s.store || d == cert.Hash())
            && (o.Some? ==>
                  ParentList(x.c, o.value, r) && forall d :: d in o.value ==> d in s.store || d == cert.Hash())
  {
    hide Tally, Committee.Valid, ParentList;
    var r := cert.header.round;
    var a := if r in s.counts then s.counts[r] else NO_CERTIFICATES;
    if r !in s.counts {
      TallyStarts(x.c);
      assert Origins([]) == {};
      assert CertsCounted(x.c, NO_CERTIFICATES, r, {});
    } else {
      assert Counted(x, s, r, s.counts[r]);
    }
    var fired :| CertsCounted(x.c, a, r, fired);
    var fired' := AppendCertKeeps(x.c, a, r, fired, cert);
  }

  lemma DeliverCounts(x: Ctx, s: Core, cert: Certificate)
    requires x.c.Valid() && ProposingInv(x, s) && Deliverable(x.c, s.store, cert.header.parents)
    ensures ProposingInv(x, Deliver(x.c, s, cert).0)
  {
    CountMore(x, s, cert);
    hide Deliverable, AppendCert, CertsCounted, ParentList;
    var t, r := Deliver(x.c, s, cert).0, cert.header.round;
    forall k | k in t.counts ensures Counted(x, t, k, t.counts[k]) {
      if k != r {
        assert Counted(x, s, k, s.counts[k]);
      }
    }
  }

  lemma DeliverKeeps(x: Ctx, s: Core, cert: Certificate)
    requires Inv(x, s) && Sound(x, s.cast, cert) && HeaderFine(x, s.own, cert.header)
    ensures var t := Deliver(x.c, s, cert).0;
            Inv(x, t) && Grows(s, t)
  {
    hide StoreInv, ProposingInv, VotingInv, OwnInv, CountingInv, Sound, HeaderFine, AppendCert;
    SameVotes(x, s, cert);
    if Deliverable(x.c, s.store, cert.header.parents) {
      DeliverStores(x, s, cert);
      DeliverCounts(x, s, cert);
      DeliverVotes(x, s, cert);
    } else {
      HoldKeeps(x, s, cert);
    }
  }

  // ----- A whole turn

  /** Of own headers behind the collection round only the current one is met. */
  predicate CurrentIfLate(s: Core, h: Header) {
    h in s.own && h.round < s.gcRound ==> h == s.current
  }

  /** The only own header that can still be voted for is the current one. */
  lemma OwnVote(x: Ctx, s: Core, h: Header)
    requires Inv(x, s) && HeaderFine(x, s.own, h) && Checked(x, s.store, h) && CurrentIfLate(s, h)
    requires h.author == x.me && !Entered(s.lastVoted, h.round, h.author)
    ensures h == s.current && x.c.Stake(x.me) > 0
  {}

  lemma SuspendOrCast(x: Ctx, s: Core, t: Core, h: Header)
    requires Inv(x, s) && HeaderFine(x, s.own, h)
    requires t.headers == s.headers && t.lastVoted == s.lastVoted
    requires t == s.(processing := t.processing)
        || t == s.(processing := t.processing, waitingHeaders := s.waitingHeaders + {h})
          || (Checked(x, s.store, h)
              && t == s.(processing := t.processing, headers := s.headers + {h},
                         lastVoted := Enter(s.lastVoted, h.round, h.author))
              && Entered(s.lastVoted, h.round, h.author))
    ensures Inv(x, t) && Grows(s, t)
  {
    SuspendKeeps(x, s, t, h);
    hide Inv, HeaderFine, Checked;
  }

  lemma {:induction false} CertificateKeeps(x: Ctx, payload: set<Header>, s: Core, cert: Certificate)
    requires Inv(x, s) && Sound(x, s.cast, cert) && HeaderFine(x, s.own, cert.header) && CurrentIfLate(s, cert.header)
    ensures var t := ProcessCertificate(x.c, x.me, payload, s, cert).0;
            Inv(x, t) && Grows(s, t)
    decreases OwnVoteOpen(x.me, s), 3
  {
    var h := cert.header;
    var s1 := if Entered(s.processing, h.round, h.id) then s else ProcessHeader(x.c, x.me, payload, s, h).0;
    if !Entered(s.processing, h.round, h.id) {
      HeaderKeeps(x, payload, s, h);
    }
    SoundGrows(x, s.cast, s1.cast, cert);
    DeliverKeeps(x, s1, cert);
  }

  lemma {:induction false} VoteKeeps(x: Ctx, payload: set<Header>, s: Core, v: Vote)
    requires Inv(x, s) && EntryOk(x, s.cast, s.current.Ref(), (v.author, v.signature))
    ensures var t := ProcessVote(x.c, x.me, payload, s, v).0;
            Inv(x, t) && Grows(s, t)
    decreases OwnVoteOpen(x.me, s), if v.author == x.me then 1 else 4
  {
    hide VotingInv, StoreInv, WaitingInv, ProposingInv, OwnInv, Sound;
    var (votes, r) := AppendVote(x.c, s.votes, v, s.current);
    var s1 := s.(votes := votes);
    CountKeeps(x, s, v);
    if r.Complete? {
      CertificateKeeps(x, payload, s1, r.value);
    }
  }

  lemma {:induction false} HeaderKeeps(x: Ctx, payload: set<Header>, s: Core, h: Header)
    requires Inv(x, s) && HeaderFine(x, s.own, h) && CurrentIfLate(s, h)
    ensures var t := ProcessHeader(x.c, x.me, payload, s, h).0;
            Inv(x, t) && Grows(s, t)
    decreases OwnVoteOpen(x.me, s), 2
  {
    hide VotingInv, StoreInv, CountingInv, WaitingInv, ProposingInv, OwnInv, HeaderFine, Checked, Examine, Enter,
      Entered;
    var (s1, vote, status) := Examine(x.c, x.me, payload, s, h);
    ExamineChecks(x, payload, s, h);
    if s1.headers == s.headers && !vote && s1.lastVoted == s.lastVoted {
      SuspendOrCast(x, s, s1, h);
    } else {
      var v := NewVote(h, x.me);
      var s2 := if vote then s1.(cast := s1.cast + [v]) else s1;
      CastKeeps(x, s, s2, h);
      if vote && h.author == x.me {
        OwnVote(x, s, h);
        assert v in s2.cast;
        VoteKeeps(x, payload, s2, v);
      }
    }
  }

  // ----- Events

  /** The parents of an own header: the genesis certificates, or a list sent to the proposer. */
  ghost predicate Offered(c: Committee, s: Core, h: Header) {
    || (h.round == 1 && Members(h.parents) == Members(GenesisParents(c)))
    || (exists p :: p in s.toProposer && p.1 + 1 == h.round && Members(h.parents) == Members(p.0))
  }

  /** What may be handed to the primary. Own headers come from the proposer, with growing
      rounds and parents it was offered; nobody else can sign a header of this primary; the
      waiters hand back what they were given; the consensus round does not fall. */
  ghost predicate Legal(x: Ctx, s: Core, e: Event) {
    && e.consensusRound >= s.consensusRound
    && match e.m
       case NetHeader(h) => NoDup(h.parents) && (HeaderOk(x.c, h) && h.author == x.me ==> h in s.own)
       case NetVote(v) => true
       case NetCertificate(cert) =>
         && NoDup(cert.header.parents)
         && (HeaderOk(x.c, cert.header) && cert.header.author == x.me ==> cert.header in s.own)
       case LoopHeader(h) => h in s.waitingHeaders
       case LoopCertificate(cert) => cert in s.waitingCerts
       case OwnHeader(h) =>
         && HeaderOk(x.c, h) && h.author == x.me && NoDup(h.parents)
         && (forall k :: k in s.own ==> k.round < h.round)
         && Offered(x.c, s, h)
  }

  /** No own header waits to come back. */
  ghost predicate NoOwnWaiting(s: Core) {
    && (forall h :: h in s.waitingHeaders ==> h !in s.own)
    && (forall cert :: cert in s.waitingCerts ==> cert.header !in s.own)
  }

  /** No header is processed behind the garbage collection round. The loop guards messages from
      the network, not the loopbacks, own headers or late votes. */
  ghost predicate Punctual(s: Core, e: Event) {
    match e.m
    case NetHeader(h) => true
    case NetVote(v) => ExpectedVote(s, v) ==> v.round >= s.gcRound
    case NetCertificate(cert) => true
    case LoopHeader(h) => h.round >= s.gcRound
    case LoopCertificate(cert) => cert.header.round >= s.gcRound
    case OwnHeader(h) => h.round >= s.gcRound
  }

  /** Between turns the current header is voted for, the collection round is current, and
      nothing is remembered of the votes before it. */
  ghost predicate Settled(x: Ctx, gcDepth: nat, s: Core) {
    && Inv(x, s)
    && (forall r :: r in s.lastVoted ==> r >= s.gcRound)
    && (s.own != [] && s.current.round >= s.gcRound ==> Entered(s.lastVoted, s.current.round, x.me))
    && s.gcRound == (if s.consensusRound > gcDepth then s.consensusRound - gcDepth else 0)
  }

  lemma NoVotesCounted(c: Committee)
    ensures VotesCounted(c, NO_VOTES, {})
  {
    TallyStarts(c);
    assert VotersOf([]) == [];
  }

  lemma StartSettled(x: Ctx, gcDepth: nat)
    requires x.c.Valid()
    ensures Settled(x, gcDepth, START)
  {
    NoVotesCounted(x.c);
  }

  lemma {:induction false} TotalIsWeight(c: Committee, ns: seq<Key>)
    requires forall k :: k in ns ==> k in c.names
    ensures c.WeightIn(ns, Members(c.names)) == c.TotalIn(ns)
  {
    if ns != [] {
      TotalIsWeight(c, ns[1..]);
    }
  }

  lemma GenesisQuorum(c: Committee)
    requires c.Valid() && c.Total() > 0
    ensures c.Weight(Members(c.names)) >= c.QuorumThreshold()
  {
    TotalIsWeight(c, c.names);
  }

  lemma PositiveTotal(c: Committee, k: Key)
    requires c.Valid() && c.Stake(k) > 0
    ensures c.Total() > 0
  {
    c.WeightSingletonIn(c.names, k);
    c.WeightMonotone({k}, {k});
  }

  /** Distinct positions name distinct origins. */
  lemma DistinctOrigins(ds: seq<Digest>)
    requires NoDup(OriginsOf(ds)) && forall d :: d in ds ==> d.CertHash?
    ensures forall d, e :: d in ds && e in ds && d.origin == e.origin ==> d == e
  {
    forall d, e | d in ds && e in ds && d.origin == e.origin ensures d == e {
      var i :| 0 <= i < |ds| && ds[i] == d;
      var j :| 0 <= j < |ds| && ds[j] == e;
      assert OriginsOf(ds)[i] == OriginsOf(ds)[j];
    }
  }

  /** Over parents with distinct origins the sum of stakes is the weight of the origins. */
  lemma SumOfParents(c: Committee, ds: seq<Digest>)
    requires c.Valid() && NoDup(ds)
    requires forall d :: d in ds ==> d.CertHash?
    requires forall d, e :: d in ds && e in ds && d.origin == e.origin ==> d == e
    ensures c.SumStake(OriginsOf(ds)) == c.Weight(Origins(ds))
  {
    var ks := OriginsOf(ds);
    forall i, j | 0 <= i < j < |ks| ensures ks[i] != ks[j] {
      assert ds[i] in ds && ds[j] in ds;
    }
    c.SumIsWeight(ks);
    OriginsMatch(ds);
  }

  lemma OfferedQuorum(x: Ctx, s: Core, h: Header)
    requires Inv(x, s) && HeaderOk(x.c, h) && NoDup(h.parents) && Offered(x.c, s, h)
    ensures h.parents != []
    ensures forall d :: d in h.parents ==> ParentChecked(x, s.store, h, d)
    ensures x.c.SumStake(OriginsOf(h.parents)) >= x.c.QuorumThreshold()
  {
    var c := x.c;
    if h.round == 1 && Members(h.parents) == Members(GenesisParents(c)) {
      GenesisParentsAre(c);
      forall d | d in h.parents ensures d.CertHash? && d.id == Zero && d.round == 0 && d.origin in c.names {
        assert d in Members(h.parents);
      }
      assert Origins(h.parents) == Members(c.names) by {
        forall a | a in c.names ensures a in Origins(h.parents) {
          assert GenesisRef(a) in Members(GenesisParents(c));
          assert GenesisRef(a) in Members(h.parents);
        }
      }
      PositiveTotal(c, h.author);
      GenesisQuorum(c);
    } else {
      var p :| p in s.toProposer && p.1 + 1 == h.round && Members(h.parents) == Members(p.0);
      assert ParentList(c, p.0, p.1);
      forall d | d in h.parents ensures d in p.0 {
        assert d in Members(h.parents);
      }
      assert Origins(h.parents) == Origins(p.0) by {
        forall d ensures d in h.parents <==> d in p.0 {
          assert d in Members(h.parents) <==> d in Members(p.0);
        }
      }
      DistinctOrigins(p.0);
    }
    c.QuorumNotEmpty(Origins(h.parents));
    SumOfParents(c, h.parents);
  }

  /** Offered parents pass the parent check: an own header is voted for at once. */
  lemma OfferedChecks(x: Ctx, payload: set<Header>, s: Core, h: Header)
    requires Inv(x, s) && HeaderOk(x.c, h) && h.author == x.me && NoDup(h.parents) && Offered(x.c, s, h)
    ensures var (t, vote, status) := Examine(x.c, x.me, payload, s, h);
            status == Fine && Entered(t.lastVoted, h.round, x.me)
  {
    GetParentsSpec(x.c, s.store, h.parents);
    OfferedQuorum(x, s, h);
    var o := GetParents(x.c, s.store, h.parents);
    assert Authors(o.value) == OriginsOf(h.parents);
    forall p | p in o.value ensures p.round + 1 == h.round {
      var i :| 0 <= i < |o.value| && o.value[i] == p;
      assert h.parents[i] in h.parents;
    }
  }

  lemma OwnGrowsRest(x: Ctx, s: Core, t: Core, h: Header)
    requires StoreInv(x, s) && WaitingInv(x, s) && ProposingInv(x, s)
    requires t == s.(current := h, votes := NO_VOTES, own := s.own + [h])
    ensures StoreInv(x, t) && WaitingInv(x, t) && ProposingInv(x, t)
  {
    forall k | HeaderFine(x, s.own, k) ensures HeaderFine(x, t.own, k) {}
    hide HeaderFine, Sound, HeaderOk, CertsCounted, ParentList;
    forall i | 0 <= i < |t.toConsensus| ensures Ordered(x.c, t.toConsensus, i) {
      assert Ordered(x.c, s.toConsensus, i);
    }
    forall r | r in t.counts ensures Counted(x, t, r, t.counts[r]) {
      assert Counted(x, s, r, s.counts[r]);
    }
  }

  lemma OwnGrows(x: Ctx, s: Core, t: Core, h: Header)
    requires Inv(x, s) && HeaderOk(x.c, h) && h.author == x.me && NoDup(h.parents)
    requires forall k :: k in s.own ==> k.round < h.round
    requires s.own != [] && s.current.round >= s.gcRound ==> Entered(s.lastVoted, s.current.round, x.me)
    requires t == s.(current := h, votes := NO_VOTES, own := s.own + [h])
    requires exists fired :: VotesCounted(x.c, NO_VOTES, fired)
    ensures Inv(x, t)
  {
    OwnGrowsRest(x, s, t, h);
    hide StoreInv, WaitingInv, ProposingInv, OwnInv, HeaderOk, Checked, VotesCounted, Entered;
    assert CountingInv(x, t);
    assert VotingInv(x, t);
  }

  /** What the examination enters as voted stays entered through the rest of the turn. */
  lemma ExamineStays(x: Ctx, payload: set<Header>, s: Core, h: Header)
    requires Inv(x, s) && HeaderFine(x, s.own, h) && CurrentIfLate(s, h)
    requires Entered(Examine(x.c, x.me, payload, s, h).0.lastVoted, h.round, x.me)
    ensures Entered(ProcessHeader(x.c, x.me, payload, s, h).0.lastVoted, h.round, x.me)
  {
    hide VotingInv, StoreInv, CountingInv, WaitingInv, ProposingInv, Checked, Examine, Enter;
    var (s1, vote, status) := Examine(x.c, x.me, payload, s, h);
    ExamineChecks(x, payload, s, h);
    if vote {
      var v := NewVote(h, x.me);
      var s2 := s1.(cast := s1.cast + [v]);
      CastKeeps(x, s, s2, h);
      if h.author == x.me {
        OwnVote(x, s, h);
        assert v in s2.cast;
        VoteKeeps(x, payload, s2, v);
      }
    }
  }

  /** Handing a new header to the primary: it becomes the current one and is voted for. */
  lemma OwnHeaderKeeps(x: Ctx, gcDepth: nat, s: Core, e: Event)
    requires Settled(x, gcDepth, s) && Legal(x, s, e) && e.m.OwnHeader?
    ensures var t := Handle(x.c, x.me, x.genuine, s, e).0;
            && Inv(x, t) && t.gcRound == s.gcRound && t.consensusRound == s.consensusRound
            && t.own == s.own + [e.m.h] && t.current == e.m.h
            && Entered(t.lastVoted, t.current.round, x.me)
            && s.cast <= t.cast && s.toConsensus <= t.toConsensus
  {
    var h := e.m.h;
    var s1 := s.(current := h, votes := NO_VOTES, own := s.own + [h]);
    NoVotesCounted(x.c);
    OwnGrows(x, s, s1, h);
    assert HeaderFine(x, s1.own, h) && Offered(x.c, s1, h);
    hide VotingInv, StoreInv, CountingInv, WaitingInv, ProposingInv, OwnInv, HeaderFine, HeaderOk, Examine, Offered,
      VotesCounted;
    HeaderKeeps(x, e.payload, s1, h);
    OfferedChecks(x, e.payload, s1, h);
    ExamineStays(x, e.payload, s1, h);
  }

  lemma HandleKeeps(x: Ctx, gcDepth: nat, s: Core, e: Event)
    requires Settled(x, gcDepth, s) && NoOwnWaiting(s) && Legal(x, s, e) && !e.m.OwnHeader?
    ensures var t := Handle(x.c, x.me, x.genuine, s, e).0;
            Inv(x, t) && Grows(s, t)
  {
    hide VotingInv, StoreInv, CountingInv, ProposingInv, OwnInv, ProcessHeader, ProcessVote, ProcessCertificate;
    match e.m
    case NetHeader(h) =>
      if h.round >= s.gcRound && HeaderOk(x.c, h) {
        HeaderKeeps(x, e.payload, s, h);
      }
    case NetVote(v) =>
      if ExpectedVote(s, v) && VoteOk(x.c, x.genuine, v) {
        VoteKeeps(x, e.payload, s, v);
      }
    case NetCertificate(cert) =>
      if cert.header.round >= s.gcRound && CertificateOk(x.c, x.genuine, cert) {
        CertificateKeeps(x, e.payload, s, cert);
      }
    case LoopHeader(h) => HeaderKeeps(x, e.payload, s, h);
    case LoopCertificate(cert) => CertificateKeeps(x, e.payload, s, cert);
  }

  lemma CleanupVotes(x: Ctx, gcDepth: nat, s: Core, round: nat)
    requires VotingInv(x, s) && OwnInv(x, s) && round >= s.consensusRound
    requires s.own != [] && s.current.round >= s.gcRound ==> Entered(s.lastVoted, s.current.round, x.me)
    requires s.gcRound == (if s.consensusRound > gcDepth then s.consensusRound - gcDepth else 0)
    ensures var t := Cleanup(gcDepth, s, round);
            && VotingInv(x, t) && OwnInv(x, t)
            && (forall r :: r in t.lastVoted ==> r >= t.gcRound)
            && (t.own != [] && t.current.round >= t.gcRound ==> Entered(t.lastVoted, t.current.round, x.me))
  {
    hide Checked, HeaderOk;
    var t := Cleanup(gcDepth, s, round);
    forall r: nat, k ensures Entered(t.lastVoted, r, k)
      <==> Entered(s.lastVoted, r, k) && (round > gcDepth ==> r >= t.gcRound) {}
  }

  lemma CleanupFields(gcDepth: nat, s: Core, round: nat)
    ensures var t := Cleanup(gcDepth, s, round);
            && t == s.(gcRound := t.gcRound, lastVoted := t.lastVoted, processing := t.processing, counts := t.counts,
                       consensusRound := round)
            && (forall r :: r in t.counts ==> r in s.counts && t.counts[r] == s.counts[r])
  {}

  lemma CleanupRest(x: Ctx, gcDepth: nat, s: Core, round: nat)
    requires StoreInv(x, s) && CountingInv(x, s) && WaitingInv(x, s) && ProposingInv(x, s)
    ensures var t := Cleanup(gcDepth, s, round);
            StoreInv(x, t) && CountingInv(x, t) && WaitingInv(x, t) && ProposingInv(x, t)
  {
    CleanupFields(gcDepth, s, round);
    hide Cleanup, StoreInv, ProposingInv, Sound, HeaderFine, EntryOk, VotesCounted;
    StoreSame(x, s, Cleanup(gcDepth, s, round));
    ProposingSame(x, s, Cleanup(gcDepth, s, round));
  }

  lemma CleanupKeeps(x: Ctx, gcDepth: nat, s: Core, round: nat)
    requires Inv(x, s) && round >= s.consensusRound
    requires s.own != [] && s.current.round >= s.gcRound ==> Entered(s.lastVoted, s.current.round, x.me)
    requires s.gcRound == (if s.consensusRound > gcDepth then s.consensusRound - gcDepth else 0)
    ensures Settled(x, gcDepth, Cleanup(gcDepth, s, round))
  {
    hide VotingInv, OwnInv, StoreInv, CountingInv, WaitingInv, ProposingInv, Entered;
    CleanupVotes(x, gcDepth, s, round);
    CleanupRest(x, gcDepth, s, round);
  }

  /** Every legal turn keeps the invariant, late events included. */
  lemma TurnKeeps(x: Ctx, gcDepth: nat, s: Core, e: Event)
    requires Settled(x, gcDepth, s) && NoOwnWaiting(s) && Legal(x, s, e)
    ensures var t := Turn(x.c, x.me, gcDepth, x.genuine, s, e).0;
            Settled(x, gcDepth, t) && s.cast <= t.cast && s.toConsensus <= t.toConsensus
  {
    var t := Handle(x.c, x.me, x.genuine, s, e).0;
    if e.m.OwnHeader? {
      OwnHeaderKeeps(x, gcDepth, s, e);
    } else {
      HandleKeeps(x, gcDepth, s, e);
    }
    CleanupKeeps(x, gcDepth, t, e.consensusRound);
  }

  ghost predicate LegalAt(x: Ctx, gcDepth: nat, es: seq<Event>, i: int)
    requires 0 <= i < |es|
  {
    Legal(x, RunCore(x.c, x.me, gcDepth, x.genuine, es[..i]), es[i])
  }

  /** A run of one primary on legal events. */
  ghost predicate LegalRun(x: Ctx, gcDepth: nat, es: seq<Event>) {
    forall i {:trigger LegalAt(x, gcDepth, es, i)} :: 0 <= i < |es| ==> LegalAt(x, gcDepth, es, i)
  }

  // ----- Votes behind the collection round

  /** The header meets every condition for a vote but the one on earlier votes. */
  ghost predicate Passes(x: Ctx, payload: set<Header>, s: Core, h: Header) {
    && Checked(x, s.store, h)
    && (h.author == x.me || h in payload)
  }

  lemma PassesExamination(x: Ctx, payload: set<Header>, s: Core, h: Header)
    requires Inv(x, s) && Passes(x, payload, s, h)
    ensures var (t, vote, status) := Examine(x.c, x.me, payload, s, h);
            status == Fine && t.cast == s.cast && (vote <==> !Entered(s.lastVoted, h.round, h.author))
  {
    GetParentsSpec(x.c, s.store, h.parents);
    var o := GetParents(x.c, s.store, h.parents);
    assert Authors(o.value) == OriginsOf(h.parents);
    forall p | p in o.value ensures p.round + 1 == h.round {
      var i :| 0 <= i < |o.value| && o.value[i] == p;
      assert h.parents[i] in h.parents;
    }
  }

  /** Voting twice in a slot, exactly: a header that meets all other conditions and whose slot
      was voted before gets another vote if and only if it is behind the collection round. */
  lemma RevoteExactly(x: Ctx, gcDepth: nat, payload: set<Header>, s: Core, h: Header, cast: Vote)
    requires Settled(x, gcDepth, s) && HeaderFine(x, s.own, h) && Passes(x, payload, s, h)
    requires cast in s.cast && cast.round == h.round && cast.origin == h.author
    ensures Examine(x.c, x.me, payload, s, h).1 <==> h.round < s.gcRound
    ensures h.author != x.me ==>
              ProcessHeader(x.c, x.me, payload, s, h).0.cast ==
                s.cast + (if h.round < s.gcRound then [NewVote(h, x.me)] else [])
  {
    var (t, vote, status) := Examine(x.c, x.me, payload, s, h);
    PassesExamination(x, payload, s, h);
    hide Examine, StoreInv, CountingInv, WaitingInv, ProposingInv, OwnInv, Checked, HeaderFine;
    assert Entered(s.lastVoted, h.round, h.author) <==> h.round >= s.gcRound;
  }
}
