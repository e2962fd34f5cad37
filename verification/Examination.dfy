/** What becomes of a header and of a certificate, case by case: what waits for missing parents or
    batches, what is rejected, what is stored, voted for, handed over. */
module Examination {
  import opened Types
  import opened Messages
  import opened Aggregators
  import opened Primary
  import opened Certification
  import OwnHeaders

  /** Every stored certificate sits under its own digest. */
  ghost predicate Filed(store: map<Digest, Certificate>) {
    forall d :: d in store ==> store[d].Hash() == d
  }

  /** The parents are one round below the header and hold a quorum. */
  ghost predicate Supports(c: Committee, h: Header) {
    && (forall d :: d in h.parents ==> d.CertHash? && d.round + 1 == h.round)
    && c.SumStake(OriginsOf(h.parents)) >= c.QuorumThreshold()
  }

  /** Parents at hand that hold a quorum one round below, and the batches held. */
  ghost predicate Accepted(c: Committee, me: Key, payload: set<Header>, s: Core, h: Header) {
    && Deliverable(c, s.store, h.parents) && h.parents != [] && Supports(c, h)
    && (h.author == me || h in payload)
  }

  /** A parent is missing; or all is well but batches of another author are. */
  ghost predicate Suspended(c: Committee, me: Key, payload: set<Header>, s: Core, h: Header) {
    || !Deliverable(c, s.store, h.parents)
    || (h.parents != [] && Supports(c, h) && h.author != me && h !in payload)
  }

  /** The loop over the parents at hand rejects exactly what does not support the header. */
  lemma ParentsSupport(c: Committee, store: map<Digest, Certificate>, h: Header)
    requires Filed(store) && Deliverable(c, store, h.parents)
    ensures var o := GetParents(c, store, h.parents);
            && o.Some? && (o.value == [] <==> h.parents == [])
            && (CheckParents(c, o.value, h).None? <==> Supports(c, h))
  {
    GetParentsSpec(c, store, h.parents);
    var ps := GetParents(c, store, h.parents).value;
    assert Authors(ps) == OriginsOf(h.parents);
    forall d | d in h.parents ensures exists p :: p in ps && d == CertHash(p.id, p.round, p.author) {
      var i :| 0 <= i < |h.parents| && h.parents[i] == d;
      assert ps[i] in ps;
    }
    forall p | p in ps ensures CertHash(p.id, p.round, p.author) in h.parents {
      var i :| 0 <= i < |ps| && ps[i] == p;
      assert h.parents[i] in h.parents;
    }
    hide GetParents, Deliverable, Committee.SumStake;
  }

  ghost predicate Examined(c: Committee, me: Key, payload: set<Header>, s: Core, h: Header, t: Core, vote: bool,
                           status: Status) {
    && t == s.(processing := t.processing, waitingHeaders := t.waitingHeaders, headers := t.headers,
               lastVoted := t.lastVoted)
    && (forall q, d :: Entered(t.processing, q, d) <==> Entered(s.processing, q, d) || (q == h.round && d == h.id))
    && t.waitingHeaders == s.waitingHeaders + (if Suspended(c, me, payload, s, h) then {h} else {})
    && t.headers == s.headers + (if Accepted(c, me, payload, s, h) then {h} else {})
    && (forall q, k :: Entered(t.lastVoted, q, k) <==>
          Entered(s.lastVoted, q, k) || (Accepted(c, me, payload, s, h) && q == h.round && k == h.author))
    && (vote <==> Accepted(c, me, payload, s, h) && !Entered(s.lastVoted, h.round, h.author))
    && status != Panicked
    && (status != Fine <==> Deliverable(c, s.store, h.parents) && h.parents != [] && !Supports(c, h))
  }

  lemma EnterExactly<T>(m: map<nat, set<T>>, r: nat, x: T)
    ensures forall q: nat, y: T :: Entered(Enter(m, r, x), q, y) <==> Entered(m, q, y) || (q == r && y == x)
  {}

  /** The three fates of a header: suspended, accepted or dropped. */
  lemma ExamineCases(c: Committee, me: Key, payload: set<Header>, s: Core, h: Header)
    requires Filed(s.store)
    ensures var (t, vote, status) := Examine(c, me, payload, s, h);
            var s1 := s.(processing := Enter(s.processing, h.round, h.id));
            && t == (if Suspended(c, me, payload, s, h) then s1.(waitingHeaders := s.waitingHeaders + {h})
                     else if Accepted(c, me, payload, s, h) then
                       s1.(headers := s.headers + {h}, lastVoted := Enter(s.lastVoted, h.round, h.author))
                     else s1)
            && (vote <==> Accepted(c, me, payload, s, h) && !Entered(s.lastVoted, h.round, h.author))
            && status != Panicked
            && (status != Fine <==> Deliverable(c, s.store, h.parents) && h.parents != [] && !Supports(c, h))
  {
    GetParentsSpec(c, s.store, h.parents);
    if Deliverable(c, s.store, h.parents) {
      ParentsSupport(c, s.store, h);
    }
    hide GetParents, CheckParents, Deliverable, Supports, Enter, Entered, Filed;
  }

  /** The examination of a header in full. */
  lemma ExamineExactly(c: Committee, me: Key, payload: set<Header>, s: Core, h: Header)
    requires Filed(s.store)
    ensures var (t, vote, status) := Examine(c, me, payload, s, h);
            Examined(c, me, payload, s, h, t, vote, status)
  {
    ExamineCases(c, me, payload, s, h);
    EnterExactly(s.processing, h.round, h.id);
    EnterExactly(s.lastVoted, h.round, h.author);
    hide Examine, Deliverable, Supports, Enter, Entered, Filed;
    assert s.waitingHeaders + {} == s.waitingHeaders && s.headers + {} == s.headers;
    assert !(Suspended(c, me, payload, s, h) && Accepted(c, me, payload, s, h));
  }

  // ----- Processing a header of another author

  /** A header of another author that is accepted gets a vote unless its slot is taken; one with
      missing parents or batches waits, and nothing else happens to it. */
  lemma ForeignHeader(c: Committee, me: Key, payload: set<Header>, s: Core, h: Header)
    requires Filed(s.store) && h.author != me
    ensures var (t, status) := ProcessHeader(c, me, payload, s, h);
            var vote := Accepted(c, me, payload, s, h) && !Entered(s.lastVoted, h.round, h.author);
            && t.cast == s.cast + (if vote then [NewVote(h, me)] else [])
            && Examined(c, me, payload, s, h, t.(cast := s.cast), vote, status)
  {
    ExamineExactly(c, me, payload, s, h);
    var (t, vote, status) := Examine(c, me, payload, s, h);
    assert t.(cast := s.cast) == t && (t.cast + [NewVote(h, me)])[..|t.cast|] == t.cast;
    assert vote ==> status == Fine;
    hide Examine, Deliverable, Supports, Entered, Filed;
  }

  // ----- Certificates

  /** A certificate with a missing ancestor waits; any other is stored and handed to consensus. */
  lemma DeliverExactly(c: Committee, s: Core, cert: Certificate)
    ensures var (t, status) := Deliver(c, s, cert);
            var missing := exists d :: d in cert.header.parents && !IsGenesisRef(c, d) && d !in s.store;
            && status == Fine
            && t.waitingCerts == s.waitingCerts + (if missing then {cert} else {})
            && t.store == (if missing then s.store else s.store[cert.Hash() := cert])
            && t.toConsensus == s.toConsensus + (if missing then [] else [cert])
            && t == s.(waitingCerts := t.waitingCerts, store := t.store, toConsensus := t.toConsensus,
                       counts := t.counts, toProposer := t.toProposer)
            && (missing ==> t.counts == s.counts && t.toProposer == s.toProposer)
  {
    hide AppendCert;
    assert s.toConsensus + [] == s.toConsensus;
  }

  /** A certificate of another author's header: the header is processed first if it was not yet, and
      unless it is rejected the certificate is delivered or waits. */
  lemma ForeignCertificate(c: Committee, me: Key, payload: set<Header>, s: Core, cert: Certificate)
    requires Filed(s.store) && cert.header.author != me
    ensures var h := cert.header;
            var (t, status) := ProcessCertificate(c, me, payload, s, cert);
            var seen := Entered(s.processing, h.round, h.id);
            var missing := exists d :: d in h.parents && !IsGenesisRef(c, d) && d !in s.store;
            && (status != Fine <==> !seen && !missing && h.parents != [] && !Supports(c, h))
            && t.waitingCerts == s.waitingCerts + (if missing then {cert} else {})
            && t.toConsensus == s.toConsensus + (if status == Fine && !missing then [cert] else [])
            && t.store == (if status == Fine && !missing then s.store[cert.Hash() := cert] else s.store)
            && t.waitingHeaders == s.waitingHeaders + (if !seen && Suspended(c, me, payload, s, h) then {h} else {})
            && t.headers == s.headers + (if !seen && Accepted(c, me, payload, s, h) then {h} else {})
  {
    var h := cert.header;
    var (s1, st) := if Entered(s.processing, h.round, h.id) then (s, Fine) else ProcessHeader(c, me, payload, s, h);
    ForeignHeader(c, me, payload, s, h);
    DeliverExactly(c, s1, cert);
    hide ProcessHeader, Deliver, Filed, Supports, Entered;
  }

  // ----- Messages from the network

  /** The id is the hash of the fields, the author has stake and the payload names its workers. */
  ghost predicate Authentic(c: Committee, h: Header) {
    && h.id == HeaderHash(h.author, h.round, h.payload, h.parents)
    && h.author in c.stakes && c.stakes[h.author] > 0
    && (forall b :: b in h.payload ==> h.author in c.workers && h.payload[b] in c.workers[h.author])
  }

  /** A genesis certificate, or one of an authentic header that distinct members of the committee
      signed and that hold a quorum. */
  ghost predicate Certified(c: Committee, genuine: set<Signature>, cert: Certificate) {
    var h := cert.header;
    || (h.id == Zero && h.round == 0 && h.author in c.names)
    || (&& Authentic(c, h)
        && (forall i, j :: 0 <= i < j < |cert.votes| ==> cert.votes[i].0 != cert.votes[j].0)
        && (forall v :: v in cert.votes ==>
              && v.0 in c.stakes && c.stakes[v.0] > 0
              && v.1 == Signature(v.0, CertHash(h.id, h.round, h.author)) && v.1 in genuine)
        && c.Weight(set v | v in cert.votes :: v.0) >= c.QuorumThreshold())
  }

  lemma HeaderOkExactly(c: Committee, h: Header)
    ensures HeaderOk(c, h) <==> Authentic(c, h)
  {}

  lemma VotersAre(votes: seq<(Key, Signature)>)
    ensures Members(VotersOf(votes)) == set v | v in votes :: v.0
    ensures NoDup(VotersOf(votes)) <==> forall i, j :: 0 <= i < j < |votes| ==> votes[i].0 != votes[j].0
  {
    var voters := VotersOf(votes);
    forall v | v in votes ensures v.0 in voters {
      var i :| 0 <= i < |votes| && votes[i] == v;
      assert voters[i] == v.0;
    }
    forall k | k in voters ensures exists v :: v in votes && v.0 == k {
      var i :| 0 <= i < |voters| && voters[i] == k;
      assert votes[i] in votes;
    }
    if NoDup(voters) {
      forall i, j | 0 <= i < j < |votes| ensures votes[i].0 != votes[j].0 {
        assert voters[i] != voters[j];
      }
    }
  }

  lemma CertificateOkExactly(c: Committee, genuine: set<Signature>, cert: Certificate)
    ensures CertificateOk(c, genuine, cert) <==> Certified(c, genuine, cert)
  {
    HeaderOkExactly(c, cert.header);
    VotersAre(cert.votes);
    hide HeaderOk, Authentic, NoDup, VotersOf, Members;
  }

  /** A header from the network, of another author: turned away without effect if it is behind the
      collected round or not authentic, examined otherwise. */
  lemma NetHeaderExactly(x: Ctx, s: Core, e: Event)
    requires e.m.NetHeader? && e.m.h.author != x.me && Filed(s.store)
    ensures var h := e.m.h;
            var (t, status) := Handle(x.c, x.me, x.genuine, s, e);
            if h.round < s.gcRound || !Authentic(x.c, h) then t == s && status.Failed?
            else
              var vote := Accepted(x.c, x.me, e.payload, s, h) && !Entered(s.lastVoted, h.round, h.author);
              && t.cast == s.cast + (if vote then [NewVote(h, x.me)] else [])
              && Examined(x.c, x.me, e.payload, s, h, t.(cast := s.cast), vote, status)
  {
    HeaderOkExactly(x.c, e.m.h);
    ForeignHeader(x.c, x.me, e.payload, s, e.m.h);
    hide HeaderOk, Authentic, ProcessHeader, Examined, Accepted, Entered;
  }

  /** A certificate from the network, of another author's header: turned away without effect if it is
      behind the collected round or not certified; otherwise it waits for missing ancestors, or
      is handed to consensus, unless its unprocessed header is rejected. */
  lemma NetCertificateExactly(x: Ctx, s: Core, e: Event)
    requires e.m.NetCertificate? && e.m.cert.header.author != x.me && Filed(s.store)
    ensures var cert := e.m.cert;
            var h := cert.header;
            var (t, status) := Handle(x.c, x.me, x.genuine, s, e);
            var missing := exists d :: d in h.parents && !IsGenesisRef(x.c, d) && d !in s.store;
            if h.round < s.gcRound || !Certified(x.c, x.genuine, cert) then t == s && status.Failed?
            else
              && (status != Fine <==>
                    !Entered(s.processing, h.round, h.id) && !missing && h.parents != [] && !Supports(x.c, h))
              && t.waitingCerts == s.waitingCerts + (if missing then {cert} else {})
              && t.toConsensus == s.toConsensus + (if status == Fine && !missing then [cert] else [])
  {
    CertificateOkExactly(x.c, x.genuine, e.m.cert);
    ForeignCertificate(x.c, x.me, e.payload, s, e.m.cert);
    hide CertificateOk, Certified, ProcessCertificate, Supports, Entered, Accepted, Suspended;
  }

  /** A vote from the network is counted if and only if it is for the current header, by a member of the
      committee that signed it and was not counted before. */
  lemma NetVoteExactly(x: Ctx, s: Core, e: Event)
    requires e.m.NetVote?
    ensures var v := e.m.v;
            var (t, status) := Handle(x.c, x.me, x.genuine, s, e);
            var valid := && v.id == s.current.id && v.round == s.current.round && v.origin == s.current.author
                         && v.author in x.c.stakes && x.c.stakes[v.author] > 0
                         && v.signature == Signature(v.author, CertHash(v.id, v.round, v.origin))
                         && v.signature in x.genuine;
            && (v.author in t.votes.used <==> v.author in s.votes.used || valid)
            && (!valid || v.author in s.votes.used ==> t == s && status.Failed?)
  {
    OwnHeaders.VoteMarks(x.c, x.me, e.payload, s, e.m.v);
    hide ProcessCertificate;
  }

  // ----- After any legal run

  lemma InvFiles(x: Ctx, s: Core)
    requires Inv(x, s)
    ensures Filed(s.store)
  {
    hide VotingInv, CountingInv, WaitingInv, ProposingInv, OwnInv, Sound, HeaderFine;
  }

  /** What the descriptions above ask of the store holds after every legal run. */
  lemma RunFiles(x: Ctx, gcDepth: nat, es: seq<Event>)
    requires x.c.Valid() && LegalRun(x, gcDepth, es)
    ensures Filed(RunCore(x.c, x.me, gcDepth, x.genuine, es).store)
  {
    hide LegalRun, RunCore, Inv, Filed;
    OwnHeaders.RunReaches(x, gcDepth, es);
    InvFiles(x, RunCore(x.c, x.me, gcDepth, x.genuine, es));
  }
}
