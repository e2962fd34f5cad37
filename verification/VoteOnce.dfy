/** Exactly when a primary votes at most once per author and round. Its votes have one id per
    slot, in every legal run, unless a waiter hands back, behind the collection round, a header
    that passes every other check and whose slot already has a vote for another id. */
module VoteOnce {
  import opened Types
  import opened Messages
  import opened Aggregators
  import opened Primary
  import opened Certification
  import opened OwnHeaders

  ghost predicate OneVotePerSlot(cast: seq<Vote>) {
    forall v, w :: v in cast && w in cast && v.round == w.round && v.origin == w.origin ==> v.id == w.id
  }

  /** Some vote in the slot of `h` is for another header. */
  predicate Rival(cast: seq<Vote>, h: Header) {
    exists v :: v in cast && v.round == h.round && v.origin == h.author && v.id != h.id
  }

  ghost predicate HandsBack(m: Message, h: Header) {
    m == LoopHeader(h) || (m.LoopCertificate? && m.cert.header == h)
  }

  /** A waiter hands back a header that is behind the collection round, passes and has a rival. */
  ghost predicate LateRival(x: Ctx, s: Core, e: Event) {
    exists h :: HandsBack(e.m, h) && h.round < s.gcRound && Passes(x, e.payload, s, h) && Rival(s.cast, h)
  }

  // ----- The votes that a message adds

  /** Only the header at hand and the current one get new votes; offers to the proposer stay. */
  ghost predicate Adds(me: Key, s: Core, t: Core, h: Header) {
    && t.current == s.current && t.own == s.own && s.toProposer <= t.toProposer
    && forall v :: v in t.cast ==> v in s.cast || v == NewVote(h, me) || v == NewVote(s.current, me)
  }

  lemma ExamineAdds(c: Committee, me: Key, payload: set<Header>, s: Core, h: Header)
    ensures var t := Examine(c, me, payload, s, h).0;
            t.cast == s.cast && t.current == s.current && t.own == s.own && t.toProposer == s.toProposer
  {
    hide GetParents, CheckParents;
  }

  lemma DeliverAdds(c: Committee, s: Core, cert: Certificate)
    ensures var t := Deliver(c, s, cert).0;
            t.cast == s.cast && t.current == s.current && t.own == s.own && s.toProposer <= t.toProposer
  {
    hide AppendCert, Deliverable;
  }

  lemma {:induction false} CertificateAdds(c: Committee, me: Key, payload: set<Header>, s: Core, cert: Certificate)
    ensures Adds(me, s, ProcessCertificate(c, me, payload, s, cert).0, cert.header)
    decreases OwnVoteOpen(me, s), 3
  {
    hide Deliver, ProcessHeader;
    var h := cert.header;
    var s1 := if Entered(s.processing, h.round, h.id) then s else ProcessHeader(c, me, payload, s, h).0;
    if !Entered(s.processing, h.round, h.id) {
      HeaderAdds(c, me, payload, s, h);
    }
    DeliverAdds(c, s1, cert);
  }

  lemma {:induction false} VoteAdds(c: Committee, me: Key, payload: set<Header>, s: Core, v: Vote)
    ensures Adds(me, s, ProcessVote(c, me, payload, s, v).0, s.current)
    decreases OwnVoteOpen(me, s), if v.author == me then 1 else 4
  {
    var (votes, r) := AppendVote(c, s.votes, v, s.current);
    if r.Complete? {
      CertificateAdds(c, me, payload, s.(votes := votes), r.value);
    }
  }

  lemma {:induction false} HeaderAdds(c: Committee, me: Key, payload: set<Header>, s: Core, h: Header)
    ensures Adds(me, s, ProcessHeader(c, me, payload, s, h).0, h)
    decreases OwnVoteOpen(me, s), 2
  {
    hide Examine;
    var (s1, vote, status) := Examine(c, me, payload, s, h);
    ExamineAdds(c, me, payload, s, h);
    ExamineMarks(c, me, payload, s, h);
    if vote && h.author == me {
      VoteAdds(c, me, payload, s1.(cast := s1.cast + [NewVote(h, me)]), NewVote(h, me));
    }
  }

  // ----- Headers of others

  lemma VotePasses(x: Ctx, payload: set<Header>, s: Core, h: Header)
    requires Inv(x, s) && HeaderFine(x, s.own, h) && Examine(x.c, x.me, payload, s, h).1
    ensures Passes(x, payload, s, h)
  {
    ExamineChecks(x, payload, s, h);
    hide GetParents, CheckParents, Inv, Checked;
  }

  /** A header of another author gets at most its own vote. */
  lemma ForeignVote(x: Ctx, payload: set<Header>, s: Core, h: Header)
    requires Inv(x, s) && HeaderFine(x, s.own, h) && h.author != x.me
    ensures ProcessHeader(x.c, x.me, payload, s, h).0.cast ==
      s.cast + (if Passes(x, payload, s, h) && !Entered(s.lastVoted, h.round, h.author) then [NewVote(h, x.me)] else [])
  {
    ExamineAdds(x.c, x.me, payload, s, h);
    if Examine(x.c, x.me, payload, s, h).1 {
      VotePasses(x, payload, s, h);
    }
    if Passes(x, payload, s, h) {
      PassesExamination(x, payload, s, h);
    }
    hide Inv, HeaderFine, Examine, Passes, Entered;
  }

  lemma SnocVote(cast: seq<Vote>, h: Header, me: Key)
    ensures OneVotePerSlot(cast + [NewVote(h, me)]) <==> OneVotePerSlot(cast) && !Rival(cast, h)
  {
    var v, all := NewVote(h, me), cast + [NewVote(h, me)];
    assert v in all;
    if OneVotePerSlot(all) {
      forall w | w in cast && w.round == h.round && w.origin == h.author ensures w.id == h.id {
        assert w in all && v in all;
      }
    }
  }

  /** A slot is entered exactly until its round is collected. */
  lemma SlotRemembered(x: Ctx, gcDepth: nat, s: Core, h: Header)
    requires Settled(x, gcDepth, s)
    ensures Entered(s.lastVoted, h.round, h.author) ==> h.round >= s.gcRound
    ensures h.round >= s.gcRound && Rival(s.cast, h) ==> Entered(s.lastVoted, h.round, h.author)
  {
    hide StoreInv, CountingInv, WaitingInv, ProposingInv, OwnInv;
  }

  /** Whether a header of another author breaks the one vote per slot. */
  lemma ForeignExactly(x: Ctx, gcDepth: nat, payload: set<Header>, s: Core, h: Header)
    requires Settled(x, gcDepth, s) && HeaderFine(x, s.own, h) && h.author != x.me
    ensures OneVotePerSlot(ProcessHeader(x.c, x.me, payload, s, h).0.cast) <==>
              OneVotePerSlot(s.cast) && !(h.round < s.gcRound && Passes(x, payload, s, h) && Rival(s.cast, h))
  {
    ForeignVote(x, payload, s, h);
    SnocVote(s.cast, h, x.me);
    SlotRemembered(x, gcDepth, s, h);
    assert s.cast + [] == s.cast;
    hide Settled, HeaderFine, ProcessHeader, Passes, Entered, OneVotePerSlot, Rival;
  }

  lemma MarkedInTime(x: Ctx, s: Core, h: Header)
    requires Processed(x, s)
    ensures Entered(s.processing, h.round, h.id) ==> h.round >= s.gcRound
  {}

  lemma ForeignCertificate(x: Ctx, gcDepth: nat, payload: set<Header>, s: Core, cert: Certificate)
    requires Settled(x, gcDepth, s) && Processed(x, s) && HeaderFine(x, s.own, cert.header)
        && cert.header.author != x.me
    ensures var h := cert.header;
            OneVotePerSlot(ProcessCertificate(x.c, x.me, payload, s, cert).0.cast) <==>
              OneVotePerSlot(s.cast) && !(h.round < s.gcRound && Passes(x, payload, s, h) && Rival(s.cast, h))
  {
    var h := cert.header;
    ForeignExactly(x, gcDepth, payload, s, h);
    MarkedInTime(x, s, h);
    var s1 := if Entered(s.processing, h.round, h.id) then s else ProcessHeader(x.c, x.me, payload, s, h).0;
    DeliverAdds(x.c, s1, cert);
    hide Settled, Processed, HeaderFine, ProcessHeader, Deliver, Passes, Entered, OneVotePerSlot, Rival;
  }

  // ----- Own slots

  /** Own headers have distinct rounds, so votes in own slots never differ. */
  lemma OwnSlots(x: Ctx, s: Core, v: Vote, w: Vote)
    requires VotingInv(x, s) && OwnInv(x, s)
    requires v in s.cast && w in s.cast && v.round == w.round && v.origin == w.origin == x.me
    ensures v.id == w.id
  {
    hide Checked, HeaderOk, Entered;
    var h :| h in s.headers && VoteFor(v, h);
    var k :| k in s.headers && VoteFor(w, k);
    var i :| 0 <= i < |s.own| && s.own[i] == h;
    var j :| 0 <= j < |s.own| && s.own[j] == k;
    assert i == j;
  }

  /** Messages that only add votes in own slots keep the one vote per slot. */
  lemma OwnOnly(x: Ctx, s: Core, t: Core)
    requires VotingInv(x, t) && OwnInv(x, t) && s.cast <= t.cast
    requires forall v :: v in t.cast ==> v in s.cast || v.origin == x.me
    ensures OneVotePerSlot(t.cast) <==> OneVotePerSlot(s.cast)
  {
    hide VotingInv, OwnInv;
    if OneVotePerSlot(s.cast) {
      forall v, w | v in t.cast && w in t.cast && v.round == w.round && v.origin == w.origin ensures v.id == w.id {
        if v.origin == x.me {
          OwnSlots(x, t, v, w);
        }
      }
    }
  }

  /** The default header never gets a vote. */
  lemma DefaultUnvoted(x: Ctx, t: Core)
    requires VotingInv(x, t)
    ensures NewVote(DEFAULT_HEADER, x.me) !in t.cast
  {
    forall v | v in t.cast ensures v.id != Zero {
      var h :| h in t.headers && VoteFor(v, h);
      assert Checked(x, t.store, h);
    }
  }

  lemma VoteIsOwn(x: Ctx, s: Core, t: Core, h: Header)
    requires Inv(x, s) && Processed(x, s) && Inv(x, t) && Adds(x.me, s, t, h)
    requires h.author == x.me || h == s.current
    ensures forall v :: v in t.cast ==> v in s.cast || v.origin == x.me
  {
    DefaultUnvoted(x, t);
    hide VotingInv, StoreInv, CountingInv, WaitingInv, ProposingInv, HeaderOk, Entered;
  }

  // ----- A turn

  /** A message about no header of another author. */
  ghost predicate Domestic(x: Ctx, m: Message) {
    match m
    case NetHeader(h) => h.author == x.me
    case NetVote(v) => true
    case NetCertificate(cert) => cert.header.author == x.me
    case LoopHeader(h) => h.author == x.me
    case LoopCertificate(cert) => cert.header.author == x.me
    case OwnHeader(h) => true
  }

  lemma OwnAdds(me: Key, s: Core, h: Header, t: Core)
    requires Adds(me, s.(current := h, votes := NO_VOTES, own := s.own + [h]), t, h) && h.author == me
    ensures forall v :: v in t.cast ==> v in s.cast || v.origin == me
  {}

  lemma DomesticAdds(x: Ctx, gcDepth: nat, s: Core, e: Event)
    requires Reached(x, gcDepth, s) && Legal(x, s, e) && Domestic(x, e.m)
    requires Inv(x, Handle(x.c, x.me, x.genuine, s, e).0)
    ensures forall v :: v in Handle(x.c, x.me, x.genuine, s, e).0.cast ==> v in s.cast || v.origin == x.me
  {
    var t := Handle(x.c, x.me, x.genuine, s, e).0;
    hide Inv, Processed, ProcessHeader, ProcessVote, ProcessCertificate, HeaderOk, CertificateOk, VoteOk, Adds;
    match e.m
    case NetHeader(h) =>
      HeaderAdds(x.c, x.me, e.payload, s, h);
      if t != s {
        VoteIsOwn(x, s, t, h);
      }
    case NetVote(v) =>
      VoteAdds(x.c, x.me, e.payload, s, v);
      if t != s {
        VoteIsOwn(x, s, t, s.current);
      }
    case NetCertificate(cert) =>
      CertificateAdds(x.c, x.me, e.payload, s, cert);
      if t != s {
        VoteIsOwn(x, s, t, cert.header);
      }
    case LoopHeader(h) =>
      HeaderAdds(x.c, x.me, e.payload, s, h);
      VoteIsOwn(x, s, t, h);
    case LoopCertificate(cert) =>
      CertificateAdds(x.c, x.me, e.payload, s, cert);
      VoteIsOwn(x, s, t, cert.header);
    case OwnHeader(h) =>
      HeaderAdds(x.c, x.me, e.payload, s.(current := h, votes := NO_VOTES, own := s.own + [h]), h);
      OwnAdds(x.me, s, h, t);
  }

  lemma WaitsFine(x: Ctx, s: Core, m: Message, h: Header)
    requires WaitingInv(x, s) && HandsBack(m, h)
    requires (m.LoopHeader? ==> m.h in s.waitingHeaders) && (m.LoopCertificate? ==> m.cert in s.waitingCerts)
    ensures HeaderFine(x, s.own, h)
  {}

  lemma NotOwnFails(x: Ctx, payload: set<Header>, s: Core, h: Header)
    requires HeaderFine(x, s.own, h) && h.author == x.me && h !in s.own
    ensures !Passes(x, payload, s, h)
  {}

  /** No own header comes back. */
  lemma DomesticIsNotRival(x: Ctx, gcDepth: nat, s: Core, e: Event)
    requires Reached(x, gcDepth, s) && Legal(x, s, e) && Domestic(x, e.m)
    ensures !LateRival(x, s, e)
  {
    hide VotingInv, StoreInv, CountingInv, WaitingInv, ProposingInv, OwnInv, Passes, HeaderFine;
    forall h | HandsBack(e.m, h) ensures !Passes(x, e.payload, s, h) {
      WaitsFine(x, s, e.m, h);
      NotOwnFails(x, e.payload, s, h);
    }
  }

  lemma VerifiedFine(x: Ctx, s: Core, cert: Certificate)
    requires CertificateOk(x.c, x.genuine, cert) && NoDup(cert.header.parents) && cert.header.author != x.me
    ensures HeaderFine(x, s.own, cert.header)
  {}

  lemma ForeignTurn(x: Ctx, gcDepth: nat, s: Core, e: Event)
    requires Reached(x, gcDepth, s) && Legal(x, s, e) && !Domestic(x, e.m)
    ensures OneVotePerSlot(Handle(x.c, x.me, x.genuine, s, e).0.cast) <==> OneVotePerSlot(s.cast) && !LateRival(x, s, e)
  {
    hide VotingInv, StoreInv, CountingInv, ProposingInv, OwnInv, Sound, Processed, ProcessHeader, ProcessCertificate,
      CertificateOk, Passes, Rival, OneVotePerSlot;
    match e.m
    case NetHeader(h) =>
      if h.round >= s.gcRound && HeaderOk(x.c, h) {
        ForeignExactly(x, gcDepth, e.payload, s, h);
      }
    case NetCertificate(cert) =>
      if cert.header.round >= s.gcRound && CertificateOk(x.c, x.genuine, cert) {
        VerifiedFine(x, s, cert);
        ForeignCertificate(x, gcDepth, e.payload, s, cert);
      }
    case LoopHeader(h) =>
      assert HandsBack(e.m, h);
      ForeignExactly(x, gcDepth, e.payload, s, h);
    case LoopCertificate(cert) =>
      assert HandsBack(e.m, cert.header);
      ForeignCertificate(x, gcDepth, e.payload, s, cert);
  }

  lemma HandleInv(x: Ctx, gcDepth: nat, s: Core, e: Event)
    requires Reached(x, gcDepth, s) && Legal(x, s, e)
    ensures var t := Handle(x.c, x.me, x.genuine, s, e).0; Inv(x, t) && s.cast <= t.cast
  {
    hide Settled, Legal, Handle, Inv;
    if e.m.OwnHeader? {
      OwnHeaderKeeps(x, gcDepth, s, e);
    } else {
      HandleKeeps(x, gcDepth, s, e);
    }
  }

  /** One legal turn keeps one vote per slot if and only if it is no late rival. */
  lemma TurnVotesExactly(x: Ctx, gcDepth: nat, s: Core, e: Event)
    requires Reached(x, gcDepth, s) && Legal(x, s, e)
    ensures OneVotePerSlot(Turn(x.c, x.me, gcDepth, x.genuine, s, e).0.cast)
       <==> OneVotePerSlot(s.cast) && !LateRival(x, s, e)
  {
    var t := Handle(x.c, x.me, x.genuine, s, e).0;
    CleanupFields(gcDepth, t, e.consensusRound);
    if Domestic(x, e.m) {
      DomesticIsNotRival(x, gcDepth, s, e);
      HandleInv(x, gcDepth, s, e);
      DomesticAdds(x, gcDepth, s, e);
      OwnOnly(x, s, t);
    } else {
      ForeignTurn(x, gcDepth, s, e);
    }
    hide Settled, Processed, Legal, Domestic, Handle, Cleanup, LateRival, OneVotePerSlot, Inv;
  }

  // ----- Runs

  ghost predicate LateRivalAt(x: Ctx, gcDepth: nat, es: seq<Event>, i: int)
    requires 0 <= i < |es|
  {
    LateRival(x, RunCore(x.c, x.me, gcDepth, x.genuine, es[..i]), es[i])
  }

  /** No turn of the run is a late rival. */
  ghost predicate RivalFree(x: Ctx, gcDepth: nat, es: seq<Event>) {
    forall i {:trigger LateRivalAt(x, gcDepth, es, i)} :: 0 <= i < |es| ==> !LateRivalAt(x, gcDepth, es, i)
  }

  lemma RivalFreeSnoc(x: Ctx, gcDepth: nat, es: seq<Event>)
    requires es != []
    ensures var n := |es| - 1;
            RivalFree(x, gcDepth, es) <==> RivalFree(x, gcDepth, es[..n]) && !LateRivalAt(x, gcDepth, es, n)
  {
    hide RunCore, LateRival;
    var n := |es| - 1;
    forall i | 0 <= i < n ensures LateRivalAt(x, gcDepth, es[..n], i) <==> LateRivalAt(x, gcDepth, es, i) {
      assert es[..n][..i] == es[..i] && es[..n][i] == es[i];
    }
  }

  /** Vote once, exactly: the votes of a legal run have one id per slot if and only if no waiter
      hands back, behind the collection round, a header that passes and has a rival vote. */
  lemma {:induction false} RunVotesExactly(x: Ctx, gcDepth: nat, es: seq<Event>)
    requires x.c.Valid() && LegalRun(x, gcDepth, es)
    ensures OneVotePerSlot(RunCore(x.c, x.me, gcDepth, x.genuine, es).cast) <==> RivalFree(x, gcDepth, es)
    decreases |es|
  {
    if es != [] {
      hide Reached, Legal, Turn, LegalRun, LateRival, RivalFree, OneVotePerSlot;
      var n := |es| - 1;
      LegalPrefix(x, gcDepth, es, n);
      RunVotesExactly(x, gcDepth, es[..n]);
      RunReaches(x, gcDepth, es[..n]);
      LegalStep(x, gcDepth, es, n);
      TurnVotesExactly(x, gcDepth, RunCore(x.c, x.me, gcDepth, x.genuine, es[..n]), es[n]);
      RivalFreeSnoc(x, gcDepth, es);
    }
  }
}
