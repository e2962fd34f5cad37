/** The parent lists a primary offers to its proposer. The certificate counter of a round not yet
    collected has counted exactly the certificates of that round that were delivered, so a list is
    offered exactly when their authors hold a quorum. */
module Offers {
  import opened Types
  import opened Messages
  import opened Aggregators
  import opened Primary
  import opened Certification
  import opened OwnHeaders
  import Wiring

  // ----- Cleanup

  /** At or above round `gc` nothing changes, below it nothing stays. */
  ghost predicate KeepsFrom<T(!new)>(m: map<nat, T>, t: map<nat, T>, gc: nat) {
    forall r: nat :: (r in t <==> r in m && r >= gc) && (r in t ==> t[r] == m[r])
  }

  /** Cleanup in full: nothing is collected until consensus is past the depth; from then on all three
      tables keep exactly the rounds from the collected one up. Nothing else changes. */
  lemma CleanupExactly(gcDepth: nat, s: Core, round: nat)
    ensures var t, gc := Cleanup(gcDepth, s, round), if round > gcDepth then round - gcDepth else 0;
            && KeepsFrom(s.lastVoted, t.lastVoted, gc)
            && KeepsFrom(s.processing, t.processing, gc)
            && KeepsFrom(s.counts, t.counts, gc)
            && t.gcRound == (if round > gcDepth then gc else s.gcRound)
            && t == s.(lastVoted := t.lastVoted, processing := t.processing, counts := t.counts, gcRound := t.gcRound,
                       consensusRound := round)
  {}

  /** Whatever the message, each turn ends with the round read and the collection it asks for. */
  lemma TurnCollects(x: Ctx, gcDepth: nat, s: Core, e: Event)
    requires Reached(x, gcDepth, s) && Legal(x, s, e)
    ensures var t := Turn(x.c, x.me, gcDepth, x.genuine, s, e).0;
            var low := Handle(x.c, x.me, x.genuine, s, e).0;
            var gc := if e.consensusRound > gcDepth then e.consensusRound - gcDepth else 0;
            && t.consensusRound == e.consensusRound && t.gcRound == gc
            && KeepsFrom(low.lastVoted, t.lastVoted, gc)
            && KeepsFrom(low.processing, t.processing, gc)
            && KeepsFrom(low.counts, t.counts, gc)
  {
    TurnReaches(x, gcDepth, s, e);
    CleanupExactly(gcDepth, Handle(x.c, x.me, x.genuine, s, e).0, e.consensusRound);
    hide Inv, Processed, Handle, Legal, KeepsFrom, From;
  }

  // ----- Counters

  function OfRound(certs: seq<Certificate>, r: nat): seq<Certificate> {
    if certs == [] then []
    else
      var n := |certs| - 1;
      OfRound(certs[..n], r) + if certs[n].header.round == r then [certs[n]] else []
  }

  /** The parent lists of round `r` sent to the proposer. */
  function ListsOf(offers: seq<(seq<Digest>, nat)>, r: nat): seq<seq<Digest>> {
    if offers == [] then []
    else
      var n := |offers| - 1;
      ListsOf(offers[..n], r) + if offers[n].1 == r then [offers[n].0] else []
  }

  function Counter(s: Core, r: nat): CertCount {
    if r in s.counts then s.counts[r] else NO_CERTIFICATES
  }

  /** The counter of round `r` and the lists offered are those of the certificates delivered. */
  ghost predicate Counts(c: Committee, s: Core, r: nat) {
    AppendCerts(c, OfRound(s.toConsensus, r)) == (Counter(s, r), ListsOf(s.toProposer, r))
  }

  ghost predicate AllCounts(c: Committee, s: Core) {
    forall r :: r >= s.gcRound ==> Counts(c, s, r)
  }

  lemma OfRoundSnoc(certs: seq<Certificate>, cert: Certificate, r: nat)
    ensures OfRound(certs + [cert], r) == OfRound(certs, r) + if cert.header.round == r then [cert] else []
  {
    assert (certs + [cert])[..|certs|] == certs;
  }

  lemma ListsSnoc(offers: seq<(seq<Digest>, nat)>, o: (seq<Digest>, nat), r: nat)
    ensures ListsOf(offers + [o], r) == ListsOf(offers, r) + if o.1 == r then [o.0] else []
  {
    assert (offers + [o])[..|offers|] == offers;
  }

  lemma AppendSnoc(c: Committee, certs: seq<Certificate>, cert: Certificate)
    ensures var (a, out) := AppendCerts(c, certs);
            var (a', o) := AppendCert(c, a, cert);
            AppendCerts(c, certs + [cert]) == (a', if o.Some? then out + [o.value] else out)
  {
    assert (certs + [cert])[..|certs|] == certs;
    hide AppendCert;
  }

  lemma DeliverCountsRound(c: Committee, s: Core, cert: Certificate, r: nat)
    requires Counts(c, s, r)
    ensures Counts(c, Deliver(c, s, cert).0, r)
  {
    hide AppendCert, Deliverable, AppendCerts, OfRound, ListsOf;
    if Deliverable(c, s.store, cert.header.parents) {
      var q := cert.header.round;
      var (count, parents) := AppendCert(c, Counter(s, q), cert);
      OfRoundSnoc(s.toConsensus, cert, r);
      AppendSnoc(c, OfRound(s.toConsensus, r), cert);
      if parents.Some? {
        ListsSnoc(s.toProposer, (parents.value, q), r);
      }
      assert OfRound(s.toConsensus, r) + [] == OfRound(s.toConsensus, r);
      assert ListsOf(s.toProposer, r) + [] == ListsOf(s.toProposer, r);
    }
  }

  // ----- A message

  /** The counters stay those of the deliveries. */
  ghost predicate StillCounts(c: Committee, s: Core, t: Core) {
    t.gcRound == s.gcRound && forall r :: Counts(c, s, r) ==> Counts(c, t, r)
  }

  lemma SameCounts(c: Committee, s: Core, t: Core)
    requires t.gcRound == s.gcRound && t.counts == s.counts
    requires t.toConsensus == s.toConsensus && t.toProposer == s.toProposer
    ensures StillCounts(c, s, t)
  {}

  lemma ExamineCounts(c: Committee, me: Key, payload: set<Header>, s: Core, h: Header)
    ensures StillCounts(c, s, Examine(c, me, payload, s, h).0)
  {
    SameCounts(c, s, Examine(c, me, payload, s, h).0);
    hide Counts, GetParents, CheckParents, Enter, Entered;
  }

  lemma DeliverStill(c: Committee, s: Core, cert: Certificate)
    ensures StillCounts(c, s, Deliver(c, s, cert).0)
  {
    hide Counts, AppendCert, Deliverable;
    forall r | Counts(c, s, r) ensures Counts(c, Deliver(c, s, cert).0, r) {
      DeliverCountsRound(c, s, cert, r);
    }
  }

  lemma {:induction false} VoteCounts(c: Committee, me: Key, payload: set<Header>, s: Core, v: Vote)
    ensures StillCounts(c, s, ProcessVote(c, me, payload, s, v).0)
    decreases OwnVoteOpen(me, s), if v.author == me then 1 else 4
  {
    var (votes, r) := AppendVote(c, s.votes, v, s.current);
    SameCounts(c, s, s.(votes := votes));
    if r.Complete? {
      CertificateCounts(c, me, payload, s.(votes := votes), r.value);
    }
    hide Counts, ProcessCertificate;
  }

  lemma CastCounts(c: Committee, s: Core, t: Core)
    requires t == s.(cast := t.cast)
    ensures StillCounts(c, s, t)
  {
    SameCounts(c, s, t);
  }

  lemma {:induction false} HeaderCounts(c: Committee, me: Key, payload: set<Header>, s: Core, h: Header)
    ensures StillCounts(c, s, ProcessHeader(c, me, payload, s, h).0)
    decreases OwnVoteOpen(me, s), 2
  {
    hide Examine, Counts;
    var (s1, vote, status) := Examine(c, me, payload, s, h);
    ExamineCounts(c, me, payload, s, h);
    ExamineMarks(c, me, payload, s, h);
    if vote {
      var s2 := s1.(cast := s1.cast + [NewVote(h, me)]);
      CastCounts(c, s1, s2);
      if h.author == me {
        VoteCounts(c, me, payload, s2, NewVote(h, me));
      }
    }
  }

  lemma {:induction false} CertificateCounts(c: Committee, me: Key, payload: set<Header>, s: Core, cert: Certificate)
    ensures StillCounts(c, s, ProcessCertificate(c, me, payload, s, cert).0)
    decreases OwnVoteOpen(me, s), 3
  {
    hide Counts, Deliver, ProcessHeader, Entered;
    var h := cert.header;
    var s1 := if Entered(s.processing, h.round, h.id) then s else ProcessHeader(c, me, payload, s, h).0;
    if !Entered(s.processing, h.round, h.id) {
      HeaderCounts(c, me, payload, s, h);
    }
    DeliverStill(c, s1, cert);
  }

  lemma HandleCounts(x: Ctx, s: Core, e: Event)
    ensures StillCounts(x.c, s, Handle(x.c, x.me, x.genuine, s, e).0)
  {
    hide ProcessHeader, ProcessVote, ProcessCertificate, Counts, HeaderOk, CertificateOk, VoteOk;
    match e.m
    case NetHeader(h) => HeaderCounts(x.c, x.me, e.payload, s, h);
    case NetVote(v) => VoteCounts(x.c, x.me, e.payload, s, v);
    case NetCertificate(cert) => CertificateCounts(x.c, x.me, e.payload, s, cert);
    case LoopHeader(h) => HeaderCounts(x.c, x.me, e.payload, s, h);
    case LoopCertificate(cert) => CertificateCounts(x.c, x.me, e.payload, s, cert);
    case OwnHeader(h) =>
      var s1 := s.(current := h, votes := NO_VOTES, own := s.own + [h]);
      SameCounts(x.c, s, s1);
      HeaderCounts(x.c, x.me, e.payload, s1, h);
  }

  lemma CleanupCounts(c: Committee, gcDepth: nat, s: Core, round: nat)
    requires AllCounts(c, s) && s.gcRound <= Cleanup(gcDepth, s, round).gcRound
    ensures AllCounts(c, Cleanup(gcDepth, s, round))
  {
    var t := Cleanup(gcDepth, s, round);
    CleanupExactly(gcDepth, s, round);
    hide Cleanup, AppendCerts, OfRound, ListsOf;
    forall r | r >= t.gcRound ensures Counts(c, t, r) {
      assert Counts(c, s, r) && Counter(t, r) == Counter(s, r);
    }
  }

  // ----- Runs

  lemma TurnCounts(x: Ctx, gcDepth: nat, s: Core, e: Event)
    requires Reached(x, gcDepth, s) && Legal(x, s, e) && AllCounts(x.c, s)
    ensures AllCounts(x.c, Turn(x.c, x.me, gcDepth, x.genuine, s, e).0)
  {
    HandleCounts(x, s, e);
    var t := Handle(x.c, x.me, x.genuine, s, e).0;
    assert AllCounts(x.c, t);
    assert s.gcRound <= Cleanup(gcDepth, t, e.consensusRound).gcRound;
    hide Handle, Cleanup, Counts, Inv, Processed, Legal;
    CleanupCounts(x.c, gcDepth, t, e.consensusRound);
  }

  lemma StartCounts(c: Committee)
    ensures AllCounts(c, START)
  {}

  lemma {:induction false} RunCounts(x: Ctx, gcDepth: nat, es: seq<Event>)
    requires x.c.Valid() && LegalRun(x, gcDepth, es)
    ensures AllCounts(x.c, RunCore(x.c, x.me, gcDepth, x.genuine, es))
    decreases |es|
  {
    if es == [] {
      StartCounts(x.c);
    } else {
      hide Reached, Legal, Turn, LegalRun, AllCounts;
      var n := |es| - 1;
      LegalPrefix(x, gcDepth, es, n);
      RunCounts(x, gcDepth, es[..n]);
      RunReaches(x, gcDepth, es[..n]);
      LegalStep(x, gcDepth, es, n);
      TurnCounts(x, gcDepth, RunCore(x.c, x.me, gcDepth, x.genuine, es[..n]), es[n]);
    }
  }

  lemma {:induction false} RoundOnly(certs: seq<Certificate>, r: nat)
    ensures forall cert :: cert in OfRound(certs, r) <==> cert in certs && cert.header.round == r
  {
    if certs != [] {
      var n := |certs| - 1;
      RoundOnly(certs[..n], r);
      assert certs == certs[..n] + [certs[n]];
    }
  }

  /** After any legal run, for every round not yet collected: exactly one parent list of that round
      was offered if the authors of its delivered certificates hold a quorum, and none
      otherwise; an offered list meets the next round's parent check. */
  lemma OfferedExactly(x: Ctx, gcDepth: nat, es: seq<Event>, r: nat)
    requires x.c.Valid() && LegalRun(x, gcDepth, es)
    requires r >= RunCore(x.c, x.me, gcDepth, x.genuine, es).gcRound
    ensures var s := RunCore(x.c, x.me, gcDepth, x.genuine, es);
            var lists := ListsOf(s.toProposer, r);
            var authors := set cert | cert in s.toConsensus && cert.header.round == r :: cert.header.author;
            && |lists| == (if x.c.Weight(authors) >= x.c.QuorumThreshold() then 1 else 0)
            && forall ps :: ps in lists ==> ParentList(x.c, ps, r)
  {
    RunCounts(x, gcDepth, es);
    var s := RunCore(x.c, x.me, gcDepth, x.genuine, es);
    assert Counts(x.c, s, r);
    hide RunCore, LegalRun, AppendCerts, ListsOf, CertsCounted, ParentList, OfRound;
    var certs := OfRound(s.toConsensus, r);
    RoundOnly(s.toConsensus, r);
    var fired := CertsFireOnce(x.c, certs, r);
    var authors := set cert | cert in s.toConsensus && cert.header.round == r :: cert.header.author;
    assert CertAuthors(certs) == authors;
  }

  // ----- Later

  lemma OffersStay(x: Ctx, gcDepth: nat, es: seq<Event>, n: nat)
    requires n <= |es|
    ensures RunCore(x.c, x.me, gcDepth, x.genuine, es[..n]).toProposer <=
              RunCore(x.c, x.me, gcDepth, x.genuine, es).toProposer
    decreases |es|
  {
    if n == |es| {
      assert es[..n] == es;
    } else {
      var low := es[..|es| - 1];
      assert low[..n] == es[..n];
      OffersStay(x, gcDepth, low, n);
      Wiring.TurnAdds(x, gcDepth, RunCore(x.c, x.me, gcDepth, x.genuine, low), es[|es| - 1]);
      hide Turn;
    }
  }

  lemma {:induction false} ListedIsOffered(offers: seq<(seq<Digest>, nat)>, r: nat)
    ensures forall ps :: ps in ListsOf(offers, r) <==> (ps, r) in offers
  {
    if offers != [] {
      var n := |offers| - 1;
      ListedIsOffered(offers[..n], r);
      assert offers == offers[..n] + [offers[n]];
    }
  }

  /** Once certificates of a round by authors with a quorum are delivered before the round is
      collected, a parent list of the round is offered, and stays so whatever follows. */
  lemma QuorumIsOffered(x: Ctx, gcDepth: nat, es: seq<Event>, n: nat, r: nat)
    requires x.c.Valid() && LegalRun(x, gcDepth, es) && n <= |es|
    requires var s := RunCore(x.c, x.me, gcDepth, x.genuine, es[..n]);
             && r >= s.gcRound
             && x.c.Weight(set cert | cert in s.toConsensus && cert.header.round == r :: cert.header.author)
                  >= x.c.QuorumThreshold()
    ensures exists ps :: (ps, r) in RunCore(x.c, x.me, gcDepth, x.genuine, es).toProposer && ParentList(x.c, ps, r)
  {
    LegalPrefix(x, gcDepth, es, n);
    OfferedExactly(x, gcDepth, es[..n], r);
    OffersStay(x, gcDepth, es, n);
    var s := RunCore(x.c, x.me, gcDepth, x.genuine, es[..n]);
    ListedIsOffered(s.toProposer, r);
    hide RunCore, LegalRun, ListsOf, ParentList;
    var ps := ListsOf(s.toProposer, r)[0];
    assert (ps, r) in s.toProposer;
  }
}
