/** The primary as it runs: fields updated by every message. Each method is tied to the
    function of the same name in `Primary`. */
module PrimaryNode {
  import opened Types
  import opened Messages
  import opened Aggregators
  import Primary
  import Ordering

  function Prepend(hs: seq<Header>, o: Option<seq<Header>>): Option<seq<Header>> {
    match o
    case None => None
    case Some(rest) => Some(hs + rest)
  }

  /** Equal up to which error rejects a message. */
  predicate SameOutcome(a: Primary.Status, b: Primary.Status) {
    a == b || (a.Failed? && b.Failed?)
  }

  /** Whether the turn on event `i` makes an `expect` fail. */
  ghost predicate PanicsAt(c: Committee, me: Key, gcDepth: nat, genuine: set<Signature>, es: seq<Primary.Event>, i: int)
    requires 0 <= i < |es|
  {
    Primary.Turn(c, me, gcDepth, genuine, Primary.RunCore(c, me, gcDepth, genuine, es[..i]), es[i]).1
      == Primary.Panicked
  }

  class Core {
    const committee: Committee
    const name: Key
    const gcDepth: nat
    var gcRound: nat
    var lastVoted: map<nat, set<Key>>
    var processing: map<nat, set<Digest>>
    var currentHeader: Header
    var votesAggregator: VotesAggregator
    var certificatesAggregators: map<nat, CertCount>
    var store: map<Digest, Certificate>
    var headers: set<Header>
    var waitingHeaders: set<Header>
    var waitingCerts: set<Certificate>
    var consensusRound: nat
    var own: seq<Header>
    var cast: seq<Vote>
    var toConsensus: seq<Certificate>
    var toProposer: seq<(seq<Digest>, nat)>

    ghost function Value(): Primary.Core
      reads this, votesAggregator
    {
      Primary.Core(gcRound, lastVoted, processing, currentHeader, votesAggregator.Value(), certificatesAggregators,
                   store, headers, waitingHeaders, waitingCerts, consensusRound, own, cast, toConsensus, toProposer)
    }

    constructor (c: Committee, me: Key, gc: nat)
      ensures committee == c && name == me && gcDepth == gc && fresh(votesAggregator)
      ensures Value() == Primary.START
    {
      committee, name, gcDepth := c, me, gc;
      gcRound, lastVoted, processing := 0, map[], map[];
      currentHeader := Primary.DEFAULT_HEADER;
      votesAggregator := new VotesAggregator();
      certificatesAggregators, store, headers := map[], map[], {};
      waitingHeaders, waitingCerts, consensusRound := {}, {}, 0;
      own, cast, toConsensus, toProposer := [], [], [], [];
    }

    // ----- The synchronizer

    method GetParents(ps: seq<Digest>) returns (parents: Option<seq<Header>>)
      ensures parents == Primary.GetParents(committee, store, ps)
    {
      var missing, found := [], [];
      var i := 0;
      assert ps[0..] == ps;
      assert forall t: seq<Header> :: found + t == t;
      while i < |ps|
        invariant 0 <= i <= |ps|
        invariant missing != [] ==> Primary.GetParents(committee, store, ps).None?
        invariant missing == [] ==>
          Primary.GetParents(committee, store, ps) == Prepend(found, Primary.GetParents(committee, store, ps[i..]))
      {
        var d := ps[i];
        assert ps[i..][0] == d && ps[i..][1..] == ps[i + 1..];
        assert forall h: Header, t :: found + ([h] + t) == (found + [h]) + t;
        if IsGenesisRef(committee, d) {
          found := found + [Ordering.Genesis(d.origin)];
        } else if d in store {
          found := found + [store[d].header];
        } else {
          missing := missing + [d];
        }
        i := i + 1;
      }
      assert ps[i..] == [];
      assert found + [] == found;
      return if missing == [] then Some(found) else None;
    }

    method DeliverCertificate(ps: seq<Digest>) returns (delivered: bool)
      ensures delivered <==> Primary.Deliverable(committee, store, ps)
    {
      var i := 0;
      while i < |ps|
        invariant 0 <= i <= |ps|
        invariant forall j :: 0 <= j < i ==> IsGenesisRef(committee, ps[j]) || ps[j] in store
      {
        if !IsGenesisRef(committee, ps[i]) && ps[i] !in store {
          return false;
        }
        i := i + 1;
      }
      return true;
    }

    method CheckParents(parents: seq<Header>, h: Header) returns (error: Option<DagError>)
      ensures error == Primary.CheckParents(committee, parents, h)
    {
      var stake := 0;
      var i := 0;
      ghost var authors := Primary.Authors(parents);
      while i < |parents|
        invariant 0 <= i <= |parents|
        invariant forall j :: 0 <= j < i ==> parents[j].round + 1 == h.round
        invariant stake + committee.SumStake(authors[i..]) == committee.SumStake(authors)
      {
        if parents[i].round + 1 != h.round {
          assert parents[i] in parents;
          return Some(MalformedHeader);
        }
        assert authors[i..][0] == parents[i].author && authors[i..][1..] == authors[i + 1..];
        stake := stake + committee.Stake(parents[i].author);
        i := i + 1;
      }
      assert authors[i..] == [];
      if stake < committee.QuorumThreshold() {
        return Some(HeaderRequiresQuorum);
      }
      return None;
    }

    // ----- Headers, votes, certificates

    /** Everything up to the vote; `vote` says whether the header gets one. */
    method Examine(payload: set<Header>, h: Header) returns (vote: bool, status: Primary.Status)
      modifies this`processing, this`waitingHeaders, this`headers, this`lastVoted
      ensures (Value(), vote, status) == Primary.Examine(committee, name, payload, old(Value()), h)
    {
      hide Primary.GetParents, Primary.CheckParents, Primary.Enter;
      processing := Primary.Enter(processing, h.round, h.id);
      var parents := GetParents(h.parents);
      if parents.None? {
        waitingHeaders := waitingHeaders + {h};
        return false, Primary.Fine;
      }
      if parents.value == [] {
        return false, Primary.Fine;
      }
      var error := CheckParents(parents.value, h);
      if error.Some? {
        return false, Primary.Failed(error.value);
      }
      if h.author != name && h !in payload {
        waitingHeaders := waitingHeaders + {h};
        return false, Primary.Fine;
      }
      headers := headers + {h};
      vote := !Primary.Entered(lastVoted, h.round, h.author);
      lastVoted := Primary.Enter(lastVoted, h.round, h.author);
      return vote, Primary.Fine;
    }

    /** Count a certificate towards the parents of the next round. */
    method Count(cert: Certificate)
      modifies this`certificatesAggregators, this`toProposer
      ensures var r := cert.header.round;
              var (count, parents) := AppendCert(committee,
                if r in old(certificatesAggregators) then old(certificatesAggregators)[r] else NO_CERTIFICATES, cert);
              && certificatesAggregators == old(certificatesAggregators)[r := count]
              && toProposer == if parents.Some? then old(toProposer) + [(parents.value, r)] else old(toProposer)
    {
      hide AppendCert;
      var r := cert.header.round;
      var aggregator := new CertificatesAggregator(
        if r in certificatesAggregators then certificatesAggregators[r] else NO_CERTIFICATES);
      var parents := aggregator.Append(cert, committee);
      certificatesAggregators := certificatesAggregators[r := aggregator.Value()];
      if parents.Some? {
        toProposer := toProposer + [(parents.value, r)];
      }
    }

    method Deliver(cert: Certificate) returns (status: Primary.Status)
      modifies this`waitingCerts, this`store, this`certificatesAggregators, this`toProposer, this`toConsensus
      ensures (Value(), status) == Primary.Deliver(committee, old(Value()), cert)
    {
      hide AppendCert, Primary.Deliverable;
      var h := cert.header;
      status := Primary.Fine;
      var delivered := DeliverCertificate(h.parents);
      if !delivered {
        waitingCerts := waitingCerts + {cert};
        return;
      }
      store := store[cert.Hash() := cert];
      Count(cert);
      toConsensus := toConsensus + [cert];
    }

    method ProcessCertificate(payload: set<Header>, cert: Certificate) returns (status: Primary.Status)
      modifies this, votesAggregator
      ensures votesAggregator == old(votesAggregator)
      ensures (Value(), status) == Primary.ProcessCertificate(committee, name, payload, old(Value()), cert)
      decreases Primary.OwnVoteOpen(name, Value()), 3
    {
      var h := cert.header;
      status := Primary.Fine;
      if !Primary.Entered(processing, h.round, h.id) {
        status := ProcessHeader(payload, h);
        if status != Primary.Fine {
          return;
        }
      }
      status := Deliver(cert);
    }

    method ProcessVote(payload: set<Header>, v: Vote) returns (status: Primary.Status)
      modifies this, votesAggregator
      ensures votesAggregator == old(votesAggregator)
      ensures (Value(), status) == Primary.ProcessVote(committee, name, payload, old(Value()), v)
      decreases Primary.OwnVoteOpen(name, Value()), if v.author == name then 1 else 4
    {
      var r := votesAggregator.Append(v, committee, currentHeader);
      match r {
        case Rejected(e) => return Primary.Failed(e);
        case Waiting => return Primary.Fine;
        case Complete(cert) =>
          status := ProcessCertificate(payload, cert);
          if status != Primary.Fine {
            status := Primary.Panicked;
          }
      }
    }

    method ProcessHeader(payload: set<Header>, h: Header) returns (status: Primary.Status)
      modifies this, votesAggregator
      ensures votesAggregator == old(votesAggregator)
      ensures (Value(), status) == Primary.ProcessHeader(committee, name, payload, old(Value()), h)
      decreases Primary.OwnVoteOpen(name, Value()), 2
    {
      var vote;
      vote, status := Examine(payload, h);
      if vote {
        var v := NewVote(h, name);
        cast := cast + [v];
        if h.author == name {
          status := ProcessVote(payload, v);
          if status != Primary.Fine {
            status := Primary.Panicked;
          }
        }
      }
    }

    method ProcessOwnHeader(payload: set<Header>, h: Header) returns (status: Primary.Status)
      modifies this, votesAggregator
      ensures votesAggregator == old(votesAggregator) || fresh(votesAggregator)
      ensures (Value(), status) == Primary.ProcessOwnHeader(committee, name, payload, old(Value()), h)
    {
      currentHeader := h;
      votesAggregator := new VotesAggregator();
      own := own + [h];
      status := ProcessHeader(payload, h);
    }

    // ----- The main loop

    method SanitizeHeader(h: Header) returns (error: Option<DagError>)
      ensures error.None? <==> gcRound <= h.round && HeaderOk(committee, h)
    {
      if h.round < gcRound {
        return Some(TooOld);
      }
      error := VerifyHeader(committee, h);
    }

    method SanitizeVote(genuine: set<Signature>, v: Vote) returns (error: Option<DagError>)
      ensures error.None? <==>
        && currentHeader.round <= v.round
        && Primary.ExpectedVote(Value(), v)
        && Primary.VoteOk(committee, genuine, v)
    {
      if v.round < currentHeader.round {
        return Some(TooOld);
      }
      if !(v.id == currentHeader.id && v.origin == currentHeader.author && v.round == currentHeader.round) {
        return Some(UnexpectedVote);
      }
      if committee.Stake(v.author) == 0 {
        return Some(UnknownAuthority);
      }
      if !(v.signature == Signature(v.author, v.Hash()) && v.signature in genuine) {
        return Some(InvalidSignature);
      }
      return None;
    }

    method SanitizeCertificate(genuine: set<Signature>, cert: Certificate) returns (error: Option<DagError>)
      requires committee.Valid()
      ensures error.None? <==> gcRound <= cert.header.round && CertificateOk(committee, genuine, cert)
    {
      if cert.header.round < gcRound {
        return Some(TooOld);
      }
      error := VerifyCertificate(committee, genuine, cert);
    }

    method Handle(genuine: set<Signature>, e: Primary.Event) returns (status: Primary.Status)
      requires committee.Valid()
      modifies this, votesAggregator
      ensures votesAggregator == old(votesAggregator) || fresh(votesAggregator)
      ensures Value() == Primary.Handle(committee, name, genuine, old(Value()), e).0
      ensures SameOutcome(status, Primary.Handle(committee, name, genuine, old(Value()), e).1)
    {
      hide Primary.ProcessHeader, Primary.ProcessVote, Primary.ProcessCertificate, Primary.ProcessOwnHeader;
      hide HeaderOk, CertificateOk, Primary.VoteOk;
      match e.m
      case NetHeader(h) =>
        var error := SanitizeHeader(h);
        if error.Some? {
          return Primary.Failed(error.value);
        }
        status := ProcessHeader(e.payload, h);
      case NetVote(v) =>
        var error := SanitizeVote(genuine, v);
        if error.Some? {
          return Primary.Failed(error.value);
        }
        status := ProcessVote(e.payload, v);
      case NetCertificate(cert) =>
        var error := SanitizeCertificate(genuine, cert);
        if error.Some? {
          return Primary.Failed(error.value);
        }
        status := ProcessCertificate(e.payload, cert);
      case LoopHeader(h) => status := ProcessHeader(e.payload, h);
      case LoopCertificate(cert) => status := ProcessCertificate(e.payload, cert);
      case OwnHeader(h) => status := ProcessOwnHeader(e.payload, h);
    }

    /** Forget what is older than the collected round. */
    method Forget(gc: nat)
      modifies this`gcRound, this`lastVoted, this`processing, this`certificatesAggregators
      ensures gcRound == gc
      ensures lastVoted == Primary.From(old(lastVoted), gc) && processing == Primary.From(old(processing), gc)
      ensures certificatesAggregators == Primary.From(old(certificatesAggregators), gc)
    {
      hide Primary.From;
      lastVoted := Primary.From(lastVoted, gc);
      processing := Primary.From(processing, gc);
      certificatesAggregators := Primary.From(certificatesAggregators, gc);
      gcRound := gc;
    }

    method CleanUp(round: nat)
      modifies this`consensusRound, this`gcRound, this`lastVoted, this`processing, this`certificatesAggregators
      ensures Value() == Primary.Cleanup(gcDepth, old(Value()), round)
    {
      hide Primary.From;
      consensusRound := round;
      if round > gcDepth {
        Forget(round - gcDepth);
      }
    }

    /** One turn of the main loop: handle a message, then clean up. `genuine` are the
        signatures that the signature checks accept. */
    method Turn(genuine: set<Signature>, e: Primary.Event) returns (status: Primary.Status)
      requires committee.Valid()
      modifies this, votesAggregator
      ensures votesAggregator == old(votesAggregator) || fresh(votesAggregator)
      ensures Value() == Primary.Turn(committee, name, gcDepth, genuine, old(Value()), e).0
      ensures SameOutcome(status, Primary.Turn(committee, name, gcDepth, genuine, old(Value()), e).1)
    {
      status := Handle(genuine, e);
      CleanUp(e.consensusRound);
    }

    /** The main loop: a turn for every message, up to the first one that panics, if any. */
    method Loop(genuine: set<Signature>, es: seq<Primary.Event>) returns (n: nat, panicked: bool)
      requires committee.Valid() && Value() == Primary.START
      modifies this, votesAggregator
      ensures n <= |es| && (panicked ==> n > 0) && (!panicked ==> n == |es|)
      ensures Value() == Primary.RunCore(committee, name, gcDepth, genuine, es[..n])
      ensures forall i ::
                0 <= i < n ==> (PanicsAt(committee, name, gcDepth, genuine, es, i) <==> panicked && i == n - 1)
    {
      hide Primary.Turn;
      n, panicked := 0, false;
      while n < |es| && !panicked
        invariant n <= |es| && (panicked ==> n > 0)
        invariant votesAggregator == old(votesAggregator) || fresh(votesAggregator)
        invariant Value() == Primary.RunCore(committee, name, gcDepth, genuine, es[..n])
        invariant forall i ::
                    0 <= i < n ==> (PanicsAt(committee, name, gcDepth, genuine, es, i) <==> panicked && i == n - 1)
        decreases |es| - n, !panicked
      {
        assert es[..n + 1][..n] == es[..n];
        var status := Turn(genuine, es[n]);
        panicked := status == Primary.Panicked;
        n := n + 1;
      }
    }
  }
}
