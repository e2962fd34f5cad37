/** A primary: how it answers headers, votes and certificates, as functions on its state. The
    logs `own`, `cast`, `toConsensus` and `toProposer` record what it was asked to propose,
    the votes it signed and what it sent to the two other components. */
module Primary {
  import opened Types
  import opened Messages
  import opened Aggregators
  import Ordering

  datatype Core = Core(
    gcRound: nat,
    lastVoted: map<nat, set<Key>>,
    processing: map<nat, set<Digest>>,
    current: Header,
    votes: VoteCount,
    counts: map<nat, CertCount>,
    store: map<Digest, Certificate>,
    headers: set<Header>,
    waitingHeaders: set<Header>,
    waitingCerts: set<Certificate>,
    consensusRound: nat,
    own: seq<Header>,
    cast: seq<Vote>,
    toConsensus: seq<Certificate>,
    toProposer: seq<(seq<Digest>, nat)>)

  datatype Status = Fine | Failed(error: DagError) | Panicked

  const DEFAULT_HEADER := Header(0, 0, map[], [], Zero)
  const START := Core(0, map[], map[], DEFAULT_HEADER, NO_VOTES, map[], map[], {}, {}, {}, 0, [], [], [], [])

  function Enter<T>(m: map<nat, set<T>>, r: nat, x: T): map<nat, set<T>> {
    m[r := (if r in m then m[r] else {}) + {x}]
  }

  predicate Entered<T>(m: map<nat, set<T>>, r: nat, x: T) {
    r in m && x in m[r]
  }

  // ----- The synchronizer

  /** The headers of the parents, genesis ones included, in order; `None` if one is missing. */
  function GetParents(c: Committee, store: map<Digest, Certificate>, ps: seq<Digest>): Option<seq<Header>> {
    if ps == [] then Some([])
    else if !IsGenesisRef(c, ps[0]) && ps[0] !in store then None
    else match GetParents(c, store, ps[1..])
      case None => None
      case Some(rest) =>
        Some([if IsGenesisRef(c, ps[0]) then Ordering.Genesis(ps[0].origin) else store[ps[0]].header] + rest)
  }

  /** Whether all parents of a certificate are delivered. */
  predicate Deliverable(c: Committee, store: map<Digest, Certificate>, ps: seq<Digest>) {
    forall d :: d in ps ==> IsGenesisRef(c, d) || d in store
  }

  function Authors(hs: seq<Header>): seq<Key> {
    seq(|hs|, i requires 0 <= i < |hs| => hs[i].author)
  }

  /** The parents must all be one round below the header and hold a quorum. */
  function CheckParents(c: Committee, parents: seq<Header>, h: Header): Option<DagError> {
    if exists x :: x in parents && x.round + 1 != h.round then Some(MalformedHeader)
    else if c.SumStake(Authors(parents)) < c.QuorumThreshold() then Some(HeaderRequiresQuorum)
    else None
  }

  // ----- Headers, votes, certificates

  /** What becomes of a header before any vote: the state, whether to vote, and the status.
      `payload` are the headers whose batches the workers of this primary hold. */
  function Examine(c: Committee, me: Key, payload: set<Header>, s: Core, h: Header): (Core, bool, Status) {
    var s1 := s.(processing := Enter(s.processing, h.round, h.id));
    match GetParents(c, s.store, h.parents)
    case None => (s1.(waitingHeaders := s1.waitingHeaders + {h}), false, Fine)
    case Some(parents) =>
      if parents == [] then (s1, false, Fine)
      else match CheckParents(c, parents, h)
        case Some(e) => (s1, false, Failed(e))
        case None =>
          if h.author != me && h !in payload then
            (s1.(waitingHeaders := s1.waitingHeaders + {h}), false, Fine)
          else
            var s2 := s1.(headers := s1.headers + {h});
            (s2.(lastVoted := Enter(s2.lastVoted, h.round, h.author)), !Entered(s2.lastVoted, h.round, h.author), Fine)
  }

  /** 1 while this primary's own vote can still be counted: bounds the mutual recursion. */
  function OwnVoteOpen(me: Key, s: Core): nat {
    if me in s.votes.used then 0 else 1
  }

  /** Store a certificate whose parents are delivered, count it, hand it to consensus. */
  function Deliver(c: Committee, s: Core, cert: Certificate): (Core, Status) {
    if !Deliverable(c, s.store, cert.header.parents) then (s.(waitingCerts := s.waitingCerts + {cert}), Fine)
    else
      var r := cert.header.round;
      var (count, parents) := AppendCert(c, if r in s.counts then s.counts[r] else NO_CERTIFICATES, cert);
      var s1 := s.(
        store := s.store[cert.Hash() := cert],
        counts := s.counts[r := count],
        toProposer := if parents.Some? then s.toProposer + [(parents.value, r)] else s.toProposer);
      (s1.(toConsensus := s1.toConsensus + [cert]), Fine)
  }

  function ProcessCertificate(c: Committee, me: Key, payload: set<Header>, s: Core, cert: Certificate): (Core, Status)
    decreases OwnVoteOpen(me, s), 3
  {
    var h := cert.header;
    var (s1, st) := if Entered(s.processing, h.round, h.id) then (s, Fine) else ProcessHeader(c, me, payload, s, h);
    if st != Fine then (s1, st)
    else Deliver(c, s1, cert)
  }

  function ProcessVote(c: Committee, me: Key, payload: set<Header>, s: Core, v: Vote): (Core, Status)
    decreases OwnVoteOpen(me, s), if v.author == me then 1 else 4
  {
    var (votes, r) := AppendVote(c, s.votes, v, s.current);
    var s1 := s.(votes := votes);
    match r
    case Rejected(e) => (s1, Failed(e))
    case Waiting => (s1, Fine)
    case Complete(cert) =>
      var (s2, st) := ProcessCertificate(c, me, payload, s1, cert);
      (s2, if st == Fine then Fine else Panicked)
  }

  function ProcessHeader(c: Committee, me: Key, payload: set<Header>, s: Core, h: Header): (Core, Status)
    decreases OwnVoteOpen(me, s), 2
  {
    var (s1, vote, status) := Examine(c, me, payload, s, h);
    if !vote then (s1, status)
    else
      var v := NewVote(h, me);
      var s2 := s1.(cast := s1.cast + [v]);
      if h.author == me then
        // A failure here is an `expect` and kills the task.
        var (s3, st) := ProcessVote(c, me, payload, s2, v);
        (s3, if st == Fine then Fine else Panicked)
      else (s2, Fine)
  }

  function ProcessOwnHeader(c: Committee, me: Key, payload: set<Header>, s: Core, h: Header): (Core, Status) {
    ProcessHeader(c, me, payload, s.(current := h, votes := NO_VOTES, own := s.own + [h]), h)
  }

  // ----- The main loop

  datatype Message =
    | NetHeader(h: Header)
    | NetVote(v: Vote)
    | NetCertificate(cert: Certificate)
    | LoopHeader(h: Header)
    | LoopCertificate(cert: Certificate)
    | OwnHeader(h: Header)

  /** One turn of the loop: a message, the batches held then, the consensus round read after. */
  datatype Event = Event(m: Message, payload: set<Header>, consensusRound: nat)

  ghost predicate VoteOk(c: Committee, genuine: set<Signature>, v: Vote) {
    c.Stake(v.author) > 0 && v.signature == Signature(v.author, v.Hash()) && v.signature in genuine
  }

  predicate ExpectedVote(s: Core, v: Vote) {
    v.id == s.current.id && v.origin == s.current.author && v.round == s.current.round
  }

  ghost function Handle(c: Committee, me: Key, genuine: set<Signature>, s: Core, e: Event): (Core, Status) {
    match e.m
    case NetHeader(h) =>
      if h.round < s.gcRound then (s, Failed(TooOld))
      else if !HeaderOk(c, h) then (s, Failed(InvalidSignature))
      else ProcessHeader(c, me, e.payload, s, h)
    case NetVote(v) =>
      if v.round < s.current.round then (s, Failed(TooOld))
      else if !ExpectedVote(s, v) then (s, Failed(UnexpectedVote))
      else if !VoteOk(c, genuine, v) then (s, Failed(InvalidSignature))
      else ProcessVote(c, me, e.payload, s, v)
    case NetCertificate(cert) =>
      if cert.header.round < s.gcRound then (s, Failed(TooOld))
      else if !CertificateOk(c, genuine, cert) then (s, Failed(InvalidSignature))
      else ProcessCertificate(c, me, e.payload, s, cert)
    case LoopHeader(h) => ProcessHeader(c, me, e.payload, s, h)
    case LoopCertificate(cert) => ProcessCertificate(c, me, e.payload, s, cert)
    case OwnHeader(h) => ProcessOwnHeader(c, me, e.payload, s, h)
  }

  function From<T>(m: map<nat, T>, r: nat): map<nat, T> {
    map k | k in m && k >= r :: m[k]
  }

  /** The cleanup at the end of each turn. */
  function Cleanup(gcDepth: nat, s: Core, round: nat): Core {
    var s1 := s.(consensusRound := round);
    if round <= gcDepth then s1
    else
      var gc := round - gcDepth;
      s1.(lastVoted := From(s.lastVoted, gc), processing := From(s.processing, gc),
          counts := From(s.counts, gc), gcRound := gc)
  }

  ghost function Turn(c: Committee, me: Key, gcDepth: nat, genuine: set<Signature>, s: Core, e: Event): (Core, Status) {
    var (s1, st) := Handle(c, me, genuine, s, e);
    (Cleanup(gcDepth, s1, e.consensusRound), st)
  }

  ghost function RunCore(c: Committee, me: Key, gcDepth: nat, genuine: set<Signature>, es: seq<Event>): Core {
    if es == [] then START
    else Turn(c, me, gcDepth, genuine, RunCore(c, me, gcDepth, genuine, es[..|es| - 1]), es[|es| - 1]).0
  }
}
