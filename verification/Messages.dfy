/** Votes and certificates, and what it takes for them to verify. */
module Messages {
  import opened Types

  /** An ideal signature is the fact that a key signed a digest. Which signatures exist is
      given by a set; nobody can produce one outside it. */
  datatype Signature = Signature(signer: Key, message: Digest)

  datatype Vote = Vote(id: Digest, round: nat, origin: Key, author: Key, signature: Signature) {
    function Hash(): Digest {
      CertHash(id, round, origin)
    }
  }

  function NewVote(h: Header, me: Key): Vote {
    Vote(h.id, h.round, h.author, me, Signature(me, CertHash(h.id, h.round, h.author)))
  }

  function VotersOf(votes: seq<(Key, Signature)>): seq<Key> {
    seq(|votes|, i requires 0 <= i < |votes| => votes[i].0)
  }

  datatype Certificate = Certificate(header: Header, votes: seq<(Key, Signature)>) {
    function Hash(): Digest {
      header.Ref()
    }

    function Voters(): seq<Key> {
      VotersOf(votes)
    }
  }

  datatype DagError =
    | InvalidHeaderId
    | UnknownAuthority
    | MalformedHeader
    | AuthorityReuse
    | CertificateRequiresQuorum
    | HeaderRequiresQuorum
    | InvalidSignature
    | TooOld
    | UnexpectedVote

  function GenesisRef(k: Key): Digest {
    CertHash(Zero, 0, k)
  }

  /** The digests of the committee's genesis certificates. */
  function GenesisParents(c: Committee): seq<Digest> {
    seq(|c.names|, i requires 0 <= i < |c.names| => GenesisRef(c.names[i]))
  }

  /** A digest of one of the committee's genesis certificates. */
  predicate IsGenesisRef(c: Committee, d: Digest) {
    d.CertHash? && d.id == Zero && d.round == 0 && d.origin in c.names
  }

  lemma GenesisParentsAre(c: Committee)
    ensures forall d :: d in GenesisParents(c) <==> IsGenesisRef(c, d)
  {
    forall d | IsGenesisRef(c, d) ensures d in GenesisParents(c) {
      var i :| 0 <= i < |c.names| && c.names[i] == d.origin;
      assert GenesisParents(c)[i] == d;
    }
  }

  /** `Header::verify`, its signature apart: the id is the hash of the fields, the author may
      vote and the payload names workers of the author. */
  ghost predicate HeaderOk(c: Committee, h: Header) {
    && h.WellId()
    && c.Stake(h.author) > 0
    && (forall b :: b in h.payload ==> h.author in c.workers && h.payload[b] in c.workers[h.author])
  }

  method VerifyHeader(c: Committee, h: Header) returns (error: Option<DagError>)
    ensures error.None? <==> HeaderOk(c, h)
  {
    if !h.WellId() {
      return Some(InvalidHeaderId);
    }
    if c.Stake(h.author) == 0 {
      return Some(UnknownAuthority);
    }
    var todo := h.payload.Keys;
    while todo != {}
      invariant todo <= h.payload.Keys
      invariant forall b ::
                  b in h.payload && b !in todo ==> h.author in c.workers && h.payload[b] in c.workers[h.author]
      decreases |todo|
    {
      var b :| b in todo;
      if h.author !in c.workers || h.payload[b] !in c.workers[h.author] {
        return Some(MalformedHeader);
      }
      todo := todo - {b};
    }
    return None;
  }

  /** Distinct members of the committee hold a quorum and each signed the certificate. */
  ghost predicate SignedByQuorum(c: Committee, genuine: set<Signature>, cert: Certificate) {
    && NoDup(cert.Voters())
    && (forall v :: v in cert.votes ==>
          c.Stake(v.0) > 0 && v.1 == Signature(v.0, cert.Hash()) && v.1 in genuine)
    && c.Weight(Members(cert.Voters())) >= c.QuorumThreshold()
  }

  ghost predicate CertificateOk(c: Committee, genuine: set<Signature>, cert: Certificate) {
    IsGenesisRef(c, cert.Hash()) || (HeaderOk(c, cert.header) && SignedByQuorum(c, genuine, cert))
  }

  /** `Certificate::verify` accepts exactly the genesis certificates and the certificates of
      valid headers that a quorum of distinct members signed. */
  method VerifyCertificate(c: Committee, genuine: set<Signature>, cert: Certificate) returns (error: Option<DagError>)
    requires c.Valid()
    ensures error.None? <==> CertificateOk(c, genuine, cert)
  {
    if IsGenesisRef(c, cert.Hash()) {
      return None;
    }
    error := VerifyHeader(c, cert.header);
    if error.Some? {
      return;
    }
    var weight, used := 0, {};
    var i := 0;
    ghost var voters := cert.Voters();
    c.WeightEmptyIn(c.names);
    while i < |cert.votes|
      invariant 0 <= i <= |cert.votes|
      invariant used == Members(voters[..i]) && NoDup(voters[..i])
      invariant forall j :: 0 <= j < i ==> c.Stake(cert.votes[j].0) > 0
      invariant weight == c.Weight(used)
    {
      var name := cert.votes[i].0;
      assert voters[i] == name && voters[..i + 1] == voters[..i] + [name];
      if name in used {
        ghost var j :| 0 <= j < i && voters[..i][j] == name;
        assert voters[j] == voters[i];
        return Some(AuthorityReuse);
      }
      if c.Stake(name) == 0 {
        assert cert.votes[i] in cert.votes;
        return Some(UnknownAuthority);
      }
      c.WeightInsert(used, name);
      used := used + {name};
      weight := weight + c.Stake(name);
      i := i + 1;
    }
    assert voters[..i] == voters;
    assert used == Members(cert.Voters());
    if weight < c.QuorumThreshold() {
      return Some(CertificateRequiresQuorum);
    }
    if exists v :: v in cert.votes && !(v.1 == Signature(v.0, cert.Hash()) && v.1 in genuine) {
      return Some(InvalidSignature);
    }
    return None;
  }
}
