/** The two quorum counters: votes into a certificate, certificates into the parents of the
    next round. Each fires exactly once, when the distinct authors first hold a quorum. */
module Aggregators {
  import opened Types
  import opened Messages

  // ----- The common tally

  /** `weight` is the stake of the authors counted since the counter fired with `fired`. */
  ghost predicate Tally(c: Committee, weight: nat, used: set<Key>, fired: set<Key>) {
    && fired <= used
    && weight == c.Weight(used - fired)
    && weight < c.QuorumThreshold()
    && (fired == {} || c.Weight(fired) >= c.QuorumThreshold())
  }

  lemma TallyStarts(c: Committee)
    ensures Tally(c, 0, {}, {})
  {
    c.WeightEmptyIn(c.names);
    var none: set<Key> := {};
    assert none - none == none;
  }

  /** One more author: the counter reaches the threshold if and only if it has not fired
      and the authors now hold a quorum; resetting it to zero cannot let it fire again. */
  lemma TallyStep(c: Committee, weight: nat, used: set<Key>, fired: set<Key>, k: Key)
    requires c.Valid() && Tally(c, weight, used, fired) && k !in used
    ensures weight + c.Stake(k) >= c.QuorumThreshold() <==> fired == {} && c.Weight(used + {k}) >= c.QuorumThreshold()
    ensures weight + c.Stake(k) >= c.QuorumThreshold() ==> Tally(c, 0, used + {k}, used + {k})
    ensures weight + c.Stake(k) < c.QuorumThreshold() ==> Tally(c, weight + c.Stake(k), used + {k}, fired)
  {
    c.WeightInsert(used - fired, k);
    assert used - fired + {k} == used + {k} - fired;
    if fired == {} {
      assert used + {k} - fired == used + {k};
      assert (used + {k}) - (used + {k}) == {};
      c.WeightEmptyIn(c.names);
    } else {
      var late := used + {k} - fired;
      c.WeightUnionIn(c.names, late, fired);
      assert late * fired == {};
      c.WeightEmptyIn(c.names);
      assert c.Weight(late) + c.Weight(fired) <= c.Total();
    }
  }

  // ----- Votes

  datatype VoteCount = VoteCount(weight: nat, votes: seq<(Key, Signature)>, used: set<Key>)

  datatype Appended<+T> = Rejected(error: DagError) | Waiting | Complete(value: T)

  const NO_VOTES := VoteCount(0, [], {})

  function AppendVote(c: Committee, a: VoteCount, v: Vote, h: Header): (VoteCount, Appended<Certificate>) {
    if v.author in a.used then (a, Rejected(AuthorityReuse))
    else
      var votes := a.votes + [(v.author, v.signature)];
      var weight := a.weight + c.Stake(v.author);
      if weight >= c.QuorumThreshold() then
        (VoteCount(0, votes, a.used + {v.author}), Complete(Certificate(h, votes)))
      else
        (VoteCount(weight, votes, a.used + {v.author}), Waiting)
  }

  class VotesAggregator {
    var weight: nat
    var votes: seq<(Key, Signature)>
    var used: set<Key>

    function Value(): VoteCount
      reads this
    {
      VoteCount(weight, votes, used)
    }

    constructor ()
      ensures Value() == NO_VOTES
    {
      weight, votes, used := 0, [], {};
    }

    method Append(vote: Vote, c: Committee, h: Header) returns (r: Appended<Certificate>)
      modifies this
      ensures (Value(), r) == AppendVote(c, old(Value()), vote, h)
    {
      if vote.author in used {
        return Rejected(AuthorityReuse);
      }
      used := used + {vote.author};
      votes := votes + [(vote.author, vote.signature)];
      weight := weight + c.Stake(vote.author);
      if weight >= c.QuorumThreshold() {
        weight := 0; // So that it fires only once.
        return Complete(Certificate(h, votes));
      }
      return Waiting;
    }
  }

  /** The counter holds one vote of every author used. */
  ghost predicate VotesCounted(c: Committee, a: VoteCount, fired: set<Key>) {
    && Tally(c, a.weight, a.used, fired)
    && NoDup(VotersOf(a.votes))
    && a.used == Members(VotersOf(a.votes))
  }

  lemma AppendVoteKeeps(c: Committee, a: VoteCount, fired: set<Key>, v: Vote, h: Header) returns (fired': set<Key>)
    requires c.Valid() && VotesCounted(c, a, fired)
    ensures var (a', r) := AppendVote(c, a, v, h);
            && VotesCounted(c, a', fired')
            && (r.Complete? <==> fired == {} && fired' != {})
            && (r.Complete? ==> r.value == Certificate(h, a'.votes) && c.Weight(a'.used) >= c.QuorumThreshold())
            && (fired' != {} <==> fired != {} || r.Complete?)
            && (a'.used == a.used + {v.author})
            && (fired' == {} ==> c.Weight(a'.used) < c.QuorumThreshold())
            && (fired' != {} ==> c.Weight(a'.used) >= c.QuorumThreshold())
  {
    var (a', r) := AppendVote(c, a, v, h);
    if v.author in a.used {
      fired' := fired;
    } else {
      TallyStep(c, a.weight, a.used, fired, v.author);
      fired' := if r.Complete? then a'.used else fired;
      assert VotersOf(a'.votes) == VotersOf(a.votes) + [v.author];
    }
    assert a'.used - {} == a'.used;
    if fired' != {} {
      c.WeightMonotone(fired', a'.used);
    }
  }

  /** The results of appending votes one after the other. */
  function AppendVotes(c: Committee, vs: seq<Vote>, h: Header): (VoteCount, seq<Certificate>) {
    if vs == [] then (NO_VOTES, [])
    else
      var (a, out) := AppendVotes(c, vs[..|vs| - 1], h);
      var (a', r) := AppendVote(c, a, vs[|vs| - 1], h);
      (a', if r.Complete? then out + [r.value] else out)
  }

  function VoteAuthors(vs: seq<Vote>): set<Key> {
    set i | 0 <= i < |vs| :: vs[i].author
  }

  lemma VoteAuthorsSnoc(vs: seq<Vote>)
    requires vs != []
    ensures VoteAuthors(vs) == VoteAuthors(vs[..|vs| - 1]) + {vs[|vs| - 1].author}
  {
    var low := vs[..|vs| - 1];
    forall k | k in VoteAuthors(vs) ensures k in VoteAuthors(low) + {vs[|vs| - 1].author} {
      var i :| 0 <= i < |vs| && vs[i].author == k;
      assert i < |low| ==> low[i] == vs[i];
    }
    forall k | k in VoteAuthors(low) ensures k in VoteAuthors(vs) {
      var i :| 0 <= i < |low| && low[i].author == k;
      assert vs[i] == low[i];
    }
  }

  ghost predicate Assembled(c: Committee, cert: Certificate, h: Header) {
    && cert.header == h
    && NoDup(cert.Voters())
    && c.Weight(Members(cert.Voters())) >= c.QuorumThreshold()
  }

  /** Over any run of appends, duplicates included, exactly one certificate is emitted if the
      authors seen hold a quorum and none otherwise, and the emitted one has distinct voters
      that hold a quorum. */
  lemma {:induction false} VotesFireOnce(c: Committee, vs: seq<Vote>, h: Header) returns (fired: set<Key>)
    requires c.Valid()
    ensures var (a, out) := AppendVotes(c, vs, h);
            && VotesCounted(c, a, fired) && (fired != {} <==> out != [])
            && a.used == VoteAuthors(vs)
            && |out| == (if c.Weight(a.used) >= c.QuorumThreshold() then 1 else 0)
            && (forall cert :: cert in out ==> Assembled(c, cert, h))
    decreases |vs|
  {
    if vs == [] {
      TallyStarts(c);
      c.WeightEmptyIn(c.names);
      fired := {};
    } else {
      var n := |vs| - 1;
      var before := VotesFireOnce(c, vs[..n], h);
      var (a, out) := AppendVotes(c, vs[..n], h);
      fired := AppendVoteKeeps(c, a, before, vs[n], h);
      var (a', r) := AppendVote(c, a, vs[n], h);
      VoteAuthorsSnoc(vs);
      if r.Complete? {
        assert a'.used == Members(r.value.Voters());
        assert out == [];
      }
      hide AppendVote, Tally;
    }
  }

  // ----- Certificates

  datatype CertCount = CertCount(weight: nat, certificates: seq<Digest>, used: set<Key>)

  const NO_CERTIFICATES := CertCount(0, [], {})

  function AppendCert(c: Committee, a: CertCount, cert: Certificate): (CertCount, Option<seq<Digest>>) {
    var origin := cert.header.author;
    if origin in a.used then (a, None)
    else
      var certificates := a.certificates + [cert.Hash()];
      var weight := a.weight + c.Stake(origin);
      if weight >= c.QuorumThreshold() then (CertCount(0, [], a.used + {origin}), Some(certificates))
      else (CertCount(weight, certificates, a.used + {origin}), None)
  }

  class CertificatesAggregator {
    var weight: nat
    var certificates: seq<Digest>
    var used: set<Key>

    function Value(): CertCount
      reads this
    {
      CertCount(weight, certificates, used)
    }

    constructor (value: CertCount)
      ensures Value() == value
    {
      weight, certificates, used := value.weight, value.certificates, value.used;
    }

    method Append(cert: Certificate, c: Committee) returns (r: Option<seq<Digest>>)
      modifies this
      ensures (Value(), r) == AppendCert(c, old(Value()), cert)
    {
      var origin := cert.header.author;
      if origin in used {
        return None;
      }
      used := used + {origin};
      certificates := certificates + [cert.Hash()];
      weight := weight + c.Stake(origin);
      if weight >= c.QuorumThreshold() {
        weight := 0; // So that it fires only once.
        r := Some(certificates);
        certificates := [];
        return;
      }
      return None;
    }
  }

  function OriginsOf(ds: seq<Digest>): seq<Key> {
    seq(|ds|, i requires 0 <= i < |ds| => if ds[i].CertHash? then ds[i].origin else 0)
  }

  /** A parent list that the header check of the next round accepts: digests of certificates
      of round `r` by distinct authors that hold a quorum. */
  ghost predicate ParentList(c: Committee, ds: seq<Digest>, r: nat) {
    && ds != []
    && (forall d :: d in ds ==> d.CertHash? && d.round == r)
    && NoDup(OriginsOf(ds))
    && c.Weight(Origins(ds)) >= c.QuorumThreshold()
  }

  /** Before it fires the counter lists one certificate of round `r` per author used. */
  ghost predicate CertsCounted(c: Committee, a: CertCount, r: nat, fired: set<Key>) {
    && Tally(c, a.weight, a.used, fired)
    && NoDup(OriginsOf(a.certificates))
    && (forall d :: d in a.certificates ==> d.CertHash? && d.round == r)
    && Origins(a.certificates) == a.used - fired
  }

  lemma OriginsMatch(ds: seq<Digest>)
    requires forall d :: d in ds ==> d.CertHash?
    ensures Members(OriginsOf(ds)) == Origins(ds)
  {
    forall k ensures k in OriginsOf(ds) <==> k in Origins(ds) {
      if k in OriginsOf(ds) {
        var i :| 0 <= i < |ds| && OriginsOf(ds)[i] == k;
        assert ds[i] in ds;
      }
      if k in Origins(ds) {
        var d :| d in ds && d.CertHash? && d.origin == k;
        var i :| 0 <= i < |ds| && ds[i] == d;
        assert OriginsOf(ds)[i] == k;
      }
    }
  }

  lemma AppendCertKeeps(c: Committee, a: CertCount, r: nat, fired: set<Key>, cert: Certificate)
      returns (fired': set<Key>)
    requires c.Valid() && CertsCounted(c, a, r, fired) && cert.header.round == r
    ensures var (a', o) := AppendCert(c, a, cert);
            && CertsCounted(c, a', r, fired')
            && a'.used == a.used + {cert.header.author}
            && (o.Some? ==> fired == {} && ParentList(c, o.value, r) && o.value == a.certificates + [cert.Hash()])
            && (fired' != {} <==> fired != {} || o.Some?)
            && (fired' != {} <==> c.Weight(a'.used) >= c.QuorumThreshold())
            && (forall d :: d in a'.certificates ==> d in a.certificates || d == cert.Hash())
  {
    var (a', o) := AppendCert(c, a, cert);
    var k, ds := cert.header.author, a.certificates + [cert.Hash()];
    if k in a.used {
      fired' := fired;
    } else {
      TallyStep(c, a.weight, a.used, fired, k);
      fired' := if o.Some? then a'.used else fired;
      assert OriginsOf(ds) == OriginsOf(a.certificates) + [k];
      OriginsMatch(a.certificates);
      assert forall d :: d in ds <==> d in a.certificates || d == cert.Hash();
      assert Origins(ds) == Origins(a.certificates) + {k};
      assert a'.used - fired' == if o.Some? then {} else (a.used - fired) + {k};
      assert a.used - {} == a.used;
    }
    assert a'.used - {} == a'.used;
    if fired' != {} {
      c.WeightMonotone(fired', a'.used);
    }
  }

  function AppendCerts(c: Committee, certs: seq<Certificate>): (CertCount, seq<seq<Digest>>) {
    if certs == [] then (NO_CERTIFICATES, [])
    else
      var (a, out) := AppendCerts(c, certs[..|certs| - 1]);
      var (a', o) := AppendCert(c, a, certs[|certs| - 1]);
      (a', if o.Some? then out + [o.value] else out)
  }

  function CertAuthors(certs: seq<Certificate>): set<Key> {
    set i | 0 <= i < |certs| :: certs[i].header.author
  }

  lemma AuthorsSnoc(certs: seq<Certificate>)
    requires certs != []
    ensures CertAuthors(certs) == CertAuthors(certs[..|certs| - 1]) + {certs[|certs| - 1].header.author}
  {
    var low := certs[..|certs| - 1];
    forall k | k in CertAuthors(certs) ensures k in CertAuthors(low) + {certs[|certs| - 1].header.author} {
      var i :| 0 <= i < |certs| && certs[i].header.author == k;
      assert i < |low| ==> low[i] == certs[i];
    }
    forall k | k in CertAuthors(low) ensures k in CertAuthors(certs) {
      var i :| 0 <= i < |low| && low[i].header.author == k;
      assert certs[i] == low[i];
    }
  }

  /** Over any run of certificates of one round, exactly one parent list is emitted if their
      authors hold a quorum and none otherwise, and the list passes the next round's check. */
  lemma {:induction false} CertsFireOnce(c: Committee, certs: seq<Certificate>, r: nat) returns (fired: set<Key>)
    requires c.Valid() && forall x :: x in certs ==> x.header.round == r
    ensures var (a, out) := AppendCerts(c, certs);
            && CertsCounted(c, a, r, fired) && (fired != {} <==> out != [])
            && a.used == CertAuthors(certs)
            && |out| == (if c.Weight(a.used) >= c.QuorumThreshold() then 1 else 0)
            && (forall ds :: ds in out ==> ParentList(c, ds, r))
    decreases |certs|
  {
    if certs == [] {
      TallyStarts(c);
      c.WeightEmptyIn(c.names);
      fired := {};
      assert Origins([]) == {};
    } else {
      var n := |certs| - 1;
      assert forall x :: x in certs[..n] ==> x in certs;
      var before := CertsFireOnce(c, certs[..n], r);
      var (a, out) := AppendCerts(c, certs[..n]);
      fired := AppendCertKeeps(c, a, r, before, certs[n]);
      AuthorsSnoc(certs);
      hide AppendCert, Tally, CertsCounted, ParentList;
      assert AppendCerts(c, certs).0 == AppendCert(c, a, certs[n]).0;
      assert before == {} ==> out == [];
    }
  }
}
