/** The proposer: collects parents and batch digests, makes at most one header a round, and
    none in the rounds in which the adversary keeps it silent. */
module Proposer {
  import opened Types
  import Messages
  import Primary
  import Adversary
  import Certification

  type Batch = (BatchDigest, WorkerId)

  /** What one proposer is started with. Digests are 32 bytes long. */
  datatype Setup = Setup(
    c: Committee,
    name: Key,
    faults: nat,
    score: Adversary.Score,
    pause: bool,
    headerSize: nat)

  const DIGEST_SIZE := 32

  /** The fields of the proposer, then logs: the headers it sent, the batches each took, what
      it received from the core and the workers and what it told the workers. */
  datatype State = State(
    round: nat,
    silent: bool,
    lastParents: seq<Digest>,
    digests: seq<Batch>,
    payloadSize: nat,
    headers: seq<Header>,
    taken: seq<seq<Batch>>,
    offers: seq<(seq<Digest>, nat)>,
    received: seq<Batch>,
    toWorkers: seq<(nat, bool)>)

  /** A list of pairs collected into a map: the last worker named for a digest stays. */
  function AsMap(bs: seq<Batch>): map<BatchDigest, WorkerId> {
    if bs == [] then map[] else AsMap(bs[..|bs| - 1])[bs[|bs| - 1].0 := bs[|bs| - 1].1]
  }

  /** A list collected into a set, as the list of its members. */
  function Distinct(ds: seq<Digest>): seq<Digest> {
    if ds == [] then []
    else
      var low := Distinct(ds[..|ds| - 1]);
      if ds[|ds| - 1] in low then low else low + [ds[|ds| - 1]]
  }

  function NewHeader(author: Key, round: nat, bs: seq<Batch>, ps: seq<Digest>): Header {
    var payload, parents := AsMap(bs), Distinct(ps);
    Header(author, round, payload, parents, HeaderHash(author, round, payload, parents))
  }

  // ----- Steps

  function Silent(p: Setup, round: nat): bool {
    Adversary.Selected(p.score, p.name, p.c.names, round, p.faults)
  }

  function EnterRound(p: Setup, s: State, round: nat): State {
    var silent := Silent(p, round);
    s.(round := round, silent := silent,
       toWorkers := if p.faults == 0 then s.toWorkers else s.toWorkers + [(round, silent && p.pause)])
  }

  function Start(p: Setup): State {
    EnterRound(p, State(1, false, Messages.GenesisParents(p.c), [], 0, [], [], [], [], []), 1)
  }

  function MakeHeader(p: Setup, s: State): State {
    s.(headers := s.headers + [NewHeader(p.name, s.round, s.digests, s.lastParents)],
       taken := s.taken + [s.digests], digests := [], lastParents := [])
  }

  /** The top of the loop: propose if there are parents and enough digests or time is up. */
  function Propose(p: Setup, s: State, expired: bool): State {
    if (expired || s.payloadSize >= p.headerSize) && s.lastParents != [] then
      if s.silent then s.(lastParents := []) else MakeHeader(p, s).(payloadSize := 0)
    else s
  }

  datatype Message =
    | Parents(parents: seq<Digest>, round: nat)
    | Digested(batch: Batch)
    | Timer

  function Receive(p: Setup, s: State, m: Message): State {
    match m
    case Parents(ps, r) =>
      var s1 := s.(offers := s.offers + [(ps, r)]);
      if r < s.round then s1 else EnterRound(p, s1, r + 1).(lastParents := ps)
    case Digested(b) =>
      s.(payloadSize := s.payloadSize + DIGEST_SIZE, digests := s.digests + [b], received := s.received + [b])
    case Timer => s
  }

  /** One turn: whether the timer is up at the top, and the message that arrives. */
  datatype Turn = Turn(expired: bool, m: Message)

  function Step(p: Setup, s: State, t: Turn): State {
    Receive(p, Propose(p, s, t.expired), t.m)
  }

  function Run(p: Setup, ts: seq<Turn>): State {
    if ts == [] then Start(p) else Step(p, Run(p, ts[..|ts| - 1]), ts[|ts| - 1])
  }

  // ----- The proposer itself

  class Proposer {
    const p: Setup
    var round: nat
    var silent: bool
    var lastParents: seq<Digest>
    var digests: seq<Batch>
    var payloadSize: nat
    var headers: seq<Header>
    var toWorkers: seq<(nat, bool)>
    ghost var taken: seq<seq<Batch>>
    ghost var offers: seq<(seq<Digest>, nat)>
    ghost var received: seq<Batch>

    ghost function Value(): State
      reads this
    {
      State(round, silent, lastParents, digests, payloadSize, headers, taken, offers, received, toWorkers)
    }

    constructor (setup: Setup)
      ensures p == setup
      ensures Value() == State(1, false, Messages.GenesisParents(setup.c), [], 0, [], [], [], [], [])
    {
      p := setup;
      round, silent, lastParents := 1, false, Messages.GenesisParents(setup.c);
      digests, payloadSize, headers, toWorkers := [], 0, [], [];
      taken, offers, received := [], [], [];
    }

    method Enter(r: nat)
      modifies this
      ensures Value() == EnterRound(p, old(Value()), r)
    {
      round := r;
      silent := Adversary.Selected(p.score, p.name, p.c.names, r, p.faults);
      if p.faults == 0 {
        return;
      }
      var pauseBatches := silent && p.pause;
      toWorkers := toWorkers + [(r, pauseBatches)];
    }

    method Make()
      modifies this
      ensures Value() == MakeHeader(p, old(Value()))
    {
      var header := NewHeader(p.name, round, digests, lastParents);
      taken := taken + [digests];
      digests, lastParents := [], [];
      headers := headers + [header];
    }

    /** The top of the loop. */
    method ProposeIfReady(expired: bool)
      modifies this
      ensures Value() == Propose(p, old(Value()), expired)
    {
      hide NewHeader;
      var enoughParents := lastParents != [];
      var enoughDigests := payloadSize >= p.headerSize;
      if (expired || enoughDigests) && enoughParents {
        if silent {
          lastParents := [];
        } else {
          Make();
          payloadSize := 0;
        }
      }
    }

    /** The message that arrives. */
    method Accept(m: Message)
      modifies this
      ensures Value() == Receive(p, old(Value()), m)
    {
      hide EnterRound;
      match m
      case Parents(ps, r) =>
        offers := offers + [(ps, r)];
        if r < round {
          return;
        }
        Enter(r + 1);
        lastParents := ps;
      case Digested(b) =>
        payloadSize := payloadSize + DIGEST_SIZE;
        digests := digests + [b];
        received := received + [b];
      case Timer =>
    }

    method Loop(ts: seq<Turn>)
      requires Value() == State(1, false, Messages.GenesisParents(p.c), [], 0, [], [], [], [], [])
      modifies this
      ensures Value() == Run(p, ts)
    {
      hide Propose, Receive;
      Enter(round);
      for i := 0 to |ts|
        invariant Value() == Run(p, ts[..i])
      {
        assert ts[..i + 1][..i] == ts[..i];
        ProposeIfReady(ts[i].expired);
        Accept(ts[i].m);
      }
      assert ts[..|ts|] == ts;
    }
  }

  // ----- What every run keeps

  function Concat(bss: seq<seq<Batch>>): seq<Batch> {
    if bss == [] then [] else Concat(bss[..|bss| - 1]) + bss[|bss| - 1]
  }

  /** Parents for round `round`: the genesis certificates, or a list received from the core. */
  ghost predicate Given(p: Setup, s: State, ps: seq<Digest>, round: nat) {
    || (round == 1 && ps == Messages.GenesisParents(p.c))
    || (round >= 1 && (ps, round - 1) in s.offers)
  }

  ghost predicate HeaderGiven(p: Setup, s: State, h: Header) {
    && h.author == p.name && h.WellId() && NoDup(h.parents)
    && exists ps :: Given(p, s, ps, h.round) && Members(h.parents) == Members(ps)
  }

  /** Rounds only grow, and no header is made in a silent round. */
  ghost predicate RoundsInv(p: Setup, s: State) {
    && s.round >= 1
    && s.silent == Silent(p, s.round)
    && (forall i, j :: 0 <= i < j < |s.headers| ==> s.headers[i].round < s.headers[j].round)
    && (forall h :: h in s.headers ==> !Silent(p, h.round) && h.round <= s.round)
    && (forall h :: h in s.headers && s.lastParents != [] ==> h.round < s.round)
    && (p.faults > 0 ==> s.toWorkers != [] && s.toWorkers[|s.toWorkers| - 1] == (s.round, s.silent && p.pause))
  }

  ghost predicate ParentsInv(p: Setup, s: State) {
    && (s.lastParents != [] ==> Given(p, s, s.lastParents, s.round))
    && (forall h :: h in s.headers ==> HeaderGiven(p, s, h))
  }

  /** The digests received are those of the headers, in order, followed by the pending ones. */
  ghost predicate Conserved(s: State) {
    && |s.taken| == |s.headers|
    && (forall i :: 0 <= i < |s.headers| ==> s.headers[i].payload == AsMap(s.taken[i]))
    && s.received == Concat(s.taken) + s.digests
    && s.payloadSize == DIGEST_SIZE * |s.digests|
  }

  lemma {:induction false} DistinctExactly(ds: seq<Digest>)
    ensures NoDup(Distinct(ds)) && Members(Distinct(ds)) == Members(ds)
  {
    if ds != [] {
      var low, last := ds[..|ds| - 1], ds[|ds| - 1];
      DistinctExactly(low);
      assert ds == low + [last];
      forall d ensures d in Distinct(ds) <==> d in ds {
        assert d in Distinct(low) <==> d in Members(Distinct(low));
        assert d in low <==> d in Members(low);
      }
    }
  }

  lemma ProposeConserves(p: Setup, s: State, expired: bool)
    requires Conserved(s)
    ensures Conserved(Propose(p, s, expired))
  {
    var t := Propose(p, s, expired);
    if t.headers != s.headers {
      assert t.taken[..|s.taken|] == s.taken;
      assert Concat(t.taken) == Concat(s.taken) + s.digests;
    }
    hide Concat, AsMap, Distinct;
  }

  lemma ReceiveConserves(p: Setup, s: State, m: Message)
    requires Conserved(s)
    ensures Conserved(Receive(p, s, m))
  {
    hide Concat, AsMap, Silent;
    if m.Digested? {
      assert s.received + [m.batch] == Concat(s.taken) + (s.digests + [m.batch]);
    }
  }

  lemma StepConserves(p: Setup, s: State, t: Turn)
    requires Conserved(s)
    ensures Conserved(Step(p, s, t))
  {
    ProposeConserves(p, s, t.expired);
    ReceiveConserves(p, Propose(p, s, t.expired), t.m);
    hide Conserved, Propose, Receive;
  }

  lemma HeaderRound(author: Key, round: nat, bs: seq<Batch>, ps: seq<Digest>)
    ensures NewHeader(author, round, bs, ps).round == round
  {}

  lemma ProposeKeepsRounds(p: Setup, s: State, expired: bool)
    requires RoundsInv(p, s)
    ensures RoundsInv(p, Propose(p, s, expired))
  {
    HeaderRound(p.name, s.round, s.digests, s.lastParents);
    hide Silent, NewHeader;
  }

  lemma ReceiveKeepsRounds(p: Setup, s: State, m: Message)
    requires RoundsInv(p, s)
    ensures RoundsInv(p, Receive(p, s, m))
  {
    hide Silent;
  }

  lemma StepKeepsRounds(p: Setup, s: State, t: Turn)
    requires RoundsInv(p, s)
    ensures RoundsInv(p, Step(p, s, t))
  {
    ProposeKeepsRounds(p, s, t.expired);
    ReceiveKeepsRounds(p, Propose(p, s, t.expired), t.m);
    hide RoundsInv, Propose, Receive;
  }

  lemma GivenGrows(p: Setup, s: State, t: State, h: Header)
    requires HeaderGiven(p, s, h) && s.offers <= t.offers
    ensures HeaderGiven(p, t, h)
  {
    var ps :| Given(p, s, ps, h.round) && Members(h.parents) == Members(ps);
    assert Given(p, t, ps, h.round);
  }

  lemma ProposeKeepsParents(p: Setup, s: State, expired: bool)
    requires RoundsInv(p, s) && ParentsInv(p, s)
    ensures ParentsInv(p, Propose(p, s, expired))
  {
    var t := Propose(p, s, expired);
    DistinctExactly(s.lastParents);
    hide Silent, Distinct, AsMap, Members, NoDup, RoundsInv;
    forall h | h in t.headers ensures HeaderGiven(p, t, h) {
      if h in s.headers {
        GivenGrows(p, s, t, h);
      } else {
        assert Given(p, t, s.lastParents, h.round);
      }
    }
  }

  lemma StepKeepsParents(p: Setup, s: State, t: Turn)
    requires RoundsInv(p, s) && ParentsInv(p, s)
    ensures ParentsInv(p, Step(p, s, t))
  {
    var s1, s2 := Propose(p, s, t.expired), Step(p, s, t);
    ProposeKeepsParents(p, s, t.expired);
    hide Propose, Silent, HeaderGiven, RoundsInv;
    assert s1.offers <= s2.offers && s2.headers == s1.headers;
    forall h | h in s2.headers ensures HeaderGiven(p, s2, h) {
      GivenGrows(p, s1, s2, h);
    }
  }

  /** Over every run: rounds strictly increase, silent rounds have no header, parents come from
      genesis or the core for exactly that round, and no digest is lost or repeated, in silent
      rounds too. */
  lemma {:induction false} RunSafe(p: Setup, ts: seq<Turn>)
    ensures RoundsInv(p, Run(p, ts)) && ParentsInv(p, Run(p, ts)) && Conserved(Run(p, ts))
    decreases |ts|
  {
    if ts != [] {
      var s := Run(p, ts[..|ts| - 1]);
      RunSafe(p, ts[..|ts| - 1]);
      StepKeepsRounds(p, s, ts[|ts| - 1]);
      StepKeepsParents(p, s, ts[|ts| - 1]);
      StepConserves(p, s, ts[|ts| - 1]);
    }
  }

  // ----- Consequences

  lemma {:induction false} AsMapExactly(bs: seq<Batch>)
    ensures forall d :: d in AsMap(bs) <==> exists b :: b in bs && b.0 == d
    ensures forall d :: d in AsMap(bs) ==> (d, AsMap(bs)[d]) in bs
  {
    if bs != [] {
      var low, last := bs[..|bs| - 1], bs[|bs| - 1];
      AsMapExactly(low);
      assert bs == low + [last];
      assert last in bs;
    }
  }

  lemma {:induction false} InConcat(bss: seq<seq<Batch>>, b: Batch)
    ensures b in Concat(bss) <==> exists i :: 0 <= i < |bss| && b in bss[i]
  {
    if bss != [] {
      var low := bss[..|bss| - 1];
      InConcat(low, b);
      if i :| 0 <= i < |bss| && b in bss[i] {
        assert i < |low| ==> b in low[i];
      }
      if i :| 0 <= i < |low| && b in low[i] {
        assert b in bss[i];
      }
    }
  }

  ghost predicate Carried(s: State, d: BatchDigest) {
    || (exists i :: 0 <= i < |s.headers| && d in s.headers[i].payload)
    || (exists b :: b in s.digests && b.0 == d)
  }

  ghost predicate Arrived(s: State, d: BatchDigest) {
    exists b :: b in s.received && b.0 == d
  }

  /** A digest is in a header or pending if and only if a worker reported it. */
  lemma NothingLost(p: Setup, ts: seq<Turn>, d: BatchDigest)
    ensures Carried(Run(p, ts), d) <==> Arrived(Run(p, ts), d)
  {
    var s := Run(p, ts);
    RunSafe(p, ts);
    forall i | 0 <= i < |s.headers|
      ensures d in s.headers[i].payload <==> exists b :: b in s.taken[i] && b.0 == d
    {
      AsMapExactly(s.taken[i]);
    }
    forall b ensures b in Concat(s.taken) <==> exists i :: 0 <= i < |s.taken| && b in s.taken[i] {
      InConcat(s.taken, b);
    }
    hide Run, Concat, AsMap, RoundsInv, ParentsInv;
    if b :| b in s.received && b.0 == d {
      assert b in Concat(s.taken) || b in s.digests;
    }
    if i :| 0 <= i < |s.headers| && d in s.headers[i].payload {
      var b :| b in s.taken[i] && b.0 == d;
      assert b in Concat(s.taken);
      assert b in s.received;
    }
  }

  lemma GivenIsOffered(p: Setup, q: State, s: Primary.Core, h: Header, ps: seq<Digest>)
    requires Given(p, q, ps, h.round) && Members(h.parents) == Members(ps)
    requires forall o :: o in q.offers ==> o in s.toProposer
    ensures Certification.Offered(p.c, s, h)
  {
    if !(h.round == 1 && ps == Messages.GenesisParents(p.c)) {
      var o := (ps, h.round - 1);
      assert o in s.toProposer && o.1 + 1 == h.round && Members(h.parents) == Members(o.0);
    }
  }

  lemma PayloadIsFine(p: Setup, q: State, i: nat)
    requires Conserved(q) && i < |q.headers|
    requires forall b :: b in q.received ==> p.name in p.c.workers && b.1 in p.c.workers[p.name]
    ensures forall d ::
              d in q.headers[i].payload ==> p.name in p.c.workers && q.headers[i].payload[d] in p.c.workers[p.name]
  {
    var h := q.headers[i];
    hide AsMap, Concat;
    forall d | d in h.payload ensures p.name in p.c.workers && h.payload[d] in p.c.workers[p.name] {
      AsMapExactly(q.taken[i]);
      var b := (d, h.payload[d]);
      InConcat(q.taken, b);
      assert b in q.received;
    }
  }

  /** The next header made is one that the core accepts from its proposer, given that it took the
      ones before it, that the parent lists came from it and the worker ids from the committee. */
  lemma NextIsLegal(p: Setup, q: State, x: Certification.Ctx, s: Primary.Core, payload: set<Header>, round: nat)
    requires RoundsInv(p, q) && ParentsInv(p, q) && Conserved(q)
    requires x.c == p.c && x.me == p.name && p.c.Stake(p.name) > 0 && round >= s.consensusRound
    requires |s.own| < |q.headers| && s.own == q.headers[..|s.own|]
    requires forall o :: o in q.offers ==> o in s.toProposer
    requires forall b :: b in q.received ==> p.name in p.c.workers && b.1 in p.c.workers[p.name]
    ensures Certification.Legal(x, s, Primary.Event(Primary.OwnHeader(q.headers[|s.own|]), payload, round))
  {
    var h := q.headers[|s.own|];
    assert h in q.headers;
    PayloadIsFine(p, q, |s.own|);
    var ps :| Given(p, q, ps, h.round) && Members(h.parents) == Members(ps);
    GivenIsOffered(p, q, s, h, ps);
    hide Silent, Conserved, Certification.Offered, Given, Members, NoDup;
  }

  /** Every header made, over every run, is one that such a core accepts. */
  lemma HeadersAreLegal(p: Setup, ts: seq<Turn>, i: nat, x: Certification.Ctx, s: Primary.Core, payload: set<Header>)
    requires x.c == p.c && x.me == p.name && p.c.Stake(p.name) > 0
    requires var q := Run(p, ts);
             && i < |q.headers| && s.own == q.headers[..i]
             && (forall o :: o in q.offers ==> o in s.toProposer)
             && (forall b :: b in q.received ==> p.name in p.c.workers && b.1 in p.c.workers[p.name])
    ensures Certification.Legal(x, s, Primary.Event(Primary.OwnHeader(Run(p, ts).headers[i]), payload,
        s.consensusRound))
  {
    RunSafe(p, ts);
    NextIsLegal(p, Run(p, ts), x, s, payload, s.consensusRound);
  }
}
