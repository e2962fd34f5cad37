/** The proposer and the core of one primary, wired together: the core takes the proposer's
    headers in order, the proposer gets the parent lists that the core sent. Whatever the
    interleaving, the core sees a legal run. */
module Wiring {
  import opened Types
  import opened Aggregators
  import opened Primary
  import opened Certification
  import opened OwnHeaders
  import Proposer
  import VoteOnce

  /** A message from elsewhere for the core, the next header for the core, or a turn of the
      proposer. */
  datatype Move =
    | Outside(e: Event)
    | Take(payload: set<Header>, consensusRound: nat)
    | Turns(t: Proposer.Turn)

  datatype Both = Both(q: Proposer.State, s: Core)

  /** The core only takes headers that were made; parents come from the core and digests from
      the primary's own workers. */
  ghost predicate Possible(x: Ctx, b: Both, mv: Move) {
    match mv
    case Outside(e) => !e.m.OwnHeader? && Legal(x, b.s, e)
    case Take(payload, round) => |b.s.own| < |b.q.headers| && round >= b.s.consensusRound
    case Turns(t) =>
      match t.m
      case Parents(ps, r) => (ps, r) in b.s.toProposer
      case Digested(batch) => x.me in x.c.workers && batch.1 in x.c.workers[x.me]
      case Timer => true
  }

  /** The events that a move has the core handle. */
  ghost function Handed(b: Both, mv: Move): seq<Event> {
    match mv
    case Outside(e) => [e]
    case Take(payload, round) =>
      if |b.s.own| < |b.q.headers| then [Event(OwnHeader(b.q.headers[|b.s.own|]), payload, round)] else []
    case Turns(t) => []
  }

  ghost function After(x: Ctx, p: Proposer.Setup, gcDepth: nat, b: Both, mv: Move): Both {
    var es := Handed(b, mv);
    Both(
      if mv.Turns? then Proposer.Step(p, b.q, mv.t) else b.q,
      if es == [] then b.s else Turn(x.c, x.me, gcDepth, x.genuine, b.s, es[0]).0)
  }

  ghost function Run(x: Ctx, p: Proposer.Setup, gcDepth: nat, ms: seq<Move>): Both {
    if ms == [] then Both(Proposer.Start(p), START)
    else After(x, p, gcDepth, Run(x, p, gcDepth, ms[..|ms| - 1]), ms[|ms| - 1])
  }

  /** The events that the core handles over the run, and the turns of the proposer. */
  ghost function Events(x: Ctx, p: Proposer.Setup, gcDepth: nat, ms: seq<Move>): seq<Event> {
    if ms == [] then []
    else
      var low := ms[..|ms| - 1];
      Events(x, p, gcDepth, low) + Handed(Run(x, p, gcDepth, low), ms[|ms| - 1])
  }

  function ProposerTurns(ms: seq<Move>): seq<Proposer.Turn> {
    if ms == [] then []
    else ProposerTurns(ms[..|ms| - 1]) + if ms[|ms| - 1].Turns? then [ms[|ms| - 1].t] else []
  }

  ghost predicate PossibleAt(x: Ctx, p: Proposer.Setup, gcDepth: nat, ms: seq<Move>, i: int)
    requires 0 <= i < |ms|
  {
    Possible(x, Run(x, p, gcDepth, ms[..i]), ms[i])
  }

  ghost predicate PossibleRun(x: Ctx, p: Proposer.Setup, gcDepth: nat, ms: seq<Move>) {
    forall i {:trigger PossibleAt(x, p, gcDepth, ms, i)} :: 0 <= i < |ms| ==> PossibleAt(x, p, gcDepth, ms, i)
  }

  /** What ties the two together. */
  ghost predicate Wired(x: Ctx, p: Proposer.Setup, b: Both) {
    && Proposer.RoundsInv(p, b.q) && Proposer.ParentsInv(p, b.q) && Proposer.Conserved(b.q)
    && b.s.own <= b.q.headers
    && (forall o :: o in b.q.offers ==> o in b.s.toProposer)
    && (forall d :: d in b.q.received ==> x.me in x.c.workers && d.1 in x.c.workers[x.me])
  }

  // ----- Moves of the core

  lemma HandleAdds(x: Ctx, s: Core, e: Event)
    ensures var t := Handle(x.c, x.me, x.genuine, s, e).0;
            && s.toProposer <= t.toProposer
            && t.own == if e.m.OwnHeader? then s.own + [e.m.h] else s.own
  {
    hide ProcessHeader, ProcessVote, ProcessCertificate;
    match e.m
    case NetHeader(h) => VoteOnce.HeaderAdds(x.c, x.me, e.payload, s, h);
    case NetVote(v) => VoteOnce.VoteAdds(x.c, x.me, e.payload, s, v);
    case NetCertificate(cert) => VoteOnce.CertificateAdds(x.c, x.me, e.payload, s, cert);
    case LoopHeader(h) => VoteOnce.HeaderAdds(x.c, x.me, e.payload, s, h);
    case LoopCertificate(cert) => VoteOnce.CertificateAdds(x.c, x.me, e.payload, s, cert);
    case OwnHeader(h) => VoteOnce.HeaderAdds(x.c, x.me, e.payload,
      s.(current := h, votes := NO_VOTES, own := s.own + [h]), h);
  }

  lemma TurnAdds(x: Ctx, gcDepth: nat, s: Core, e: Event)
    ensures var t := Turn(x.c, x.me, gcDepth, x.genuine, s, e).0;
            && s.toProposer <= t.toProposer
            && t.own == if e.m.OwnHeader? then s.own + [e.m.h] else s.own
  {
    HandleAdds(x, s, e);
    hide Handle, From;
  }

  lemma CoreGoesOn(x: Ctx, p: Proposer.Setup, b: Both, s: Core)
    requires Wired(x, p, b) && s.own <= b.q.headers && b.s.toProposer <= s.toProposer
    ensures Wired(x, p, b.(s := s))
  {
    hide Proposer.RoundsInv, Proposer.ParentsInv, Proposer.Conserved;
  }

  lemma HandedIsLegal(x: Ctx, p: Proposer.Setup, b: Both, mv: Move)
    requires Wired(x, p, b) && Possible(x, b, mv) && !mv.Turns?
    requires x.c == p.c && x.me == p.name && p.c.Stake(p.name) > 0
    ensures var es := Handed(b, mv);
            && es != [] && Legal(x, b.s, es[0])
            && (if es[0].m.OwnHeader? then b.s.own + [es[0].m.h] else b.s.own) <= b.q.headers
  {
    if mv.Take? {
      Proposer.NextIsLegal(p, b.q, x, b.s, mv.payload, mv.consensusRound);
    }
    hide Legal, Proposer.RoundsInv, Proposer.ParentsInv, Proposer.Conserved;
  }

  lemma CoreMoves(x: Ctx, p: Proposer.Setup, gcDepth: nat, b: Both, mv: Move)
    requires Wired(x, p, b) && Possible(x, b, mv) && !mv.Turns?
    requires x.c == p.c && x.me == p.name && p.c.Stake(p.name) > 0
    ensures Handed(b, mv) != [] && Legal(x, b.s, Handed(b, mv)[0])
    ensures Wired(x, p, After(x, p, gcDepth, b, mv))
  {
    HandedIsLegal(x, p, b, mv);
    hide Possible, Legal, Wired, Turn;
    TurnAdds(x, gcDepth, b.s, Handed(b, mv)[0]);
    CoreGoesOn(x, p, b, Turn(x.c, x.me, gcDepth, x.genuine, b.s, Handed(b, mv)[0]).0);
  }

  // ----- Turns of the proposer

  lemma StepLogs(p: Proposer.Setup, q: Proposer.State, t: Proposer.Turn)
    ensures var q1 := Proposer.Step(p, q, t);
            && q.headers <= q1.headers
            && (forall o :: o in q1.offers ==> o in q.offers || (t.m.Parents? && o == (t.m.parents, t.m.round)))
            && (forall d :: d in q1.received ==> d in q.received || (t.m.Digested? && d == t.m.batch))
  {
    hide Proposer.Silent, Proposer.NewHeader;
  }

  lemma ProposerGoesOn(x: Ctx, p: Proposer.Setup, b: Both, q: Proposer.State)
    requires Wired(x, p, b) && b.q.headers <= q.headers
    requires Proposer.RoundsInv(p, q) && Proposer.ParentsInv(p, q) && Proposer.Conserved(q)
    requires forall o :: o in q.offers ==> o in b.q.offers || o in b.s.toProposer
    requires forall d :: d in q.received ==> d in b.q.received || (x.me in x.c.workers && d.1 in x.c.workers[x.me])
    ensures Wired(x, p, b.(q := q))
  {
    hide Proposer.RoundsInv, Proposer.ParentsInv, Proposer.Conserved;
  }

  lemma ProposerMoves(x: Ctx, p: Proposer.Setup, gcDepth: nat, b: Both, mv: Move)
    requires Wired(x, p, b) && Possible(x, b, mv) && mv.Turns?
    ensures Wired(x, p, After(x, p, gcDepth, b, mv))
  {
    StepLogs(p, b.q, mv.t);
    Proposer.StepKeepsRounds(p, b.q, mv.t);
    Proposer.StepKeepsParents(p, b.q, mv.t);
    Proposer.StepConserves(p, b.q, mv.t);
    hide Legal, Wired, Turn, Proposer.Step, Proposer.RoundsInv, Proposer.ParentsInv, Proposer.Conserved;
    ProposerGoesOn(x, p, b, Proposer.Step(p, b.q, mv.t));
  }

  // ----- Runs

  lemma PossibleStep(x: Ctx, p: Proposer.Setup, gcDepth: nat, ms: seq<Move>)
    requires ms != [] && PossibleRun(x, p, gcDepth, ms)
    ensures var low := ms[..|ms| - 1];
            PossibleRun(x, p, gcDepth, low) && Possible(x, Run(x, p, gcDepth, low), ms[|ms| - 1])
  {
    hide Run, Possible;
    var low := ms[..|ms| - 1];
    assert PossibleAt(x, p, gcDepth, ms, |ms| - 1);
    forall i | 0 <= i < |low| ensures PossibleAt(x, p, gcDepth, low, i) {
      assert low[..i] == ms[..i] && PossibleAt(x, p, gcDepth, ms, i);
    }
  }

  /** The proposer has made its run, the core a legal run, and they are wired. */
  ghost predicate Splits(x: Ctx, p: Proposer.Setup, gcDepth: nat, ms: seq<Move>) {
    var b, es := Run(x, p, gcDepth, ms), Events(x, p, gcDepth, ms);
    && Wired(x, p, b) && LegalRun(x, gcDepth, es)
    && b == Both(Proposer.Run(p, ProposerTurns(ms)), RunCore(x.c, x.me, gcDepth, x.genuine, es))
  }

  lemma SplitsCore(x: Ctx, p: Proposer.Setup, gcDepth: nat, ms: seq<Move>)
    requires ms != [] && Splits(x, p, gcDepth, ms[..|ms| - 1]) && !ms[|ms| - 1].Turns?
    requires Possible(x, Run(x, p, gcDepth, ms[..|ms| - 1]), ms[|ms| - 1])
    requires x.c == p.c && x.me == p.name && p.c.Stake(p.name) > 0
    ensures Splits(x, p, gcDepth, ms)
  {
    hide Wired, Possible, LegalRun, Legal, Turn, RunCore;
    var low, mv := ms[..|ms| - 1], ms[|ms| - 1];
    var b, es := Run(x, p, gcDepth, low), Events(x, p, gcDepth, low);
    CoreMoves(x, p, gcDepth, b, mv);
    var e := Handed(b, mv)[0];
    assert Handed(b, mv) == [e];
    LegalSnoc(x, gcDepth, es, e);
    RunSnoc(x, gcDepth, es, e);
    assert ProposerTurns(low) + [] == ProposerTurns(low);
    hide Handed;
  }

  lemma SplitsProposer(x: Ctx, p: Proposer.Setup, gcDepth: nat, ms: seq<Move>)
    requires ms != [] && Splits(x, p, gcDepth, ms[..|ms| - 1]) && ms[|ms| - 1].Turns?
    requires Possible(x, Run(x, p, gcDepth, ms[..|ms| - 1]), ms[|ms| - 1])
    ensures Splits(x, p, gcDepth, ms)
  {
    hide Wired, Possible, LegalRun, RunCore, Proposer.Step;
    var low, mv := ms[..|ms| - 1], ms[|ms| - 1];
    var ts, es := ProposerTurns(low), Events(x, p, gcDepth, low);
    ProposerMoves(x, p, gcDepth, Run(x, p, gcDepth, low), mv);
    assert (ts + [mv.t])[..|ts|] == ts;
    assert es + [] == es;
  }

  lemma SplitsStart(x: Ctx, p: Proposer.Setup, gcDepth: nat)
    ensures Splits(x, p, gcDepth, [])
  {
    Proposer.RunSafe(p, []);
    hide Proposer.Silent, Proposer.RoundsInv, Proposer.ParentsInv, Proposer.Conserved;
  }

  /** The run of the two is a run of the proposer and a legal run of the core: the conditions on
      own headers, which the theorems about the core assume, are met by this proposer. */
  lemma {:induction false} PairIsLegal(x: Ctx, p: Proposer.Setup, gcDepth: nat, ms: seq<Move>)
    requires x.c == p.c && x.me == p.name && p.c.Stake(p.name) > 0 && PossibleRun(x, p, gcDepth, ms)
    ensures Splits(x, p, gcDepth, ms)
    decreases |ms|
  {
    hide RunCore, Run;
    if ms == [] {
      SplitsStart(x, p, gcDepth);
    } else {
      hide Splits, Possible;
      PossibleStep(x, p, gcDepth, ms);
      PairIsLegal(x, p, gcDepth, ms[..|ms| - 1]);
      if ms[|ms| - 1].Turns? {
        SplitsProposer(x, p, gcDepth, ms);
      } else {
        SplitsCore(x, p, gcDepth, ms);
      }
    }
  }
}
