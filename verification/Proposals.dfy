/** When the proposer makes a header, which one, and which rounds get one. */
module Proposals {
  import opened Types
  import opened Proposer
  import Messages

  /** Parents are at hand and either the timer is up or the pending digests, 32 bytes each, fill a
      header. */
  ghost predicate Due(p: Setup, s: State, expired: bool) {
    s.lastParents != [] && (expired || 32 * |s.digests| >= p.headerSize)
  }

  ghost predicate Ready(p: Setup, s: State, expired: bool) {
    Due(p, s, expired) && !Silent(p, s.round)
  }

  /** The header has the current round, the parents at hand and all pending digests. */
  ghost predicate Proposal(p: Setup, s: State, h: Header) {
    && h.author == p.name && h.round == s.round && h.WellId()
    && Members(h.parents) == Members(s.lastParents) && NoDup(h.parents)
    && (forall d :: d in h.payload <==> exists b :: b in s.digests && b.0 == d)
    && (forall d :: d in h.payload ==> (d, h.payload[d]) in s.digests)
  }

  lemma NewHeaderProposes(p: Setup, s: State)
    ensures Proposal(p, s, NewHeader(p.name, s.round, s.digests, s.lastParents))
  {
    AsMapExactly(s.digests);
    DistinctExactly(s.lastParents);
    hide AsMap, Distinct;
  }

  /** The top of the loop makes a header if and only if one is ready; parents are spent as soon as one
      is due, in silent rounds too. */
  lemma ProposeExactly(p: Setup, s: State, expired: bool)
    requires RoundsInv(p, s) && Conserved(s)
    ensures var t := Propose(p, s, expired);
            && (t.headers != s.headers <==> Ready(p, s, expired))
            && (Ready(p, s, expired) ==>
                  && |t.headers| == |s.headers| + 1 && s.headers <= t.headers
                  && Proposal(p, s, t.headers[|s.headers|])
                  && t.taken == s.taken + [s.digests] && t.digests == [])
            && (!Ready(p, s, expired) ==> t.digests == s.digests && t.taken == s.taken)
            && t.lastParents == (if Due(p, s, expired) then [] else s.lastParents)
            && t.round == s.round && t.offers == s.offers && t.received == s.received && t.toWorkers == s.toWorkers
  {
    NewHeaderProposes(p, s);
    hide Silent, NewHeader, Proposal, Concat, AsMap;
  }

  /** Parents for a round not yet left start the next one; later digests queue up. */
  lemma ReceiveExactly(p: Setup, s: State, m: Message)
    ensures var t := Receive(p, s, m);
            var enters := m.Parents? && m.round >= s.round;
            && t.round == (if enters then m.round + 1 else s.round)
            && t.lastParents == (if enters then m.parents else s.lastParents)
            && t.digests == (if m.Digested? then s.digests + [m.batch] else s.digests)
            && t.toWorkers == (if enters && p.faults > 0 then
                                 s.toWorkers + [(m.round + 1, Silent(p, m.round + 1) && p.pause)] else s.toWorkers)
            && t.headers == s.headers && t.taken == s.taken
  {
    hide Silent;
  }

  /** A turn makes a header exactly when parents are at hand, the round is not silent, and the timer is
      up or the pending digests fill a header; and that header takes them all. */
  lemma StepProposesExactly(p: Setup, s: State, t: Turn)
    requires RoundsInv(p, s) && Conserved(s)
    ensures var u := Step(p, s, t);
            && (u.headers != s.headers <==> Ready(p, s, t.expired))
            && (Ready(p, s, t.expired) ==>
                  && |u.headers| == |s.headers| + 1 && s.headers <= u.headers
                  && Proposal(p, s, u.headers[|s.headers|])
                  && u.digests == (if t.m.Digested? then [t.m.batch] else []))
  {
    hide Ready, Propose, Receive, Proposal, RoundsInv, Conserved;
    ProposeExactly(p, s, t.expired);
    ReceiveExactly(p, Propose(p, s, t.expired), t.m);
  }

  // ----- Runs

  /** The proposer starts in round 1, on all genesis certificates. */
  lemma StartsExactly(p: Setup)
    ensures var s := Start(p);
            && s.round == 1 && s.digests == [] && s.headers == []
            && (s.silent <==> Silent(p, 1))
            && (forall d :: d in s.lastParents <==> Messages.IsGenesisRef(p.c, d))
            && s.toWorkers == (if p.faults > 0 then [(1, s.silent && p.pause)] else [])
  {
    Messages.GenesisParentsAre(p.c);
    hide Silent;
  }

  ghost predicate ReadyAt(p: Setup, ts: seq<Turn>, i: int, round: nat)
    requires 0 <= i < |ts|
  {
    Ready(p, Run(p, ts[..i]), ts[i].expired) && Run(p, ts[..i]).round == round
  }

  ghost predicate Proposed(s: State, round: nat) {
    exists h :: h in s.headers && h.round == round
  }

  /** The round is the one after the highest parents received. */
  ghost predicate RoundIsHighest(s: State) {
    && (forall o :: o in s.offers ==> o.1 < s.round)
    && (s.round == 1 || exists o :: o in s.offers && o.1 + 1 == s.round)
  }

  lemma StepRoundIsHighest(p: Setup, s: State, t: Turn)
    requires RoundIsHighest(s) && s.round >= 1
    ensures RoundIsHighest(Step(p, s, t))
  {
    hide Silent, NewHeader;
    var u := Step(p, s, t);
    if t.m.Parents? {
      var o := (t.m.parents, t.m.round);
      assert u.offers == s.offers + [o];
      assert forall x :: x in u.offers <==> x in s.offers || x == o;
    }
  }

  lemma {:induction false} RunRoundExactly(p: Setup, ts: seq<Turn>)
    ensures RoundIsHighest(Run(p, ts))
    decreases |ts|
  {
    if ts != [] {
      var s := Run(p, ts[..|ts| - 1]);
      RunRoundExactly(p, ts[..|ts| - 1]);
      RunSafe(p, ts[..|ts| - 1]);
      hide RoundIsHighest, Step;
      StepRoundIsHighest(p, s, ts[|ts| - 1]);
    }
  }

  lemma ProposedSnoc(p: Setup, s: State, t: Turn, round: nat)
    requires RoundsInv(p, s) && Conserved(s)
    ensures Proposed(Step(p, s, t), round) <==> Proposed(s, round) || (Ready(p, s, t.expired) && s.round == round)
  {
    StepProposesExactly(p, s, t);
    var u := Step(p, s, t);
    hide Ready, Step, RoundsInv, Conserved;
    if Ready(p, s, t.expired) {
      assert u.headers == s.headers + [u.headers[|s.headers|]];
      assert u.headers[|s.headers|] in u.headers;
      assert forall h :: h in s.headers ==> h in u.headers;
    }
  }

  ghost predicate EverReady(p: Setup, ts: seq<Turn>, round: nat) {
    exists i :: 0 <= i < |ts| && ReadyAt(p, ts, i, round)
  }

  lemma EverReadySnoc(p: Setup, ts: seq<Turn>, round: nat)
    requires ts != []
    ensures var n := |ts| - 1;
            EverReady(p, ts, round) <==> EverReady(p, ts[..n], round) || ReadyAt(p, ts, n, round)
  {
    hide Run, Ready;
    var n := |ts| - 1;
    var low := ts[..n];
    forall i | 0 <= i < n ensures ReadyAt(p, low, i, round) <==> ReadyAt(p, ts, i, round) {
      assert low[..i] == ts[..i];
    }
    hide ReadyAt;
  }

  /** Over every run: a round gets a header if and only if some turn found it ready. */
  lemma {:induction false} ProposedExactly(p: Setup, ts: seq<Turn>, round: nat)
    ensures Proposed(Run(p, ts), round) <==> EverReady(p, ts, round)
    decreases |ts|
  {
    if ts != [] {
      var n := |ts| - 1;
      ProposedExactly(p, ts[..n], round);
      RunSafe(p, ts[..n]);
      EverReadySnoc(p, ts, round);
      hide EverReady, Proposed, Step, Ready, RoundsInv, ParentsInv, Conserved;
      ProposedSnoc(p, Run(p, ts[..n]), ts[n], round);
    }
  }
}
