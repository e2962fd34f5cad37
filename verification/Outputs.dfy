/** The output of a replica: exactly when it repeats a certificate, exactly when a parent comes
    after its child, and exactly when it can disagree with the output of another replica. */
module Outputs {
  import opened Types
  import opened DagTheory
  import opened Ordering
  import opened SubDag
  import opened Views
  import opened Agreement

  // ----- What the state records of the output

  ghost predicate Past(s: State, x: Header) {
    x.author in s.lastCommitted && x.round <= s.lastCommitted[x.author]
  }

  /** Closed to every later clean flattening. */
  ghost predicate Done(gc: nat, s: State, p: Header) {
    Past(s, p) || !InWindow(gc, s.lastRound, p)
  }

  /** Everything output is past, and every parent of it is done. */
  ghost predicate Recorded(g: set<Header>, gc: nat, s: State, out: seq<Header>) {
    && (forall x :: x in out ==> Past(s, x))
    && (forall y, p {:trigger Parent(y, p)} :: y in out && p in g && Parent(y, p) ==> Done(gc, s, p))
  }

  ghost predicate ParentsBefore(out: seq<Header>) {
    forall i, j :: 0 <= i < |out| && 0 <= j < |out| && Parent(out[i], out[j]) ==> j < i
  }

  lemma NoDupAppend(a: seq<Header>, b: seq<Header>)
    requires NoDup(b)
    ensures NoDup(a + b) <==> NoDup(a) && forall x :: x in a ==> x !in b
  {
    var s := a + b;
    if NoDup(s) {
      forall i, j | 0 <= i < j < |a| ensures a[i] != a[j] {
        assert s[i] != s[j];
      }
      forall i, j | 0 <= i < |a| && 0 <= j < |b| ensures a[i] != b[j] {
        assert s[i] != s[|a| + j];
      }
    }
    if NoDup(a) && forall x :: x in a ==> x !in b {
      forall i, j | 0 <= i < j < |s| ensures s[i] != s[j] {
        if i < |a| <= j {
          assert s[i] in a && s[j] in b;
        }
      }
    }
  }

  lemma ParentsAppend(a: seq<Header>, b: seq<Header>)
    requires SortedByRound(b)
    ensures ParentsBefore(a + b) <==> ParentsBefore(a) && forall y, x :: y in a && x in b ==> !Parent(y, x)
  {
    var s := a + b;
    if ParentsBefore(s) {
      forall i, j | 0 <= i <= j < |a| ensures !Parent(a[i], a[j]) {
        assert a[i] == s[i] && a[j] == s[j];
      }
      forall i, j | 0 <= i < |a| && 0 <= j < |b| ensures !Parent(a[i], b[j]) {
        assert a[i] == s[i] && b[j] == s[|a| + j];
      }
    }
    if ParentsBefore(a) && forall y, x :: y in a && x in b ==> !Parent(y, x) {
      forall i, j | 0 <= i <= j < |s| ensures !Parent(s[i], s[j]) {
        if i < |a| <= j {
          assert s[i] in a && s[j] in b;
        } else if |a| <= i < j {
          assert b[i - |a|].round <= b[j - |a|].round;
        }
      }
    }
  }

  lemma FlattenedIs(gc: nat, s: State, l: Header)
    requires Keyed(s.dag) && InWindow(gc, s.lastRound, l)
    ensures NoDup(OrderDag(gc, s, l)) && SortedByRound(OrderDag(gc, s, l))
    ensures forall x :: x in OrderDag(gc, s, l) <==> Flattened(gc, s, l, x)
  {
    OrderDagCorrect(gc, s, l);
  }

  /** A parent in the DAG of something flattened is committed by that, or closed before. */
  lemma ParentIsDone(c: Committee, g: set<Header>, gc: nat, r: set<Header>, s: State, l: Header, y: Header, p: Header)
    requires WellFormed(c, g) && View(c, g, gc, r, s) && l in r
    requires Reaches(Live(s), l, y) && p in g && Parent(y, p)
    ensures Done(gc, s, p) || Flattened(gc, s, l, p)
  {
    ReachesDown(Live(s), l, y);
    ContentsHas(s.dag, y);
    assert GoodHeader(c, g, p);
    assert p in r;
    if !Done(gc, s, p) {
      assert Has(s.dag, p);
      ContentsHas(s.dag, p);
      ReachesThen(Live(s), l, y, p);
    }
  }

  lemma FlattenRecords(c: Committee, g: set<Header>, gc: nat, r: set<Header>, s: State, out: seq<Header>, l: Header)
    requires WellFormed(c, g) && View(c, g, gc, r, s) && l in r && l.round > s.lastRound
    requires Recorded(g, gc, s, out)
    ensures Recorded(g, gc, Updates(gc, s, OrderDag(gc, s, l)), out + OrderDag(gc, s, l))
  {
    var sub := OrderDag(gc, s, l);
    var t := Updates(gc, s, sub);
    FlattenedIs(gc, s, l);
    UpdatesRaise(gc, s, sub);
    UpdatesTop(gc, s, sub);
    RaiseAllCovers(s.lastCommitted, sub);
    hide OrderDag, Updates, RaiseAll, View, WellFormed;
    forall p | Done(gc, s, p) ensures Done(gc, t, p) {}
    forall y, p | y in out + sub && p in g && Parent(y, p) ensures Done(gc, t, p) {
      if y in sub {
        assert Flattened(gc, s, l, y);
        ParentIsDone(c, g, gc, r, s, l, y, p);
      }
    }
  }

  /** Flattening `l` reaches nothing in `out`. */
  ghost predicate NoRepeat(gc: nat, s: State, l: Header, out: seq<Header>) {
    forall x :: x in out ==> !Flattened(gc, s, l, x)
  }

  /** Flattening `l` reaches no parent of anything in `out`. */
  ghost predicate NoOrphan(gc: nat, s: State, l: Header, out: seq<Header>) {
    forall y, x :: y in out && Flattened(gc, s, l, x) ==> !Parent(y, x)
  }

  /** A clean flattening outputs nothing again and no parent of anything output. */
  lemma CleanIsNew(c: Committee, g: set<Header>, gc: nat, r: set<Header>, s: State, out: seq<Header>, l: Header)
    requires View(c, g, gc, r, s) && l in r && l.round > s.lastRound
    requires Recorded(g, gc, s, out) && Clean(gc, s, l)
    ensures NoRepeat(gc, s, l, out) && NoOrphan(gc, s, l, out)
  {
    forall x | Flattened(gc, s, l, x) ensures x in g && !Done(gc, s, x) {
      ReachesDown(Live(s), l, x);
      ContentsHas(s.dag, x);
    }
  }

  /** One leader: what its flattening adds to the output, exactly. */
  lemma FlattenExactly(c: Committee, g: set<Header>, gc: nat, r: set<Header>, s: State, out: seq<Header>, l: Header)
    requires WellFormed(c, g) && View(c, g, gc, r, s) && l in r && l.round > s.lastRound
    requires Recorded(g, gc, s, out)
    ensures var sub := OrderDag(gc, s, l);
            && Recorded(g, gc, Updates(gc, s, sub), out + sub)
            && (NoDup(out + sub) <==> NoDup(out) && NoRepeat(gc, s, l, out))
            && (ParentsBefore(out + sub) <==> ParentsBefore(out) && NoOrphan(gc, s, l, out))
  {
    var sub := OrderDag(gc, s, l);
    FlattenRecords(c, g, gc, r, s, out, l);
    hide WellFormed, Recorded, Flattened, Updates, SortedByRound, OrderDag;
    FlattenedIs(gc, s, l);
    NoDupAppend(out, sub);
    ParentsAppend(out, sub);
  }

  /** Leaders committed from a fresh state add no repetition and no parent after its child. */
  lemma {:induction false} CommitAllNew(c: Committee, g: set<Header>, gc: nat, r: set<Header>, s: State,
                                        out: seq<Header>, ls: seq<Header>)
    requires WellFormed(c, g) && View(c, g, gc, r, s) && Rising(ls, r, s.lastRound) && Recorded(g, gc, s, out)
    requires Fresh(s)
    ensures var all := out + CommitAll(gc, s, ls).1;
            && Recorded(g, gc, CommitAll(gc, s, ls).0, all)
            && (NoDup(all) <==> NoDup(out)) && (ParentsBefore(all) <==> ParentsBefore(out))
    decreases |ls|
  {
    hide WellFormed, View, Fresh, Recorded, Clean, NoRepeat, NoOrphan, OrderDag, Updates, NoDup, ParentsBefore;
    if ls == [] {
      assert out + [] == out;
    } else {
      var sub := OrderDag(gc, s, ls[0]);
      var t := Updates(gc, s, sub);
      FlattenExactly(c, g, gc, r, s, out, ls[0]);
      FreshIsClean(c, g, gc, r, s, ls[0]);
      CleanIsNew(c, g, gc, r, s, out, ls[0]);
      OrderDagCommits(c, g, gc, r, s, ls[0]);
      CommitAllNew(c, g, gc, r, t, out + sub, ls[1..]);
      assert (out + sub) + CommitAll(gc, t, ls[1..]).1 == out + (sub + CommitAll(gc, t, ls[1..]).1);
    }
  }

  /** The certificates one commit adds repeat one output before, or put a parent after its
      child, if and only if the flattening of the oldest leader does. */
  lemma CommitExactly(c: Committee, g: set<Header>, gc: nat, r: set<Header>, s: State, out: seq<Header>,
                      ls: seq<Header>)
    requires WellFormed(c, g) && View(c, g, gc, r, s) && Rising(ls, r, s.lastRound) && Recorded(g, gc, s, out)
    requires ls != []
    ensures var all := out + CommitAll(gc, s, ls).1;
            && Recorded(g, gc, CommitAll(gc, s, ls).0, all)
            && (NoDup(all) <==> NoDup(out) && NoRepeat(gc, s, ls[0], out))
            && (ParentsBefore(all) <==> ParentsBefore(out) && NoOrphan(gc, s, ls[0], out))
  {
    hide WellFormed, View, Fresh, Recorded, Clean, NoRepeat, NoOrphan, OrderDag, Updates, NoDup, ParentsBefore;
    var sub := OrderDag(gc, s, ls[0]);
    var t := Updates(gc, s, sub);
    FlattenExactly(c, g, gc, r, s, out, ls[0]);
    OrderDagCommits(c, g, gc, r, s, ls[0]);
    CommitAllNew(c, g, gc, r, t, out + sub, ls[1..]);
    assert (out + sub) + CommitAll(gc, t, ls[1..]).1 == out + (sub + CommitAll(gc, t, ls[1..]).1);
  }

  // ----- Runs that repeat nothing, runs that put parents first

  /** If the delivery commits, flattening the oldest leader reaches nothing output before. */
  ghost predicate RepeatFreeStep(c: Committee, who: Election, gc: nat, n: Node, d: Delivery) {
    var o := Step(c, who, gc, n.state, d.h, d.selected);
    o.Some? && o.value.leaders != [] ==> NoRepeat(gc, Arrived(n.state, d.h), o.value.leaders[0], n.out)
  }

  /** If the delivery commits, flattening the oldest leader reaches no parent of anything output. */
  ghost predicate OrphanFreeStep(c: Committee, who: Election, gc: nat, n: Node, d: Delivery) {
    var o := Step(c, who, gc, n.state, d.h, d.selected);
    o.Some? && o.value.leaders != [] ==> NoOrphan(gc, Arrived(n.state, d.h), o.value.leaders[0], n.out)
  }

  ghost predicate RepeatFreeAt(c: Committee, who: Election, gc: nat, ds: seq<Delivery>, i: int)
    requires 0 <= i < |ds|
  {
    var n := Run(c, who, gc, ds[..i]);
    n.Some? ==> RepeatFreeStep(c, who, gc, n.value, ds[i])
  }

  ghost predicate OrphanFreeAt(c: Committee, who: Election, gc: nat, ds: seq<Delivery>, i: int)
    requires 0 <= i < |ds|
  {
    var n := Run(c, who, gc, ds[..i]);
    n.Some? ==> OrphanFreeStep(c, who, gc, n.value, ds[i])
  }

  ghost predicate RepeatFree(c: Committee, who: Election, gc: nat, ds: seq<Delivery>) {
    forall i {:trigger RepeatFreeAt(c, who, gc, ds, i)} :: 0 <= i < |ds| ==> RepeatFreeAt(c, who, gc, ds, i)
  }

  ghost predicate OrphanFree(c: Committee, who: Election, gc: nat, ds: seq<Delivery>) {
    forall i {:trigger OrphanFreeAt(c, who, gc, ds, i)} :: 0 <= i < |ds| ==> OrphanFreeAt(c, who, gc, ds, i)
  }

  /** What the output of one more delivery is, exactly. */
  ghost predicate OutputStep(c: Committee, who: Election, gc: nat, n: Node, d: Delivery, m: Node) {
    && (NoDup(m.out) <==> NoDup(n.out) && RepeatFreeStep(c, who, gc, n, d))
    && (ParentsBefore(m.out) <==> ParentsBefore(n.out) && OrphanFreeStep(c, who, gc, n, d))
    && (CleanStep(c, who, gc, n, d) ==> RepeatFreeStep(c, who, gc, n, d) && OrphanFreeStep(c, who, gc, n, d))
  }

  lemma StepExactly(c: Committee, who: Election, g: set<Header>, gc: nat, r: set<Header>, n: Node, d: Delivery)
    requires WellFormed(c, g) && NodeInv(c, who, g, gc, r, n) && Admissible(c, g, r, d.h)
    requires Recorded(g, gc, n.state, n.out)
    ensures Next(c, who, gc, n, d).Some?
    ensures Recorded(g, gc, Next(c, who, gc, n, d).value.state, Next(c, who, gc, n, d).value.out)
    ensures OutputStep(c, who, gc, n, d, Next(c, who, gc, n, d).value)
  {
    hide WellFormed, NodeInv, View, NoRepeat, NoOrphan, Clean, CommitAll, NoDup, ParentsBefore, Step, Led;
    StepKeeps(c, who, g, gc, r, n, d);
    var e := Step(c, who, gc, n.state, d.h, d.selected).value;
    var s, r1 := Arrived(n.state, d.h), With(r, d.h);
    assert Recorded(g, gc, s, n.out);
    if e.leaders == [] {
      assert n.out + [] == n.out;
    } else {
      CommitExactly(c, g, gc, r1, s, n.out, e.leaders);
      if Clean(gc, s, e.leaders[0]) {
        CleanIsNew(c, g, gc, r1, s, n.out, e.leaders[0]);
      }
    }
  }

  /** The output of a run so far, exactly. */
  ghost predicate OutputRun(c: Committee, who: Election, g: set<Header>, gc: nat, ds: seq<Delivery>, n: Node) {
    && Recorded(g, gc, n.state, n.out)
    && (NoDup(n.out) <==> RepeatFree(c, who, gc, ds))
    && (ParentsBefore(n.out) <==> OrphanFree(c, who, gc, ds))
  }

  lemma StartRecorded(c: Committee, who: Election, g: set<Header>, gc: nat)
    ensures Run(c, who, gc, []).Some? && OutputRun(c, who, g, gc, [], Run(c, who, gc, []).value)
  {}

  lemma RecordedSoFar(c: Committee, who: Election, g: set<Header>, gc: nat, ds: seq<Delivery>, n: Node)
    requires OutputRun(c, who, g, gc, ds, n)
    ensures Recorded(g, gc, n.state, n.out)
  {}

  lemma FreeSnoc(c: Committee, who: Election, gc: nat, ds: seq<Delivery>)
    requires ds != []
    ensures var k := |ds| - 1;
            && (RepeatFree(c, who, gc, ds) <==> RepeatFree(c, who, gc, ds[..k]) && RepeatFreeAt(c, who, gc, ds, k))
            && (OrphanFree(c, who, gc, ds) <==> OrphanFree(c, who, gc, ds[..k]) && OrphanFreeAt(c, who, gc, ds, k))
  {
    hide Run, RepeatFreeStep, OrphanFreeStep;
    var k := |ds| - 1;
    var low := ds[..k];
    forall i | 0 <= i < k
      ensures RepeatFreeAt(c, who, gc, low, i) <==> RepeatFreeAt(c, who, gc, ds, i)
      ensures OrphanFreeAt(c, who, gc, low, i) <==> OrphanFreeAt(c, who, gc, ds, i)
    {
      assert low[..i] == ds[..i] && low[i] == ds[i];
    }
  }

  lemma OutputRunSnoc(c: Committee, who: Election, g: set<Header>, gc: nat, ds: seq<Delivery>, n: Node, m: Node)
    requires ds != [] && Run(c, who, gc, ds[..|ds| - 1]) == Some(n)
    requires OutputRun(c, who, g, gc, ds[..|ds| - 1], n)
    requires Recorded(g, gc, m.state, m.out) && OutputStep(c, who, gc, n, ds[|ds| - 1], m)
    ensures OutputRun(c, who, g, gc, ds, m)
  {
    hide Run, RepeatFree, OrphanFree, RepeatFreeStep, OrphanFreeStep, CleanStep, Recorded, ParentsBefore, NoDup;
    FreeSnoc(c, who, gc, ds);
  }

  lemma {:induction false} RunRecords(c: Committee, who: Election, g: set<Header>, gc: nat, ds: seq<Delivery>)
    requires WellFormed(c, g) && Causal(c, g, ds)
    ensures Run(c, who, gc, ds).Some? && OutputRun(c, who, g, gc, ds, Run(c, who, gc, ds).value)
    decreases |ds|
  {
    hide Run, OutputRun, NodeInv, OutputStep, Canonical, CleanRun, Received, WellFormed, Admissible, With, Next,
      Recorded;
    if ds == [] {
      StartRecorded(c, who, g, gc);
    } else {
      var k := |ds| - 1;
      CausalPrefix(c, g, ds, k);
      RunRecords(c, who, g, gc, ds[..k]);
      RunKeeps(c, who, g, gc, ds[..k]);
      assert CausalAt(c, g, ds, k);
      RunSnoc(c, who, gc, ds);
      var n := Run(c, who, gc, ds[..k]).value;
      RecordedSoFar(c, who, g, gc, ds[..k], n);
      StepExactly(c, who, g, gc, Received(ds[..k]), n, ds[k]);
      OutputRunSnoc(c, who, g, gc, ds, n, Run(c, who, gc, ds).value);
    }
  }

  /** No double commit, exactly: a causal run outputs no certificate twice if and only if no
      commit's oldest leader reaches, over retained links the skip test lets through, a
      certificate output before and still inside the window. */
  lemma NoDoubleCommitExactly(c: Committee, who: Election, g: set<Header>, gc: nat, ds: seq<Delivery>)
    requires WellFormed(c, g) && Causal(c, g, ds)
    ensures Run(c, who, gc, ds).Some?
    ensures NoDup(Run(c, who, gc, ds).value.out) <==> RepeatFree(c, who, gc, ds)
  {
    RunRecords(c, who, g, gc, ds);
  }

  /** Parents first, exactly: a direct parent of an output certificate is output strictly before
      it, or never, if and only if no commit's oldest leader reaches such a parent late. */
  lemma ParentsFirstExactly(c: Committee, who: Election, g: set<Header>, gc: nat, ds: seq<Delivery>)
    requires WellFormed(c, g) && Causal(c, g, ds)
    ensures Run(c, who, gc, ds).Some?
    ensures ParentsBefore(Run(c, who, gc, ds).value.out) <==> OrphanFree(c, who, gc, ds)
  {
    RunRecords(c, who, g, gc, ds);
  }

  /** In a clean run nothing is output twice and parents come first. */
  lemma CleanOutput(c: Committee, who: Election, g: set<Header>, gc: nat, ds: seq<Delivery>)
    requires WellFormed(c, g) && Causal(c, g, ds) && CleanRun(c, who, gc, ds)
    ensures Run(c, who, gc, ds).Some?
    ensures NoDup(Run(c, who, gc, ds).value.out) && ParentsBefore(Run(c, who, gc, ds).value.out)
  {
    hide Run, NodeInv, RepeatFreeStep, OrphanFreeStep, CleanStep, Received, WellFormed, Admissible, Next, Recorded,
      ParentsBefore, NoDup;
    forall i | 0 <= i < |ds| ensures RepeatFreeAt(c, who, gc, ds, i) && OrphanFreeAt(c, who, gc, ds, i) {
      CausalPrefix(c, g, ds, i);
      RunRecords(c, who, g, gc, ds[..i]);
      RunKeeps(c, who, g, gc, ds[..i]);
      assert CausalAt(c, g, ds, i) && CleanAt(c, who, gc, ds, i);
      StepExactly(c, who, g, gc, Received(ds[..i]), Run(c, who, gc, ds[..i]).value, ds[i]);
    }
    RunRecords(c, who, g, gc, ds);
  }

  // ----- Agreement

  predicate PrefixRelated(a: seq<Header>, b: seq<Header>) {
    a <= b || b <= a
  }

  ghost predicate OutputsAgree(o: Option<Node>, o': Option<Node>) {
    o.Some? && o'.Some? && PrefixRelated(o.value.out, o'.value.out)
  }

  lemma LedgerPrefix(c: Committee, g: set<Header>, gc: nat, a: seq<Header>, b: seq<Header>)
    requires a <= b
    ensures LedgerOf(c, g, gc, a).out <= LedgerOf(c, g, gc, b).out
  {
    assert b == a + b[|a|..];
    ExtendAllConcat(g, gc, LedgerOf(c, g, gc, []), a, b[|a|..]);
    ExtendAllAppends(g, gc, LedgerOf(c, g, gc, a), b[|a|..]);
  }

  /** Flattened agreement: two clean runs have prefix-related outputs, order included, although
      the replicas prune at different times. */
  lemma FlattenedAgreement(c: Committee, who: Election, g: set<Header>, gc: nat, ds: seq<Delivery>, ds': seq<Delivery>)
    requires WellFormed(c, g) && Causal(c, g, ds) && Causal(c, g, ds')
    requires CleanRun(c, who, gc, ds) && CleanRun(c, who, gc, ds')
    ensures OutputsAgree(Run(c, who, gc, ds), Run(c, who, gc, ds'))
  {
    hide Run, NodeInv, WellFormed, Causal, CleanRun, LedgerOf;
    RunKeeps(c, who, g, gc, ds);
    RunKeeps(c, who, g, gc, ds');
    LeaderAgreement(c, who, g, gc, gc, ds, ds');
    var a, b := Run(c, who, gc, ds).value.leaders, Run(c, who, gc, ds').value.leaders;
    if a <= b {
      LedgerPrefix(c, g, gc, a, b);
    } else {
      LedgerPrefix(c, g, gc, b, a);
    }
  }

  /** Without stale deliveries the outputs of two replicas are prefix-related, repeat nothing and
      put parents first. */
  lemma TimelyOutput(c: Committee, who: Election, g: set<Header>, gc: nat, ds: seq<Delivery>, ds': seq<Delivery>)
    requires WellFormed(c, g) && Causal(c, g, ds) && Causal(c, g, ds')
    requires Timely(c, who, gc, ds) && Timely(c, who, gc, ds')
    ensures OutputsAgree(Run(c, who, gc, ds), Run(c, who, gc, ds'))
    ensures NoDup(Run(c, who, gc, ds).value.out) && ParentsBefore(Run(c, who, gc, ds).value.out)
  {
    hide Run, WellFormed, Causal, CleanRun, Timely;
    TimelyIsClean(c, who, g, gc, ds);
    TimelyIsClean(c, who, g, gc, ds');
    FlattenedAgreement(c, who, g, gc, ds, ds');
    CleanOutput(c, who, g, gc, ds);
  }

  // ----- Runs that are not clean

  ghost predicate Diverge(a: seq<Header>, b: seq<Header>) {
    exists i :: 0 <= i < |a| && i < |b| && a[i] != b[i]
  }

  lemma DivergeOn(a: seq<Header>, b: seq<Header>, a': seq<Header>, b': seq<Header>)
    requires Diverge(a, b) && a <= a' && b <= b'
    ensures Diverge(a', b') && !PrefixRelated(a', b')
  {
    var i :| 0 <= i < |a| && i < |b| && a[i] != b[i];
    assert a'[i] != b'[i];
  }

  /** Different lists that end in `l` and hold it once diverge before either ends. */
  lemma LastOnce(base: seq<Header>, a: seq<Header>, b: seq<Header>, l: Header)
    requires NoDup(a) && NoDup(b) && |a| > 0 && |b| > 0 && a[|a| - 1] == l && b[|b| - 1] == l && a != b
    ensures Diverge(base + a, base + b)
  {
    var i :| 0 <= i < |a| && i < |b| && a[i] != b[i] by {
      if |a| < |b| {
        assert b[|a| - 1] != b[|b| - 1];
      } else if |b| < |a| {
        assert a[|b| - 1] != a[|a| - 1];
      }
    }
    assert (base + a)[|base| + i] != (base + b)[|base| + i];
  }

  lemma FlattenedEndsIn(gc: nat, s: State, l: Header)
    requires Keyed(s.dag) && InWindow(gc, s.lastRound, l)
    ensures var out := OrderDag(gc, s, l); NoDup(out) && |out| > 0 && out[|out| - 1] == l
  {
    OrderDagCorrect(gc, s, l);
  }

  lemma DirtyFlattening(c: Committee, g: set<Header>, gc: nat, r: set<Header>, s: State, led: Ledger, l: Header)
    requires WellFormed(c, g) && View(c, g, gc, r, s) && Tracks(s, led) && l in r && l.round > s.lastRound
    requires !Clean(gc, s, l)
    ensures Diverge(led.out + OrderDag(gc, s, l), led.out + SubDagOf(g, gc, led, l))
  {
    var sub, sub' := OrderDag(gc, s, l), SubDagOf(g, gc, led, l);
    CanonicalExactly(c, g, gc, r, s, led, l);
    assert Open(led, gc, l);
    hide WellFormed, View, Clean, SubDagOf, OrderDag, SortedByRound, OpenSet, NoDup;
    FlattenedEndsIn(gc, s, l);
    SubDagFacts(c, g, gc, led, l);
    SelfReaches(OpenSet(g, gc, led), l);
    LeaderLast(OpenSet(g, gc, led), l, sub');
    LastOnce(led.out, sub, sub', l);
  }

  lemma DirtyCommit(c: Committee, g: set<Header>, gc: nat, r: set<Header>, s: State, led: Ledger, ls: seq<Header>)
    requires WellFormed(c, g) && View(c, g, gc, r, s) && Tracks(s, led) && Rising(ls, r, s.lastRound)
    requires ls != [] && !Clean(gc, s, ls[0])
    ensures Diverge(led.out + CommitAll(gc, s, ls).1, ExtendAll(g, gc, led, ls).out)
  {
    var l := ls[0];
    var sub, sub' := OrderDag(gc, s, l), SubDagOf(g, gc, led, l);
    hide OrderDag, SubDagOf, Updates, WellFormed, View, Clean, Diverge;
    DirtyFlattening(c, g, gc, r, s, led, l);
    ExtendAllAppends(g, gc, Extend(g, gc, led, l), ls[1..]);
    DivergeOn(led.out + sub, led.out + sub', led.out + CommitAll(gc, s, ls).1, ExtendAll(g, gc, led, ls).out);
  }

  lemma LedgerStart(c: Committee, g: set<Header>, gc: nat)
    ensures LedgerOf(c, g, gc, []) == Ledger(0, InitialState(c).lastCommitted, [])
  {}

  /** A delivery that is not clean makes the output diverge from the canonical ledger. */
  lemma DirtyStep(c: Committee, who: Election, g: set<Header>, gc: nat, r: set<Header>, n: Node, d: Delivery)
    requires WellFormed(c, g) && NodeInv(c, who, g, gc, r, n) && Admissible(c, g, r, d.h)
    requires Canonical(c, g, gc, n) && !CleanStep(c, who, gc, n, d)
    ensures Next(c, who, gc, n, d).Some?
    ensures var m := Next(c, who, gc, n, d).value; Diverge(m.out, LedgerOf(c, g, gc, m.leaders).out)
  {
    hide WellFormed, NodeInv, View, Clean, CommitAll, Step, ExtendAll;
    StepKeeps(c, who, g, gc, r, n, d);
    var e := Step(c, who, gc, n.state, d.h, d.selected).value;
    DirtyCommit(c, g, gc, With(r, d.h), Arrived(n.state, d.h), LedgerOf(c, g, gc, n.leaders), e.leaders);
    ExtendAllConcat(g, gc, LedgerOf(c, g, gc, []), n.leaders, e.leaders);
    LedgerStart(c, g, gc);
  }

  lemma NextAppends(c: Committee, who: Election, gc: nat, n: Node, d: Delivery)
    requires Next(c, who, gc, n, d).Some?
    ensures n.out <= Next(c, who, gc, n, d).value.out && n.leaders <= Next(c, who, gc, n, d).value.leaders
  {
    hide Step;
  }

  lemma CleanSnoc(c: Committee, who: Election, gc: nat, ds: seq<Delivery>)
    requires ds != [] && CleanRun(c, who, gc, ds[..|ds| - 1])
    ensures CleanRun(c, who, gc, ds) <==> CleanAt(c, who, gc, ds, |ds| - 1)
  {
    hide Run, CleanStep;
    var low := ds[..|ds| - 1];
    forall i | 0 <= i < |low| ensures CleanAt(c, who, gc, ds, i) {
      assert low[..i] == ds[..i] && CleanAt(c, who, gc, low, i);
    }
  }

  /** Once a commit is not clean the output never again matches the ledger. */
  lemma {:induction false} DirtyDiverges(c: Committee, who: Election, g: set<Header>, gc: nat, ds: seq<Delivery>)
    requires WellFormed(c, g) && Causal(c, g, ds) && !CleanRun(c, who, gc, ds)
    ensures Run(c, who, gc, ds).Some?
    ensures var n := Run(c, who, gc, ds).value; Diverge(n.out, LedgerOf(c, g, gc, n.leaders).out)
    decreases |ds|
  {
    hide Run, NodeInv, CleanStep, Received, WellFormed, Admissible, Next, Canonical, LedgerOf, Diverge;
    var k := |ds| - 1;
    assert ds != [];
    var low := ds[..k];
    CausalPrefix(c, g, ds, k);
    RunKeeps(c, who, g, gc, low);
    RunKeeps(c, who, g, gc, ds);
    assert CausalAt(c, g, ds, k);
    RunSnoc(c, who, gc, ds);
    var n, m := Run(c, who, gc, low).value, Run(c, who, gc, ds).value;
    if CleanRun(c, who, gc, low) {
      CleanSnoc(c, who, gc, ds);
      DirtyStep(c, who, g, gc, Received(low), n, ds[k]);
    } else {
      DirtyDiverges(c, who, g, gc, low);
      NextAppends(c, who, gc, n, ds[k]);
      LedgerPrefix(c, g, gc, n.leaders, m.leaders);
      DivergeOn(n.out, LedgerOf(c, g, gc, n.leaders).out, m.out, LedgerOf(c, g, gc, m.leaders).out);
    }
  }

  /** The output is the canonical ledger of the committed leaders if and only if every commit is
      clean. */
  lemma LedgerExactly(c: Committee, who: Election, g: set<Header>, gc: nat, ds: seq<Delivery>)
    requires WellFormed(c, g) && Causal(c, g, ds)
    ensures Run(c, who, gc, ds).Some?
    ensures var n := Run(c, who, gc, ds).value;
            n.out == LedgerOf(c, g, gc, n.leaders).out <==> CleanRun(c, who, gc, ds)
  {
    hide Run, NodeInv, WellFormed, Causal, CleanRun, LedgerOf;
    RunKeeps(c, who, g, gc, ds);
    if !CleanRun(c, who, gc, ds) {
      DirtyDiverges(c, who, g, gc, ds);
    }
  }
}
