/** The ordering engine as functions on values: what one delivered certificate does to the
    consensus state, and what it commits. `None` is a panic of the task. */
module Ordering {
  import opened Types

  type Dag = map<nat, map<Key, Header>>

  datatype State = State(lastRound: nat, lastCommitted: map<Key, nat>, dag: Dag)

  /** Every entry sits under its own round and author. */
  ghost predicate Keyed(dag: Dag) {
    forall r, a :: r in dag && a in dag[r] ==> dag[r][a].round == r && dag[r][a].author == a
  }

  predicate Has(dag: Dag, h: Header) {
    h.round in dag && h.author in dag[h.round] && dag[h.round][h.author] == h
  }

  /** All headers that the DAG holds. */
  ghost function Contents(dag: Dag): set<Header> {
    set r, a | r in dag && a in dag[r] :: dag[r][a]
  }

  lemma ContentsHas(dag: Dag, h: Header)
    requires Keyed(dag)
    ensures h in Contents(dag) <==> Has(dag, h)
  {}

  function Genesis(a: Key): Header {
    Header(a, 0, map[], [], Zero)
  }

  function InitialState(c: Committee): State {
    State(0, map a | a in c.names :: 0, map[0 := map a | a in c.names :: Genesis(a)])
  }

  function Insert(dag: Dag, h: Header): Dag {
    dag[h.round := (if h.round in dag then dag[h.round] else map[])[h.author := h]]
  }

  /** The stake behind a digest in one row: the authors whose header names it as parent. */
  ghost function Backers(row: map<Key, Header>, d: Digest): set<Key> {
    set a | a in row && d in row[a].parents
  }

  function LeaderAt(who: Election, dag: Dag, r: nat): Option<Header> {
    if r in dag && who(r) in dag[r] then Some(dag[r][who(r)]) else None
  }

  /** The entries of one row that some header of `above` names as parent. */
  function Named(row: map<Key, Header>, above: set<Header>): set<Header> {
    set a | a in row && (exists x :: x in above && row[a].Ref() in x.parents) :: row[a]
  }

  /** The frontier walked down from round `hi` to round `lo`; a missing row panics. */
  function Walk(dag: Dag, frontier: set<Header>, hi: nat, lo: nat): Option<set<Header>>
    decreases hi
  {
    if hi <= lo then Some(frontier)
    else if hi - 1 !in dag then None
    else Walk(dag, Named(dag[hi - 1], frontier), hi - 1, lo)
  }

  /** Whether the frontier that starts at `a` contains `b`; certificates compare by digest. */
  function Linked(dag: Dag, a: Header, b: Header): Option<bool> {
    match Walk(dag, {a}, a.round, b.round)
    case None => None
    case Some(s) => Some(exists x :: x in s && x.Ref() == b.Ref())
  }

  /** The earlier leaders to commit, from round `r` down in steps of two, newest first. */
  function Fallbacks(who: Election, dag: Dag, cur: Header, r: int, lastRound: nat): Option<seq<Header>>
    decreases r
  {
    if r < lastRound + 2 then Some([])
    else match LeaderAt(who, dag, r)
      case None => Fallbacks(who, dag, cur, r - 2, lastRound)
      case Some(p) =>
        match Linked(dag, cur, p)
        case None => None
        case Some(false) => Fallbacks(who, dag, cur, r - 2, lastRound)
        case Some(true) =>
          match Fallbacks(who, dag, p, r - 2, lastRound)
          case None => None
          case Some(rest) => Some([p] + rest)
  }

  function OrderLeaders(who: Election, s: State, l: Header): Option<seq<Header>> {
    match Fallbacks(who, s.dag, l, l.round - 2, s.lastRound)
    case None => None
    case Some(rest) => Some([l] + rest)
  }

  /** The round an author is committed up to, if any. */
  predicate Committed(lc: map<Key, nat>, h: Header) {
    h.author in lc && lc[h.author] == h.round
  }

  predicate Stale(lc: map<Key, nat>, h: Header) {
    h.author in lc && h.round < lc[h.author]
  }

  predicate InWindow(gc: nat, lastRound: nat, h: Header) {
    h.round + gc >= lastRound
  }

  /** What the depth-first search may step onto: entries not committed at their very round. */
  ghost function Live(s: State): set<Header> {
    set h | h in Contents(s.dag) && !Committed(s.lastCommitted, h)
  }

  /** The entry that parent digest `d` of `x` leads to. */
  ghost function Child(live: set<Header>, x: Header, d: Digest): (o: Option<Header>)
    ensures o.Some? ==> o.value in live && o.value.Ref() == d && o.value.round + 1 == x.round
    ensures o.None? ==> forall p :: p in live && p.Ref() == d ==> p.round + 1 != x.round
  {
    if p :| p in live && p.Ref() == d && p.round + 1 == x.round then Some(p) else None
  }

  /** The headers one visit pushes on the stack, in the order of the parent list. */
  ghost function Pushed(live: set<Header>, x: Header, ps: seq<Digest>, seen: set<Digest>): (kids: seq<Header>)
    ensures forall k :: k in kids ==> k in live && k.round + 1 == x.round && k.Ref() in ps && k.Ref() !in seen
  {
    if ps == [] then []
    else match Child(live, x, ps[0])
      case Some(p) =>
        if ps[0] in seen then Pushed(live, x, ps[1..], seen)
        else [p] + Pushed(live, x, ps[1..], seen + {ps[0]})
      case None => Pushed(live, x, ps[1..], seen)
  }

  function Refs(s: seq<Header>): set<Digest> {
    set h | h in s :: h.Ref()
  }

  ghost function Unseen(live: set<Header>, seen: set<Digest>): set<Header> {
    set p | p in live && p.Ref() !in seen
  }

  lemma {:induction false} SubsetSize<T>(a: set<T>, b: set<T>)
    requires a <= b
    ensures |a| <= |b|
  {
    if a != {} {
      var x :| x in a;
      SubsetSize(a - {x}, b - {x});
    }
  }

  lemma PushedShrinks(live: set<Header>, x: Header, seen: set<Digest>)
    ensures var kids := Pushed(live, x, x.parents, seen);
            Unseen(live, seen + Refs(kids)) <= Unseen(live, seen)
            && (kids != [] ==> |Unseen(live, seen + Refs(kids))| < |Unseen(live, seen)|)
            && (kids == [] ==> Unseen(live, seen + Refs(kids)) == Unseen(live, seen))
  {
    var kids := Pushed(live, x, x.parents, seen);
    var after := Unseen(live, seen + Refs(kids));
    if kids != [] {
      assert kids[0] in kids;
      assert kids[0] in Unseen(live, seen) && kids[0] !in after;
      SubsetSize(after, Unseen(live, seen) - {kids[0]});
    }
  }

  /** Pre-order depth-first search with an explicit stack whose top is its last element. */
  ghost function Dfs(live: set<Header>, stack: seq<Header>, seen: set<Digest>): seq<Header>
    decreases |Unseen(live, seen)|, |stack|
  {
    if stack == [] then []
    else
      var x := stack[|stack| - 1];
      var kids := Pushed(live, x, x.parents, seen);
      PushedShrinks(live, x, seen);
      [x] + Dfs(live, stack[..|stack| - 1] + kids, seen + Refs(kids))
  }

  function Windowed(gc: nat, lastRound: nat, s: seq<Header>): seq<Header> {
    if s == [] then []
    else (if InWindow(gc, lastRound, s[0]) then [s[0]] else []) + Windowed(gc, lastRound, s[1..])
  }

  /** The members of `s` at round `r`, in their order. */
  function AtRound(s: seq<Header>, r: nat): seq<Header> {
    if s == [] then []
    else (if s[0].round == r then [s[0]] else []) + AtRound(s[1..], r)
  }

  function TopRound(s: seq<Header>): nat {
    if s == [] then 0 else Max(s[0].round, TopRound(s[1..]))
  }

  /** The stable sort by round: the rounds 0, 1, ..., top one after the other. */
  function SortUpTo(s: seq<Header>, top: int): seq<Header>
    decreases top + 1
  {
    if top < 0 then [] else SortUpTo(s, top - 1) + AtRound(s, top)
  }

  function SortByRound(s: seq<Header>): seq<Header> {
    SortUpTo(s, TopRound(s))
  }

  /** The flattened sub-DAG of a leader. */
  ghost function OrderDag(gc: nat, s: State, l: Header): seq<Header> {
    SortByRound(Windowed(gc, s.lastRound, Dfs(Live(s), [l], {})))
  }

  /** Pruning as one filter: an entry stays unless its author committed a later round or it
      fell out of the window; rows left empty go. */
  function Kept(lc: map<Key, nat>, r: nat, row: map<Key, Header>): map<Key, Header> {
    map a | a in row && (a in lc ==> r >= lc[a]) :: row[a]
  }

  function Prune(gc: nat, lc: map<Key, nat>, lastRound: nat, dag: Dag): Dag {
    map r | r in dag && r + gc >= lastRound && Kept(lc, r, dag[r]) != map[] :: Kept(lc, r, dag[r])
  }

  function Raise(lc: map<Key, nat>, h: Header): map<Key, nat> {
    lc[h.author := if h.author in lc then Max(lc[h.author], h.round) else h.round]
  }

  function Update(gc: nat, s: State, h: Header): State {
    var lc := Raise(s.lastCommitted, h);
    var lr := Max(s.lastRound, h.round);
    State(lr, lc, Prune(gc, lc, lr, s.dag))
  }

  function Updates(gc: nat, s: State, hs: seq<Header>): State
    decreases |hs|
  {
    if hs == [] then s else Updates(gc, Update(gc, s, hs[0]), hs[1..])
  }

  datatype Effect = Effect(state: State, leaders: seq<Header>, out: seq<Header>)

  /** Commit leaders oldest first, each with its sub-DAG. */
  ghost function CommitAll(gc: nat, s: State, ls: seq<Header>): (State, seq<Header>)
    decreases |ls|
  {
    if ls == [] then (s, [])
    else
      var sub := OrderDag(gc, s, ls[0]);
      var (t, out) := CommitAll(gc, Updates(gc, s, sub), ls[1..]);
      (t, sub + out)
  }

  function Reverse(s: seq<Header>): seq<Header> {
    seq(|s|, i requires 0 <= i < |s| => s[|s| - 1 - i])
  }

  /** Which leader, if any, the arrival of `h` commits directly. `selected` is the verdict of
      the direct-commit schedule for the leader round in question. */
  ghost function Elect(c: Committee, who: Election, s: State, h: Header, selected: bool): Option<Option<Header>> {
    if h.round < 5 || h.round % 2 == 0 then Some(None)
    else if h.round - 3 <= s.lastRound || !selected then Some(None)
    else match LeaderAt(who, s.dag, h.round - 3)
      case None => Some(None)
      case Some(l) =>
        if h.round - 2 !in s.dag then None
        else if c.Weight(Backers(s.dag[h.round - 2], l.Ref())) < c.ValidityThreshold() then Some(None)
        else Some(Some(l))
  }

  /** Committing a leader and the earlier leaders it links to. */
  ghost function Commit(who: Election, gc: nat, s: State, l: Header): Option<Effect> {
    match OrderLeaders(who, s, l)
    case None => None
    case Some(ls) => Some(Effect(CommitAll(gc, s, Reverse(ls)).0, Reverse(ls), CommitAll(gc, s, Reverse(ls)).1))
  }

  /** One delivered certificate. */
  ghost function Step(c: Committee, who: Election, gc: nat, s: State, h: Header, selected: bool): Option<Effect> {
    var s1 := s.(dag := Insert(s.dag, h));
    match Elect(c, who, s1, h, selected)
    case None => None
    case Some(None) => Some(Effect(s1, [], []))
    case Some(Some(l)) => Commit(who, gc, s1, l)
  }
}
