/** Sorting scored entries: taking the lowest `k` and counting the entries below one come to
    the same choice. */
module Ranking {
  import opened Types

  /** A score, as the number its bytes spell, and what breaks ties. */
  datatype Entry = Entry(score: nat, tag: nat)

  predicate Less(a: Entry, b: Entry) {
    a.score < b.score || (a.score == b.score && a.tag < b.tag)
  }

  function Min(a: nat, b: nat): nat {
    if a < b then a else b
  }

  function InsertInto(e: Entry, s: seq<Entry>): seq<Entry> {
    if s == [] || Less(e, s[0]) then [e] + s else [s[0]] + InsertInto(e, s[1..])
  }

  function Sort(s: seq<Entry>): seq<Entry> {
    if s == [] then [] else InsertInto(s[0], Sort(s[1..]))
  }

  /** The `k` lowest entries. */
  function Lowest(s: seq<Entry>, k: nat): seq<Entry> {
    var t := Sort(s);
    t[..Min(k, |t|)]
  }

  /** How many entries are below `e`. */
  function Below(s: seq<Entry>, e: Entry): nat {
    if s == [] then 0 else (if Less(s[0], e) then 1 else 0) + Below(s[1..], e)
  }

  function Tags(s: seq<Entry>): seq<nat> {
    seq(|s|, i requires 0 <= i < |s| => s[i].tag)
  }

  ghost predicate Sorted(s: seq<Entry>) {
    forall i, j :: 0 <= i < j < |s| ==> !Less(s[j], s[i])
  }

  lemma {:induction false} InsertPermutes(e: Entry, s: seq<Entry>)
    ensures multiset(InsertInto(e, s)) == multiset{e} + multiset(s)
    ensures forall x :: x in InsertInto(e, s) <==> x == e || x in s
  {
    if s != [] && !Less(e, s[0]) {
      InsertPermutes(e, s[1..]);
      assert s == [s[0]] + s[1..];
    }
    forall x ensures x in InsertInto(e, s) <==> x in multiset(InsertInto(e, s)) {}
  }

  lemma {:induction false} InsertSorted(e: Entry, s: seq<Entry>)
    requires Sorted(s)
    ensures Sorted(InsertInto(e, s))
  {
    if s != [] && !Less(e, s[0]) {
      InsertSorted(e, s[1..]);
      InsertPermutes(e, s[1..]);
      var t := InsertInto(e, s[1..]);
      forall i | 0 <= i < |t| ensures !Less(t[i], s[0]) {
        assert t[i] in t;
      }
    }
  }

  lemma {:induction false} SortSorts(s: seq<Entry>)
    ensures Sorted(Sort(s)) && multiset(Sort(s)) == multiset(s) && |Sort(s)| == |s|
  {
    if s != [] {
      SortSorts(s[1..]);
      InsertSorted(s[0], Sort(s[1..]));
      InsertPermutes(s[0], Sort(s[1..]));
      assert s == [s[0]] + s[1..];
    }
    assert |multiset(Sort(s))| == |multiset(s)|;
  }

  lemma {:induction false} BelowInsert(x: Entry, s: seq<Entry>, e: Entry)
    ensures Below(InsertInto(x, s), e) == (if Less(x, e) then 1 else 0) + Below(s, e)
  {
    if s != [] && !Less(x, s[0]) {
      BelowInsert(x, s[1..], e);
    }
  }

  lemma {:induction false} BelowSort(s: seq<Entry>, e: Entry)
    ensures Below(Sort(s), e) == Below(s, e)
  {
    if s != [] {
      BelowSort(s[1..], e);
      BelowInsert(s[0], Sort(s[1..]), e);
    }
  }

  lemma {:induction false} NothingBelow(s: seq<Entry>, e: Entry)
    requires forall x :: x in s ==> !Less(x, e)
    ensures Below(s, e) == 0
  {
    if s != [] {
      NothingBelow(s[1..], e);
    }
  }

  lemma {:induction false} SortedTop(s: seq<Entry>, k: nat, e: Entry)
    requires Sorted(s) && e in s
    ensures e in s[..Min(k, |s|)] <==> Below(s, e) < k
  {
    if e == s[0] {
      NothingBelow(s, e);
      assert k > 0 ==> s[..Min(k, |s|)][0] == e;
    } else {
      var t := s[1..];
      assert e in t && Less(s[0], e);
      if k > 0 {
        SortedTop(t, k - 1, e);
        assert s[..Min(k, |s|)] == [s[0]] + t[..Min(k - 1, |t|)];
      }
    }
  }

  /** An entry is among the `k` lowest if and only if fewer than `k` are below it. Repeated
      entries are allowed. */
  lemma LowestByRank(s: seq<Entry>, k: nat, e: Entry)
    requires e in s
    ensures e in Lowest(s, k) <==> Below(s, e) < k
  {
    SortSorts(s);
    assert e in multiset(Sort(s));
    SortedTop(Sort(s), k, e);
    BelowSort(s, e);
  }

  lemma {:induction false} CountMembers<T>(s: seq<T>)
    requires NoDup(s)
    ensures |Members(s)| == |s|
  {
    if s == [] {
      assert Members(s) == {};
    } else {
      CountMembers(s[1..]);
      assert Members(s) == {s[0]} + Members(s[1..]);
      assert s[0] !in Members(s[1..]);
    }
  }

  /** The tags of the `k` lowest entries. */
  function LowestTags(s: seq<Entry>, k: nat): set<nat> {
    Members(Tags(Lowest(s, k)))
  }

  lemma TwiceCounts(s: seq<Entry>, i: nat, j: nat)
    requires i < j < |s| && s[i] == s[j]
    ensures multiset(s)[s[i]] >= 2
  {
    assert s == s[..j] + s[j..];
    assert s[..j][i] == s[i] && s[j..][0] == s[i];
    assert s[i] in multiset(s[..j]) && s[i] in multiset(s[j..]);
  }

  lemma OnceCounts(s: seq<Entry>, a: nat)
    requires a < |s| && NoDup(Tags(s))
    ensures multiset(s)[s[a]] == 1
  {
    assert s == s[..a] + [s[a]] + s[a + 1..];
    forall i | 0 <= i < |s| && i != a ensures s[i] != s[a] {
      assert Tags(s)[i] == s[i].tag && Tags(s)[a] == s[a].tag;
    }
    assert s[a] !in s[..a] && s[a] !in s[a + 1..];
  }

  lemma SortKeepsTags(s: seq<Entry>)
    requires NoDup(Tags(s))
    ensures NoDup(Tags(Sort(s)))
  {
    var t := Sort(s);
    SortSorts(s);
    forall i, j | 0 <= i < j < |t| ensures t[i].tag != t[j].tag {
      assert t[i] in multiset(s) && t[j] in multiset(s);
      if t[i].tag == t[j].tag {
        var a :| 0 <= a < |s| && s[a] == t[i];
        var b :| 0 <= b < |s| && s[b] == t[j];
        assert Tags(s)[a] == Tags(s)[b];
        assert a == b;
        TwiceCounts(t, i, j);
        OnceCounts(s, a);
        assert false;
      }
    }
  }

  lemma TagIsOf(s: seq<Entry>, g: nat)
    ensures g in Tags(s) <==> exists e :: e in s && e.tag == g
  {
    if g in Tags(s) {
      var i :| 0 <= i < |s| && Tags(s)[i] == g;
      assert s[i] in s;
    }
    if e :| e in s && e.tag == g {
      var i :| 0 <= i < |s| && s[i] == e;
      assert Tags(s)[i] == g;
    }
  }

  lemma LowestIsPart(s: seq<Entry>, k: nat)
    ensures |Lowest(s, k)| == Min(k, |s|)
    ensures forall e :: e in Lowest(s, k) ==> e in s
  {
    SortSorts(s);
    forall e | e in Lowest(s, k) ensures e in s {
      assert e in multiset(Sort(s));
    }
  }

  lemma SameTag(s: seq<Entry>, d: Entry, e: Entry)
    requires NoDup(Tags(s)) && d in s && e in s && d.tag == e.tag
    ensures d == e
  {
    var i :| 0 <= i < |s| && s[i] == d;
    var j :| 0 <= j < |s| && s[j] == e;
    assert Tags(s)[i] == Tags(s)[j];
  }

  lemma LowestTagByRank(s: seq<Entry>, k: nat, e: Entry)
    requires NoDup(Tags(s)) && e in s
    ensures e.tag in Tags(Lowest(s, k)) <==> Below(s, e) < k
  {
    var t := Lowest(s, k);
    LowestIsPart(s, k);
    LowestByRank(s, k, e);
    TagIsOf(t, e.tag);
    if d :| d in t && d.tag == e.tag {
      SameTag(s, d, e);
    }
  }

  /** With distinct tags exactly `k` tags are chosen, or all of them. */
  lemma LowestTagsCount(s: seq<Entry>, k: nat)
    requires NoDup(Tags(s))
    ensures |LowestTags(s, k)| == Min(k, |s|) && LowestTags(s, k) <= Members(Tags(s))
  {
    var t := Lowest(s, k);
    LowestIsPart(s, k);
    SortSorts(s);
    SortKeepsTags(s);
    assert Tags(t) == Tags(Sort(s))[..Min(k, |s|)];
    CountMembers(Tags(t));
    hide Lowest, Sort, Tags, NoDup;
    forall g | g in Tags(t) ensures g in Tags(s) {
      TagIsOf(t, g);
      TagIsOf(s, g);
    }
  }

  /** An entry's tag is among the chosen if and only if fewer than `k` entries are below it. */
  lemma LowestTagsExactly(s: seq<Entry>, k: nat)
    requires NoDup(Tags(s))
    ensures |LowestTags(s, k)| == Min(k, |s|) && LowestTags(s, k) <= Members(Tags(s))
    ensures forall e :: e in s ==> (e.tag in LowestTags(s, k) <==> Below(s, e) < k)
  {
    hide Lowest, Sort, Below, Tags, NoDup;
    LowestTagsCount(s, k);
    forall e | e in s ensures e.tag in LowestTags(s, k) <==> Below(s, e) < k {
      LowestTagByRank(s, k, e);
    }
  }
}
