/** The list of requests of one arbitration, and its most-constrained-first order. */
module ArbitrationLists {
  import opened Words
  import opened ArbiterTypes
  import opened Descriptors

  /** The entries of one score, in list order. */
  function WithScore(es: seq<Entry>, score: int): (group: seq<Entry>)
    ensures forall e :: e in group <==> e in es && e.workSpace == score
  {
    if es == [] then []
    else
      var rest := WithScore(es[..|es| - 1], score);
      if es[|es| - 1].workSpace == score then rest + [es[|es| - 1]] else rest
  }

  predicate Ascending(es: seq<Entry>) {
    forall i, j :: 0 <= i < j < |es| ==> es[i].workSpace <= es[j].workSpace
  }

  /** Same groups, so the same entries, and equally scored ones keep their order. */
  ghost predicate StablyReordered(a: seq<Entry>, b: seq<Entry>) {
    forall score :: WithScore(a, score) == WithScore(b, score)
  }

  lemma {:induction false} WithScoreAppend(a: seq<Entry>, b: seq<Entry>, score: int)
    ensures WithScore(a + b, score) == WithScore(a, score) + WithScore(b, score)
  {
    if b == [] {
      assert a + b == a;
    } else {
      WithScoreAppend(a, b[..|b| - 1], score);
      assert (a + b)[..|a + b| - 1] == a + b[..|b| - 1];
    }
  }

  lemma {:induction false} NoneWithScore(es: seq<Entry>, score: int)
    requires forall e :: e in es ==> e.workSpace != score
    ensures WithScore(es, score) == []
  {
    if es != [] {
      NoneWithScore(es[..|es| - 1], score);
    }
  }

  lemma WithScoreOne(e: Entry, score: int)
    ensures WithScore([e], score) == if e.workSpace == score then [e] else []
  {
    assert [e][..0] == [];
  }

  /** An entry put in before the first larger one comes last in its group. */
  lemma InsertKeepsGroup(es: seq<Entry>, e: Entry, k: nat, score: int)
    requires k <= |es| && forall i :: k <= i < |es| ==> e.workSpace < es[i].workSpace
    ensures WithScore(es[..k] + [e] + es[k..], score) == WithScore(es + [e], score)
  {
    hide WithScore;
    var low, high := es[..k], es[k..];
    WithScoreAppend(low + [e], high, score);
    WithScoreAppend(low, [e], score);
    WithScoreAppend(low, high, score);
    WithScoreAppend(es, [e], score);
    assert low + high == es;
    WithScoreOne(e, score);
    if score == e.workSpace {
      NoneWithScore(high, score);
    }
  }

  lemma InsertKeepsGroups(es: seq<Entry>, e: Entry, k: nat)
    requires k <= |es| && forall i :: k <= i < |es| ==> e.workSpace < es[i].workSpace
    ensures StablyReordered(es[..k] + [e] + es[k..], es + [e])
  {
    hide WithScore;
    forall score {:trigger WithScore(es + [e], score)}
      ensures WithScore(es[..k] + [e] + es[k..], score) == WithScore(es + [e], score)
    {
      InsertKeepsGroup(es, e, k, score);
    }
  }

  lemma StableAppend(a: seq<Entry>, b: seq<Entry>, more: seq<Entry>)
    requires StablyReordered(a, b)
    ensures StablyReordered(a + more, b + more)
  {
    forall score
      ensures WithScore(a + more, score) == WithScore(b + more, score)
    {
      WithScoreAppend(a, more, score);
      WithScoreAppend(b, more, score);
    }
  }

  /** A stable reordering lists the same entries. */
  lemma StableSameEntries(a: seq<Entry>, b: seq<Entry>, e: Entry)
    requires StablyReordered(a, b)
    ensures e in a <==> e in b
  {
    assert e in WithScore(a, e.workSpace) <==> e in WithScore(b, e.workSpace);
  }

  lemma {:induction false} GroupHoldsAll(es: seq<Entry>, e: Entry)
    ensures multiset(es)[e] == multiset(WithScore(es, e.workSpace))[e]
  {
    if es != [] {
      GroupHoldsAll(es[..|es| - 1], e);
      assert es == es[..|es| - 1] + [es[|es| - 1]];
    }
  }

  /** A stable reordering lists every entry as often. */
  lemma StableSameMultiset(a: seq<Entry>, b: seq<Entry>)
    requires StablyReordered(a, b)
    ensures multiset(a) == multiset(b)
  {
    hide WithScore;
    forall e: Entry
      ensures multiset(a)[e] == multiset(b)[e]
    {
      GroupHoldsAll(a, e);
      GroupHoldsAll(b, e);
      assert WithScore(a, e.workSpace) == WithScore(b, e.workSpace);
    }
  }

  lemma ListedTwice(es: seq<Entry>, e: Entry) returns (i: nat, j: nat)
    requires multiset(es)[e] >= 2
    ensures i < |es| && j < |es| && i != j && es[i] == e == es[j]
  {
    i :| 0 <= i < |es| && es[i] == e;
    var rest := es[..i] + es[i + 1..];
    assert es == es[..i] + [e] + es[i + 1..];
    assert e in multiset(rest);
    var k :| 0 <= k < |rest| && rest[k] == e;
    j := if k < i then k else k + 1;
  }

  /** Two places of one list are two places of the other. */
  lemma SameMultisetPair(a: seq<Entry>, b: seq<Entry>, i: nat, j: nat) returns (i': nat, j': nat)
    requires multiset(a) == multiset(b) && i < |a| && j < |a| && i != j
    ensures i' < |b| && j' < |b| && i' != j' && b[i'] == a[i] && b[j'] == a[j]
  {
    if a[i] == a[j] {
      PlacesCount(a, i, j);
      i', j' := ListedTwice(b, a[i]);
    } else {
      assert a[i] in multiset(b) && a[j] in multiset(b);
      i' :| 0 <= i' < |b| && b[i'] == a[i];
      j' :| 0 <= j' < |b| && b[j'] == a[j];
    }
  }

  lemma PlacesCount(es: seq<Entry>, i: nat, j: nat)
    requires i < |es| && j < |es| && i != j && es[i] == es[j]
    ensures multiset(es)[es[i]] >= 2
  {
    var rest := es[..i] + es[i + 1..];
    assert es == es[..i] + [es[i]] + es[i + 1..];
    assert rest[if j < i then j else j - 1] == es[i];
  }

  lemma WithScoreLast(es: seq<Entry>, score: int)
    requires es != []
    ensures var last := es[|es| - 1];
            WithScore(es, score) == WithScore(es[..|es| - 1], score) + if last.workSpace == score then [last] else []
  {
  }

  lemma LastIsLargest(a: seq<Entry>, b: seq<Entry>)
    requires StablyReordered(a, b) && Ascending(a) && Ascending(b) && a != [] && b != []
    ensures a[|a| - 1] == b[|b| - 1]
  {
    hide WithScore;
    var x, y := a[|a| - 1], b[|b| - 1];
    StableSameEntries(a, b, x);
    StableSameEntries(a, b, y);
    WithScoreLast(a, x.workSpace);
    WithScoreLast(b, x.workSpace);
    var group := WithScore(a, x.workSpace);
    assert group[|group| - 1] == x && group[|group| - 1] == y;
  }

  /** The order and the groups determine the list. */
  lemma {:induction false} SortIsUnique(a: seq<Entry>, b: seq<Entry>)
    requires StablyReordered(a, b) && Ascending(a) && Ascending(b)
    ensures a == b
  {
    hide WithScore;
    if a == [] && b != [] {
      StableSameEntries(a, b, b[0]);
    } else if a != [] && b == [] {
      StableSameEntries(a, b, a[0]);
    } else if a != [] {
      LastIsLargest(a, b);
      var a', b' := a[..|a| - 1], b[..|b| - 1];
      forall score {:trigger WithScore(a', score)}
        ensures WithScore(a', score) == WithScore(b', score)
      {
        WithScoreLast(a, score);
        WithScoreLast(b, score);
        var tail := if a[|a| - 1].workSpace == score then [a[|a| - 1]] else [];
        assert WithScore(a, score) == WithScore(b, score);
        SameTail(WithScore(a', score), WithScore(b', score), tail);
      }
      SortIsUnique(a', b');
      assert a == a' + [a[|a| - 1]] && b == b' + [b[|b| - 1]];
    }
  }

  lemma SameTail<T>(p: seq<T>, q: seq<T>, tail: seq<T>)
    requires p + tail == q + tail
    ensures p == q
  {
    assert p == (p + tail)[..|p + tail| - |tail|];
    assert q == (q + tail)[..|q + tail| - |tail|];
  }

  // ----- Scores -----

  /** The score field is a signed 32-bit sum. */
  function WrapLong(x: int): int {
    (x + 0x8000_0000) % TWO_32 - 0x8000_0000
  }

  predicate Scorable(e: Entry) {
    forall d :: d in e.alternatives ==> ScoreRequirement(d) >= 0
  }

  function SumOfScores(ds: seq<IoDescriptor>): int {
    if ds == [] then 0 else WrapLong(SumOfScores(ds[..|ds| - 1]) + ScoreRequirement(ds[|ds| - 1]))
  }

  function Scored(e: Entry): Entry {
    e.(workSpace := SumOfScores(e.alternatives))
  }

  class ArbitrationList {
    var entries: seq<Entry>

    constructor (es: seq<Entry>)
      ensures entries == es
    {
      entries := es;
    }

    /** ArbiterLibSortArbitrationList. */
    method Sort()
      modifies this
      ensures Ascending(entries)
      ensures StablyReordered(entries, old(entries))
      ensures |entries| == |old(entries)|
    {
      hide WithScore;
      var rest, sorted := entries, [];
      assert sorted + rest == old(entries);
      while rest != []
        invariant |sorted| + |rest| == |old(entries)|
        invariant Ascending(sorted)
        invariant StablyReordered(sorted + rest, old(entries))
        decreases |rest|
      {
        var e := rest[0];
        var k := 0;
        while k < |sorted| && sorted[k].workSpace <= e.workSpace
          invariant k <= |sorted|
          invariant forall i :: 0 <= i < k ==> sorted[i].workSpace <= e.workSpace
        {
          k := k + 1;
        }
        InsertKeepsGroups(sorted, e, k);
        StableAppend(sorted[..k] + [e] + sorted[k..], sorted + [e], rest[1..]);
        assert sorted + [e] + rest[1..] == sorted + rest;
        sorted := sorted[..k] + [e] + sorted[k..];
        rest := rest[1..];
      }
      assert sorted + rest == sorted;
      entries := sorted;
    }
  }
}
