/** From a list of requests to the allocation stack, and back to the requesters. */
module Stacks {
  import opened Words
  import opened RangeLists
  import opened ArbiterTypes
  import opened Descriptors
  import opened ArbitrationLists

  predicate Buildable(e: Entry) {
    forall d :: d in e.alternatives ==> BuildAlternative(d).Some?
  }

  function Alternatives(e: Entry): (alts: seq<Alternative>)
    requires Buildable(e)
    ensures |alts| == |e.alternatives|
    ensures forall i :: 0 <= i < |alts| ==> Some(alts[i]) == BuildAlternative(e.alternatives[i])
  {
    seq(|e.alternatives|, i requires 0 <= i < |e.alternatives| => BuildAlternative(e.alternatives[i]).value)
  }

  /** A state with nothing chosen yet: its start lies above its end. */
  function Opening(e: Entry): State
    requires Buildable(e)
  {
    State(1, 0, 0, 0, e, None, Alternatives(e), false, {}, {})
  }

  /** The entries with at least one alternative, in list order. */
  function Contributing(es: seq<Entry>): (some: seq<Entry>)
    ensures forall e :: e in some <==> e in es && e.alternatives != []
    ensures (forall e :: e in es ==> e.alternatives != []) ==> some == es
  {
    if es == [] then []
    else
      var rest := Contributing(es[..|es| - 1]);
      if es[|es| - 1].alternatives == [] then rest else rest + [es[|es| - 1]]
  }

  /** The allocation stack of a list: one state per contributing entry, in order. */
  function Stack(es: seq<Entry>): (st: seq<State>)
    requires forall e :: e in es ==> Buildable(e)
    ensures |st| == |Contributing(es)|
    ensures forall i :: 0 <= i < |st| ==> st[i].current.None?
  {
    var some := Contributing(es);
    seq(|some|, i requires 0 <= i < |some| => Opening(some[i]))
  }

  lemma StackStep(es: seq<Entry>, i: nat)
    requires i < |es| && forall e :: e in es[..i + 1] ==> Buildable(e)
    ensures es[i] in es[..i + 1] && forall e :: e in es[..i] ==> e in es[..i + 1]
    ensures Stack(es[..i + 1]) == Stack(es[..i]) + if es[i].alternatives == [] then [] else [Opening(es[i])]
  {
    assert es[..i + 1][..i] == es[..i] && es[..i + 1][i] == es[i];
    assert forall e :: e in es[..i] ==> e in es[..i + 1];
  }

  lemma StackOfNone()
    ensures Stack([]) == [] && Contributing([]) == []
  {
  }

  /** Counts the states a list needs. */
  method CountStates(es: seq<Entry>) returns (n: nat)
    ensures n == |Contributing(es)|
  {
    n := 0;
    for i := 0 to |es|
      invariant n == |Contributing(es[..i])|
    {
      assert es[..i + 1][..i] == es[..i];
      if es[i].alternatives != [] {
        n := n + 1;
      }
    }
    assert es[..|es|] == es;
  }

  lemma {:induction false} ContributingGrows(es: seq<Entry>, i: nat)
    requires i <= |es|
    ensures |Contributing(es[..i])| <= |Contributing(es)|
    decreases |es| - i
  {
    if i == |es| {
      assert es[..i] == es;
    } else {
      assert es[..i + 1][..i] == es[..i];
      ContributingGrows(es, i + 1);
    }
  }

  /** The alternatives of one entry, or none if one of them cannot be read. */
  method BuildAlternatives(e: Entry) returns (ok: bool, alts: seq<Alternative>)
    ensures ok <==> Buildable(e)
    ensures ok ==> alts == Alternatives(e)
  {
    alts := [];
    for i := 0 to |e.alternatives|
      invariant |alts| == i
      invariant forall j :: 0 <= j < i ==> BuildAlternative(e.alternatives[j]) == Some(alts[j])
    {
      var a := BuildAlternative(e.alternatives[i]);
      if a.None? {
        return false, alts;
      }
      alts := alts + [a.value];
    }
    ok := true;
  }

  /** Zeroed memory. */
  const BLANK := State(0, 0, 0, 0,
                       Entry(NULL, false, false, [], 0, Untested, None, false,
                             CmDescriptor(OtherResource, 0, 0, DeviceExclusive)),
                       None, [], false, {}, {})

  /** ArbpBuildAllocationStack. */
  method BuildStack(es: seq<Entry>) returns (ok: bool, stack: array<State>)
    ensures ok <==> forall e :: e in es ==> e.alternatives == [] || Buildable(e)
    ensures fresh(stack)
    ensures ok ==> (forall e :: e in es ==> Buildable(e)) && stack[..] == Stack(es)
  {
    hide Stack, Contributing, Alternatives;
    assert es[..0] == [];
    StackOfNone();
    var n := CountStates(es);
    stack := new State[n](_ => BLANK);
    var k := 0;
    for i := 0 to |es|
      invariant forall e :: e in es[..i] ==> Buildable(e)
      invariant k == |Contributing(es[..i])| <= n
      invariant stack[..k] == Stack(es[..i])
    {
      var e := es[i];
      ContributingGrows(es, i + 1);
      assert es[..i + 1] == es[..i] + [e];
      if e.alternatives != [] {
        var built, alts := BuildAlternatives(e);
        if !built {
          assert e in es;
          return false, stack;
        }
        StackStep(es, i);
        stack[k] := State(1, 0, 0, 0, e, None, alts, false, {}, {});
        k := k + 1;
      } else {
        StackStep(es, i);
      }
    }
    assert es[..|es|] == es && stack[..k] == stack[..];
    ok := true;
  }

  /** The list once the search has written into the entries of its states. */
  function WriteBack(es: seq<Entry>, st: seq<State>): (told: seq<Entry>)
    requires |st| == |Contributing(es)|
    ensures |told| == |es|
  {
    if es == [] then []
    else if es[|es| - 1].alternatives == [] then WriteBack(es[..|es| - 1], st) + [es[|es| - 1]]
    else WriteBack(es[..|es| - 1], st[..|st| - 1]) + [st[|st| - 1].entry]
  }

  lemma {:induction false} WriteBackAll(es: seq<Entry>, st: seq<State>)
    requires |st| == |Contributing(es)| && forall e :: e in es ==> e.alternatives != []
    ensures |st| == |es| && forall i :: 0 <= i < |es| ==> WriteBack(es, st)[i] == st[i].entry
  {
    if es != [] {
      WriteBackAll(es[..|es| - 1], st[..|st| - 1]);
    }
  }

  /** One entry's score; a requirement nothing can meet fails it. */
  method ScoreEntry(e0: Entry) returns (ok: bool, e: Entry)
    ensures ok <==> Scorable(e0)
    ensures e == if ok then Scored(e0) else e0.(workSpace := e.workSpace)
  {
    e := e0.(workSpace := 0);
    for i := 0 to |e0.alternatives|
      invariant e == e0.(workSpace := SumOfScores(e0.alternatives[..i]))
      invariant forall j :: 0 <= j < i ==> ScoreRequirement(e0.alternatives[j]) >= 0
    {
      var score := ScoreRequirement(e0.alternatives[i]);
      if score < 0 {
        return false, e;
      }
      assert e0.alternatives[..i + 1][..i] == e0.alternatives[..i];
      e := e.(workSpace := WrapLong(e.workSpace + score));
    }
    assert e0.alternatives[..|e0.alternatives|] == e0.alternatives;
    ok := true;
  }

  function ScoredAll(es: seq<Entry>): (scored: seq<Entry>)
    ensures |scored| == |es| && forall i :: 0 <= i < |es| ==> scored[i] == Scored(es[i])
  {
    seq(|es|, i requires 0 <= i < |es| => Scored(es[i]))
  }
}
