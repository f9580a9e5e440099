/**
One turn of the backtracking search: withdraw the present choice if there is
one, vary it, and lay the next one down.
*/
module Attempts {
  import opened Words
  import opened RangeLists
  import opened ArbiterTypes
  import opened Walker
  import opened Placement
  import opened Ledger

  /** What one arbiter instance brings to the search. */
  datatype Setup = Setup(kind: ArbiterKind, orderings: seq<Ordering>, mmconfig: seq<Ordering>) {
    predicate Valid() {
      OrderingList(orderings)
    }
  }

  /** KeQueryInterruptTime: any value at all. */
  method QueryInterruptTime() returns (t: nat) {
    t := *;
  }

  /** The window in force is what is left of the one the chosen priority selects. */
  ghost predicate Within(os: seq<Ordering>, s: State)
    requires s.HasCurrent()
  {
    var a := s.Chosen();
    var raw := RawWindow(os, a);
    a.length != 0 ==>
      var w := Trim(raw.0, raw.1, a.length, a.Step());
      && w.Some?
      && w.value.0 <= s.curMin && s.curMax <= w.value.1
      && (w.value.1 - w.value.0 == a.length - 1 ==> (s.curMin, s.curMax) == w.value)
  }

  /** A state that has been given a placement. */
  ghost predicate Sited(os: seq<Ordering>, s: State) {
    && s.HasCurrent()
    && AllSettled(os, s.alternatives)
    && Live(os, s.Chosen().priority)
    && Within(os, s)
    && (s.Chosen().length != 0 ==>
          && s.curMin <= s.start <= s.end <= s.curMax
          && (s.start == s.curMin || s.end == s.start + s.Chosen().length - 1))
  }

  // ----- Progress of one level -----

  /** Windows still to come, then room left in the window in force. */
  function Weight(os: seq<Ordering>, s: State): nat {
    TotalRank(|os|, s.alternatives) * TWO_64 + s.curMax + 1
  }

  /** More than the weight of any state of this entry. */
  function Ceiling(os: seq<Ordering>, s: State): nat {
    (RankBound(|os|, |s.alternatives|) + 1) * TWO_64 + 1
  }

  lemma WeightBelowCeiling(os: seq<Ordering>, s: State)
    ensures 0 < Weight(os, s) < Ceiling(os, s)
  {
    TotalRankBounded(|os|, s.alternatives);
  }

  // ----- Trying windows -----

  /** What an attempt may do to a state, apart from where it is placed. */
  ghost predicate AttemptedFrom(kind: ArbiterKind, s0: State, s: State) {
    && s.entry == s0.entry.(result := s.entry.result)
    && s.HonestMark(s0)
    && SameAlternatives(s.alternatives, s0.alternatives)
    && MarkedFrom(s0, s)
    && s0.available <= s.available <= s0.available + Declared(kind, s0)
  }

  lemma DeclaredIsFixed(kind: ArbiterKind, s: State, t: State)
    requires s.entry.SameRequest(t.entry) && SameAlternatives(s.alternatives, t.alternatives)
    ensures Declared(kind, s) == Declared(kind, t)
  {
    assert forall i :: 0 <= i < |s.alternatives| ==>
                         && s.alternatives[i].SameRequest(t.alternatives[i])
                         && s.alternatives[i].fixed == t.alternatives[i].fixed
                         && s.alternatives[i].inaccessibleOk == t.alternatives[i].inaccessibleOk;
  }

  lemma MarkIsFixed(s: State, t: State)
    requires SameAlternatives(s.alternatives, t.alternatives)
    ensures AsksForDriver(s.alternatives) == AsksForDriver(t.alternatives)
  {
    assert forall i :: 0 <= i < |s.alternatives| ==>
                         && s.alternatives[i].SameRequest(t.alternatives[i])
                         && s.alternatives[i].descriptor == t.alternatives[i].descriptor;
  }

  lemma AttemptedOn(kind: ArbiterKind, s0: State, s: State, t: State)
    requires AttemptedFrom(kind, s0, s) && AttemptedFrom(kind, s, t)
    ensures AttemptedFrom(kind, s0, t)
  {
    DeclaredIsFixed(kind, s, s0);
    MarkIsFixed(s, s0);
    NothingIsNothing(t.alternatives, s.alternatives);
    forall i | 0 <= i < |s.alternatives|
      ensures t.alternatives[i].SameRequest(s0.alternatives[i])
    {
      assert t.alternatives[i].SameRequest(s.alternatives[i]);
      assert s.alternatives[i].SameRequest(s0.alternatives[i]);
    }
  }

  /** Every alternative has run out of windows. */
  predicate Exhausted(alts: seq<Alternative>) {
    forall i :: 0 <= i < |alts| ==> alts[i].priority >= PRIORITY_EXHAUSTED
  }

  /** One window: the next one, unless the present one is to be tried again. */
  method TryWindow(setup: Setup, list: RangeList, s0: State, same: bool) returns (more: bool, found: bool, s: State)
    requires setup.Valid()
    requires s0.current.Some? ==> s0.HasCurrent() && s0.Chosen().priority != PRIORITY_EXHAUSTED
    requires s0.current.Some? ==> AllSettled(setup.orderings, s0.alternatives)
    requires same ==> s0.HasCurrent() && Live(setup.orderings, s0.Chosen().priority) && Within(setup.orderings, s0)
    ensures AttemptedFrom(setup.kind, s0, s)
    ensures more ==> s.HasCurrent() && s.Chosen().priority != PRIORITY_EXHAUSTED
    ensures more ==> AllSettled(setup.orderings, s.alternatives)
    ensures found ==> more && PlacedWhole(setup.kind, list.ranges, s) && Sited(setup.orderings, s)
    ensures !more ==> Exhausted(s.alternatives)
    ensures more && !same && s0.HasCurrent() ==>
              TotalRank(|setup.orderings|, s.alternatives) < TotalRank(|setup.orderings|, s0.alternatives)
    ensures same ==> more && s.alternatives == s0.alternatives && s.curMax == s0.curMax
  {
    s, more := s0, true;
    if !same {
      ghost var turns;
      more, s, turns := GetNextAllocationRange(setup.orderings, s);
      if !more {
        return false, false, s;
      }
      DeclaredIsFixed(setup.kind, s, s0);
      MarkIsFixed(s, s0);
    }
    found, s := FindSuitableRange(setup, list, s);
  }

  /** The arbiter's own callback. A failure may name a range that was in the way. */
  method FindInWindow(setup: Setup, list: RangeList, s0: State) returns (ok: bool, s: State, blocker: Option<Range>)
    requires s0.current.Some? ==> s0.HasCurrent()
    ensures SearchedFrom(setup.kind, s0, s)
    ensures s0.curMin <= s.curMin && (Snug(s0) ==> s.curMin == s0.curMin)
    ensures ok ==> PlacedWhole(setup.kind, list.ranges, s)
    ensures if setup.kind == PortArbiter then PortThorough(list.ranges, s0, ok, s) else Thorough(list.ranges, s0, ok, s)
    ensures setup.kind == PortArbiter && Unaided(list.ranges, s0) ==> (ok <==> PortReaches(list.ranges, s0))
    ensures Stays(s0, s)
    ensures blocker.Some? ==> blocker.value in list.ranges
    // Away from the ports the window stays as it is.
    ensures setup.kind != PortArbiter ==> s.curMin == s0.curMin && Blames(list.ranges, s0, ok, s, blocker)
    ensures setup.kind != PortArbiter && !ok ==> Parked(s0, s)
    ensures setup.kind != PortArbiter && Searches(s0) ==>
              s.available == if setup.kind == BusArbiter then LibraryOpens(s0) else ResourceOpens(s0)
  {
    match setup.kind {
      case BusArbiter =>
        ok, s, blocker := LibraryFind(list, setup.mmconfig, BusArbiter, s0);
      case MemoryArbiter =>
        ok, s, blocker := ResourceFind(list, setup.mmconfig, MemoryArbiter, s0);
      case PortArbiter =>
        ok, s, blocker := PortFind(list, setup.mmconfig, s0);
    }
  }

  method FindSuitableRange(setup: Setup, list: RangeList, s0: State) returns (ok: bool, s: State)
    requires s0.HasCurrent() && AllSettled(setup.orderings, s0.alternatives)
    requires Live(setup.orderings, s0.Chosen().priority) && Within(setup.orderings, s0)
    ensures SearchedFrom(setup.kind, s0, s)
    ensures ok ==> PlacedWhole(setup.kind, list.ranges, s) && Sited(setup.orderings, s)
  {
    var blocker;
    ok, s, blocker := FindInWindow(setup, list, s0);
  }

  /** Tries window after window until one holds a placement or none is left. */
  method PlaceNext(setup: Setup, list: RangeList, s0: State, retry: bool) returns (found: bool, s: State)
    requires setup.Valid()
    requires s0.current.Some? ==> s0.HasCurrent() && s0.Chosen().priority != PRIORITY_EXHAUSTED
    requires s0.current.Some? ==> AllSettled(setup.orderings, s0.alternatives)
    requires retry ==> s0.HasCurrent() && Live(setup.orderings, s0.Chosen().priority) && Within(setup.orderings, s0)
    ensures AttemptedFrom(setup.kind, s0, s)
    ensures found ==> PlacedWhole(setup.kind, list.ranges, s) && Sited(setup.orderings, s)
    ensures !found ==> Exhausted(s.alternatives)
    ensures found && s0.HasCurrent() ==>
              || TotalRank(|setup.orderings|, s.alternatives) < TotalRank(|setup.orderings|, s0.alternatives)
              || (retry && s.alternatives == s0.alternatives && s.curMax == s0.curMax)
  {
    ghost var os := setup.orderings;
    s, found := s0, false;
    var same := retry;
    while true
      invariant s.current.Some? ==> s.HasCurrent() && s.Chosen().priority != PRIORITY_EXHAUSTED
      invariant s.current.Some? ==> AllSettled(os, s.alternatives)
      invariant same ==> s == s0 && retry
      invariant AttemptedFrom(setup.kind, s0, s)
      invariant s.current.None? ==> s0.current.None?
      invariant s0.HasCurrent() ==>
                  || TotalRank(|os|, s.alternatives) < TotalRank(|os|, s0.alternatives)
                  || (s.alternatives == s0.alternatives && s.curMax == s0.curMax)
      decreases s.current.None?, TotalRank(|os|, s.alternatives), same
    {
      ghost var before := s;
      var more;
      more, found, s := TryWindow(setup, list, s, same);
      AttemptedOn(setup.kind, s0, before, s);
      if !more || found {
        return found, s;
      }
      same := false;
    }
  }

  /** An entry is given up when its windows have run out, or when it asked for nothing and so has nothing to vary. */
  predicate GaveUp(s: State) {
    Exhausted(s.alternatives) || (s.HasCurrent() && s.Chosen().length == 0)
  }

  /**
  One visit of the search to one entry. `back` says the entry after it could
  not be placed, so its own placement is withdrawn and varied first. The ghost
  result `rs` is the tentative list the choice was made against.
  */
  method Attempt(setup: Setup, list: RangeList, s0: State, back: bool, deadline: nat,
                 ghost ledger: seq<Range>, ghost sharing: bool)
    returns (found: bool, s: State, ghost rs: seq<Range>)
    requires setup.Valid()
    requires Forward(list.ranges)
    requires back ==> Sited(setup.orderings, s0) && Balanced(list.ranges, ledger + Laid(setup.kind, s0), sharing)
    requires back && sharing ==> Matching(list.ranges, Laid(setup.kind, s0))
    requires !back ==> s0.current.None? && Balanced(list.ranges, ledger, sharing)
    modifies list
    ensures AttemptedFrom(setup.kind, s0, s)
    // The list without the old choice, and with the new one.
    ensures Balanced(rs, ledger, sharing)
    ensures forall q :: q in rs ==> q in old(list.ranges)
    ensures forall q :: q in old(list.ranges) && q.owner != s0.entry.device ==> q in rs
    ensures list.ranges == if found then rs + Laid(setup.kind, s) else rs
    ensures found ==> Sited(setup.orderings, s) && PlacedWhole(setup.kind, rs, s)
    ensures !found ==> GaveUp(s)
    // A new choice is strictly later than the old one.
    ensures found ==>
              Weight(setup.orderings, s) < if back then Weight(setup.orderings, s0) else Ceiling(setup.orderings, s0)
  {
    hide Balanced, Laid, PlacedWhole, Within, AllSettled, Weight, Ceiling, TotalRank, Matching, Forward;
    s, found, rs := s0, false, list.ranges;
    var retry := false;
    if back {
      var stuck;
      stuck, retry, s := TakeBack(setup, list, s0, deadline, ledger, sharing);
      if stuck {
        return;
      }
    }
    rs := list.ranges;
    ghost var before := s;
    assert Declared(setup.kind, before) == Declared(setup.kind, s0);
    found, s := Choose(setup, list, s, retry);
    if found {
      LaterChoiceWeighsLess(setup.orderings, s0, before, s, back, retry);
    }
  }

  /** Finds a placement and lays it down. */
  method Choose(setup: Setup, list: RangeList, s0: State, retry: bool) returns (found: bool, s: State)
    requires setup.Valid()
    requires s0.current.Some? ==> s0.HasCurrent() && s0.Chosen().priority != PRIORITY_EXHAUSTED
    requires s0.current.Some? ==> AllSettled(setup.orderings, s0.alternatives)
    requires retry ==> s0.HasCurrent() && Live(setup.orderings, s0.Chosen().priority) && Within(setup.orderings, s0)
    modifies list
    ensures AttemptedFrom(setup.kind, s0, s)
    ensures found ==> PlacedWhole(setup.kind, old(list.ranges), s) && Sited(setup.orderings, s)
    ensures !found ==> Exhausted(s.alternatives)
    ensures list.ranges == if found then old(list.ranges) + Laid(setup.kind, s) else old(list.ranges)
    ensures found && s0.HasCurrent() ==>
              || TotalRank(|setup.orderings|, s.alternatives) < TotalRank(|setup.orderings|, s0.alternatives)
              || (retry && s.alternatives == s0.alternatives && s.curMax == s0.curMax)
  {
    found, s := PlaceNext(setup, list, s0, retry);
    if found {
      s := Record(setup, list, s);
    }
  }

  /** Withdraws the placement of an entry and says whether to retry lower in the same window. */
  method TakeBack(setup: Setup, list: RangeList, s0: State, deadline: nat, ghost ledger: seq<Range>,
                  ghost sharing: bool)
    returns (stuck: bool, retry: bool, s: State)
    requires Forward(list.ranges)
    requires Sited(setup.orderings, s0) && Balanced(list.ranges, ledger + Laid(setup.kind, s0), sharing)
    requires sharing ==> Matching(list.ranges, Laid(setup.kind, s0))
    modifies list
    ensures Balanced(list.ranges, ledger, sharing)
    ensures forall q :: q in list.ranges ==> q in old(list.ranges)
    ensures forall q :: q in old(list.ranges) && q.owner != s0.entry.device ==> q in list.ranges
    ensures stuck ==> !retry && list.ranges == old(list.ranges) && s0.Chosen().length == 0
    ensures !retry ==> s == s0
    ensures retry ==> !s0.Chosen().fixed
    ensures retry ==> s0.curMin < s0.start && s == s0.(curMax := s0.start - 1) && s.curMax < s0.curMax
    ensures retry ==> Within(setup.orderings, s)
  {
    s, stuck, retry := s0, false, false;
    if s.current.None? || s.Chosen().length == 0 {
      assert ledger + [] == ledger;
      stuck := true;
      return;
    }
    BacktrackAllocation(list, setup.kind, s, ledger, sharing);
    if s.start > s.curMin && !s.Chosen().fixed {
      var t := QueryInterruptTime();
      if t <= deadline {
        s := s.(curMax := s.start - 1);
        retry := true;
      }
    }
  }

  /** Lays the choice down, or marks the entry when there is nothing to lay. */
  method Record(setup: Setup, list: RangeList, s0: State) returns (s: State)
    requires Sited(setup.orderings, s0) && PlacedWhole(setup.kind, list.ranges, s0)
    modifies list
    ensures s == s0.(entry := s0.entry.(result := s.entry.result)) && s.HonestMark(s0)
    ensures Sited(setup.orderings, s) && PlacedWhole(setup.kind, old(list.ranges), s)
    ensures list.ranges == old(list.ranges) + Laid(setup.kind, s)
  {
    s := s0;
    if s.Chosen().length != 0 {
      AddAllocation(list, setup.kind, s);
    } else {
      s := s.(entry := s.entry.(result := NullRequest));
      assert list.ranges == list.ranges + [];
    }
  }

  lemma LaterChoiceWeighsLess(os: seq<Ordering>, s0: State, before: State, s: State, back: bool, retry: bool)
    requires |s.alternatives| == |s0.alternatives|
    requires before == if retry then s0.(curMax := before.curMax) else s0
    requires retry ==> before.curMax < s0.curMax
    requires back ==> s0.HasCurrent()
    requires back ==>
               || TotalRank(|os|, s.alternatives) < TotalRank(|os|, before.alternatives)
               || (retry && s.alternatives == before.alternatives && s.curMax == before.curMax)
    ensures Weight(os, s) < if back then Weight(os, s0) else Ceiling(os, s0)
  {
    WeightBelowCeiling(os, s);
  }
}
