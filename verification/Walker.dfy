/**
The window walker: which part of an entry's alternatives is searched next, in
priority order over the arbiter's ordering windows.
*/
module Walker {
  import opened Words
  import opened RangeLists
  import opened ArbiterTypes

  const PRIORITY_NULL := 0
  const PRIORITY_PREFERRED_RESERVED := 0x7FFF_FFFD
  const PRIORITY_RESERVED := 0x7FFF_FFFE
  const PRIORITY_EXHAUSTED := 0x7FFF_FFFF

  /** ARBITER_ORDERING_LIST.Count is 16 bits wide. */
  predicate OrderingList(os: seq<Ordering>) {
    |os| <= 0xFFFF
  }

  /** The ordering index a priority stands for, computed in 32-bit unsigned arithmetic. */
  function IndexOf(priority: int): nat {
    if priority < 0 then -(priority + 1) else (priority - 1) % TWO_32
  }

  predicate Whole(priority: int) {
    priority == PRIORITY_RESERVED || priority == PRIORITY_PREFERRED_RESERVED
  }

  /** The ordering window is long enough, where it meets the alternative, to hold it. */
  predicate Fits(o: Ordering, a: Alternative) {
    && o.start <= a.maximum
    && a.minimum <= o.end
    && Wrap64(Min(a.maximum, o.end) - Max(a.minimum, o.start) + 1) >= a.length
  }

  predicate FirstFit(os: seq<Ordering>, from: int, a: Alternative, i: int) {
    && 0 <= from <= i <= |os|
    && (i < |os| ==> Fits(os[i], a))
    && forall j :: from <= j < i ==> !Fits(os[j], a)
  }

  function WholePriority(a: Alternative): int {
    if a.descriptor.preferred then PRIORITY_PREFERRED_RESERVED else PRIORITY_RESERVED
  }

  function OrderingPriority(a: Alternative, i: nat): int {
    if a.descriptor.preferred then -(i + 1) else i + 1
  }

  /** The first ordering window not tried yet. */
  function FirstIndex(a: Alternative): nat {
    if a.priority == PRIORITY_NULL then 0 else IndexOf(a.priority) + 1
  }

  /** What the priority of an alternative becomes once its present window is spent. */
  ghost predicate Advanced(os: seq<Ordering>, a: Alternative, next: int) {
    if a.priority == PRIORITY_EXHAUSTED || Whole(a.priority) then
      next == PRIORITY_EXHAUSTED
    else if a.priority != PRIORITY_NULL && a.fixed then
      next == PRIORITY_EXHAUSTED
    else if a.priority != PRIORITY_NULL && IndexOf(a.priority) >= |os| then
      next == WholePriority(a)
    else
      exists i :: FirstFit(os, FirstIndex(a), a, i)
                  && next == if i < |os| then OrderingPriority(a, i) else WholePriority(a)
  }

  /** One alternative moved on to its next window. */
  ghost predicate NextIs(os: seq<Ordering>, a: Alternative, b: Alternative) {
    b == a.(priority := b.priority) && Advanced(os, a, b.priority)
  }

  method WritePriority(os: seq<Ordering>, a: Alternative) returns (r: Alternative)
    requires OrderingList(os)
    ensures r.SameRequest(a) && NextIs(os, a, r)
    ensures Advanced(os, a, r.priority)
  {
    if a.priority == PRIORITY_EXHAUSTED {
      return a;
    }
    if Whole(a.priority) {
      return a.(priority := PRIORITY_EXHAUSTED);
    }
    var i := 0;
    if a.priority != PRIORITY_NULL {
      if a.fixed {
        return a.(priority := PRIORITY_EXHAUSTED);
      }
      if IndexOf(a.priority) >= |os| {
        return a.(priority := WholePriority(a));
      }
      i := IndexOf(a.priority) + 1;
    }
    ghost var from := FirstIndex(a);
    while i < |os|
      invariant from <= i <= |os|
      invariant forall j :: from <= j < i ==> !Fits(os[j], a)
    {
      if Fits(os[i], a) {
        assert FirstFit(os, from, a, i);
        return a.(priority := OrderingPriority(a, i));
      }
      i := i + 1;
    }
    assert FirstFit(os, from, a, i);
    return a.(priority := WholePriority(a));
  }

  // ----- Progress -----

  /** How many more windows an alternative at this priority can still be given. */
  function Rank(count: nat, priority: int): nat {
    if priority == PRIORITY_EXHAUSTED then 0
    else if Whole(priority) then 1
    else if priority == PRIORITY_NULL then count + 3
    else if IndexOf(priority) < count then count - IndexOf(priority) + 1
    else 2
  }

  function TotalRank(count: nat, alts: seq<Alternative>): nat {
    if alts == [] then 0
    else TotalRank(count, alts[..|alts| - 1]) + Rank(count, alts[|alts| - 1].priority)
  }

  lemma AdvanceLowersRank(os: seq<Ordering>, a: Alternative, next: int)
    requires OrderingList(os)
    requires Advanced(os, a, next)
    ensures a.priority != PRIORITY_EXHAUSTED ==> Rank(|os|, next) < Rank(|os|, a.priority)
    ensures a.priority == PRIORITY_EXHAUSTED ==> next == PRIORITY_EXHAUSTED
  {
  }

  lemma {:induction false} TotalRankUpdate(count: nat, alts: seq<Alternative>, i: nat, a: Alternative)
    requires i < |alts|
    ensures TotalRank(count, alts[i := a]) - Rank(count, a.priority)
         == TotalRank(count, alts) - Rank(count, alts[i].priority)
  {
    var last := |alts| - 1;
    if i < last {
      TotalRankUpdate(count, alts[..last], i, a);
      assert alts[i := a][..last] == alts[..last][i := a];
    } else {
      assert alts[i := a][..last] == alts[..last];
    }
  }

  /** A level of the search that has not been entered yet counts more than any entered one. */
  function RankBound(count: nat, n: nat): nat {
    n * (count + 3)
  }

  lemma {:induction false} TotalRankBounded(count: nat, alts: seq<Alternative>)
    ensures TotalRank(count, alts) <= RankBound(count, |alts|)
  {
    if alts != [] {
      TotalRankBounded(count, alts[..|alts| - 1]);
      assert RankBound(count, |alts|) == RankBound(count, |alts| - 1) + (count + 3);
    }
  }

  // ----- Order -----

  /** 0: preferred ordering window, 1: ordinary ordering window, 2 and 3: whole window, 4: spent. */
  function Phase(priority: int): nat {
    if priority < 0 then 0
    else if priority < PRIORITY_PREFERRED_RESERVED then 1
    else if priority == PRIORITY_PREFERRED_RESERVED then 2
    else if priority == PRIORITY_RESERVED then 3
    else 4
  }

  /** A window at `q` may follow one at `p`. */
  predicate Later(p: int, q: int) {
    Phase(p) < Phase(q) || (Phase(p) == Phase(q) && (Phase(p) == 1 ==> p <= q))
  }

  /**
  A seeded priority: its sign says whether the alternative is a preferred one,
  and an ordering index names a window that can hold the alternative.
  */
  predicate Settled(os: seq<Ordering>, a: Alternative) {
    && a.priority != PRIORITY_NULL
    && a.priority <= PRIORITY_EXHAUSTED
    && (Phase(a.priority) <= 1 ==> IndexOf(a.priority) < |os| && Fits(os[IndexOf(a.priority)], a))
    && (Phase(a.priority) == 0 ==> a.descriptor.preferred)
    && (Phase(a.priority) == 1 ==> !a.descriptor.preferred)
  }

  lemma AdvanceIsLater(os: seq<Ordering>, a: Alternative, next: int)
    requires OrderingList(os)
    requires Advanced(os, a, next)
    requires Settled(os, a) || a.priority == PRIORITY_NULL
    ensures Settled(os, a.(priority := next))
    ensures Settled(os, a) ==> Later(a.priority, next)
  {
  }

  predicate Lowest(alts: seq<Alternative>, i: nat)
    requires i < |alts|
  {
    forall j :: 0 <= j < |alts| ==> alts[i].priority <= alts[j].priority
  }

  predicate FirstLowest(alts: seq<Alternative>, i: nat)
    requires i < |alts|
  {
    Lowest(alts, i) && forall j :: 0 <= j < i ==> alts[i].priority < alts[j].priority
  }

  // ----- Windows -----

  /** The window a priority selects, before it is trimmed for alignment and length. */
  function RawWindow(os: seq<Ordering>, a: Alternative): (w: (u64, u64)) {
    if !Whole(a.priority) && IndexOf(a.priority) < |os| then
      var o := os[IndexOf(a.priority)];
      (Max(a.minimum, o.start), Min(a.maximum, o.end))
    else
      (a.minimum, a.maximum)
  }

  function AlignDown(x: nat, alignment: nat): (r: nat)
    requires alignment > 0
    ensures r <= x
  {
    AlignDownIsNatural(x, alignment);
    x - x % alignment
  }

  lemma AlignDownIsNatural(x: nat, alignment: nat)
    requires alignment > 0
    ensures 0 <= x % alignment <= x
  {
    var q := x / alignment;
    assert -1 * alignment < q * alignment;
    MulCancel(-1, q, alignment);
    MulOrder(0, q, alignment);
  }

  /**
  Shrinks a window to the aligned placements of `length` inside it, in wrapping
  64-bit arithmetic. None when it finds that nothing fits.
  */
  function Trim(minimum: u64, maximum: u64, length: u64, alignment: u64): (w: Option<(u64, u64)>)
    requires length > 0 && alignment > 0
    ensures w.Some? ==> w.value.0 <= w.value.1 && w.value.1 <= maximum && length - 1 <= w.value.1 - w.value.0
  {
    var lo := AlignDown(Wrap64(minimum + alignment - 1), alignment);
    if lo > maximum || length - 1 > maximum - lo then None
    else
      var alignedMax := AlignDown(maximum - (length - 1), alignment);
      if alignedMax < lo then None else Some((lo, alignedMax + (length - 1)))
  }

  /** The trimmed window admits exactly the aligned placements of the raw one. */
  ghost predicate SamePlacements(minimum: u64, maximum: u64, length: u64, alignment: u64, w: (u64, u64))
    requires alignment > 0
  {
    forall s: int :: Candidate(minimum, maximum, length, alignment, s)
                     <==> Candidate(w.0, w.1, length, alignment, s)
  }

  /** Rounding the bottom of the window up to the alignment stays inside 64 bits. */
  predicate NoCarry(minimum: u64, alignment: u64) {
    minimum + alignment - 1 < TWO_64
  }

  lemma AlignUp(m: int, alignment: int)
    requires alignment > 0
    ensures var x := m + alignment - 1; var lo := x - x % alignment;
            lo % alignment == 0 && m <= lo && forall s: int :: s % alignment == 0 && m <= s ==> lo <= s
  {
    var x := m + alignment - 1;
    AlignDownIsHighest(x, alignment);
    var lo := x - x % alignment;
    StepDownIsNext(lo, alignment);
  }

  /** A window that is given up held no placement. */
  lemma TrimNoneMeansNoPlacement(minimum: u64, maximum: u64, length: u64, alignment: u64)
    requires length > 0 && alignment > 0
    requires NoCarry(minimum, alignment)
    ensures Trim(minimum, maximum, length, alignment).None? ==>
              forall s: int :: !Candidate(minimum, maximum, length, alignment, s)
  {
    AlignUp(minimum, alignment);
    AlignDownIsHighest(maximum - (length - 1), alignment);
  }

  ghost predicate LowestAligned(minimum: int, alignment: int, lo: int)
    requires alignment > 0
  {
    minimum <= lo && forall s: int :: s % alignment == 0 && minimum <= s ==> lo <= s
  }

  ghost predicate HighestAligned(maximum: int, alignment: int, top: int)
    requires alignment > 0
  {
    top <= maximum && forall s: int :: s % alignment == 0 && s <= maximum ==> s <= top
  }

  /** One placement, given where the aligned ends of the window lie. */
  lemma PlacementKept(minimum: int, maximum: int, length: int, alignment: int, lo: int, top: int, s: int)
    requires alignment > 0
    requires LowestAligned(minimum, alignment, lo) && HighestAligned(maximum - (length - 1), alignment, top)
    ensures Candidate(minimum, maximum, length, alignment, s) <==>
              Candidate(lo, top + (length - 1), length, alignment, s)
  {
  }

  lemma TrimWithoutCarry(minimum: u64, maximum: u64, length: u64, alignment: u64)
    requires length > 0 && alignment > 0
    requires Trim(minimum, maximum, length, alignment).Some? && NoCarry(minimum, alignment)
    ensures length - 1 <= maximum
    ensures Trim(minimum, maximum, length, alignment).value ==
            (AlignDown(minimum + alignment - 1, alignment), AlignDown(maximum - (length - 1), alignment) + (length - 1))
  {
    hide AlignDown, Wrap64;
    WrapOfSmall(minimum + alignment - 1);
  }

  lemma WrapOfSmall(x: nat)
    requires x < TWO_64
    ensures Wrap64(x) == x
  {
  }

  lemma TrimKeepsPlacements(minimum: u64, maximum: u64, length: u64, alignment: u64)
    requires length > 0 && alignment > 0
    requires Trim(minimum, maximum, length, alignment).Some?
    requires NoCarry(minimum, alignment)
    ensures SamePlacements(minimum, maximum, length, alignment, Trim(minimum, maximum, length, alignment).value)
  {
    hide Candidate, Trim, AlignDown, LowestAligned, HighestAligned;
    TrimWithoutCarry(minimum, maximum, length, alignment);
    var w := Trim(minimum, maximum, length, alignment).value;
    var lo := AlignDown(minimum + alignment - 1, alignment);
    var top := AlignDown(maximum - (length - 1), alignment);
    AlignedEnds(minimum, maximum - (length - 1), alignment);
    forall s: int
      ensures Candidate(minimum, maximum, length, alignment, s) <==> Candidate(w.0, w.1, length, alignment, s)
    {
      PlacementKept(minimum, maximum, length, alignment, lo, top, s);
    }
  }

  lemma AlignedEnds(minimum: nat, last: nat, alignment: nat)
    requires alignment > 0
    ensures LowestAligned(minimum, alignment, AlignDown(minimum + alignment - 1, alignment))
    ensures HighestAligned(last, alignment, AlignDown(last, alignment))
  {
    AlignUp(minimum, alignment);
    AlignDownIsHighest(last, alignment);
  }

  /** A carry out of 64 bits restarts the window at zero, below the alternative. */
  lemma CarryRestartsAtZero(minimum: u64, alignment: u64)
    requires alignment > 0
    requires !NoCarry(minimum, alignment)
    ensures var raised := Wrap64(minimum + alignment - 1); raised - raised % alignment == 0 && minimum > 0
  {
    var raised := minimum + alignment - 1 - TWO_64;
    DivModUnique(minimum + alignment - 1, 1, raised, TWO_64);
    DivModUnique(raised, 0, raised, alignment);
  }

  lemma TrimStartsAbove(minimum: u64, maximum: u64, length: u64, alignment: u64)
    requires length > 0 && alignment > 0 && NoCarry(minimum, alignment)
    requires Trim(minimum, maximum, length, alignment).Some?
    ensures minimum <= Trim(minimum, maximum, length, alignment).value.0
  {
    AlignUp(minimum, alignment);
  }

  /** Both ends of a trimmed window are placements of their own. */
  lemma TrimEndsFit(minimum: u64, maximum: u64, length: u64, alignment: u64)
    requires length > 0 && alignment > 0
    requires Trim(minimum, maximum, length, alignment).Some?
    ensures var w := Trim(minimum, maximum, length, alignment).value;
            && Candidate(w.0, w.1, length, alignment, w.0)
            && Candidate(w.0, w.1, length, alignment, w.1 - (length - 1))
  {
    hide AlignDown, Wrap64;
    var w := Trim(minimum, maximum, length, alignment).value;
    DownIsAligned(maximum - (length - 1), alignment);
    DownIsAligned(Wrap64(minimum + alignment - 1), alignment);
  }

  lemma DownIsAligned(x: nat, alignment: nat)
    requires alignment > 0
    ensures AlignDown(x, alignment) % alignment == 0
  {
    AlignDownIsAligned(x, alignment);
  }

  /** A window that is kept loses no placement and gains none, exactly when the rounding carries no bit out. */
  lemma TrimExact(minimum: u64, maximum: u64, length: u64, alignment: u64)
    requires length > 0 && alignment > 0
    requires Trim(minimum, maximum, length, alignment).Some?
    ensures SamePlacements(minimum, maximum, length, alignment, Trim(minimum, maximum, length, alignment).value)
            <==> NoCarry(minimum, alignment)
  {
    var w := Trim(minimum, maximum, length, alignment).value;
    if NoCarry(minimum, alignment) {
      TrimKeepsPlacements(minimum, maximum, length, alignment);
    } else {
      CarryRestartsAtZero(minimum, alignment);
      TrimEndsFit(minimum, maximum, length, alignment);
      assert Candidate(w.0, w.1, length, alignment, 0);
      assert !Candidate(minimum, maximum, length, alignment, 0);
    }
  }

  /** The chosen priority names a window. */
  predicate Live(os: seq<Ordering>, priority: int) {
    priority != PRIORITY_EXHAUSTED && (Whole(priority) || IndexOf(priority) < |os|)
  }

  method PickLowest(alts: seq<Alternative>) returns (lowest: nat)
    requires alts != []
    ensures lowest < |alts| && FirstLowest(alts, lowest)
  {
    lowest := 0;
    for i := 1 to |alts|
      invariant lowest < i
      invariant forall j :: 0 <= j < i ==> alts[lowest].priority <= alts[j].priority
      invariant forall j :: 0 <= j < lowest ==> alts[lowest].priority < alts[j].priority
    {
      if alts[i].priority < alts[lowest].priority {
        lowest := i;
      }
    }
  }

  method SeedPriorities(os: seq<Ordering>, alts: seq<Alternative>) returns (seeded: seq<Alternative>)
    requires OrderingList(os)
    ensures |seeded| == |alts|
    ensures forall i :: 0 <= i < |alts| ==> seeded[i].SameRequest(alts[i]) && Settled(os, seeded[i])
    ensures forall i :: 0 <= i < |alts| ==> NextIs(os, alts[i].(priority := PRIORITY_NULL), seeded[i])
  {
    hide Advanced;
    seeded := alts;
    for i := 0 to |alts|
      invariant |seeded| == |alts|
      invariant forall j :: 0 <= j < |alts| ==> seeded[j].SameRequest(alts[j])
      invariant forall j :: 0 <= j < i ==> Settled(os, seeded[j])
      invariant forall j :: 0 <= j < i ==> NextIs(os, alts[j].(priority := PRIORITY_NULL), seeded[j])
      invariant forall j :: i <= j < |alts| ==> seeded[j] == alts[j]
    {
      var a := seeded[i].(priority := PRIORITY_NULL);
      var b := WritePriority(os, a);
      AdvanceIsLater(os, a, b.priority);
      assert a.(priority := b.priority) == b;
      seeded := seeded[i := b];
    }
  }

  /** Every window still to come may follow one at priority `p`. */
  ghost predicate AllLater(os: seq<Ordering>, p: int, alts: seq<Alternative>) {
    forall i :: 0 <= i < |alts| ==> Settled(os, alts[i]) && Later(p, alts[i].priority)
  }

  ghost predicate AllSettled(os: seq<Ordering>, alts: seq<Alternative>) {
    forall i :: 0 <= i < |alts| ==> Settled(os, alts[i])
  }

  /** The alternative last worked on has moved on to its next window; on first entry all of them have been seeded. */
  ghost predicate AdvancedAll(os: seq<Ordering>, alts: seq<Alternative>, current: Option<nat>, next: seq<Alternative>) {
    && |next| == |alts|
    && forall i :: 0 <= i < |alts| ==>
                     if current.None? then NextIs(os, alts[i].(priority := PRIORITY_NULL), next[i])
                     else if current.value == i then NextIs(os, alts[i], next[i])
                     else next[i] == alts[i]
  }

  /** Moves the alternative last worked on to its next window, or seeds them all on first entry. */
  method Advance(os: seq<Ordering>, alts: seq<Alternative>, current: Option<nat>)
    returns (next: seq<Alternative>)
    requires OrderingList(os)
    requires current.Some? ==> current.value < |alts|
    ensures SameAlternatives(next, alts)
    ensures current.Some? && alts[current.value].priority != PRIORITY_EXHAUSTED ==>
              TotalRank(|os|, next) < TotalRank(|os|, alts)
    ensures current.Some? && alts[current.value].priority == PRIORITY_EXHAUSTED ==> next == alts
    ensures current.None? || AllSettled(os, alts) ==> AllSettled(os, next)
    ensures current.Some? ==> KeepsOrder(os, alts, next)
    ensures AdvancedAll(os, alts, current, next)
  {
    hide Advanced;
    if current.Some? {
      var k := current.value;
      var a := WritePriority(os, alts[k]);
      AdvanceLowersRank(os, alts[k], a.priority);
      TotalRankUpdate(|os|, alts, k, a);
      assert alts[k].(priority := a.priority) == a;
      if Settled(os, alts[k]) {
        AdvanceIsLater(os, alts[k], a.priority);
      }
      next := alts[k := a];
    } else {
      next := SeedPriorities(os, alts);
    }
  }

  lemma SpendLowersRank(os: seq<Ordering>, alts: seq<Alternative>, k: nat)
    requires k < |alts| && Rank(|os|, alts[k].priority) > 0
    ensures TotalRank(|os|, alts[k := alts[k].(priority := PRIORITY_EXHAUSTED)]) < TotalRank(|os|, alts)
    ensures AllSettled(os, alts) ==> AllSettled(os, alts[k := alts[k].(priority := PRIORITY_EXHAUSTED)])
    ensures KeepsOrder(os, alts, alts[k := alts[k].(priority := PRIORITY_EXHAUSTED)])
  {
    TotalRankUpdate(|os|, alts, k, alts[k].(priority := PRIORITY_EXHAUSTED));
  }

  lemma LowestIsEarliest(os: seq<Ordering>, alts: seq<Alternative>, k: nat)
    requires k < |alts| && AllSettled(os, alts) && Lowest(alts, k)
    ensures AllLater(os, alts[k].priority, alts)
  {
  }

  datatype Outcome = Spent | Again | Window(minimum: u64, maximum: u64)

  /** The window in force is the one the alternative's priority selects. */
  ghost predicate Selects(os: seq<Ordering>, a: Alternative, minimum: u64, maximum: u64) {
    var raw := RawWindow(os, a);
    if a.length == 0 then (minimum, maximum) == raw
    else Trim(raw.0, raw.1, a.length, a.Step()) == Some((minimum, maximum))
  }

  /** The window the lowest priority selects is of no use: too small, or the one just tried. */
  ghost predicate Useless(os: seq<Ordering>, a: Alternative, current: bool, curMin: u64, curMax: u64) {
    && Live(os, a.priority)
    && (|| (a.length != 0 && Trim(RawWindow(os, a).0, RawWindow(os, a).1, a.length, a.Step()).None?)
        || (current && Selects(os, a, curMin, curMax)))
  }

  /** What becomes of the lowest priority. */
  ghost predicate Answer(os: seq<Ordering>, alts: seq<Alternative>, current: Option<nat>, curMin: u64, curMax: u64,
                         outcome: Outcome, next: seq<Alternative>, lowest: nat) {
    && lowest < |alts| && FirstLowest(alts, lowest)
    && var a := alts[lowest];
       match outcome
       case Spent => next == alts && a.priority == PRIORITY_EXHAUSTED
       case Again =>
         if !Live(os, a.priority)
         then a.priority != PRIORITY_EXHAUSTED && next == alts[lowest := a.(priority := PRIORITY_EXHAUSTED)]
         else next == alts && Useless(os, a, current == Some(lowest), curMin, curMax)
       case Window(minimum, maximum) =>
         && next == alts && Live(os, a.priority) && Selects(os, a, minimum, maximum)
         && (minimum != curMin || maximum != curMax || current != Some(lowest))
  }

  /** Turns the lowest priority into a window, consuming it when the window is no use. */
  method Offer(os: seq<Ordering>, alts: seq<Alternative>, current: Option<nat>, curMin: u64, curMax: u64)
    returns (outcome: Outcome, next: seq<Alternative>, lowest: nat)
    requires OrderingList(os)
    requires alts != []
    ensures SameAlternatives(next, alts) && lowest < |next|
    ensures outcome.Spent? ==> next == alts && forall i :: 0 <= i < |alts| ==> alts[i].priority >= PRIORITY_EXHAUSTED
    ensures outcome.Again? ==>
              || (next == alts && next[lowest].priority != PRIORITY_EXHAUSTED)
              || TotalRank(|os|, next) < TotalRank(|os|, alts)
    ensures outcome.Window? ==>
              && next == alts && Lowest(next, lowest) && Live(os, next[lowest].priority)
              && Selects(os, next[lowest], outcome.minimum, outcome.maximum)
    ensures AllSettled(os, alts) ==> AllSettled(os, next)
    ensures KeepsOrder(os, alts, next)
    ensures Answer(os, alts, current, curMin, curMax, outcome, next, lowest)
  {
    next := alts;
    lowest := PickLowest(alts);
    var a := alts[lowest];
    if a.priority == PRIORITY_EXHAUSTED {
      outcome := Spent;
      return;
    }
    if !Whole(a.priority) && IndexOf(a.priority) >= |os| {
      SpendLowersRank(os, alts, lowest);
      next := alts[lowest := a.(priority := PRIORITY_EXHAUSTED)];
      outcome := Again;
      return;
    }
    var (minimum, maximum) := RawWindow(os, a);
    if a.length != 0 {
      var trimmed := Trim(minimum, maximum, a.length, a.Step());
      if trimmed.None? {
        outcome := Again;
        return;
      }
      minimum, maximum := trimmed.value.0, trimmed.value.1;
    }
    if minimum != curMin || maximum != curMax || current != Some(lowest) {
      outcome := Window(minimum, maximum);
    } else {
      outcome := Again;
    }
  }

  /** What the walker does to the alternatives it is given, in one turn or in several. */
  ghost predicate Walked(os: seq<Ordering>, alts: seq<Alternative>, current: Option<nat>, next: seq<Alternative>)
    requires current.Some? ==> current.value < |alts|
  {
    && SameAlternatives(next, alts)
    && (current.Some? ==> TotalRank(|os|, next) <= TotalRank(|os|, alts))
    && (current.Some? && alts[current.value].priority != PRIORITY_EXHAUSTED ==>
          TotalRank(|os|, next) < TotalRank(|os|, alts))
    && (current.None? || AllSettled(os, alts) ==> AllSettled(os, next))
    && (current.Some? && AllSettled(os, alts) && Lowest(alts, current.value) ==>
          AllLater(os, alts[current.value].priority, next))
  }

  /** One turn keeps a bound on the order of what is still to come. */
  ghost predicate KeepsOrder(os: seq<Ordering>, alts: seq<Alternative>, next: seq<Alternative>) {
    forall p :: AllLater(os, p, alts) ==> AllLater(os, p, next)
  }

  lemma WalkedOn(os: seq<Ordering>, a: seq<Alternative>, i: Option<nat>, b: seq<Alternative>, j: nat,
                 c: seq<Alternative>)
    requires i.Some? ==> i.value < |a|
    requires j < |b|
    requires Walked(os, a, i, b)
    requires Walked(os, b, Some(j), c) && KeepsOrder(os, b, c)
    ensures Walked(os, a, i, c)
  {
  }

  /** One turn of the walker as it is seen from outside. */
  datatype Turn = Turn(alts: seq<Alternative>, current: Option<nat>, advanced: seq<Alternative>,
                       outcome: Outcome, next: seq<Alternative>, lowest: nat)

  ghost predicate Taken(os: seq<Ordering>, curMin: u64, curMax: u64, t: Turn) {
    && AdvancedAll(os, t.alts, t.current, t.advanced)
    && Answer(os, t.advanced, t.current, curMin, curMax, t.outcome, t.next, t.lowest)
  }

  /** Turns that lead from the alternatives at entry to those at the end, each but the last without a window. */
  ghost predicate Chain(os: seq<Ordering>, curMin: u64, curMax: u64, alts: seq<Alternative>, current: Option<nat>,
                        ts: seq<Turn>) {
    && (ts != [] ==> ts[0].alts == alts && ts[0].current == current)
    && (forall i :: 0 <= i < |ts| ==> Taken(os, curMin, curMax, ts[i]))
    && (forall i :: 0 <= i < |ts| - 1 ==>
                      ts[i].outcome.Again? && ts[i + 1].alts == ts[i].next && ts[i + 1].current == Some(ts[i].lowest))
  }

  lemma ChainOn(os: seq<Ordering>, curMin: u64, curMax: u64, alts: seq<Alternative>, current: Option<nat>,
                ts: seq<Turn>, t: Turn)
    requires Chain(os, curMin, curMax, alts, current, ts) && Taken(os, curMin, curMax, t)
    requires ts == [] ==> t.alts == alts && t.current == current
    requires ts != [] ==>
               var last := ts[|ts| - 1]; last.outcome.Again? && t.alts == last.next && t.current == Some(last.lowest)
    ensures Chain(os, curMin, curMax, alts, current, ts + [t])
  {
    hide Taken;
  }

  /** A window passed over for its size held no placement, as long as the rounding carries no bit out. */
  lemma PassedOverHeldNothing(os: seq<Ordering>, curMin: u64, curMax: u64, t: Turn)
    requires Taken(os, curMin, curMax, t) && t.outcome.Again? && Live(os, t.advanced[t.lowest].priority)
    ensures var a := t.advanced[t.lowest]; var raw := RawWindow(os, a);
            || (t.current == Some(t.lowest) && Selects(os, a, curMin, curMax))
            || (NoCarry(raw.0, a.Step()) ==> forall p: int :: !Candidate(raw.0, raw.1, a.length, a.Step(), p))
  {
    var a := t.advanced[t.lowest];
    var raw := RawWindow(os, a);
    if a.length != 0 && NoCarry(raw.0, a.Step()) {
      TrimNoneMeansNoPlacement(raw.0, raw.1, a.length, a.Step());
    }
  }

  /** One turn of the walker. */
  method Round(os: seq<Ordering>, alts: seq<Alternative>, current: Option<nat>, curMin: u64, curMax: u64)
    returns (outcome: Outcome, next: seq<Alternative>, lowest: nat, ghost t: Turn)
    requires OrderingList(os)
    requires alts != [] && (current.Some? ==> current.value < |alts|)
    ensures Walked(os, alts, current, next) && lowest < |next|
    ensures current.Some? ==> KeepsOrder(os, alts, next)
    ensures outcome.Spent? ==> forall i :: 0 <= i < |next| ==> next[i].priority >= PRIORITY_EXHAUSTED
    ensures outcome.Window? ==>
              && Lowest(next, lowest) && Live(os, next[lowest].priority)
              && Selects(os, next[lowest], outcome.minimum, outcome.maximum)
    ensures current.Some? && outcome.Again? ==>
              || TotalRank(|os|, next) < TotalRank(|os|, alts)
              || (next == alts && next[lowest].priority != PRIORITY_EXHAUSTED)
    ensures Taken(os, curMin, curMax, t) && t == Turn(alts, current, t.advanced, outcome, next, lowest)
  {
    hide AdvancedAll, Answer, Selects, TotalRank;
    if current.Some? && AllSettled(os, alts) && Lowest(alts, current.value) {
      LowestIsEarliest(os, alts, current.value);
    }
    var advanced := Advance(os, alts, current);
    outcome, next, lowest := Offer(os, advanced, current, curMin, curMax);
    t := Turn(alts, current, advanced, outcome, next, lowest);
  }

  /** The window in force is the one the chosen alternative's priority selects. */
  ghost predicate Offered(os: seq<Ordering>, s: State) {
    s.HasCurrent() && Selects(os, s.Chosen(), s.curMin, s.curMax)
  }

  /**
  ArbiterLibGetNextAllocationRange. A true answer leaves the next window in
  the state; a false one means every alternative is spent.
  */
  method GetNextAllocationRange(os: seq<Ordering>, s0: State) returns (found: bool, s: State, ghost turns: seq<Turn>)
    requires OrderingList(os)
    requires s0.current.Some? ==> s0.HasCurrent()
    ensures s == s0.(curMin := s.curMin, curMax := s.curMax, current := s.current, alternatives := s.alternatives)
    ensures SameAlternatives(s.alternatives, s0.alternatives)
    // The window belongs to the lowest priority there is.
    ensures found ==> Offered(os, s) && Live(os, s.Chosen().priority) && Lowest(s.alternatives, s.current.value)
    // Every window costs rank, and windows come in order.
    ensures found ==> Walked(os, s0.alternatives, s0.current, s.alternatives)
    ensures !found ==> forall i :: 0 <= i < |s.alternatives| ==> s.alternatives[i].priority >= PRIORITY_EXHAUSTED
    // Nothing is passed over but for one of the reasons a turn may have.
    ensures Chain(os, s0.curMin, s0.curMax, s0.alternatives, s0.current, turns)
    ensures s0.alternatives != [] ==>
              && turns != []
              && var last := turns[|turns| - 1];
                 && s.alternatives == last.next
                 && (if found then last.outcome == Window(s.curMin, s.curMax) && s.current == Some(last.lowest)
                     else last.outcome.Spent? && s.curMin == s0.curMin && s.curMax == s0.curMax)
  {
    hide Chain, Taken, AllSettled, AllLater, KeepsOrder, Selects, Lowest, TotalRank, Live;
    turns := [];
    NoTurns(os, s0);
    var alts: seq<Alternative>, current: Option<nat> := s0.alternatives, s0.current;
    if alts == [] {
      return false, s0, [];
    }
    ghost var started := false;
    while true
      invariant alts != []
      invariant current.Some? ==> current.value < |alts|
      invariant !started ==> alts == s0.alternatives && current == s0.current
      invariant started ==> current.Some? && Walked(os, s0.alternatives, s0.current, alts)
      invariant Chain(os, s0.curMin, s0.curMax, s0.alternatives, s0.current, turns)
      invariant started <==> turns != []
      invariant started ==>
                  var last := turns[|turns| - 1];
                  last.outcome.Again? && alts == last.next && current == Some(last.lowest)
      decreases current.None?,
                2 * TotalRank(|os|, alts)
                + if current.Some? && alts[current.value].priority == PRIORITY_EXHAUSTED then 1 else 0
    {
      var outcome, next, lowest;
      ghost var t;
      outcome, next, lowest, t := Round(os, alts, current, s0.curMin, s0.curMax);
      ChainOn(os, s0.curMin, s0.curMax, s0.alternatives, s0.current, turns, t);
      turns := turns + [t];
      if started {
        WalkedOn(os, s0.alternatives, s0.current, alts, current.value, next);
      }
      if outcome.Spent? {
        return false, s0.(current := current, alternatives := next), turns;
      }
      started := true;
      alts, current := next, Some(lowest);
      if outcome.Window? {
        s := s0.(curMin := outcome.minimum, curMax := outcome.maximum, current := current, alternatives := alts);
        return true, s, turns;
      }
    }
  }

  lemma NoTurns(os: seq<Ordering>, s: State)
    ensures Chain(os, s.curMin, s.curMax, s.alternatives, s.current, [])
  {
  }
}
