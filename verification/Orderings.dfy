/** The ordering list: growable array of preferred windows, pruned of the reserved ones. */
module Orderings {
  import opened Words
  import opened RangeLists
  import opened ArbiterTypes
  import opened Walker

  const GRANULARITY := 16
  const LIMIT := 1024

  // ----- What a list of windows means -----

  predicate Contains(o: Ordering, x: int) {
    o.start <= x <= o.end
  }

  predicate Covers(os: seq<Ordering>, x: int) {
    exists i :: 0 <= i < |os| && Contains(os[i], x)
  }

  /** Some window offers `x` before any window offers `y`. */
  predicate Before(os: seq<Ordering>, x: int, y: int) {
    exists i :: 0 <= i < |os| && Contains(os[i], x) && !Covers(os[..i + 1], y)
  }

  lemma CoversAppend(a: seq<Ordering>, b: seq<Ordering>, x: int)
    ensures Covers(a + b, x) <==> Covers(a, x) || Covers(b, x)
  {
    if i :| 0 <= i < |a| && Contains(a[i], x) {
      assert (a + b)[i] == a[i];
    }
    if i :| 0 <= i < |b| && Contains(b[i], x) {
      assert (a + b)[|a| + i] == b[i];
    }
  }

  /** The order of the windows in front is not disturbed by what follows them. */
  lemma BeforeAppend(a: seq<Ordering>, b: seq<Ordering>, x: int, y: int)
    ensures Before(a + b, x, y) <==> Before(a, x, y) || (!Covers(a, y) && Before(b, x, y))
  {
    if i :| 0 <= i < |a| && Contains(a[i], x) && !Covers(a[..i + 1], y) {
      assert (a + b)[i] == a[i] && (a + b)[..i + 1] == a[..i + 1];
    }
    if !Covers(a, y) {
      if i :| 0 <= i < |b| && Contains(b[i], x) && !Covers(b[..i + 1], y) {
        assert (a + b)[|a| + i] == b[i] && (a + b)[..|a| + i + 1] == a + b[..i + 1];
        CoversAppend(a, b[..i + 1], y);
      }
    }
    if i :| 0 <= i < |a + b| && Contains((a + b)[i], x) && !Covers((a + b)[..i + 1], y) {
      if i < |a| {
        assert (a + b)[i] == a[i] && (a + b)[..i + 1] == a[..i + 1];
      } else {
        assert (a + b)[i] == b[i - |a|] && (a + b)[..i + 1] == a + b[..i - |a| + 1];
        CoversAppend(a, b[..i - |a| + 1], y);
      }
    }
  }

  // ----- Pruning -----

  /** What is left of one window outside a hole, lower part first. */
  function Fragments(o: Ordering, hole: Ordering): seq<Ordering>
    requires hole.start <= hole.end
  {
    if o.end < hole.start || o.start > hole.end then [o]
    else
      (if o.start < hole.start then [Ordering(o.start, hole.start - 1)] else [])
      + (if o.end > hole.end then [Ordering(hole.end + 1, o.end)] else [])
  }

  function Prune(os: seq<Ordering>, hole: Ordering): seq<Ordering>
    requires hole.start <= hole.end
  {
    if os == [] then [] else Prune(os[..|os| - 1], hole) + Fragments(os[|os| - 1], hole)
  }

  lemma FragmentsCover(o: Ordering, hole: Ordering, x: int)
    requires hole.start <= hole.end
    ensures Covers(Fragments(o, hole), x) <==> Contains(o, x) && !Contains(hole, x)
  {
    var f := Fragments(o, hole);
    assert |f| > 0 ==> (Contains(f[0], x) ==> Covers(f, x));
    assert |f| > 1 ==> (Contains(f[1], x) ==> Covers(f, x));
  }

  /** Pruning takes out the hole and nothing else. */
  lemma {:induction false} PruneCovers(os: seq<Ordering>, hole: Ordering, x: int)
    requires hole.start <= hole.end
    ensures Covers(Prune(os, hole), x) <==> Covers(os, x) && !Contains(hole, x)
  {
    hide Covers, Fragments;
    if os == [] {
      CoversNone(x);
    } else {
      var n := |os| - 1;
      PruneCovers(os[..n], hole, x);
      FragmentsCover(os[n], hole, x);
      CoversAppend(Prune(os[..n], hole), Fragments(os[n], hole), x);
      CoversLast(os, x);
    }
  }

  lemma CoversOne(o: Ordering, x: int)
    ensures Covers([o], x) <==> Contains(o, x)
  {
    assert [o][0] == o;
  }

  lemma BeforeOne(o: Ordering, x: int, y: int)
    ensures Before([o], x, y) <==> Contains(o, x) && !Contains(o, y)
  {
    CoversOne(o, y);
    if Contains(o, x) && !Contains(o, y) {
      assert Contains([o][0], x) && [o][..0 + 1] == [o];
    }
    if i :| 0 <= i < 1 && Contains([o][i], x) && !Covers([o][..i + 1], y) {
      assert [o][..i + 1] == [o];
    }
  }

  lemma BeforeFragments(o: Ordering, hole: Ordering, x: int, y: int)
    requires hole.start <= hole.end && !Contains(hole, x)
    requires Contains(o, x) && !Contains(o, y)
    ensures Before(Fragments(o, hole), x, y)
  {
    var f := Fragments(o, hole);
    FragmentsCover(o, hole, x);
    FragmentsCover(o, hole, y);
    var i :| 0 <= i < |f| && Contains(f[i], x);
    CoversAppend(f[..i + 1], f[i + 1..], y);
    assert f == f[..i + 1] + f[i + 1..];
  }

  /** Surviving addresses are still offered in the order they were. */
  lemma {:induction false} PruneKeepsOrder(os: seq<Ordering>, hole: Ordering, x: int, y: int)
    requires hole.start <= hole.end && !Contains(hole, x)
    requires Before(os, x, y)
    ensures Before(Prune(os, hole), x, y)
  {
    if os != [] {
      var n := |os| - 1;
      assert os == os[..n] + [os[n]];
      BeforeAppend(os[..n], [os[n]], x, y);
      BeforeAppend(Prune(os[..n], hole), Fragments(os[n], hole), x, y);
      if Before(os[..n], x, y) {
        PruneKeepsOrder(os[..n], hole, x, y);
      } else {
        BeforeOne(os[n], x, y);
        PruneCovers(os[..n], hole, y);
        BeforeFragments(os[n], hole, x, y);
      }
    }
  }

  lemma {:induction false} PruneLength(os: seq<Ordering>, hole: Ordering, n: nat)
    requires hole.start <= hole.end && n <= |os|
    ensures |Prune(os[..n], hole)| <= |Prune(os, hole)|
    decreases |os| - n
  {
    if n == |os| {
      assert os[..n] == os;
    } else {
      assert os[..n + 1][..n] == os[..n];
      PruneLength(os, hole, n + 1);
    }
  }

  // ----- The list -----

  /** The capacities doubling can reach. */
  predicate Capacity(n: nat) {
    n in {0, 16, 32, 64, 128, 256, 512, 1024}
  }

  class OrderingTable {
    var orderings: array<Ordering>
    var count: nat

    ghost predicate Valid()
      reads this
    {
      Capacity(orderings.Length) && count <= orderings.Length
    }

    ghost function Windows(): seq<Ordering>
      reads this, orderings
      requires Valid()
    {
      orderings[..count]
    }

    /** ArbpCreateOrderingList. */
    constructor ()
      ensures Valid() && Windows() == [] && fresh(orderings)
    {
      orderings := new Ordering[GRANULARITY](_ => Ordering(0, 0));
      count := 0;
    }

    /** ArbiterLibAddOrdering. */
    method Add(start: u64, end: u64) returns (ok: bool)
      requires Valid()
      modifies this, orderings
      ensures Valid() && (orderings == old(orderings) || fresh(orderings))
      ensures ok <==> start <= end && |old(Windows())| < LIMIT
      ensures Windows() == old(Windows()) + if ok then [Ordering(start, end)] else []
    {
      if end < start {
        return false;
      }
      if count == orderings.Length {
        var capacity := if orderings.Length != 0 then orderings.Length * 2 else GRANULARITY;
        if capacity > LIMIT {
          return false;
        }
        var grown := new Ordering[capacity](_ => Ordering(0, 0));
        for i := 0 to count
          invariant unchanged(this) && unchanged(orderings) && count <= orderings.Length
          invariant grown[..i] == orderings[..i]
        {
          grown[i] := orderings[i];
        }
        orderings := grown;
      }
      orderings[count] := Ordering(start, end);
      count := count + 1;
      return true;
    }

    /** Adds what is left of one window outside the hole, as far as there is room. */
    method AddFragments(o: Ordering, hole: Ordering) returns (ok: bool)
      requires Valid() && o.start <= o.end && hole.start <= hole.end
      modifies this, orderings
      ensures Valid() && (orderings == old(orderings) || fresh(orderings))
      ensures ok <==> |old(Windows())| + |Fragments(o, hole)| <= LIMIT
      ensures ok ==> Windows() == old(Windows()) + Fragments(o, hole)
    {
      ok := true;
      if o.end < hole.start || o.start > hole.end {
        ok := Add(o.start, o.end);
      } else {
        if o.start < hole.start {
          ok := Add(o.start, hole.start - 1);
        }
        if ok && o.end > hole.end {
          ok := Add(hole.end + 1, o.end);
        }
      }
    }

    /** ArbpExcludeOrderingRange: the pruned list is swapped in, or nothing changes. */
    method Exclude(start: u64, end: u64) returns (ok: bool)
      requires Valid() && Upright(Windows())
      modifies this
      ensures Valid() && (orderings == old(orderings) || fresh(orderings))
      ensures ok <==> start <= end && |Prune(old(Windows()), Ordering(start, end))| <= LIMIT
      ensures Windows() == if ok then Prune(old(Windows()), Ordering(start, end)) else old(Windows())
    {
      hide Fragments;
      if end < start {
        return false;
      }
      var hole := Ordering(start, end);
      ghost var os := Windows();
      var pruned := new OrderingTable();
      for i := 0 to count
        invariant unchanged(this) && unchanged(orderings)
        invariant fresh(pruned) && fresh(pruned.orderings) && pruned.Valid()
        invariant pruned.Windows() == Prune(os[..i], hole)
        invariant |Prune(os[..i], hole)| <= LIMIT
      {
        assert os[..i + 1][..i] == os[..i] && os[i] == orderings[i];
        PruneLength(os, hole, i + 1);
        ok := pruned.AddFragments(orderings[i], hole);
        if !ok {
          return false;
        }
      }
      assert os[..count] == os;
      orderings, count := pruned.orderings, pruned.count;
      return true;
    }
  }

  /** No window runs backwards: the list takes none in. */
  predicate Upright(os: seq<Ordering>) {
    forall o :: o in os ==> o.start <= o.end
  }

  lemma {:induction false} PruneStaysUpright(os: seq<Ordering>, hole: Ordering)
    requires hole.start <= hole.end && Upright(os)
    ensures Upright(Prune(os, hole))
  {
    if os != [] {
      PruneStaysUpright(os[..|os| - 1], hole);
    }
  }

  // ----- The policy -----

  /** The windows of a policy that run forwards. */
  function Forwards(os: seq<Ordering>): (fs: seq<Ordering>)
    ensures Upright(fs)
  {
    if os == [] then []
    else Forwards(os[..|os| - 1]) + if os[|os| - 1].start <= os[|os| - 1].end then [os[|os| - 1]] else []
  }

  function PruneAll(os: seq<Ordering>, holes: seq<Ordering>): seq<Ordering>
    requires Upright(holes)
  {
    if holes == [] then os else Prune(PruneAll(os, holes[..|holes| - 1]), holes[|holes| - 1])
  }

  /** The policy fits the tables at every step. */
  predicate Roomy(preferred: seq<Ordering>, reserved: seq<Ordering>) {
    && |Forwards(preferred)| <= LIMIT && |Forwards(reserved)| <= LIMIT
    && forall k :: 0 <= k <= |Forwards(reserved)| ==> |PruneAll(Forwards(preferred), Forwards(reserved)[..k])| <= LIMIT
  }

  lemma {:induction false} ForwardsCover(os: seq<Ordering>, x: int)
    ensures Covers(Forwards(os), x) <==> Covers(os, x)
  {
    if os != [] {
      var n := |os| - 1;
      ForwardsCover(os[..n], x);
      CoversAppend(os[..n], [os[n]], x);
      CoversAppend(Forwards(os[..n]), if os[n].start <= os[n].end then [os[n]] else [], x);
      assert os == os[..n] + [os[n]];
      CoversOne(os[n], x);
    }
  }

  lemma {:induction false} ForwardsKeepOrder(os: seq<Ordering>, x: int, y: int)
    ensures Before(Forwards(os), x, y) <==> Before(os, x, y)
  {
    if os != [] {
      var n := |os| - 1;
      ForwardsKeepOrder(os[..n], x, y);
      ForwardsCover(os[..n], y);
      BeforeAppend(os[..n], [os[n]], x, y);
      BeforeAppend(Forwards(os[..n]), if os[n].start <= os[n].end then [os[n]] else [], x, y);
      assert os == os[..n] + [os[n]];
      BeforeOne(os[n], x, y);
    }
  }

  lemma CoversNone(x: int)
    ensures !Covers([], x)
  {
  }

  lemma CoversLast(os: seq<Ordering>, x: int)
    requires os != []
    ensures Covers(os, x) <==> Covers(os[..|os| - 1], x) || Contains(os[|os| - 1], x)
  {
    hide Covers;
    var n := |os| - 1;
    CoversAppend(os[..n], [os[n]], x);
    assert os == os[..n] + [os[n]];
    CoversOne(os[n], x);
  }

  lemma {:induction false} PruneAllCovers(os: seq<Ordering>, holes: seq<Ordering>, x: int)
    requires Upright(holes)
    ensures Covers(PruneAll(os, holes), x) <==> Covers(os, x) && !Covers(holes, x)
  {
    hide Covers, Prune;
    if holes == [] {
      CoversNone(x);
    } else {
      var n := |holes| - 1;
      PruneAllCovers(os, holes[..n], x);
      PruneCovers(PruneAll(os, holes[..n]), holes[n], x);
      CoversLast(holes, x);
    }
  }

  lemma {:induction false} PruneAllKeepsOrder(os: seq<Ordering>, holes: seq<Ordering>, x: int, y: int)
    requires Upright(holes) && !Covers(holes, x) && Before(os, x, y)
    ensures Before(PruneAll(os, holes), x, y)
  {
    if holes != [] {
      var n := |holes| - 1;
      CoversAppend(holes[..n], [holes[n]], x);
      assert holes == holes[..n] + [holes[n]];
      CoversOne(holes[n], x);
      PruneAllKeepsOrder(os, holes[..n], x, y);
      PruneKeepsOrder(PruneAll(os, holes[..n]), holes[n], x, y);
    }
  }

  lemma {:induction false} ForwardsPrefix(os: seq<Ordering>, n: nat)
    requires n <= |os|
    ensures Forwards(os[..n]) <= Forwards(os)
    decreases |os| - n
  {
    if n == |os| {
      assert os[..n] == os;
    } else {
      assert os[..n + 1][..n] == os[..n];
      ForwardsPrefix(os, n + 1);
    }
  }

  lemma RoomAt(preferred: seq<Ordering>, reserved: seq<Ordering>, i: nat)
    requires Roomy(preferred, reserved) && i <= |reserved|
    ensures |Forwards(reserved[..i])| <= LIMIT
    ensures |PruneAll(Forwards(preferred), Forwards(reserved[..i]))| <= LIMIT
  {
    ForwardsPrefix(reserved, i);
    var k := |Forwards(reserved[..i])|;
    assert Forwards(reserved)[..k] == Forwards(reserved[..i]);
  }

  lemma ForwardsStep(os: seq<Ordering>, i: nat)
    requires i < |os|
    ensures Forwards(os[..i + 1]) == Forwards(os[..i]) + if os[i].start <= os[i].end then [os[i]] else []
  {
    assert os[..i + 1][..i] == os[..i];
  }

  lemma PruneAllStep(os: seq<Ordering>, holes: seq<Ordering>, hole: Ordering)
    requires Upright(holes) && hole.start <= hole.end
    ensures Upright(holes + [hole]) && PruneAll(os, holes + [hole]) == Prune(PruneAll(os, holes), hole)
  {
    assert (holes + [hole])[..|holes|] == holes;
  }

  method LoadPreferred(ordering: OrderingTable, preferred: seq<Ordering>)
    requires ordering.Valid() && ordering.Windows() == []
    modifies ordering, ordering.orderings
    ensures ordering.Valid() && (ordering.orderings == old(ordering.orderings) || fresh(ordering.orderings))
    ensures Upright(ordering.Windows())
    ensures |Forwards(preferred)| <= LIMIT ==> ordering.Windows() == Forwards(preferred)
  {
    for i := 0 to |preferred|
      invariant ordering.Valid() && (ordering.orderings == old(ordering.orderings) || fresh(ordering.orderings))
      invariant Upright(ordering.Windows())
      invariant |Forwards(preferred)| <= LIMIT ==> ordering.Windows() == Forwards(preferred[..i])
    {
      ForwardsStep(preferred, i);
      ForwardsPrefix(preferred, i + 1);
      var ok := ordering.Add(preferred[i].start, preferred[i].end);
    }
    assert preferred[..|preferred|] == preferred;
  }

  /** ArbpAddReservedCallback: one reserved window is recorded and pruned away. */
  method AddReserved(ordering: OrderingTable, reservedList: OrderingTable, o: Ordering)
    requires ordering.Valid() && reservedList.Valid() && Upright(ordering.Windows())
    requires ordering != reservedList && ordering.orderings != reservedList.orderings
    modifies ordering, reservedList, reservedList.orderings
    ensures ordering.Valid() && reservedList.Valid() && Upright(ordering.Windows())
    ensures ordering.orderings != reservedList.orderings
    ensures ordering.orderings == old(ordering.orderings) || fresh(ordering.orderings)
    ensures reservedList.orderings == old(reservedList.orderings) || fresh(reservedList.orderings)
    ensures o.start > o.end ==>
              ordering.Windows() == old(ordering.Windows()) && reservedList.Windows() == old(reservedList.Windows())
    ensures o.start <= o.end && |old(reservedList.Windows())| < LIMIT
            && |Prune(old(ordering.Windows()), o)| <= LIMIT ==>
              && ordering.Windows() == Prune(old(ordering.Windows()), o)
              && reservedList.Windows() == old(reservedList.Windows()) + [o]
  {
    var added := reservedList.Add(o.start, o.end);
    if added {
      PruneStaysUpright(ordering.Windows(), o);
      var excluded := ordering.Exclude(o.start, o.end);
    }
  }

  /** ArbiterLibDefaultAssignmentOrdering over the windows the registry policy names. */
  method LoadPolicy(preferred: seq<Ordering>, reserved: seq<Ordering>)
    returns (ordering: OrderingTable, reservedList: OrderingTable)
    ensures ordering.Valid() && reservedList.Valid() && OrderingList(ordering.Windows())
    ensures Roomy(preferred, reserved) ==>
              && ordering.Windows() == PruneAll(Forwards(preferred), Forwards(reserved))
              && reservedList.Windows() == Forwards(reserved)
  {
    hide Forwards, PruneAll, Prune;
    ordering := new OrderingTable();
    reservedList := new OrderingTable();
    LoadPreferred(ordering, preferred);
    ghost var roomy := Roomy(preferred, reserved);
    assert reserved[..0] == [];
    NothingReserved(Forwards(preferred));
    for i := 0 to |reserved|
      invariant fresh(ordering) && fresh(ordering.orderings) && fresh(reservedList) && fresh(reservedList.orderings)
      invariant ordering != reservedList && ordering.orderings != reservedList.orderings
      invariant ordering.Valid() && reservedList.Valid() && Upright(ordering.Windows())
      invariant roomy ==> reservedList.Windows() == Forwards(reserved[..i])
      invariant roomy ==> ordering.Windows() == PruneAll(Forwards(preferred), Forwards(reserved[..i]))
    {
      ForwardsStep(reserved, i);
      if roomy {
        RoomAt(preferred, reserved, i + 1);
        if reserved[i].start <= reserved[i].end {
          PruneAllStep(Forwards(preferred), Forwards(reserved[..i]), reserved[i]);
        }
      }
      AddReserved(ordering, reservedList, reserved[i]);
    }
    assert reserved[..|reserved|] == reserved;
  }

  lemma NothingReserved(os: seq<Ordering>)
    ensures Forwards([]) == [] && PruneAll(os, []) == os
  {
  }

  /** The loaded windows are the preferred ones without the reserved ones, in the order of preference. */
  lemma PolicyMeans(preferred: seq<Ordering>, reserved: seq<Ordering>, x: int, y: int)
    ensures var os := PruneAll(Forwards(preferred), Forwards(reserved));
            && (Covers(os, x) <==> Covers(preferred, x) && !Covers(reserved, x))
            && (Before(preferred, x, y) && !Covers(reserved, x) ==> Before(os, x, y))
  {
    hide PruneAll, Forwards, Before, Covers;
    PruneAllCovers(Forwards(preferred), Forwards(reserved), x);
    ForwardsCover(preferred, x);
    ForwardsCover(reserved, x);
    ForwardsKeepOrder(preferred, x, y);
    if Before(preferred, x, y) && !Covers(reserved, x) {
      PruneAllKeepsOrder(Forwards(preferred), Forwards(reserved), x, y);
    }
  }

  /** Some reserved address lies in [lo, hi]. */
  ghost predicate Touches(reserved: seq<Ordering>, lo: int, hi: int) {
    exists x :: lo <= x <= hi && Covers(reserved, x)
  }

  lemma RawAvoidsReserved(preferred: seq<Ordering>, reserved: seq<Ordering>, a: Alternative)
    requires var os := PruneAll(Forwards(preferred), Forwards(reserved));
             Settled(os, a) && Live(os, a.priority) && !Whole(a.priority)
    ensures var raw := RawWindow(PruneAll(Forwards(preferred), Forwards(reserved)), a); !Touches(reserved, raw.0, raw.1)
  {
    hide PruneAll, Forwards;
    var os := PruneAll(Forwards(preferred), Forwards(reserved));
    var raw := RawWindow(os, a);
    forall x | raw.0 <= x <= raw.1
      ensures !Covers(reserved, x)
    {
      PolicyMeans(preferred, reserved, x, x);
      assert Contains(os[IndexOf(a.priority)], x);
    }
  }

  /** Trimming keeps the window inside, except that a carry makes it start at zero. */
  lemma SelectedInsideRaw(os: seq<Ordering>, a: Alternative, lo: u64, hi: u64)
    requires Selects(os, a, lo, hi)
    ensures hi <= RawWindow(os, a).1
    ensures if a.length == 0 || NoCarry(RawWindow(os, a).0, a.Step()) then RawWindow(os, a).0 <= lo else lo == 0
  {
    var raw := RawWindow(os, a);
    if a.length != 0 {
      if NoCarry(raw.0, a.Step()) {
        TrimStartsAbove(raw.0, raw.1, a.length, a.Step());
      } else {
        CarryRestartsAtZero(raw.0, a.Step());
      }
    }
  }

  /**
  Outside the whole-window pass the walker offers a window with a reserved
  address in it exactly when aligning the bottom of the raw window carries out
  of 64 bits and the window, which then starts at zero, meets a reserved
  address below the raw one.
  */
  lemma ReservedIsLastResort(preferred: seq<Ordering>, reserved: seq<Ordering>, a: Alternative, lo: u64, hi: u64)
    requires var os := PruneAll(Forwards(preferred), Forwards(reserved));
             Settled(os, a) && Live(os, a.priority) && Selects(os, a, lo, hi) && !Whole(a.priority)
    ensures var bottom := RawWindow(PruneAll(Forwards(preferred), Forwards(reserved)), a).0;
            Touches(reserved, lo, hi) <==>
              a.length != 0 && !NoCarry(bottom, a.Step()) && Touches(reserved, 0, Min(hi, bottom - 1))
  {
    hide PruneAll, Forwards, Selects, Settled, RawWindow, Covers;
    var os := PruneAll(Forwards(preferred), Forwards(reserved));
    var raw := RawWindow(os, a);
    RawAvoidsReserved(preferred, reserved, a);
    SelectedInsideRaw(os, a, lo, hi);
    forall x | lo <= x <= hi && Covers(reserved, x)
      ensures x < raw.0
    {
    }
  }

  /** A policy of one preferred window above one reserved one is loaded as it stands. */
  lemma ApartStaysWhole(o: Ordering, hole: Ordering)
    requires hole.start <= hole.end < o.start <= o.end
    ensures PruneAll(Forwards([o]), Forwards([hole])) == [o]
  {
    hide Forwards, Prune, PruneAll;
    ForwardsOne(o);
    ForwardsOne(hole);
    NothingReserved([o]);
    PruneAllStep([o], [], hole);
    assert [] + [hole] == [hole];
    PruneOne(o, hole);
  }

  lemma ForwardsOne(o: Ordering)
    requires o.start <= o.end
    ensures Forwards([o]) == [o]
  {
    assert [o][..0] == [];
  }

  lemma PruneOne(o: Ordering, hole: Ordering)
    requires hole.start <= hole.end < o.start <= o.end
    ensures Prune([o], hole) == [o]
  {
    assert [o][..0] == [];
  }

  const TOP := Ordering(TWO_64 - 0x800, MAX_U64)
  const BOTTOM := Ordering(0, 0xFFF)

  /** A request for sixteen bytes anywhere, aligned to a page, at its first preferred window. */
  function AnyPage(d: IoDescriptor): Alternative {
    Alternative(0, MAX_U64, 16, 0x1000, 1, false, false, false, false, d.(preferred := false))
  }

  lemma TopCarries()
    ensures Trim(TWO_64 - 0x800, MAX_U64, 16, 0x1000) == Some((0, TWO_64 - 0x1000 + 15))
  {
    DivModUnique(TWO_64 + 0x7FF, 1, 0x7FF, TWO_64);
    DivModUnique(0x7FF, 0, 0x7FF, 0x1000);
    DivModUnique(TWO_64 - 16, 0xF_FFFF_FFFF_FFFF, 0xFF0, 0x1000);
  }

  /** The exception is real: the reserved bottom page is offered before the whole-window pass. */
  lemma CarryOffersReserved(d: IoDescriptor)
    ensures var os, a := PruneAll(Forwards([TOP]), Forwards([BOTTOM])), AnyPage(d);
            && Settled(os, a) && Live(os, a.priority) && !Whole(a.priority)
            && Selects(os, a, 0, TWO_64 - 0x1000 + 15) && Touches([BOTTOM], 0, TWO_64 - 0x1000 + 15)
  {
    hide Forwards, PruneAll, Trim;
    ApartStaysWhole(TOP, BOTTOM);
    TopCarries();
    assert Contains([BOTTOM][0], 0x10);
    assert Covers([BOTTOM], 0x10);
  }
}
