/**
ArbiterLibAllocateEntry: places a whole stack of entries with backtracking.
*/
module Solver {
  import opened Words
  import opened RangeLists
  import opened ArbiterTypes
  import opened Placement
  import opened Ledger
  import opened Attempts
  import opened Premises

  // ----- A lexicographic measure over the stack -----

  /** The levels of a stack read as the digits of one number, first level most significant. */
  function Horner(digits: seq<nat>, base: nat): nat {
    if digits == [] then 0 else Horner(digits[..|digits| - 1], base) * base + digits[|digits| - 1]
  }

  predicate Digits(digits: seq<nat>, base: nat) {
    forall i :: 0 <= i < |digits| ==> digits[i] < base
  }

  lemma {:induction false} HornerLess(a: seq<nat>, b: seq<nat>, k: nat, base: nat)
    requires |a| == |b| && k < |a|
    requires a[..k] == b[..k] && a[k] < b[k]
    requires Digits(a, base) && Digits(b, base)
    ensures Horner(a, base) < Horner(b, base)
  {
    var last := |a| - 1;
    if k == last {
      assert a[..last] == b[..last];
    } else {
      assert a[..last][..k] == a[..k] && b[..last][..k] == b[..k];
      HornerLess(a[..last], b[..last], k, base);
      CarryCannotCatchUp(Horner(a[..last], base), a[last], Horner(b[..last], base), base);
    }
  }

  lemma CarryCannotCatchUp(x: nat, d: nat, y: nat, base: nat)
    requires x < y && d < base
    ensures x * base + d < y * base
  {
    MulOrder(x + 1, y, base);
  }

  /**
  Entered levels count their weight, the present level counts its ceiling
  until it is entered, and the levels above it stand at the top on the way
  forward and at zero on the way back.
  */
  ghost function Level(os: seq<Ordering>, st: seq<State>, cur: nat, back: bool, i: nat): nat
    requires i < |st|
  {
    if i < cur || (i == cur && back) then Weight(os, st[i])
    else if back then 0
    else Ceiling(os, st[i])
  }

  ghost function Levels(os: seq<Ordering>, st: seq<State>, cur: nat, back: bool): (levels: seq<nat>)
    ensures |levels| == |st|
    ensures forall i :: 0 <= i < |st| ==> levels[i] == Level(os, st, cur, back, i)
  {
    seq(|st|, i requires 0 <= i < |st| => Level(os, st, cur, back, i))
  }

  ghost function Base(os: seq<Ordering>, st: seq<State>): nat {
    if st == [] then 1 else Base(os, st[..|st| - 1]) + Ceiling(os, st[|st| - 1])
  }

  lemma {:induction false} BaseAboveCeilings(os: seq<Ordering>, st: seq<State>)
    ensures forall i :: 0 <= i < |st| ==> Ceiling(os, st[i]) < Base(os, st)
    ensures Base(os, st) > 0
  {
    if st != [] {
      BaseAboveCeilings(os, st[..|st| - 1]);
      assert forall i :: 0 <= i < |st| - 1 ==> st[..|st| - 1][i] == st[i];
    }
  }

  /** The search has moved from one position to a later one. */
  lemma Onward(os: seq<Ordering>, init: seq<State>,
               a: seq<State>, cur: nat, back: bool, b: seq<State>, cur': nat, back': bool, k: nat)
    requires |a| == |b| == |init| && k < |a|
    requires forall i :: 0 <= i < |a| ==> |a[i].alternatives| == |b[i].alternatives| == |init[i].alternatives|
    requires a[..k] == b[..k]
    requires forall i :: 0 <= i < k ==> Level(os, b, cur', back', i) == Level(os, a, cur, back, i)
    requires Level(os, b, cur', back', k) < Level(os, a, cur, back, k)
    ensures Horner(Levels(os, b, cur', back'), Base(os, init)) < Horner(Levels(os, a, cur, back), Base(os, init))
  {
    BaseAboveCeilings(os, init);
    forall i | 0 <= i < |a|
      ensures Ceiling(os, a[i]) < Base(os, init) && Weight(os, a[i]) < Base(os, init)
      ensures Ceiling(os, b[i]) < Base(os, init) && Weight(os, b[i]) < Base(os, init)
    {
      WeightBelowCeiling(os, a[i]);
      WeightBelowCeiling(os, b[i]);
    }
    HornerLess(Levels(os, b, cur', back'), Levels(os, a, cur, back), k, Base(os, init));
  }

  // ----- What the tentative list holds -----

  /** All that the placed states have laid down, in stack order. */
  function LaidAll(kind: ArbiterKind, st: seq<State>): seq<Range> {
    if st == [] then [] else LaidAll(kind, st[..|st| - 1]) + Laid(kind, st[|st| - 1])
  }

  lemma {:induction false} SameLaidAll(kind: ArbiterKind, a: seq<State>, b: seq<State>)
    requires |a| == |b| && forall i :: 0 <= i < |a| ==> SamePlacement(a[i], b[i])
    ensures LaidAll(kind, a) == LaidAll(kind, b)
  {
    if a != [] {
      SameLaidAll(kind, a[..|a| - 1], b[..|b| - 1]);
      SameLaid(kind, a[|a| - 1], b[|b| - 1]);
    }
  }

  ghost predicate SameRequests(init: seq<State>, st: seq<State>) {
    |st| == |init| && forall i :: 0 <= i < |st| ==> st[i].SameRequest(init[i])
  }

  /** A range one of the listed devices could have laid down. */
  ghost predicate Owns(init: seq<State>, i: int, r: Range) {
    && 0 <= i < |init|
    && r.owner == init[i].entry.device
    && exists a :: 0 <= a < |init[i].alternatives| && r.shared == init[i].alternatives[a].shared
  }

  /** The starting ranges are all there, and whatever else is there belongs to the listed devices. */
  ghost predicate Accounted(start: seq<Range>, init: seq<State>, rs: seq<Range>) {
    && (forall r :: r in start ==> r in rs)
    && (forall r :: r in rs ==> r in start || exists i :: Owns(init, i, r))
  }

  /** Placed entries whose ranges have equal bounds and owner agree on sharing. */
  ghost predicate Consistent(kind: ArbiterKind, placed: seq<State>) {
    forall i, j :: 0 <= i < |placed| && 0 <= j < |placed| ==> Matching(Laid(kind, placed[i]), Laid(kind, placed[j]))
  }

  // ----- What holds at the head of the search loop -----

  /** How many entries hold a placement: those below the current one, and it too on the way back. */
  function Depth(cur: nat, back: bool): nat {
    if back then cur + 1 else cur
  }

  /** Which entries are placed and which have not been entered. */
  ghost predicate Shaped(setup: Setup, init: seq<State>, st: seq<State>, cur: nat, back: bool) {
    && SameRequests(init, st)
    && cur <= |st| && (back ==> cur + 1 < |st|)
    && (forall i :: 0 <= i < Depth(cur, back) ==> Sited(setup.orderings, st[i]))
    && (forall i :: Depth(cur, back) + (if back then 1 else 0) <= i < |st| ==> st[i].current.None?)
  }

  /** The tentative list is the starting list plus what `placed` has laid down. */
  ghost predicate Kept(setup: Setup, start: seq<Range>, init: seq<State>, placed: seq<State>, rs: seq<Range>) {
    && Forward(rs)
    && Balanced(rs, start + LaidAll(setup.kind, placed), Separable(setup, start, init))
    && (Foreign(start, init) ==> Accounted(start, init, rs))
    && (Separable(setup, start, init) ==> Consistent(setup.kind, placed))
  }

  lemma LaidAllStep(kind: ArbiterKind, start: seq<Range>, st: seq<State>, k: nat)
    requires k < |st|
    ensures start + LaidAll(kind, st[..k + 1]) == start + LaidAll(kind, st[..k]) + Laid(kind, st[k])
  {
    assert st[..k + 1][..k] == st[..k];
  }

  lemma AccountedForLaid(setup: Setup, start: seq<Range>, init: seq<State>, rs: seq<Range>, s: State, i: nat)
    requires i < |init| && s.SameRequest(init[i])
    requires Accounted(start, init, rs)
    ensures Accounted(start, init, rs + Laid(setup.kind, s))
  {
    LaidBelongs(setup.kind, s);
    forall r | r in Laid(setup.kind, s)
      ensures Owns(init, i, r)
    {
      assert s.alternatives[s.current.value].SameRequest(init[i].alternatives[s.current.value]);
    }
  }

  lemma SameRequestChain(kind: ArbiterKind, init: State, s0: State, s: State)
    requires s0.SameRequest(init) && AttemptedFrom(kind, s0, s)
    ensures s.SameRequest(init)
  {
    NothingIsNothing(s.alternatives, s0.alternatives);
    forall i | 0 <= i < |s.alternatives|
      ensures s.alternatives[i].SameRequest(init.alternatives[i])
    {
      assert s.alternatives[i].SameRequest(s0.alternatives[i]);
      assert s0.alternatives[i].SameRequest(init.alternatives[i]);
    }
  }

  /** The current entry changes, the ones above it are left unentered. */
  ghost predicate Touched(st: seq<State>, cur: nat, s: State, st': seq<State>)
    requires cur < |st|
  {
    && |st'| == |st| && st'[cur] == s
    && (forall i :: 0 <= i < cur ==> st'[i] == st[i])
    && (forall i :: cur < i < |st| ==> st'[i] == st[i].(current := None))
  }

  lemma TouchedShape(setup: Setup, init: seq<State>, st: seq<State>, cur: nat, back: bool, s: State, st': seq<State>)
    requires Shaped(setup, init, st, cur, back) && cur < |st|
    requires AttemptedFrom(setup.kind, st[cur], s)
    requires Touched(st, cur, s, st')
    ensures SameRequests(init, st')
    ensures Sited(setup.orderings, s) ==> Shaped(setup, init, st', cur + 1, false)
    ensures cur > 0 ==> Shaped(setup, init, st', cur - 1, true)
    ensures st'[..cur] == st[..cur] && |st'| == |st| && st'[cur] == s
  {
    hide Sited, AttemptedFrom, SameAlternatives;
    SameRequestChain(setup.kind, init[cur], st[cur], s);
    forall i | 0 <= i < |st|
      ensures st'[i].SameRequest(init[i])
    {
      assert st[i].SameRequest(init[i]);
    }
  }

  lemma MatchingIsMutual(a: seq<Range>, b: seq<Range>)
    requires Matching(a, b)
    ensures Matching(b, a)
  {
  }

  lemma LaidMatchesItself(kind: ArbiterKind, s: State)
    ensures Matching(Laid(kind, s), Laid(kind, s))
  {
    LaidBelongs(kind, s);
  }

  lemma ConsistentForward(kind: ArbiterKind, placed: seq<State>, s: State)
    requires Consistent(kind, placed)
    requires forall j :: 0 <= j < |placed| ==> Matching(Laid(kind, placed[j]), Laid(kind, s))
    ensures Consistent(kind, placed + [s])
  {
    hide Matching, Laid;
    LaidMatchesItself(kind, s);
    forall j | 0 <= j < |placed|
      ensures Matching(Laid(kind, s), Laid(kind, placed[j]))
    {
      MatchingIsMutual(Laid(kind, placed[j]), Laid(kind, s));
    }
  }

  /** Laying the current entry down keeps the books. */
  lemma KeptForward(setup: Setup, start: seq<Range>, init: seq<State>, st: seq<State>, cur: nat, rs: seq<Range>)
    requires SameRequests(init, st) && cur < |st|
    requires Kept(setup, start, init, st[..cur], rs)
    requires Separable(setup, start, init) ==>
               forall j :: 0 <= j < cur ==> Matching(Laid(setup.kind, st[j]), Laid(setup.kind, st[cur]))
    ensures Kept(setup, start, init, st[..cur + 1], rs + Laid(setup.kind, st[cur]))
  {
    hide Matching, Separable, Consistent, Balanced, Accounted, Laid, LaidAll;
    var sharing := Separable(setup, start, init);
    LaidAllStep(setup.kind, start, st, cur);
    BalancedAppend(rs, start + LaidAll(setup.kind, st[..cur]), Laid(setup.kind, st[cur]), sharing);
    LaidBelongs(setup.kind, st[cur]);
    if Foreign(start, init) {
      AccountedForLaid(setup, start, init, rs, st[cur], cur);
    }
    if sharing {
      ConsistentForward(setup.kind, st[..cur], st[cur]);
    }
    assert st[..cur + 1] == st[..cur] + [st[cur]];
  }

  lemma {:induction false} LaidAllComesFrom(kind: ArbiterKind, st: seq<State>, r: Range) returns (j: nat)
    requires r in LaidAll(kind, st)
    ensures j < |st| && r in Laid(kind, st[j])
  {
    if r in Laid(kind, st[|st| - 1]) {
      j := |st| - 1;
    } else {
      j := LaidAllComesFrom(kind, st[..|st| - 1], r);
    }
  }

  /** Whatever shares its bounds and owner with a placement of the current entry shares its sharing flag. */
  lemma ListMatches(setup: Setup, start: seq<Range>, init: seq<State>, st: seq<State>, cur: nat, rs: seq<Range>)
    requires SameRequests(init, st) && cur < |st| && Separable(setup, start, init)
    requires Kept(setup, start, init, st[..cur + 1], rs)
    ensures Matching(rs, Laid(setup.kind, st[cur]))
  {
    hide LaidAll, Laid;
    var placed := st[..cur + 1];
    var ledger := start + LaidAll(setup.kind, placed);
    LaidBelongs(setup.kind, st[cur]);
    forall q, r | q in rs && r in Laid(setup.kind, st[cur]) && KeyOf(q) == KeyOf(r)
      ensures q.shared == r.shared
    {
      ImageMember(rs, ClaimOf, ClaimOf(q));
      ImageMember(ledger, ClaimOf, ClaimOf(q));
      var p :| p in ledger && ClaimOf(p) == ClaimOf(q);
      assert st[cur].SameRequest(init[cur]);
      assert p !in start;
      var j := LaidAllComesFrom(setup.kind, placed, p);
      assert Matching(Laid(setup.kind, placed[j]), Laid(setup.kind, placed[cur]));
    }
  }

  /** Withdrawing one device's ranges leaves the starting ranges alone. */
  lemma StillAccounted(start: seq<Range>, init: seq<State>, st: seq<State>, rs0: seq<Range>, rs: seq<Range>, cur: nat)
    requires SameRequests(init, st) && cur < |st|
    requires forall q :: q in rs ==> q in rs0
    requires forall q :: q in rs0 && q.owner != st[cur].entry.device ==> q in rs
    ensures Foreign(start, init) && Accounted(start, init, rs0) ==> Accounted(start, init, rs)
  {
    assert st[cur].SameRequest(init[cur]);
  }
}
