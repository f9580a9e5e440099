/**
The kernel's RTL_RANGE_LIST, as far as the arbiters use it: a list of owned
inclusive ranges. The list keeps what is unavailable, never what is free.
*/
module RangeLists {
  import opened Words

  /** The attribute bits of arbiter.h and resarb.c; a mask is a set of them. */
  datatype Attribute =
    | BootAllocated | SharedDriver | PortAlias | OutsideDecode | Inaccessible

  /** A device object. Zero is NULL. */
  type Device = nat

  const NULL: Device := 0

  datatype Range = Range(start: u64, end: u64, owner: Device, attributes: set<Attribute>, shared: bool) {

    predicate Overlaps(lo: int, hi: int) {
      start <= hi && lo <= end
    }

    /** A range that does not stop a request with these allowances. */
    predicate Tolerated(sharedOk: bool, nullOk: bool, available: set<Attribute>) {
      || attributes * available != {}
      || (sharedOk && shared)
      || (nullOk && owner == NULL)
    }
  }

  /** What RtlDeleteRange matches on. */
  datatype Key = Key(start: u64, end: u64, owner: Device)

  /** What a later search can tell about an owned range. */
  datatype Claim = Claim(start: u64, end: u64, owner: Device, shared: bool)

  function KeyOf(r: Range): Key {
    Key(r.start, r.end, r.owner)
  }

  function ClaimOf(r: Range): Claim {
    Claim(r.start, r.end, r.owner, r.shared)
  }

  /** Every range of `rs` that meets [lo, hi] is tolerated. */
  predicate Clear(rs: seq<Range>, lo: int, hi: int, sharedOk: bool, nullOk: bool, available: set<Attribute>) {
    forall r :: r in rs && r.Overlaps(lo, hi) ==> r.Tolerated(sharedOk, nullOk, available)
  }

  /** The ranges that remain once those of some owners are gone, in order. */
  function WithoutOwners(rs: seq<Range>, owners: set<Device>): (kept: seq<Range>)
    ensures forall r :: r in kept <==> r in rs && r.owner !in owners
  {
    if rs == [] then []
    else
      var rest := WithoutOwners(rs[..|rs| - 1], owners);
      if rs[|rs| - 1].owner in owners then rest else rest + [rs[|rs| - 1]]
  }

  lemma {:induction false} WithoutOwnersTwice(rs: seq<Range>, some: set<Device>, more: set<Device>)
    ensures WithoutOwners(WithoutOwners(rs, some), more) == WithoutOwners(rs, some + more)
  {
    if rs != [] {
      WithoutOwnersTwice(rs[..|rs| - 1], some, more);
      if rs[|rs| - 1].owner !in some {
        var rest := WithoutOwners(rs[..|rs| - 1], some);
        assert (rest + [rs[|rs| - 1]])[..|rest|] == rest;
      }
    }
  }

  lemma {:induction false} WithoutNobody(rs: seq<Range>)
    ensures WithoutOwners(rs, {}) == rs
  {
    if rs != [] {
      WithoutNobody(rs[..|rs| - 1]);
      assert rs == rs[..|rs| - 1] + [rs[|rs| - 1]];
    }
  }

  function Map<T>(rs: seq<Range>, f: Range -> T): (m: seq<T>) {
    seq(|rs|, i requires 0 <= i < |rs| => f(rs[i]))
  }

  /** The multiset a list becomes under a projection of its ranges. */
  ghost function Image<T>(rs: seq<Range>, f: Range -> T): multiset<T> {
    multiset(Map(rs, f))
  }

  lemma ImageAppend<T>(a: seq<Range>, b: seq<Range>, f: Range -> T)
    ensures Image(a + b, f) == Image(a, f) + Image(b, f)
  {
    assert Map(a + b, f) == Map(a, f) + Map(b, f);
  }

  lemma ImageRemove<T>(rs: seq<Range>, i: nat, f: Range -> T)
    requires i < |rs|
    ensures Image(rs, f) == Image(rs[..i] + rs[i + 1..], f) + multiset{f(rs[i])}
  {
    var m := Map(rs, f);
    assert m == m[..i] + [m[i]] + m[i + 1..];
    assert Map(rs[..i] + rs[i + 1..], f) == m[..i] + m[i + 1..];
  }

  lemma ImageMember<T>(rs: seq<Range>, f: Range -> T, x: T)
    ensures x in Image(rs, f) <==> exists r :: r in rs && f(r) == x
  {
    var m := Map(rs, f);
    assert x in Image(rs, f) <==> x in m;
    if r :| r in rs && f(r) == x {
      var i :| 0 <= i < |rs| && rs[i] == r;
      assert m[i] == x;
    }
    if x in m {
      var i :| 0 <= i < |m| && m[i] == x;
      assert rs[i] in rs && f(rs[i]) == x;
    }
  }

  class RangeList {
    var ranges: seq<Range>

    constructor ()
      ensures ranges == []
    {
      ranges := [];
    }

    /** RtlFreeRangeList followed by RtlInitializeRangeList. */
    method Reset()
      modifies this
      ensures ranges == []
    {
      ranges := [];
    }

    method CopyFrom(other: RangeList)
      modifies this
      ensures ranges == old(other.ranges)
    {
      ranges := other.ranges;
    }

    /**
    RtlAddRange. A backwards range is refused, and without `ifConflict` so is
    one that meets an existing range, unless both are shared.
    */
    method Add(start: u64, end: u64, attributes: set<Attribute>, ifConflict: bool, shared: bool, owner: Device)
      returns (ok: bool)
      modifies this
      ensures ok <==> start <= end && (ifConflict || Clear(old(ranges), start, end, shared, false, {}))
      ensures ranges == if ok then old(ranges) + [Range(start, end, owner, attributes, shared)] else old(ranges)
    {
      ok := start <= end && (ifConflict || Clear(ranges, start, end, shared, false, {}));
      if ok {
        ranges := ranges + [Range(start, end, owner, attributes, shared)];
      }
    }

    /**
    RtlDeleteRange. One range with these bounds and this owner goes; the
    contract does not say which one when several match.
    */
    method Delete(start: u64, end: u64, owner: Device) returns (ok: bool, ghost gone: nat)
      modifies this
      ensures ok <==> exists r :: r in old(ranges) && KeyOf(r) == Key(start, end, owner)
      ensures ok ==> gone < |old(ranges)| && KeyOf(old(ranges)[gone]) == Key(start, end, owner)
      ensures ranges == if ok then old(ranges)[..gone] + old(ranges)[gone + 1..] else old(ranges)
    {
      var i := 0;
      while i < |ranges| && KeyOf(ranges[i]) != Key(start, end, owner)
        invariant 0 <= i <= |ranges|
        invariant forall j :: 0 <= j < i ==> KeyOf(ranges[j]) != Key(start, end, owner)
      {
        i := i + 1;
      }
      ok, gone := i < |ranges|, i;
      if ok {
        ranges := ranges[..i] + ranges[i + 1..];
      }
    }

    /** RtlDeleteOwnersRanges. */
    method DeleteOwner(owner: Device)
      modifies this
      ensures ranges == WithoutOwners(old(ranges), {owner})
    {
      var kept: seq<Range> := [];
      for i := 0 to |ranges|
        invariant kept == WithoutOwners(ranges[..i], {owner})
        invariant ranges == old(ranges)
      {
        assert ranges[..i + 1][..i] == ranges[..i];
        if ranges[i].owner != owner {
          kept := kept + [ranges[i]];
        }
      }
      assert ranges[..|ranges|] == ranges;
      ranges := kept;
    }

    /** The first range that stops [lo, hi], if any. */
    method FirstBlocker(lo: int, hi: int, sharedOk: bool, nullOk: bool, available: set<Attribute>)
      returns (blocker: Option<Range>)
      ensures blocker.None? <==> Clear(ranges, lo, hi, sharedOk, nullOk, available)
      ensures blocker.Some? ==>
                && blocker.value in ranges
                && blocker.value.Overlaps(lo, hi)
                && !blocker.value.Tolerated(sharedOk, nullOk, available)
    {
      for i := 0 to |ranges|
        invariant Clear(ranges[..i], lo, hi, sharedOk, nullOk, available)
      {
        var r := ranges[i];
        if r.Overlaps(lo, hi) && !r.Tolerated(sharedOk, nullOk, available) {
          return Some(r);
        }
      }
      return None;
    }

    /**
    RtlFindRange: the highest aligned start in [minimum, maximum] whose whole
    extent is clear. A failure names one range that was in the way.
    */
    method Find(minimum: u64, maximum: u64, length: u64, alignment: u64,
                sharedOk: bool, nullOk: bool, available: set<Attribute>)
      returns (start: Option<u64>, blocker: Option<Range>)
      ensures start.Some? ==>
                && length > 0 && alignment > 0
                && minimum <= start.value
                && start.value + length - 1 <= maximum
                && start.value % alignment == 0
                && Clear(ranges, start.value, start.value + length - 1, sharedOk, nullOk, available)
      ensures length > 0 && alignment > 0 ==>
                forall s: int :: Candidate(minimum, maximum, length, alignment, s)
                                 && (start.None? || start.value < s) ==>
                                 !Clear(ranges, s, s + length - 1, sharedOk, nullOk, available)
      ensures blocker.Some? ==>
                && blocker.value in ranges
                && blocker.value.Overlaps(minimum, maximum)
                && !blocker.value.Tolerated(sharedOk, nullOk, available)
      ensures length > 0 && alignment > 0 && start.None? && blocker.None? ==>
                forall s: int :: !Candidate(minimum, maximum, length, alignment, s)
    {
      blocker := None;
      if length == 0 || alignment == 0 || minimum > maximum || length - 1 > maximum - minimum {
        return None, None;
      }
      var s: int := maximum - (length - 1);
      s := s - s % alignment;
      AlignDownIsHighest(maximum - (length - 1), alignment);
      while s >= minimum
        invariant s % alignment == 0
        invariant s + length - 1 <= maximum
        invariant forall t: int :: Candidate(minimum, maximum, length, alignment, t) && s < t ==>
                               !Clear(ranges, t, t + length - 1, sharedOk, nullOk, available)
        invariant blocker.Some? ==>
                    && blocker.value in ranges
                    && blocker.value.Overlaps(minimum, maximum)
                    && !blocker.value.Tolerated(sharedOk, nullOk, available)
        invariant blocker.None? ==> forall t: int :: Candidate(minimum, maximum, length, alignment, t) ==> t <= s
        decreases s
      {
        var b := FirstBlocker(s, s + length - 1, sharedOk, nullOk, available);
        if b.None? {
          return Some(s), None;
        }
        blocker := b;
        StepDownIsNext(s, alignment);
        s := s - alignment;
      }
      return None, blocker;
    }
  }

  /** An aligned start whose extent stays inside the window. */
  predicate Candidate(minimum: int, maximum: int, length: int, alignment: int, s: int)
    requires alignment > 0
  {
    minimum <= s && s + length - 1 <= maximum && s % alignment == 0
  }

  lemma AlignDownIsHighest(x: int, alignment: int)
    requires alignment > 0
    ensures (x - x % alignment) % alignment == 0
    ensures forall t: int :: t % alignment == 0 && t <= x ==> t <= x - x % alignment
  {
    var q := x / alignment;
    MultipleIsAligned(q, alignment);
    forall t: int | t % alignment == 0 && t <= x
      ensures t <= x - x % alignment
    {
      var p := t / alignment;
      assert p * alignment < (q + 1) * alignment;
      MulCancel(p, q + 1, alignment);
      MulOrder(p, q, alignment);
    }
  }

  lemma AlignDownIsAligned(x: int, alignment: int)
    requires alignment > 0
    ensures (x - x % alignment) % alignment == 0
  {
    MultipleIsAligned(x / alignment, alignment);
  }

  lemma StepDownIsNext(s: int, alignment: int)
    requires alignment > 0 && s % alignment == 0
    ensures (s - alignment) % alignment == 0
    ensures forall t: int :: t % alignment == 0 && s - alignment < t ==> s <= t
  {
    var q := s / alignment;
    assert s - alignment == (q - 1) * alignment;
    MultipleIsAligned(q - 1, alignment);
    forall t: int | t % alignment == 0 && s - alignment < t
      ensures s <= t
    {
      var p := t / alignment;
      assert (q - 1) * alignment < p * alignment;
      MulCancel(q - 1, p, alignment);
      MulOrder(q, p, alignment);
    }
  }

  lemma MulOrder(p: int, q: int, a: int)
    requires p <= q && a > 0
    ensures p * a <= q * a
  {
    assert q * a == p * a + (q - p) * a;
  }

  lemma MulCancel(p: int, q: int, a: int)
    requires p * a < q * a && a > 0
    ensures p < q
  {
    if q <= p {
      MulOrder(q, p, a);
    }
  }

  lemma MultipleIsAligned(q: int, alignment: int)
    requires alignment > 0
    ensures (q * alignment) % alignment == 0
  {
    DivModUnique(q * alignment, q, 0, alignment);
  }

  lemma DivModUnique(x: int, q: int, r: int, a: int)
    requires a > 0 && 0 <= r < a && x == q * a + r
    ensures x / a == q && x % a == r
  {
    var p := x / a;
    assert p * a < (q + 1) * a;
    MulCancel(p, q + 1, a);
    assert q * a < (p + 1) * a;
    MulCancel(q, p + 1, a);
  }
}
