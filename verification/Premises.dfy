/** What a stack of requests may be like: the conditions the search's promises are made under. */
module Premises {
  import opened Words
  import opened RangeLists
  import opened ArbiterTypes
  import opened Walker
  import opened Placement
  import opened Attempts

  // ----- Ownership -----

  /** No listed device owns anything in the list yet. */
  ghost predicate Foreign(start: seq<Range>, init: seq<State>) {
    forall r, i :: r in start && 0 <= i < |init| ==> r.owner != init[i].entry.device
  }

  // ----- Plain requests -----

  /** The FIXED flag means what ArbpBuildAlternative makes it mean. */
  predicate HonestFlag(a: Alternative) {
    a.fixed ==> Wrap64(a.maximum - a.minimum + 1) == a.length
  }

  /** No window this alternative can be given carries out of 64 bits when it is aligned. */
  predicate NoWindowCarries(os: seq<Ordering>, a: Alternative) {
    && NoCarry(a.minimum, a.Step())
    && forall i :: 0 <= i < |os| && Fits(os[i], a) ==> NoCarry(Max(a.minimum, os[i].start), a.Step())
  }

  /** The lowest start a window of this alternative can have: a carry restarts it at zero. */
  function Floor(os: seq<Ordering>, a: Alternative): u64 {
    if NoWindowCarries(os, a) then a.minimum else 0
  }

  /** Not shared by driver; and a fixed one, which can be put over its own device, does not carry. */
  predicate PlainAlternative(os: seq<Ordering>, a: Alternative) {
    HonestFlag(a) && (a.fixed ==> NoWindowCarries(os, a)) && a.descriptor.share != DriverExclusive
  }

  /** A stack as a test builds it, with no driver-exclusive sharing anywhere. */
  ghost predicate Plain(setup: Setup, start: seq<Range>, init: seq<State>) {
    && Foreign(start, init)
    && (forall r :: r in start ==> SharedDriver !in r.attributes)
    && (forall i :: 0 <= i < |init| ==> init[i].attributes == {} && init[i].available == {})
    && (forall i, a :: 0 <= i < |init| && 0 <= a < |init[i].alternatives| ==>
                         PlainAlternative(setup.orderings, init[i].alternatives[a]))
  }

  // ----- Twins -----

  /** The bounds of a placement of the alternative or, at the port arbiter, of one of its decode mirrors. */
  predicate CanHold(setup: Setup, a: Alternative, lo: u64, hi: u64) {
    && a.length != 0 && hi == Wrap64(lo + a.length - 1)
    && exists p: u64 :: p <= lo && Candidate(Floor(setup.orderings, a), a.maximum, a.length, a.Step(), p)
                        && (p == lo || (setup.kind == PortArbiter && MirrorOf(a.descriptor.decode, p, lo)))
  }

  /**
  Two alternatives of one device that can come to hold ranges with equal bounds
  and different sharing flags, the first of them on top of the second: only a
  fixed one is put over its own device's ranges, and only a mirror over those
  of no device.
  */
  ghost predicate Twins(setup: Setup, device: Device, a: Alternative, b: Alternative) {
    && a.shared != b.shared
    && (a.fixed || (setup.kind == PortArbiter && device == NULL))
    && exists lo: u64, hi: u64 :: CanHold(setup, a, lo, hi) && CanHold(setup, b, lo, hi)
  }

  /** No two requirements of one device have twin alternatives. */
  ghost predicate NoTwins(setup: Setup, init: seq<State>) {
    forall i, j, a, b ::
      0 <= i < |init| && 0 <= j < |init| && i != j && init[i].entry.device == init[j].entry.device
      && 0 <= a < |init[i].alternatives| && 0 <= b < |init[j].alternatives| ==>
        !Twins(setup, init[i].entry.device, init[i].alternatives[a], init[j].alternatives[b])
  }

  /** Away from the ports only placements themselves are held. */
  lemma HoldsItsPlacements(setup: Setup, a: Alternative, lo: u64, hi: u64)
    requires setup.kind != PortArbiter
    ensures CanHold(setup, a, lo, hi) <==>
              && a.length != 0 && hi == lo + a.length - 1
              && Floor(setup.orderings, a) <= lo && hi <= a.maximum && lo % a.Step() == 0
  {
    hide Floor;
    var floor := Floor(setup.orderings, a);
    if a.length != 0 && floor <= lo && lo + a.length - 1 <= a.maximum && lo % a.Step() == 0 {
      assert Candidate(floor, a.maximum, a.length, a.Step(), lo);
    }
  }

  /** Away from the ports twins are easy to see: a fixed range that is also a placement of the other alternative. */
  lemma TwinsAreSeen(setup: Setup, device: Device, a: Alternative, b: Alternative)
    requires setup.kind != PortArbiter && a.fixed && a.length != 0 && a.maximum - a.minimum == a.length - 1
    requires NoWindowCarries(setup.orderings, a)
    ensures Twins(setup, device, a, b) <==>
              && a.shared != b.shared && a.length == b.length && a.minimum % a.Step() == 0
              && Floor(setup.orderings, b) <= a.minimum && a.maximum <= b.maximum && a.minimum % b.Step() == 0
  {
    hide CanHold;
    forall lo: u64, hi: u64 | CanHold(setup, a, lo, hi)
      ensures lo == a.minimum && hi == a.maximum
    {
      HoldsItsPlacements(setup, a, lo, hi);
    }
    HoldsItsPlacements(setup, a, a.minimum, a.maximum);
    HoldsItsPlacements(setup, b, a.minimum, a.maximum);
  }

  // ----- When the sharing flags can be followed -----

  /** The requirements of one device agree on sharing. */
  ghost predicate Agreeing(init: seq<State>) {
    forall i, j, a, b ::
      0 <= i < |init| && 0 <= j < |init| && init[i].entry.device == init[j].entry.device
      && 0 <= a < |init[i].alternatives| && 0 <= b < |init[j].alternatives| ==>
        init[i].alternatives[a].shared == init[j].alternatives[b].shared
  }

  /** It does not matter which of two ranges with equal bounds and owner RtlDeleteRange picks. */
  ghost predicate Separable(setup: Setup, start: seq<Range>, init: seq<State>) {
    Foreign(start, init) && (Agreeing(init) || (Plain(setup, start, init) && NoTwins(setup, init)))
  }
}
