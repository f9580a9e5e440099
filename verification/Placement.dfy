/**
Choosing a placement inside the window in force, and laying it down in or
taking it out of the tentative list, for the library and for the root
memory, port and bus number arbiters.
*/
module Placement {
  import opened Words
  import opened RangeLists
  import opened ArbiterTypes

  /** Which callbacks the arbiter instance carries. Bus numbers keep the library's own. */
  datatype ArbiterKind = BusArbiter | MemoryArbiter | PortArbiter

  /** A search leaves the position alone or puts it inside the window. */
  predicate Stays(s0: State, s: State) {
    (s.start == s0.start && s.end == s0.end) || (s0.curMin <= s.start && s.end <= s0.curMax)
  }

  /** A failed search leaves the position alone or spreads it over the window. */
  predicate Parked(s0: State, s: State) {
    (s.start == s0.start && s.end == s0.end) || (s.start == s0.curMin && s.end == s0.curMax)
  }

  // ----- Conflict escapes -----

  /** A fixed requirement in whose window only its own device's ranges stand. */
  ghost predicate Reclaimable(rs: seq<Range>, s: State)
    requires s.HasCurrent()
  {
    && s.Chosen().fixed && s.entry.device != NULL
    && (exists r :: r in rs && Blocks(r, s))
    && (forall r :: r in rs && Blocks(r, s) ==> r.owner == s.entry.device)
  }

  /** A range in the window that no declared attribute opens up. */
  predicate Blocks(r: Range, s: State) {
    r.Overlaps(s.curMin, s.curMax) && r.attributes * s.available == {}
  }

  /** ArbiterLibOverrideConflict: a fixed requirement may reclaim what its own device holds. */
  method OverrideConflict(list: RangeList, s0: State) returns (ok: bool, s: State)
    requires s0.current.Some? ==> s0.HasCurrent()
    ensures s == s0.(start := s.start, end := s.end)
    ensures ok <==> s0.HasCurrent() && Reclaimable(list.ranges, s0)
    ensures ok ==> s.start == s.curMin && s.end == s.curMax
    ensures Parked(s0, s)
  {
    s, ok := s0, false;
    if s.current.None? || !s.Chosen().fixed {
      return false, s;
    }
    if s.entry.device == NULL {
      return false, s;
    }
    for i := 0 to |list.ranges|
      invariant s == s0.(start := s.start, end := s.end)
      invariant ok <==> exists r :: r in list.ranges[..i] && Blocks(r, s0)
      invariant forall r :: r in list.ranges[..i] && Blocks(r, s0) ==> r.owner == s0.entry.device
      invariant if ok then s.start == s.curMin && s.end == s.curMax else s.start == s0.start && s.end == s0.end
    {
      var r := list.ranges[i];
      assert list.ranges[..i + 1] == list.ranges[..i] + [r];
      if Blocks(r, s) {
        if r.owner != s.entry.device {
          return false, s;
        }
        ok := true;
        s := s.(start := s.curMin, end := s.curMax);
        assert r in list.ranges[..i + 1] && Blocks(r, s0);
      }
    }
    assert list.ranges[..|list.ranges|] == list.ranges;
  }

  /** A range that driver-exclusive sharing could apply to. */
  predicate ShareCandidate(r: Range, s: State)
    requires s.HasCurrent()
  {
    && Blocks(r, s)
    && (s.Chosen().descriptor.share == DriverExclusive || SharedDriver in r.attributes)
    && r.owner != NULL
  }

  predicate AsksForDriver(alts: seq<Alternative>) {
    exists i :: 0 <= i < |alts| && alts[i].descriptor.share == DriverExclusive
  }

  /** Only a driver-exclusive requirement marks what it lays down. */
  predicate MarkedFrom(s0: State, s: State) {
    || s.attributes == s0.attributes
    || (AsksForDriver(s0.alternatives) && s.attributes == s0.attributes + {SharedDriver})
  }

  /**
  ArbpShareDriverExclusive. Whether two device stacks share a driver, or both
  devices are root enumerated, is the environment's answer for each candidate.
  */
  method ShareDriverExclusive(list: RangeList, s0: State) returns (ok: bool, s: State)
    requires s0.current.Some? ==> s0.HasCurrent()
    ensures s == s0.(start := s.start, end := s.end, attributes := s.attributes)
    ensures MarkedFrom(s0, s)
    ensures !ok ==> s == s0
    ensures ok ==> s0.HasCurrent() && exists r :: r in list.ranges && ShareCandidate(r, s0)
    ensures ok ==> s.start == s.curMin && s.end == s.curMax
  {
    s, ok := s0, false;
    if s.entry.device == NULL || s.current.None? {
      return;
    }
    for i := 0 to |list.ranges| {
      if ShareCandidate(list.ranges[i], s) {
        var share: bool := *;
        if share {
          s := s.(start := s.curMin, end := s.curMax);
          if s.Chosen().descriptor.share == DriverExclusive {
            s := s.(attributes := s.attributes + {SharedDriver});
          }
          return true, s;
        }
      }
    }
  }

  // ----- Finding a placement -----

  /** An aligned placement of exactly the requested length that meets only tolerated ranges. */
  ghost predicate PlacedFree(rs: seq<Range>, s: State)
    requires s.HasCurrent()
  {
    var a := s.Chosen();
    && s.curMin <= s.start && s.end <= s.curMax
    && s.end == s.start + a.length - 1
    && s.start % a.Step() == 0
    && Clear(rs, s.start, s.end, a.shared, false, s.available)
  }

  /** The whole window of a fixed requirement, in which only its own device stands. */
  ghost predicate PlacedOverOwn(rs: seq<Range>, s: State)
    requires s.HasCurrent()
  {
    Reclaimable(rs, s) && s.start == s.curMin && s.end == s.curMax
  }

  /** The whole window, shared with another device of the same driver. */
  ghost predicate PlacedByDriver(rs: seq<Range>, s: State)
    requires s.HasCurrent()
  {
    && s.start == s.curMin && s.end == s.curMax
    && exists r :: r in rs && ShareCandidate(r, s)
  }

  /** No aligned placement in the window is clear. */
  ghost predicate NoRoom(rs: seq<Range>, s: State)
    requires s.HasCurrent()
  {
    var a := s.Chosen();
    forall p: int :: Candidate(s.curMin, s.curMax, a.length, a.Step(), p) ==>
                       !Clear(rs, p, p + a.length - 1, a.shared, false, s.available)
  }

  /** A clear placement with no clear one above it. */
  ghost predicate PlacedHighest(rs: seq<Range>, s: State)
    requires s.HasCurrent()
  {
    var a := s.Chosen();
    && PlacedFree(rs, s)
    && forall p: int :: Candidate(s.curMin, s.curMax, a.length, a.Step(), p) && s.start < p ==>
                          !Clear(rs, p, p + a.length - 1, a.shared, false, s.available)
  }

  /** Above the highest clear placement there is no room. */
  lemma NothingAboveHighest(rs: seq<Range>, s: State)
    requires s.HasCurrent() && PlacedHighest(rs, s) && s.Chosen().length > 0 && s.start + s.Chosen().length < TWO_64
    ensures NoRoom(rs, s.(curMin := s.start + s.Chosen().length))
  {
    var a := s.Chosen();
    var above := s.(curMin := s.start + a.length);
    forall p: int | Candidate(above.curMin, above.curMax, a.length, a.Step(), p)
      ensures !Clear(rs, p, p + a.length - 1, a.shared, false, s.available)
    {
      assert Candidate(s.curMin, s.curMax, a.length, a.Step(), p) && s.start < p;
    }
  }

  ghost predicate PlacedSomehow(rs: seq<Range>, s: State) {
    && s.HasCurrent()
    && s.curMin <= s.curMax
    && if s.Chosen().length == 0 then s.start == s.curMin && s.end == s.curMin
       else PlacedFree(rs, s) || PlacedOverOwn(rs, s) || PlacedByDriver(rs, s)
  }

  /** Every attribute the request could ever declare available. */
  function Declared(kind: ArbiterKind, s: State): set<Attribute> {
    (if s.entry.legacy then {BootAllocated} else {})
    + (if exists i :: 0 <= i < |s.alternatives| && s.alternatives[i].inaccessibleOk then {Inaccessible} else {})
    + (if kind != BusArbiter && s.entry.bootConfig then {BootAllocated} else {})
    + (if kind != BusArbiter && s.entry.bootConfig
          && exists i :: 0 <= i < |s.alternatives| && s.alternatives[i].fixed
       then {OutsideDecode} else {})
  }

  /** What a search for a placement may change in the state: not the request, not its choice. */
  ghost predicate SearchedFrom(kind: ArbiterKind, s0: State, s: State) {
    && s == s0.(start := s.start, end := s.end, curMin := s.curMin, mcfgConflict := s.mcfgConflict,
                attributes := s.attributes, available := s.available)
    && MarkedFrom(s0, s)
    && s0.available <= s.available <= s0.available + Declared(kind, s0)
  }

  /** The last chance of a request whose window is occupied. */
  method Escape(list: RangeList, mmconfig: seq<Ordering>, s0: State) returns (ok: bool, s: State)
    requires s0.HasCurrent() && s0.Chosen().length != 0 && s0.curMin <= s0.curMax
    ensures s == s0.(start := s.start, end := s.end, mcfgConflict := s.mcfgConflict, attributes := s.attributes)
    ensures MarkedFrom(s0, s)
    ensures ok ==> PlacedSomehow(list.ranges, s)
    ensures !ok ==> !Reclaimable(list.ranges, s0)
    ensures Parked(s0, s)
  {
    ok, s := ShareDriverExclusive(list, s0);
    if ok {
      assert forall r :: ShareCandidate(r, s0) ==> ShareCandidate(r, s);
      return;
    }
    ok, s := OverrideConflict(list, s);
    if ok {
      assert forall r :: Blocks(r, s0) <==> Blocks(r, s);
      return;
    }
    if exists i :: 0 <= i < |mmconfig| && s.curMin <= mmconfig[i].end && mmconfig[i].start <= s.curMax {
      s := s.(mcfgConflict := true);
    }
  }

  /**
  The search takes the highest clear placement if there is one, and gives up
  only without any and with nothing to reclaim.
  */
  ghost predicate Thorough(rs: seq<Range>, s0: State, ok: bool, s: State)
    requires s0.current.Some? ==> s0.HasCurrent()
    requires s.current == s0.current && s.alternatives == s0.alternatives
  {
    if s0.current.None? || s0.curMin > s0.curMax then !ok
    else if s0.Chosen().length == 0 then ok
    else
      && (ok ==> PlacedHighest(rs, s) || NoRoom(rs, s))
      && (!ok ==> NoRoom(rs, s) && !Reclaimable(rs, s))
  }

  /** What the library search adds to the attributes declared available. */
  function LibraryOpens(s: State): set<Attribute>
    requires s.HasCurrent()
  {
    s.available
    + (if s.entry.legacy then {BootAllocated} else {})
    + (if s.Chosen().inaccessibleOk then {Inaccessible} else {})
  }

  /** The search has something to look for. */
  predicate Searches(s: State) {
    s.HasCurrent() && s.curMin <= s.curMax && s.Chosen().length != 0
  }

  /** A range in the window that the request does not tolerate. */
  predicate InTheWay(r: Range, s: State) {
    s.HasCurrent() && r.Overlaps(s.curMin, s.curMax) && !r.Tolerated(s.Chosen().shared, false, s.available)
  }

  /** The window has no aligned place of the requested length, whatever stands in it. */
  ghost predicate Hopeless(s: State)
    requires s.HasCurrent()
  {
    forall p: int :: !Candidate(s.curMin, s.curMax, s.Chosen().length, s.Chosen().Step(), p)
  }

  /** A failed search names a range that was in the way, unless nothing could have helped. */
  ghost predicate Blames(rs: seq<Range>, s0: State, ok: bool, s: State, blocker: Option<Range>) {
    && (blocker.Some? ==> Searches(s0) && blocker.value in rs && InTheWay(blocker.value, s))
    && (!ok && blocker.None? && Searches(s0) ==> s.HasCurrent() && Hopeless(s))
  }

  /** ArbiterLibFindSuitableRange. Nothing in this driver sets the state flag for unowned conflicts. */
  method LibraryFind(list: RangeList, mmconfig: seq<Ordering>, kind: ArbiterKind, s0: State)
    returns (ok: bool, s: State, blocker: Option<Range>)
    requires s0.current.Some? ==> s0.HasCurrent()
    ensures SearchedFrom(kind, s0, s) && s.curMin == s0.curMin
    ensures Searches(s0) ==> s.available == LibraryOpens(s0)
    ensures ok ==> PlacedSomehow(list.ranges, s)
    ensures Thorough(list.ranges, s0, ok, s)
    ensures Stays(s0, s)
    ensures !ok ==> Parked(s0, s)
    ensures Blames(list.ranges, s0, ok, s, blocker)
  {
    hide Reclaimable, PlacedFree, PlacedOverOwn, PlacedByDriver, NoRoom;
    s, blocker := s0, None;
    if s.current.None? {
      return false, s, None;
    }
    var a := s.Chosen();
    if s.curMin > s.curMax {
      return false, s, None;
    }
    if a.length == 0 {
      s := s.(start := s.curMin, end := s.curMin);
      return true, s, None;
    }
    var available := s.available;
    if s.entry.legacy {
      available := available + {BootAllocated};
    }
    if a.inaccessibleOk {
      available := available + {Inaccessible};
    }
    assert available <= s0.available + Declared(kind, s0);
    s := s.(available := available);
    ok, s, blocker := SearchWindow(list, mmconfig, s);
  }

  /** The highest clear placement, or else an escape. */
  method SearchWindow(list: RangeList, mmconfig: seq<Ordering>, s0: State)
    returns (ok: bool, s: State, blocker: Option<Range>)
    requires s0.HasCurrent() && s0.curMin <= s0.curMax && s0.Chosen().length != 0
    ensures s == s0.(start := s.start, end := s.end, mcfgConflict := s.mcfgConflict, attributes := s.attributes)
    ensures MarkedFrom(s0, s)
    ensures ok ==> PlacedSomehow(list.ranges, s) && (PlacedHighest(list.ranges, s) || NoRoom(list.ranges, s))
    ensures !ok ==> NoRoom(list.ranges, s) && !Reclaimable(list.ranges, s)
    ensures Stays(s0, s)
    ensures !ok ==> Parked(s0, s)
    ensures Blames(list.ranges, s0, ok, s, blocker)
  {
    hide Reclaimable, PlacedOverOwn, PlacedByDriver, Clear;
    s := s0;
    var a := s.Chosen();
    var start;
    start, blocker := list.Find(s.curMin, s.curMax, a.length, a.Step(), a.shared, false, s.available);
    if start.Some? {
      s := s.(start := start.value, end := start.value + a.length - 1);
      assert PlacedFree(list.ranges, s);
      return true, s, blocker;
    }
    ok, s := Escape(list, mmconfig, s);
    SameBlocks(list.ranges, s0, s);
  }

  lemma SameBlocks(rs: seq<Range>, s: State, t: State)
    requires s.HasCurrent() && t.HasCurrent()
    requires t == s.(start := t.start, end := t.end, mcfgConflict := t.mcfgConflict, attributes := t.attributes)
    ensures Reclaimable(rs, t) <==> Reclaimable(rs, s)
  {
    assert forall r :: Blocks(r, t) <==> Blocks(r, s);
  }

  /** What a search of the resource arbiters adds: a boot configuration opens more. */
  function ResourceOpens(s: State): set<Attribute>
    requires s.HasCurrent()
  {
    LibraryOpens(s)
    + (if s.entry.bootConfig then {BootAllocated} else {})
    + (if s.entry.bootConfig && s.Chosen().fixed then {OutsideDecode} else {})
  }

  /** UacpiNtResFindSuitableRange: a boot configuration opens up boot allocated and undecoded space. */
  method ResourceFind(list: RangeList, mmconfig: seq<Ordering>, kind: ArbiterKind, s0: State)
    returns (ok: bool, s: State, blocker: Option<Range>)
    requires s0.current.Some? ==> s0.HasCurrent()
    requires kind != BusArbiter
    ensures SearchedFrom(kind, s0, s) && s.curMin == s0.curMin
    ensures Searches(s0) ==> s.available == ResourceOpens(s0)
    ensures ok ==> PlacedSomehow(list.ranges, s)
    ensures Thorough(list.ranges, s0, ok, s)
    ensures Stays(s0, s)
    ensures !ok ==> Parked(s0, s)
    ensures Blames(list.ranges, s0, ok, s, blocker)
  {
    hide PlacedSomehow, Thorough, MarkedFrom, Declared;
    s := s0;
    if s.entry.bootConfig {
      s := s.(available := s.available + {BootAllocated});
      if s.current.Some? && s.Chosen().fixed {
        s := s.(available := s.available + {OutsideDecode});
      }
    }
    ghost var booted := s;
    ok, s, blocker := LibraryFind(list, mmconfig, kind, s);
    SearchedBooted(list.ranges, kind, s0, booted, ok, s);
  }

  lemma SearchedBooted(rs: seq<Range>, kind: ArbiterKind, s0: State, booted: State, ok: bool, s: State)
    requires kind != BusArbiter && (s0.current.Some? ==> s0.HasCurrent())
    requires booted == s0.(available := booted.available)
    requires booted.available == s0.available
             + (if s0.entry.bootConfig then {BootAllocated} else {})
             + (if s0.entry.bootConfig && s0.HasCurrent() && s0.Chosen().fixed then {OutsideDecode} else {})
    requires SearchedFrom(kind, booted, s) && Thorough(rs, booted, ok, s)
    ensures SearchedFrom(kind, s0, s) && Thorough(rs, s0, ok, s)
    ensures Searches(s0) && s.available == LibraryOpens(booted) ==> s.available == ResourceOpens(s0)
  {
  }

  // ----- Port mirrors -----

  const IO_SPACE_LAST := 0xFFFF

  /** How far apart the mirrors of a partial decoder are: it decodes 10 or 12 address lines. */
  function AliasStep(decode: Decode): u64 {
    if decode == TenBit then 0x400 else 0x1000
  }

  /** UacpiNtNextPortAlias: the next ISA decode mirror, none for a full decoder or past the top. */
  function NextAlias(decode: Decode, last: u64): (next: Option<u64>)
    ensures next.Some? <==> decode != Full && last + AliasStep(decode) <= IO_SPACE_LAST
    ensures next.Some? ==> next.value == last + AliasStep(decode)
  {
    if decode == Full then None
    else
      var next := Wrap64(last + AliasStep(decode));
      if next > IO_SPACE_LAST || next < last then None else Some(next)
  }

  /** A decode mirror of a port: a whole number of steps above it, inside the port space. */
  predicate MirrorOf(decode: Decode, port: u64, alias: u64) {
    decode != Full && port < alias <= IO_SPACE_LAST && (alias - port) % AliasStep(decode) == 0
  }

  /** A range as RtlAddRange takes it: a backwards one is refused. */
  function Accepted(r: Range): seq<Range> {
    if r.start <= r.end then [r] else []
  }

  function Mirror(s: State, alias: u64): Range
    requires s.HasCurrent()
  {
    var a := s.Chosen();
    Range(alias, Wrap64(alias + a.length - 1), s.entry.device, s.attributes + {PortAlias}, a.shared)
  }

  /** The mirrors of a placement above `last`. */
  function Mirrors(s: State, last: u64): seq<Range>
    requires s.HasCurrent()
    decreases Max(0, IO_SPACE_LAST + 1 - last)
  {
    var next := NextAlias(s.Chosen().descriptor.decode, last);
    if next.None? then [] else Accepted(Mirror(s, next.value)) + Mirrors(s, next.value)
  }

  function Primary(s: State): Range
    requires s.HasCurrent()
  {
    Range(s.start, s.end, s.entry.device, s.attributes, s.Chosen().shared)
  }

  /** What laying a state down adds to the list. */
  function Put(kind: ArbiterKind, s: State): seq<Range>
    requires s.HasCurrent()
  {
    Accepted(Primary(s)) + if kind == PortArbiter && s.Chosen().length != 0 then Mirrors(s, s.start) else []
  }

  /** All the ranges a placed state holds in the tentative list. */
  function Laid(kind: ArbiterKind, s: State): seq<Range> {
    if !s.HasCurrent() || s.Chosen().length == 0 then [] else Put(kind, s)
  }

  lemma {:induction false} MirrorsBelong(s: State, last: u64)
    requires s.HasCurrent()
    ensures forall r :: r in Mirrors(s, last) ==>
                          && r.start <= r.end && r.owner == s.entry.device
                          && r.shared == s.Chosen().shared && r.attributes == s.attributes + {PortAlias}
    decreases Max(0, IO_SPACE_LAST + 1 - last)
  {
    var next := NextAlias(s.Chosen().descriptor.decode, last);
    if next.Some? {
      MirrorsBelong(s, next.value);
    }
  }

  lemma LaidBelongs(kind: ArbiterKind, s: State)
    ensures forall r :: r in Laid(kind, s) ==>
                          && s.HasCurrent()
                          && r.start <= r.end && r.owner == s.entry.device
                          && r.shared == s.Chosen().shared && r.attributes <= s.attributes + {PortAlias}
  {
    if s.HasCurrent() {
      MirrorsBelong(s, s.start);
    }
  }

  /** Two states that claim the same ranges: all that laying down reads of a state. */
  ghost predicate SamePlacement(s: State, t: State) {
    && s.HasCurrent() && t.HasCurrent()
    && s.start == t.start && s.end == t.end && s.attributes == t.attributes
    && s.entry.device == t.entry.device
    && s.Chosen().length == t.Chosen().length
    && s.Chosen().shared == t.Chosen().shared
    && s.Chosen().descriptor.decode == t.Chosen().descriptor.decode
  }

  lemma {:induction false} SameMirrors(s: State, t: State, last: u64)
    requires SamePlacement(s, t)
    ensures Mirrors(s, last) == Mirrors(t, last)
    decreases Max(0, IO_SPACE_LAST + 1 - last)
  {
    hide Accepted, Wrap64;
    var next := NextAlias(s.Chosen().descriptor.decode, last);
    if next.Some? {
      assert Mirror(s, next.value) == Mirror(t, next.value);
      SameMirrors(s, t, next.value);
    }
  }

  lemma SameLaid(kind: ArbiterKind, s: State, t: State)
    requires SamePlacement(s, t)
    ensures Laid(kind, s) == Laid(kind, t) && Put(kind, s) == Put(kind, t)
  {
    SameMirrors(s, t, s.start);
  }

  /** One mirror is free for the request, or stands only on its own device's ranges. */
  ghost predicate MirrorFits(rs: seq<Range>, s: State, alias: u64)
    requires s.HasCurrent()
  {
    var a := s.Chosen();
    var top := Wrap64(alias + a.length - 1);
    || (alias <= top && Clear(rs, alias, top, a.shared, true, s.available))
    || Reclaimable(rs, s.(curMin := alias, curMax := top))
  }

  ghost predicate MirrorsFit(rs: seq<Range>, s: State, last: u64)
    requires s.HasCurrent()
    decreases Max(0, IO_SPACE_LAST + 1 - last)
  {
    var next := NextAlias(s.Chosen().descriptor.decode, last);
    next.Some? ==> MirrorFits(rs, s, next.value) && MirrorsFit(rs, s, next.value)
  }

  /** A placement in the window and, at the port arbiter, room for its mirrors. */
  ghost predicate PlacedWhole(kind: ArbiterKind, rs: seq<Range>, s: State) {
    PlacedSomehow(rs, s) && (kind == PortArbiter && s.Chosen().length != 0 ==> MirrorsFit(rs, s, s.start))
  }

  /** The mirrors laid down are mirrors of the placement, and each was found to fit. */
  lemma {:induction false} EachMirrorFits(rs: seq<Range>, s: State, last: u64, m: Range)
    requires s.HasCurrent() && m in Mirrors(s, last)
    ensures m == Mirror(s, m.start) && MirrorOf(s.Chosen().descriptor.decode, last, m.start)
    ensures MirrorsFit(rs, s, last) ==> MirrorFits(rs, s, m.start)
    decreases Max(0, IO_SPACE_LAST + 1 - last)
  {
    hide MirrorOf, MirrorFits;
    var decode := s.Chosen().descriptor.decode;
    var next := NextAlias(decode, last).value;
    if m in Accepted(Mirror(s, next)) {
      NextIsMirror(decode, last);
    } else {
      EachMirrorFits(rs, s, next, m);
      MirrorOfNext(decode, last, m.start);
    }
  }

  /** The next mirror is the lowest one. */
  lemma NextIsMirror(decode: Decode, port: u64)
    ensures var next := NextAlias(decode, port);
            && (next.Some? ==> MirrorOf(decode, port, next.value))
            && forall alias: u64 :: MirrorOf(decode, port, alias) ==> next.Some? && next.value <= alias
  {
    DivModUnique(AliasStep(decode), 1, 0, AliasStep(decode));
    forall alias: u64 | MirrorOf(decode, port, alias)
      ensures port + AliasStep(decode) <= alias
    {
      SmallRemainder(alias - port, AliasStep(decode));
    }
  }

  lemma SmallRemainder(x: int, step: int)
    requires 0 < x && step > 0 && x % step == 0
    ensures step <= x
  {
    if x < step {
      DivModUnique(x, 0, x, step);
    }
  }

  lemma MirrorOfNext(decode: Decode, port: u64, alias: u64)
    requires NextAlias(decode, port).Some? && MirrorOf(decode, NextAlias(decode, port).value, alias)
    ensures MirrorOf(decode, port, alias)
  {
    var step := AliasStep(decode);
    var x := alias - port - step;
    DivModUnique(x + step, x / step + 1, 0, step);
  }

  /** UacpiNtPortAliasesAvailable. */
  method PortAliasesAvailable(list: RangeList, s: State) returns (ok: bool, blocker: Option<Range>)
    requires s.current.Some? ==> s.HasCurrent()
    ensures blocker.Some? ==> blocker.value in list.ranges
    ensures ok <==> s.current.None? || s.Chosen().length == 0 || MirrorsFit(list.ranges, s, s.start)
  {
    blocker := None;
    if s.current.None? || s.Chosen().length == 0 {
      return true, None;
    }
    var a := s.Chosen();
    var last: u64 := s.start;
    var next := NextAlias(a.descriptor.decode, last);
    while next.Some?
      invariant next == NextAlias(a.descriptor.decode, last)
      invariant MirrorsFit(list.ranges, s, last) <==> MirrorsFit(list.ranges, s, s.start)
      invariant blocker.Some? ==> blocker.value in list.ranges
      decreases Max(0, IO_SPACE_LAST + 1 - last)
    {
      var alias := next.value;
      var top := Wrap64(alias + a.length - 1);
      var met := list.FirstBlocker(alias, top, a.shared, true, s.available);
      blocker := if met.Some? then met else blocker;
      if alias > top || met.Some? {
        var probe;
        ok, probe := OverrideConflict(list, s.(curMin := alias, curMax := top));
        if !ok {
          return false, blocker;
        }
      }
      last := alias;
      next := NextAlias(a.descriptor.decode, last);
    }
    return true, blocker;
  }

  /** The window holds the chosen alternative in one place only. */
  predicate Snug(s: State) {
    s.HasCurrent() && s.curMax - s.curMin == s.Chosen().length - 1
  }

  /** The port search gives up for want of room, or with a placement in hand whose mirrors are taken. */
  ghost predicate PortThorough(rs: seq<Range>, s0: State, ok: bool, s: State)
    requires s0.current.Some? ==> s0.HasCurrent()
    requires s.current == s0.current && s.alternatives == s0.alternatives
  {
    if s0.current.None? || s0.curMin > s0.curMax then !ok
    else !ok ==>
      || (s.Chosen().length != 0 && NoRoom(rs, s) && !Reclaimable(rs, s))
      || (PlacedSomehow(rs, s) && s.Chosen().length != 0 && !MirrorsFit(rs, s, s.start))
  }

  lemma PlacedInWindow(rs: seq<Range>, s: State)
    requires PlacedSomehow(rs, s)
    ensures s.curMin <= s.start
  {
  }

  /** Searching on from a higher bottom of the window is still one search. */
  lemma SearchedOn(kind: ArbiterKind, s0: State, s1: State, s2: State)
    requires SearchedFrom(kind, s0, s1)
    requires SearchedFrom(kind, s1.(curMin := s2.curMin), s2)
    ensures SearchedFrom(kind, s0, s2)
  {
  }

  // ----- Which placements the port search reaches -----

  /** No escape can help the request: it is not fixed, and no driver shares anything. */
  predicate Unaided(rs: seq<Range>, s: State) {
    && Searches(s)
    && !s.Chosen().fixed && s.Chosen().descriptor.share != DriverExclusive
    && forall r :: r in rs ==> SharedDriver !in r.attributes
  }

  /** The state once `p` is chosen. */
  function At(s: State, p: u64): State
    requires s.HasCurrent()
  {
    s.(start := p, end := Wrap64(p + s.Chosen().length - 1), available := ResourceOpens(s))
  }

  /** The highest clear placement of the window has its mirrors free. */
  ghost predicate PortReaches(rs: seq<Range>, s: State)
    requires s.HasCurrent()
  {
    exists p: u64 :: PlacedHighest(rs, At(s, p)) && MirrorsFit(rs, At(s, p), p)
  }

  /** Equal in all that the search for room reads. */
  predicate Alike(s: State, t: State) {
    s == t.(mcfgConflict := s.mcfgConflict, attributes := s.attributes)
  }

  lemma {:induction false} SameMirrorsFit(rs: seq<Range>, s: State, t: State, last: u64)
    requires s.HasCurrent() && Alike(s, t)
    ensures MirrorsFit(rs, s, last) <==> MirrorsFit(rs, t, last)
    decreases Max(0, IO_SPACE_LAST + 1 - last)
  {
    var next := NextAlias(s.Chosen().descriptor.decode, last);
    if next.Some? {
      var a := s.Chosen();
      var top := Wrap64(next.value + a.length - 1);
      assert forall r :: Blocks(r, s.(curMin := next.value, curMax := top))
                    <==> Blocks(r, t.(curMin := next.value, curMax := top));
      SameMirrorsFit(rs, s, t, next.value);
    }
  }

  /** Nothing but a clear placement can be found for it, and then the highest. */
  lemma UnaidedTakesHighest(rs: seq<Range>, s: State)
    requires Unaided(rs, s) && PlacedSomehow(rs, s) && (PlacedHighest(rs, s) || NoRoom(rs, s))
    ensures PlacedHighest(rs, s)
  {
    assert PlacedFree(rs, s);
    assert Candidate(s.curMin, s.curMax, s.Chosen().length, s.Chosen().Step(), s.start);
  }

  /** There is only one highest clear placement. */
  lemma OneHighest(rs: seq<Range>, s: State, t: State)
    requires s.HasCurrent() && Alike(s, t.(start := s.start, end := s.end))
    requires PlacedHighest(rs, s) && PlacedHighest(rs, t)
    ensures s.start == t.start && s.end == t.end
  {
    var a := s.Chosen();
    assert Candidate(s.curMin, s.curMax, a.length, a.Step(), s.start);
    assert Candidate(s.curMin, s.curMax, a.length, a.Step(), t.start);
  }

  lemma HighestIsRoom(rs: seq<Range>, s: State)
    requires s.HasCurrent()
    ensures PlacedHighest(rs, s) ==> !NoRoom(rs, s)
  {
    assert PlacedHighest(rs, s) ==> Candidate(s.curMin, s.curMax, s.Chosen().length, s.Chosen().Step(), s.start);
  }

  /** Where the port search of an unaided request stands between two turns. */
  ghost predicate Tracks(rs: seq<Range>, s0: State, ok: bool, s: State) {
    Unaided(rs, s0) ==>
      if ok then s.HasCurrent() && Alike(s, At(s0, s.start)) && PlacedHighest(rs, s) else !PortReaches(rs, s0)
  }

  /** The placement in hand decides. */
  lemma FirstFoundDecides(rs: seq<Range>, s0: State, s: State)
    requires Tracks(rs, s0, true, s)
    ensures Unaided(rs, s0) ==>
              s.HasCurrent() && s.Chosen().length != 0 && (PortReaches(rs, s0) <==> MirrorsFit(rs, s, s.start))
  {
    hide MirrorsFit, ResourceOpens;
    if Unaided(rs, s0) {
      var there := At(s0, s.start);
      assert PlacedHighest(rs, there);
      SameMirrorsFit(rs, s, there, s.start);
      forall p: u64 | PlacedHighest(rs, At(s0, p))
        ensures p == s.start
      {
        OneHighest(rs, At(s0, p), there);
      }
    }
  }

  lemma NoRoomNoReach(rs: seq<Range>, s0: State, s: State)
    requires Unaided(rs, s0) && Alike(s, s0.(start := s.start, end := s.end, available := ResourceOpens(s0)))
    requires NoRoom(rs, s)
    ensures !PortReaches(rs, s0)
  {
    hide MirrorsFit, ResourceOpens, PlacedHighest;
    forall p: u64
      ensures !PlacedHighest(rs, At(s0, p))
    {
      SameRoom(rs, s, At(s0, p));
      HighestIsRoom(rs, At(s0, p));
    }
  }

  /** The first search. */
  lemma FirstSearch(rs: seq<Range>, s0: State, ok: bool, s: State)
    requires s0.current.Some? ==> s0.HasCurrent()
    requires SearchedFrom(PortArbiter, s0, s) && s.curMin == s0.curMin
    requires Searches(s0) ==> s.available == ResourceOpens(s0)
    requires (ok ==> PlacedSomehow(rs, s)) && Thorough(rs, s0, ok, s)
    ensures Tracks(rs, s0, ok, s)
  {
    hide NoRoom, Reclaimable, ResourceOpens, Declared, MarkedFrom, PlacedOverOwn, PlacedByDriver;
    if Unaided(rs, s0) {
      if ok {
        UnaidedTakesHighest(rs, s);
      } else {
        NoRoomNoReach(rs, s0, s);
      }
    }
  }

  /** A second search, above a placement whose mirrors are taken, finds nothing. */
  lemma SecondSearch(rs: seq<Range>, s0: State, before: State, next: u64, ok: bool, s: State)
    requires Tracks(rs, s0, true, before) && before.HasCurrent() && before.Chosen().length != 0
    requires Unaided(rs, s0) ==> !PortReaches(rs, s0)
    requires next == before.start + before.Chosen().length <= before.curMax
    requires SearchedFrom(PortArbiter, before.(curMin := next), s) && s.curMin == next
    requires Searches(before.(curMin := next)) ==> s.available == ResourceOpens(before.(curMin := next))
    requires (ok ==> PlacedSomehow(rs, s)) && Thorough(rs, before.(curMin := next), ok, s)
    ensures Tracks(rs, s0, ok, s)
  {
    hide Reclaimable, Declared, MarkedFrom, NoRoom, PlacedHighest, PlacedOverOwn, PlacedByDriver, PortReaches;
    if Unaided(rs, s0) {
      NothingAboveHighest(rs, before);
      assert s.available == before.available;
      SameRoom(rs, before.(curMin := next), s);
      HighestIsRoom(rs, s);
      if ok {
        UnaidedTakesHighest(rs, s);
      }
    }
  }

  lemma SameRoom(rs: seq<Range>, s: State, t: State)
    requires s.HasCurrent() && Alike(t, s.(start := t.start, end := t.end)) && NoRoom(rs, s)
    ensures NoRoom(rs, t)
  {
    var a := s.Chosen();
    assert t.Chosen() == a && t.curMin == s.curMin && t.curMax == s.curMax && t.available == s.available;
    forall p: int | Candidate(t.curMin, t.curMax, a.length, a.Step(), p)
      ensures !Clear(rs, p, p + a.length - 1, a.shared, false, t.available)
    {
      assert Candidate(s.curMin, s.curMax, a.length, a.Step(), p);
    }
  }

  /** UacpiNtResPortFindSuitableRange: placements whose decode mirrors are taken are passed over. */
  method PortFind(list: RangeList, mmconfig: seq<Ordering>, s0: State)
    returns (ok: bool, s: State, blocker: Option<Range>)
    requires s0.current.Some? ==> s0.HasCurrent()
    ensures SearchedFrom(PortArbiter, s0, s)
    ensures s0.curMin <= s.curMin && (Snug(s0) ==> s.curMin == s0.curMin)
    ensures ok ==> PlacedWhole(PortArbiter, list.ranges, s)
    ensures Unaided(list.ranges, s0) ==> (ok <==> PortReaches(list.ranges, s0))
    ensures Stays(s0, s)
    ensures blocker.Some? ==> blocker.value in list.ranges
    ensures PortThorough(list.ranges, s0, ok, s)
  {
    hide PlacedFree, PlacedOverOwn, PlacedByDriver, NoRoom, PlacedHighest, Reclaimable, MirrorsFit, Declared,
      MarkedFrom, PortReaches, Tracks, ResourceOpens, Unaided, Parked;
    ok, s, blocker := ResourceFind(list, mmconfig, PortArbiter, s0);
    FirstSearch(list.ranges, s0, ok, s);
    TracksFailure(list.ranges, s0, s);
    while ok
      invariant SearchedFrom(PortArbiter, s0, s)
      invariant s0.curMin <= s.curMin && (Snug(s0) ==> s.curMin == s0.curMin)
      invariant ok ==> PlacedSomehow(list.ranges, s)
      invariant blocker.Some? ==> blocker.value in list.ranges
      invariant !ok ==> PortThorough(list.ranges, s0, false, s)
      invariant Tracks(list.ranges, s0, ok, s)
      invariant Stays(s0, s)
      decreases s.curMax - s.curMin, ok
    {
      PlacedInWindow(list.ranges, s);
      FirstFoundDecides(list.ranges, s0, s);
      var free, met := PortAliasesAvailable(list, s);
      blocker := if met.Some? then met else blocker;
      if free {
        return true, s, blocker;
      }
      if s.current.None? || s.Chosen().length == 0 {
        return false, s, blocker;
      }
      var next := Wrap64(s.start + s.Chosen().length);
      if next <= s.start || next > s.curMax {
        return false, s, blocker;
      }
      ghost var before := s;
      s := s.(curMin := next);
      ok, s, met := ResourceFind(list, mmconfig, PortArbiter, s);
      SearchedOn(PortArbiter, s0, before, s);
      SecondSearch(list.ranges, s0, before, next, ok, s);
      blocker := if met.Some? then met else blocker;
    }
    TracksFailure(list.ranges, s0, s);
  }

  lemma TracksFailure(rs: seq<Range>, s0: State, s: State)
    ensures Tracks(rs, s0, false, s) && Unaided(rs, s0) ==> !PortReaches(rs, s0)
  {
  }

  // ----- A placement it misses -----

  const IN_THE_WAY := [Range(0x508, 0x50F, 2, {}, false)]

  /** Device 1 asks for eight ports, aligned to eight, in 0x100-0x10F, with a ten-bit decoder. */
  const EIGHT_PORTS :=
    var d := IoDescriptor(Port, 0x100, 0x10F, 8, 8, DeviceExclusive, false, TenBit, false);
    State(1, 0, 0x100, 0x10F,
          Entry(1, false, false, [d], 0, Untested, None, false, CmDescriptor(OtherResource, 0, 0, DeviceExclusive)),
          Some(0), [Alternative(0x100, 0x10F, 8, 8, 1, false, false, false, false, d)], false, {}, {})

  lemma {:induction false} MirrorsAreFree(last: u64, k: nat)
    requires last == 0x100 + 0x400 * k
    ensures MirrorsFit(IN_THE_WAY, At(EIGHT_PORTS, 0x100), last)
    decreases Max(0, IO_SPACE_LAST + 1 - last)
  {
    hide MirrorFits;
    var next := NextAlias(TenBit, last);
    if next.Some? {
      assert next.value + 7 < 0x508 || next.value > 0x50F;
      MirrorIsFree(next.value);
      MirrorsAreFree(next.value, k + 1);
    }
  }

  lemma MirrorIsFree(alias: u64)
    requires alias <= IO_SPACE_LAST && (alias + 7 < 0x508 || alias > 0x50F)
    ensures MirrorFits(IN_THE_WAY, At(EIGHT_PORTS, 0x100), alias)
  {
    assert Clear(IN_THE_WAY, alias, alias + 7, false, true, {});
  }

  lemma HighestIsBlocked()
    ensures PlacedHighest(IN_THE_WAY, At(EIGHT_PORTS, 0x108))
    ensures !MirrorsFit(IN_THE_WAY, At(EIGHT_PORTS, 0x108), 0x108)
  {
    var s := At(EIGHT_PORTS, 0x108);
    var r := IN_THE_WAY[0];
    assert NextAlias(TenBit, 0x108) == Some(0x508);
    assert r in IN_THE_WAY && r.Overlaps(0x508, 0x50F) && !r.Tolerated(false, true, {});
    assert !Clear(IN_THE_WAY, 0x508, 0x50F, false, true, {});
  }

  /** The lower half of the window and all its mirrors are free, and the search does not find it. */
  lemma LowerPlacementIsMissed()
    ensures Unaided(IN_THE_WAY, EIGHT_PORTS)
    ensures PlacedFree(IN_THE_WAY, At(EIGHT_PORTS, 0x100)) && MirrorsFit(IN_THE_WAY, At(EIGHT_PORTS, 0x100), 0x100)
    ensures !PortReaches(IN_THE_WAY, EIGHT_PORTS)
  {
    hide MirrorsFit;
    MirrorsAreFree(0x100, 0);
    HighestIsBlocked();
    FirstFoundDecides(IN_THE_WAY, EIGHT_PORTS, At(EIGHT_PORTS, 0x108));
  }
}
