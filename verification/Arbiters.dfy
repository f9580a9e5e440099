/** The arbiter instance: its two range lists and the actions of a transaction. */
module Arbiters {
  import opened Words
  import opened RangeLists
  import opened ArbiterTypes
  import opened Placement
  import opened Ledger
  import opened Attempts
  import opened Descriptors
  import opened ArbitrationLists
  import opened Stacks
  import opened Solver
  import opened Search

  // ----- Whose ranges are up for reassignment -----

  function Devices(es: seq<Entry>): set<Device> {
    set e | e in es :: e.device
  }

  /**
  The owners a test withdraws. A run of entries of one device is handled once,
  and the run before the list is NULL's.
  */
  function TestOwners(es: seq<Entry>, previous: Device): set<Device> {
    if es == [] then {}
    else if es[0].device == previous then TestOwners(es[1..], previous)
    else {es[0].device} + TestOwners(es[1..], es[0].device)
  }

  lemma {:induction false} TestOwnersAreDevices(es: seq<Entry>, previous: Device)
    ensures TestOwners(es, previous) + {previous} == Devices(es) + {previous}
    ensures TestOwners(es, previous) <= Devices(es)
  {
    if es != [] {
      assert es == [es[0]] + es[1..];
      assert Devices(es) == {es[0].device} + Devices(es[1..]);
      TestOwnersAreDevices(es[1..], if es[0].device == previous then previous else es[0].device);
    }
  }

  lemma TestOwnersOfNone(previous: Device)
    ensures TestOwners([], previous) == {}
  {
  }

  lemma TestOwnersStep(es: seq<Entry>, i: nat, previous: Device)
    requires i < |es|
    ensures TestOwners(es[i..], previous) ==
              (if es[i].device == previous then {} else {es[i].device})
              + TestOwners(es[i + 1..], es[i].device)
  {
    assert es[i..][0] == es[i] && es[i..][1..] == es[i + 1..];
  }

  /** Some request of no device comes after a request of a device. */
  predicate NullAfterDevice(es: seq<Entry>) {
    exists i, j :: 0 <= i < j < |es| && es[i].device != NULL && es[j].device == NULL
  }

  lemma {:induction false} NullWithdrawn(es: seq<Entry>, previous: Device)
    ensures NULL in TestOwners(es, previous) <==>
              if previous == NULL then NullAfterDevice(es) else NULL in Devices(es)
  {
    if es != [] {
      var rest := es[1..];
      NullWithdrawn(rest, es[0].device);
      assert es == [es[0]] + rest;
      if es[0].device == NULL {
        NullFirst(es);
      } else {
        DeviceFirst(es);
      }
    }
  }

  lemma NullFirst(es: seq<Entry>)
    requires es != [] && es[0].device == NULL
    ensures NullAfterDevice(es) <==> NullAfterDevice(es[1..])
  {
    if i, j :| 0 <= i < j < |es| && es[i].device != NULL && es[j].device == NULL {
      assert es[1..][i - 1] == es[i] && es[1..][j - 1] == es[j];
    }
    if i, j :| 0 <= i < j < |es[1..]| && es[1..][i].device != NULL && es[1..][j].device == NULL {
      assert es[i + 1] == es[1..][i] && es[j + 1] == es[1..][j];
    }
  }

  lemma DeviceFirst(es: seq<Entry>)
    requires es != [] && es[0].device != NULL
    ensures NullAfterDevice(es) <==> NULL in Devices(es[1..])
  {
    if i, j :| 0 <= i < j < |es| && es[i].device != NULL && es[j].device == NULL {
      assert es[1..][j - 1] == es[j] && es[j] in es[1..];
    }
    if NULL in Devices(es[1..]) {
      var e :| e in es[1..] && e.device == NULL;
      var j :| 0 <= j < |es[1..]| && es[1..][j] == e;
      assert es[j + 1] == e;
    }
  }

  /**
  A test withdraws exactly the listed devices' ranges, unless requests of no
  device are listed and all of them come before the first request of a device.
  */
  lemma TestWithdrawsDevices(es: seq<Entry>)
    ensures TestOwners(es, NULL) == Devices(es) <==> NULL !in Devices(es) || NullAfterDevice(es)
  {
    TestOwnersAreDevices(es, NULL);
    NullWithdrawn(es, NULL);
  }

  /** What nobody owns survives the test of a single request of no device. */
  lemma NullSurvives(e: Entry, committed: seq<Range>)
    requires e.device == NULL
    ensures Devices([e]) == {NULL} && TestOwners([e], NULL) == {}
    ensures WithoutOwners(committed, TestOwners([e], NULL)) == committed
    ensures (exists r :: r in committed && r.owner == NULL) ==> WithoutOwners(committed, Devices([e])) != committed
  {
    assert [e][1..] == [];
    WithoutNobody(committed);
    assert Devices([e]) == {NULL} by {
      assert e in [e];
    }
  }

  // ----- What a retest lays down -----

  /** An entry that carries the outcome of an earlier test. */
  predicate Redoable(e: Entry) {
    && e.selected.Some? && e.hasAssignment
    && BuildAlternative(e.selected.value).Some?
    && UnpackResource(e.assignment).Some?
  }

  /** The selected alternative at the recorded position. */
  function RetestState(e: Entry): State
    requires Redoable(e)
  {
    var (start, length) := UnpackResource(e.assignment).value;
    State(start, Wrap64(start + length - 1), 0, 0, e,
          Some(0), [BuildAlternative(e.selected.value).value], false, {}, {})
  }

  function RelaidOne(kind: ArbiterKind, e: Entry): seq<Range>
    requires e.result == NullRequest || Redoable(e)
  {
    if e.result == NullRequest || UnpackResource(e.assignment).value.1 == 0 then [] else Put(kind, RetestState(e))
  }

  predicate Retestable(es: seq<Entry>) {
    forall e :: e in es ==> e.result == NullRequest || Redoable(e)
  }

  function Relaid(kind: ArbiterKind, es: seq<Entry>): seq<Range>
    requires Retestable(es)
  {
    if es == [] then [] else Relaid(kind, es[..|es| - 1]) + RelaidOne(kind, es[|es| - 1])
  }

  // ----- What a boot reservation lays down -----

  /** A configuration that is one sane, fixed, aligned, exact range. */
  predicate Reservable(a: Alternative) {
    a.length != 0 && a.alignment != 0 && !a.badRange && a.fixed && a.minimum % a.alignment == 0
  }

  function BootState(e: Entry, a: Alternative): State {
    State(a.minimum, a.maximum, a.minimum, a.maximum, e, Some(0), [a], false, {BootAllocated}, {})
  }

  function BootOne(kind: ArbiterKind, e: Entry): seq<Range> {
    if e.alternatives == [] then []
    else
      var a := BuildAlternative(e.alternatives[0]);
      if a.Some? && Reservable(a.value) then Put(kind, BootState(e, a.value)) else []
  }

  /** The reservation is written back as the device's assignment. */
  function BootTold(e: Entry): Entry {
    if e.alternatives == [] || !e.hasAssignment then e
    else
      var a := BuildAlternative(e.alternatives[0]);
      if a.Some? && Reservable(a.value) && PackResource(e.alternatives[0], a.value.minimum).Some?
      then e.(assignment := PackResource(e.alternatives[0], a.value.minimum).value)
      else e
  }

  function BootLaid(kind: ArbiterKind, es: seq<Entry>): seq<Range> {
    if es == [] then [] else BootLaid(kind, es[..|es| - 1]) + BootOne(kind, es[|es| - 1])
  }

  // ----- The outcome of a test -----

  /** A successful test: what it left in the scratch list and told the requesters. */
  ghost predicate Tested(setup: Setup, committed: seq<Range>, es0: seq<Entry>,
                         order: seq<Entry>, st: seq<State>, rs: seq<Range>, es1: seq<Entry>) {
    && Ascending(order) && StablyReordered(order, ScoredAll(es0))
    && (forall e :: e in order ==> Buildable(e))
    && Solution(setup, WithoutOwners(committed, TestOwners(es0, NULL)), Stack(order), st, rs)
    && (forall i :: 0 <= i < |st| ==> Told(st[i]))
    && es1 == WriteBack(order, st)
  }

  lemma IsTested(setup: Setup, committed: seq<Range>, es0: seq<Entry>,
                 order: seq<Entry>, st: seq<State>, rs: seq<Range>, es1: seq<Entry>)
    requires Ascending(order) && StablyReordered(order, ScoredAll(es0)) && forall e :: e in order ==> Buildable(e)
    requires Solution(setup, WithoutOwners(committed, TestOwners(es0, NULL)), Stack(order), st, rs)
    requires forall i :: 0 <= i < |st| ==> Told(st[i])
    requires |st| == |Contributing(order)| && es1 == WriteBack(order, st)
    ensures Tested(setup, committed, es0, order, st, rs, es1)
  {
    hide Ascending, StablyReordered, Buildable, Solution, Told, WriteBack;
  }

  /** What a conflict query looks for: the whole alternative, for a device that is neither legacy nor booted. */
  function Sought(device: Device, a: Alternative): State {
    State(a.minimum, a.maximum, a.minimum, a.maximum, BLANK.entry.(device := device),
          Some(0), [a], false, {}, if a.inaccessibleOk then {Inaccessible} else {})
  }

  /** No clear place for it, and nothing of its own to reclaim. */
  ghost predicate Refused(rs: seq<Range>, s: State)
    requires s.HasCurrent()
  {
    s.curMin > s.curMax || (s.Chosen().length != 0 && NoRoom(rs, s) && !Reclaimable(rs, s))
  }

  /** Equal windows are refused alike. */
  lemma RefusedAlike(rs: seq<Range>, s: State, t: State)
    requires s.HasCurrent() && Refused(rs, s)
    requires t == s.(start := t.start, end := t.end, mcfgConflict := t.mcfgConflict, attributes := t.attributes)
    ensures Refused(rs, t)
  {
    if s.curMin <= s.curMax {
      SameRoom(rs, s, t);
      SameBlocks(rs, s, t);
    }
  }

  datatype Conflict = Conflict(owner: Device, start: u64, end: u64)

  function Reporters(cs: seq<Conflict>): set<Device> {
    set c | c in cs :: c.owner
  }

  /** What remains once the requester's and the reported owners' ranges are gone. */
  function Others(committed: seq<Range>, device: Device, cs: seq<Conflict>): seq<Range> {
    WithoutOwners(committed, {device} + Reporters(cs))
  }

  /** The request has a place in its own window, mirrors included. */
  ghost predicate FitsSomewhere(kind: ArbiterKind, rs: seq<Range>, sought: State, s: State) {
    && s == sought.(start := s.start, end := s.end, curMin := s.curMin, curMax := s.curMax,
                    mcfgConflict := s.mcfgConflict, attributes := s.attributes, available := s.available)
    && sought.curMin <= s.curMin && s.curMax <= sought.curMax
    && (kind != PortArbiter ==> s.curMin == sought.curMin && s.curMax == sought.curMax)
    && s.available <= sought.available
    && (kind != PortArbiter && s.HasCurrent() && s.Chosen().length != 0 ==> s.available == sought.available)
    && PlacedWhole(kind, rs, s)
  }

  /**
  Away from the ports, and with no sharing by driver, the two outcomes of a
  search exclude each other: a query is answered with no conflicts exactly when
  the request is not refused.
  */
  lemma FittingIsNotRefused(kind: ArbiterKind, rs: seq<Range>, sought: State, s: State)
    requires kind != PortArbiter && sought.HasCurrent() && FitsSomewhere(kind, rs, sought, s)
    requires sought.Chosen().descriptor.share != DriverExclusive
    requires forall r :: r in rs ==> SharedDriver !in r.attributes
    ensures !Refused(rs, sought)
  {
    hide NoRoom, Reclaimable;
    if s.Chosen().length != 0 {
      if PlacedFree(rs, s) {
        FreeIsRoom(rs, s);
        if NoRoom(rs, sought) {
          SameRoom(rs, sought, s);
        }
      } else {
        assert Reclaimable(rs, s);
        SameBlocks(rs, sought, s);
      }
    }
  }

  lemma FreeIsRoom(rs: seq<Range>, s: State)
    requires s.HasCurrent() && PlacedFree(rs, s)
    ensures !NoRoom(rs, s)
  {
    assert Candidate(s.curMin, s.curMax, s.Chosen().length, s.Chosen().Step(), s.start);
  }

  /** The conflict is a range in the way, or an unowned one for a request that has no place at all. */
  ghost predicate Justified(rs: seq<Range>, sought: State, c: Conflict)
    requires sought.HasCurrent()
  {
    || (exists r :: r in rs && InTheWay(r, sought) && c == Conflict(r.owner, r.start, r.end))
    || (c == Conflict(NULL, 0, MAX_U64) && (sought.curMin > sought.curMax || Hopeless(sought)))
  }

  class Arbiter {
    const setup: Setup
    var allocation: RangeList
    var possible: RangeList
    var inProgress: bool

    ghost predicate Valid()
      reads this, allocation, possible
    {
      && allocation != possible
      && setup.Valid()
      && Forward(allocation.ranges) && Forward(possible.ranges)
    }

    constructor (setup: Setup)
      requires setup.Valid()
      ensures Valid() && fresh(allocation) && fresh(possible)
      ensures this.setup == setup && allocation.ranges == [] && possible.ranges == [] && !inProgress
    {
      this.setup := setup;
      allocation := new RangeList();
      possible := new RangeList();
      inProgress := false;
    }

    /** Withdraws a device's ranges unless the entry before was the same device's. */
    method WithdrawOwner(device: Device, previous: Device, ghost owners: set<Device>)
      requires Valid() && possible.ranges == WithoutOwners(allocation.ranges, owners)
      modifies possible
      ensures possible.ranges == WithoutOwners(allocation.ranges, owners + if device == previous then {} else {device})
    {
      hide WithoutOwners;
      if device != previous {
        WithoutOwnersTwice(allocation.ranges, owners, {device});
        possible.DeleteOwner(device);
      } else {
        assert owners + {} == owners;
      }
    }

    /** Copies the committed list, withdraws the listed devices' ranges, and scores the entries. */
    method Prepare(list: ArbitrationList) returns (ok: bool)
      requires Valid()
      modifies possible, list
      ensures Valid()
      ensures ok <==> forall e :: e in old(list.entries) ==> Scorable(e)
      ensures |list.entries| == |old(list.entries)|
      ensures ok ==> list.entries == ScoredAll(old(list.entries))
      ensures ok ==> possible.ranges == WithoutOwners(allocation.ranges, TestOwners(old(list.entries), NULL))
    {
      hide WithoutOwners, TestOwners, Scorable, Scored, Forward;
      ghost var es := list.entries;
      possible.Reset();
      possible.CopyFrom(allocation);
      WithoutNobody(allocation.ranges);
      ghost var owners: set<Device> := {};
      var previous := NULL;
      assert es[0..] == es;
      for i := 0 to |list.entries|
        invariant |list.entries| == |es| && Valid()
        invariant forall j :: 0 <= j < i ==> Scorable(es[j])
        invariant forall j :: 0 <= j < |es| ==> list.entries[j] == if j < i then Scored(es[j]) else es[j]
        invariant possible.ranges == WithoutOwners(allocation.ranges, owners)
        invariant owners + TestOwners(es[i..], previous) == TestOwners(es, NULL)
      {
        TestOwnersStep(es, i, previous);
        var e := list.entries[i];
        WithdrawOwner(e.device, previous, owners);
        WithoutStaysForward(allocation.ranges, owners + if e.device == previous then {} else {e.device});
        owners := owners + if e.device == previous then {} else {e.device};
        previous := e.device;
        var scored;
        scored, e := ScoreEntry(e);
        list.entries := list.entries[i := e];
        if !scored {
          return false;
        }
      }
      assert es[|es|..] == [];
      TestOwnersOfNone(previous);
      assert owners == TestOwners(es, NULL);
      ok := true;
    }

    /** ArbpTestAllocation over the committed list. */
    method Test(list: ArbitrationList) returns (status: Status, ghost order: seq<Entry>, ghost st: seq<State>)
      requires Valid()
      modifies possible, list
      ensures Valid()
      ensures status != Success ==> possible.ranges == []
      ensures status == DeviceConfigurationError <==> exists e :: e in old(list.entries) && !Scorable(e)
      ensures status == Success ==>
                Tested(setup, allocation.ranges, old(list.entries), order, st, possible.ranges, list.entries)
    {
      hide Solution, Told, TestOwners, WithoutOwners, Ascending, StablyReordered, ScoredAll, WriteBack, Buildable,
        Stack, SameRequests, Tested, Kept, Interrupted, Scorable;
      order, st := [], [];
      var ok := Prepare(list);
      if !ok {
        possible.Reset();
        return DeviceConfigurationError, order, st;
      }
      ghost var start := possible.ranges;
      list.Sort();
      order := list.entries;
      var built, stack := BuildStack(list.entries);
      if !built {
        possible.Reset();
        return InvalidParameter, order, st;
      }
      ghost var outcome;
      status, outcome := AllocateEntry(setup, possible, stack);
      SameRequestsLength(Stack(order), stack[..]);
      list.entries := WriteBack(list.entries, stack[..]);
      st := stack[..];
      if status != Success {
        possible.Reset();
      } else {
        SolutionIsForward(setup, start, Stack(order), st, possible.ranges);
        IsTested(setup, allocation.ranges, old(list.entries), order, st, possible.ranges, list.entries);
      }
    }

    /** The scratch list becomes the committed one without the listed devices' ranges. */
    method Vacate(es: seq<Entry>)
      requires Valid()
      modifies possible
      ensures possible.ranges == WithoutOwners(allocation.ranges, Devices(es))
    {
      hide WithoutOwners;
      possible.Reset();
      possible.CopyFrom(allocation);
      WithoutNobody(allocation.ranges);
      assert Devices(es[..0]) == {};
      for i := 0 to |es|
        invariant possible.ranges == WithoutOwners(allocation.ranges, Devices(es[..i]))
      {
        WithoutOwnersTwice(allocation.ranges, Devices(es[..i]), {es[i].device});
        assert es[..i + 1] == es[..i] + [es[i]];
        assert Devices(es[..i + 1]) == Devices(es[..i]) + {es[i].device};
        possible.DeleteOwner(es[i].device);
      }
      assert es[..|es|] == es;
    }

    /** Lays one entry down where its assignment says. A null request is passed over. */
    method Relay(e: Entry) returns (ok: bool)
      requires Valid()
      modifies possible
      ensures Valid()
      ensures ok <==> e.result == NullRequest || Redoable(e)
      ensures possible.ranges == old(possible.ranges) + if ok then RelaidOne(setup.kind, e) else []
    {
      ok := e.result == NullRequest || Redoable(e);
      if ok && e.result != NullRequest {
        var (_, length) := UnpackResource(e.assignment).value;
        if length != 0 {
          PutIsForward(setup.kind, RetestState(e));
          AddAllocation(possible, setup.kind, RetestState(e));
          return;
        }
      }
      assert possible.ranges == possible.ranges + [];
    }

    /** ArbpRetestAllocation. */
    method Retest(list: ArbitrationList) returns (status: Status)
      requires Valid()
      modifies possible
      ensures Valid()
      ensures status == Success <==> Retestable(list.entries)
      ensures possible.ranges ==
              if status == Success then
                WithoutOwners(allocation.ranges, Devices(list.entries)) + Relaid(setup.kind, list.entries)
              else []
    {
      hide RelaidOne, Redoable, WithoutOwners, Devices;
      var es := list.entries;
      Vacate(es);
      ghost var start := possible.ranges;
      assert start + [] == start;
      for i := 0 to |es|
        invariant Valid()
        invariant Retestable(es[..i])
        invariant possible.ranges == start + Relaid(setup.kind, es[..i])
      {
        assert es[..i + 1][..i] == es[..i] && es[..i + 1] == es[..i] + [es[i]];
        var ok := Relay(es[i]);
        if !ok {
          assert es[i] in es;
          possible.Reset();
          return InvalidParameter;
        }
        assert start + Relaid(setup.kind, es[..i]) + RelaidOne(setup.kind, es[i])
            == start + Relaid(setup.kind, es[..i + 1]);
      }
      assert es[..|es|] == es;
      return Success;
    }

    /** ArbiterLibCommitAllocation: the scratch list takes over, the old list is recycled. */
    method Commit()
      requires Valid()
      modifies this, allocation
      ensures Valid() && inProgress == old(inProgress)
      ensures allocation == old(possible) && possible == old(allocation)
      ensures allocation.ranges == old(possible.ranges) && possible.ranges == []
    {
      allocation.Reset();
      allocation, possible := possible, allocation;
    }

    /** ArbiterLibRollbackAllocation. */
    method Rollback()
      requires Valid()
      modifies possible
      ensures Valid() && possible.ranges == []
    {
      possible.Reset();
    }

    /** Reserves one entry's firmware configuration; anything but a sane fixed range is skipped. */
    method Reserve(e: Entry) returns (told: Entry)
      requires Valid()
      modifies possible
      ensures Valid()
      ensures possible.ranges == old(possible.ranges) + BootOne(setup.kind, e)
      ensures told == BootTold(e)
    {
      told := e;
      if e.alternatives != [] {
        var built := BuildAlternative(e.alternatives[0]);
        if built.Some? && Reservable(built.value) {
          var s := BootState(e, built.value);
          PutIsForward(setup.kind, s);
          AddAllocation(possible, setup.kind, s);
          var packed := PackResource(e.alternatives[0], s.start);
          if e.hasAssignment && packed.Some? {
            told := e.(assignment := packed.value);
          }
          return;
        }
      }
      assert possible.ranges == possible.ranges + [];
    }

    /** ArbpBootAllocation: firmware configurations go straight into the committed list. */
    method Boot(list: ArbitrationList)
      requires Valid()
      modifies this, allocation, possible, list
      ensures Valid() && inProgress == old(inProgress)
      ensures allocation == old(possible) && possible == old(allocation)
      ensures allocation.ranges == old(allocation.ranges) + BootLaid(setup.kind, old(list.entries))
      ensures possible.ranges == []
      ensures |list.entries| == |old(list.entries)|
      ensures forall i :: 0 <= i < |list.entries| ==> list.entries[i] == BootTold(old(list.entries)[i])
    {
      hide BootOne, BootTold;
      ghost var es := list.entries;
      possible.Reset();
      possible.CopyFrom(allocation);
      assert possible.ranges == possible.ranges + [];
      for i := 0 to |list.entries|
        invariant unchanged(this) && unchanged(allocation)
        invariant Valid()
        invariant |list.entries| == |es|
        invariant forall j :: 0 <= j < |es| ==> list.entries[j] == if j < i then BootTold(es[j]) else es[j]
        invariant possible.ranges == old(allocation.ranges) + BootLaid(setup.kind, es[..i])
      {
        assert es[..i + 1][..i] == es[..i];
        var told := Reserve(list.entries[i]);
        list.entries := list.entries[i := told];
      }
      assert es[..|es|] == es;
      Commit();
    }

    /**
    ArbpQueryConflict: which other owners' committed ranges stand in the way.
    Each failed search names one, which is then set aside.
    */
    method QueryConflict(device: Device, d: IoDescriptor)
      returns (status: Status, conflicts: seq<Conflict>, ghost s: State, ghost rs: seq<Range>)
      requires Valid()
      modifies possible
      ensures Valid() && possible.ranges == []
      ensures status == Success <==> BuildAlternative(d).Some?
      ensures status != Success ==> conflicts == []
      // Every conflict but a final one without an owner stands for a committed range of somebody else.
      ensures forall i :: 0 <= i < |conflicts| ==>
                            || NamesCommitted(allocation.ranges, device, conflicts[i])
                            || (i == |conflicts| - 1 && conflicts[i] == Conflict(NULL, 0, MAX_U64))
      // No owner is named twice.
      ensures forall i, j :: 0 <= i < j < |conflicts| && NamesCommitted(allocation.ranges, device, conflicts[i])
                             && conflicts[j] != Conflict(NULL, 0, MAX_U64) ==>
                             conflicts[i].owner != conflicts[j].owner
      // Unless the last conflict has no owner, the request fits once the named owners are gone.
      ensures status == Success && (conflicts == [] || conflicts[|conflicts| - 1] != Conflict(NULL, 0, MAX_U64)) ==>
                && rs == Others(allocation.ranges, device, conflicts)
                && FitsSomewhere(setup.kind, rs, Sought(device, BuildAlternative(d).value), s)
      // Nothing is named without need: with only the earlier ones gone the request does not fit.
      ensures status == Success ==>
                Needed(setup.kind, allocation.ranges, Sought(device, BuildAlternative(d).value), conflicts)
    {
      hide WithoutOwners, BuildAlternative, FitsSomewhere, Needed, Others, Blocked, Unreached, NamesCommitted;
      conflicts, rs := [], [];
      s := BLANK;
      possible.Reset();
      possible.CopyFrom(allocation);
      var built := BuildAlternative(d);
      if built.None? {
        possible.Reset();
        return InvalidParameter, [], s, rs;
      }
      var a := built.value;
      var entry := BLANK.entry.(device := device);
      var probe := State(a.minimum, a.maximum, a.minimum, a.maximum, entry, Some(0), [a], false, {}, {});
      possible.DeleteOwner(device);
      OthersOfNone(allocation.ranges, device);
      NothingNeeded(setup.kind, allocation.ranges, Sought(device, a));
      while true
        invariant allocation.ranges == old(allocation.ranges)
        invariant possible.ranges == Others(allocation.ranges, device, conflicts)
        invariant Probing(setup.kind, Sought(device, a), probe)
        invariant conflicts == [] ==> probe == Sought(device, a).(available := {})
        invariant forall i :: 0 <= i < |conflicts| ==> NamesCommitted(allocation.ranges, device, conflicts[i])
        invariant forall i, j :: 0 <= i < j < |conflicts| ==> conflicts[i].owner != conflicts[j].owner
        invariant Needed(setup.kind, allocation.ranges, Sought(device, a), conflicts)
        invariant Forward(possible.ranges)
        decreases |possible.ranges|
      {
        var found, blocker;
        found, probe, blocker := Probe(Sought(device, a), probe);
        if found {
          rs, s := possible.ranges, probe;
          break;
        }
        var c := ConflictOf(blocker);
        NeededStep(setup.kind, allocation.ranges, Sought(device, a), conflicts, c);
        if blocker.None? {
          conflicts := conflicts + [c];
          break;
        }
        OthersStep(allocation.ranges, device, conflicts, blocker.value);
        conflicts := conflicts + [c];
        possible.DeleteOwner(blocker.value.owner);
      }
      possible.Reset();
      status := Success;
    }

    /** One search of a query, over the position the last one left. */
    method Probe(ghost sought: State, s0: State) returns (found: bool, s: State, blocker: Option<Range>)
      requires Valid() && PlainSought(sought) && Probing(setup.kind, sought, s0)
      ensures blocker.Some? ==> blocker.value in possible.ranges
      ensures found ==> FitsSomewhere(setup.kind, possible.ranges, sought, s)
      ensures !found ==> Probing(setup.kind, sought, s)
      ensures !found ==> Blocked(setup.kind, possible.ranges, sought, ConflictOf(blocker))
      ensures !found && s0 == sought.(available := {}) ==> Unreached(setup.kind, possible.ranges, sought)
    {
      hide PlacedWhole, Unaided, PortReaches, Refused, Justified, Declared, MarkedFrom, PortThorough;
      s := s0.(curMin := s0.start, curMax := s0.end);
      ghost var before := s;
      found, s, blocker := FindInWindow(setup, possible, s);
      OpensTheSame(setup.kind, sought, before);
      if !found {
        if setup.kind != PortArbiter {
          ProbeFailed(setup.kind, possible.ranges, sought, before, s, blocker);
        } else if s0 == sought.(available := {}) {
          SameReach(possible.ranges, sought, before);
        }
      }
    }
  }

  function ConflictOf(blocker: Option<Range>): Conflict {
    if blocker.None? then Conflict(NULL, 0, MAX_U64)
    else Conflict(blocker.value.owner, blocker.value.start, blocker.value.end)
  }

  /** One alternative, all of it, with nothing opened up but what the alternative itself allows. */
  ghost predicate PlainSought(sought: State) {
    && sought.current == Some(0) && |sought.alternatives| == 1 && !sought.entry.legacy && !sought.entry.bootConfig
    && sought.start == sought.curMin && sought.end == sought.curMax
    && sought.available == if sought.Chosen().inaccessibleOk then {Inaccessible} else {}
  }

  /** The state of a query between two searches: the request as it was, its position still inside the alternative. */
  ghost predicate Probing(kind: ArbiterKind, sought: State, s: State) {
    && s == sought.(start := s.start, end := s.end, curMin := s.curMin, curMax := s.curMax,
                    mcfgConflict := s.mcfgConflict, attributes := s.attributes, available := s.available)
    && sought.curMin <= s.start && s.end <= sought.curMax
    && (kind != PortArbiter ==> s.start == sought.curMin && s.end == sought.curMax)
    && s.available <= sought.available
  }

  /** Why a search failed, away from the ports. */
  ghost predicate Blocked(kind: ArbiterKind, rs: seq<Range>, sought: State, c: Conflict)
    requires sought.HasCurrent()
  {
    kind != PortArbiter ==> Refused(rs, sought) && Justified(rs, sought, c)
  }

  /** Why the first search failed, at the ports. */
  ghost predicate Unreached(kind: ArbiterKind, rs: seq<Range>, sought: State)
    requires sought.HasCurrent()
  {
    kind == PortArbiter && Unaided(rs, sought) ==> !PortReaches(rs, sought)
  }

  /** Every conflict was needed when it was named. */
  ghost predicate Needed(kind: ArbiterKind, committed: seq<Range>, sought: State, cs: seq<Conflict>)
    requires sought.HasCurrent()
  {
    && (forall i :: 0 <= i < |cs| ==> Blocked(kind, Others(committed, sought.entry.device, cs[..i]), sought, cs[i]))
    && (cs != [] ==> Unreached(kind, Others(committed, sought.entry.device, []), sought))
  }

  lemma NothingNeeded(kind: ArbiterKind, committed: seq<Range>, sought: State)
    requires sought.HasCurrent()
    ensures Needed(kind, committed, sought, [])
  {
  }

  lemma NeededStep(kind: ArbiterKind, committed: seq<Range>, sought: State, cs: seq<Conflict>, c: Conflict)
    requires sought.HasCurrent() && Needed(kind, committed, sought, cs)
    requires Blocked(kind, Others(committed, sought.entry.device, cs), sought, c)
    requires cs == [] ==> Unreached(kind, Others(committed, sought.entry.device, []), sought)
    ensures Needed(kind, committed, sought, cs + [c])
  {
    hide Blocked, Unreached, Others;
    var more := cs + [c];
    forall i | 0 <= i < |more|
      ensures Blocked(kind, Others(committed, sought.entry.device, more[..i]), sought, more[i])
    {
      assert more[..i] == cs[..i];
      assert cs[..|cs|] == cs;
    }
  }

  /** Every search of the query opens up the same. */
  lemma OpensTheSame(kind: ArbiterKind, sought: State, s: State)
    requires PlainSought(sought) && s.HasCurrent() && s.Chosen() == sought.Chosen() && s.entry == sought.entry
    requires s.alternatives == sought.alternatives && s.available <= sought.available
    ensures LibraryOpens(s) == ResourceOpens(s) == sought.available && Declared(kind, s) == sought.available
  {
  }

  lemma ProbeFailed(kind: ArbiterKind, rs: seq<Range>, sought: State, before: State, s: State, blocker: Option<Range>)
    requires sought.HasCurrent() && before.HasCurrent()
    requires before == sought.(start := before.start, end := before.end, mcfgConflict := before.mcfgConflict,
                               attributes := before.attributes, available := before.available)
    requires s == before.(start := s.start, end := s.end, mcfgConflict := s.mcfgConflict, attributes := s.attributes,
                          available := s.available)
    requires Searches(before) ==> s.available == sought.available
    requires Thorough(rs, before, false, s) && Blames(rs, before, false, s, blocker)
    ensures Refused(rs, sought) && Justified(rs, sought, ConflictOf(blocker))
  {
    hide NoRoom, Reclaimable, Hopeless;
    if sought.curMin <= sought.curMax {
      RefusedAlike(rs, s, sought);
      if blocker.Some? {
        var r := blocker.value;
        assert r in rs && InTheWay(r, sought) && ConflictOf(blocker) == Conflict(r.owner, r.start, r.end);
      } else {
        HopelessAlike(s, sought);
      }
    }
  }

  lemma HopelessAlike(s: State, t: State)
    requires s.HasCurrent() && Hopeless(s)
    requires t == s.(start := t.start, end := t.end, mcfgConflict := t.mcfgConflict, attributes := t.attributes)
    ensures Hopeless(t)
  {
    assert t.Chosen() == s.Chosen() && t.curMin == s.curMin && t.curMax == s.curMax;
  }

  lemma SameReach(rs: seq<Range>, sought: State, s: State)
    requires PlainSought(sought) && s == sought.(available := {})
    ensures Unaided(rs, s) <==> Unaided(rs, sought)
    ensures PortReaches(rs, s) <==> PortReaches(rs, sought)
  {
    assert forall p: u64 :: At(s, p) == At(sought, p);
  }

  lemma OthersOfNone(committed: seq<Range>, device: Device)
    ensures Others(committed, device, []) == WithoutOwners(committed, {device})
  {
    assert {device} + Reporters([]) == {device};
  }

  /** Setting one more owner aside leaves less. */
  lemma OthersStep(committed: seq<Range>, device: Device, cs: seq<Conflict>, r: Range)
    requires r in Others(committed, device, cs)
    ensures var more := cs + [ConflictOf(Some(r))];
            && Others(committed, device, more) == WithoutOwners(Others(committed, device, cs), {r.owner})
            && |Others(committed, device, more)| < |Others(committed, device, cs)|
    ensures NamesCommitted(committed, device, ConflictOf(Some(r)))
    ensures forall i :: 0 <= i < |cs| ==> cs[i].owner != r.owner
  {
    hide WithoutOwners;
    var c := ConflictOf(Some(r));
    ReportersGrow(cs, c);
    WithoutOwnersTwice(committed, {device} + Reporters(cs), {r.owner});
    assert {device} + Reporters(cs) + {r.owner} == {device} + Reporters(cs + [c]);
    WithoutOwnerShrinks(Others(committed, device, cs), r);
  }

  lemma ReportersGrow(cs: seq<Conflict>, c: Conflict)
    ensures Reporters(cs + [c]) == Reporters(cs) + {c.owner}
    ensures forall i :: 0 <= i < |cs| ==> cs[i].owner in Reporters(cs)
  {
    assert c in cs + [c];
    assert forall b :: b in cs ==> b in cs + [c];
  }

  predicate NamesCommitted(committed: seq<Range>, device: Device, c: Conflict) {
    && c.owner != device
    && exists r :: r in committed && r.owner == c.owner && r.start == c.start && r.end == c.end
  }

  lemma {:induction false} WithoutOwnersLength(rs: seq<Range>, owners: set<Device>)
    ensures |WithoutOwners(rs, owners)| <= |rs|
    ensures (exists r :: r in rs && r.owner in owners) ==> |WithoutOwners(rs, owners)| < |rs|
  {
    if rs != [] {
      WithoutOwnersLength(rs[..|rs| - 1], owners);
    }
  }

  lemma WithoutOwnerShrinks(rs: seq<Range>, r: Range)
    requires r in rs
    ensures |WithoutOwners(rs, {r.owner})| < |rs|
  {
    WithoutOwnersLength(rs, {r.owner});
  }

  lemma WithoutStaysForward(rs: seq<Range>, owners: set<Device>)
    requires Forward(rs)
    ensures Forward(WithoutOwners(rs, owners))
  {
  }

  lemma PutIsForward(kind: ArbiterKind, s: State)
    requires s.HasCurrent()
    ensures Forward(Put(kind, s))
  {
    MirrorsBelong(s, s.start);
  }

  lemma SameRequestsLength(a: seq<State>, b: seq<State>)
    requires SameRequests(a, b)
    ensures |a| == |b|
  {
  }

  lemma SolutionIsForward(setup: Setup, start: seq<Range>, init: seq<State>, st: seq<State>, rs: seq<Range>)
    requires Solution(setup, start, init, st, rs)
    ensures Forward(rs)
  {
  }
}
