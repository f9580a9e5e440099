/**
What twins cost: a run of the memory arbiter at whose end a device-exclusive
range and another device's range coincide.
*/
module TwinRun {
  import opened Words
  import opened RangeLists
  import opened ArbiterTypes
  import opened Walker
  import opened Placement
  import opened Ledger
  import opened Attempts
  import opened Descriptors
  import opened ArbitrationLists
  import opened Stacks
  import opened Premises
  import opened Solver
  import opened Soundness

  const MEMORY := Setup(MemoryArbiter, [], [])

  const EXCLUSIVE := IoDescriptor(Memory, 0x10, 0x1F, 16, 1, DeviceExclusive, false, Full, false)
  const TWIN := EXCLUSIVE.(share := Shared)
  const ELSEWHERE := TWIN.(minimum := 0x40, maximum := 0x4F)

  function Asking(device: Device, ds: seq<IoDescriptor>): Entry {
    Entry(device, false, false, ds, 0, Untested, None, false, CmDescriptor(OtherResource, 0, 0, DeviceExclusive))
  }

  const FIRST := Asking(1, [EXCLUSIVE])
  const SECOND := Asking(1, [TWIN, ELSEWHERE])
  const THIRD := Asking(2, [TWIN, TWIN, TWIN])

  /** The entry stands at its k-th alternative, those before it exhausted. */
  function Standing(e: Entry, k: nat): State
    requires Buildable(e) && k < |e.alternatives|
  {
    var alts := Alternatives(e);
    Opening(e).(start := alts[k].minimum, end := alts[k].maximum, curMin := alts[k].minimum, curMax := alts[k].maximum,
                current := Some(k),
                alternatives := seq(|alts|, i requires 0 <= i < |alts| =>
                  alts[i].(priority := if i < k then PRIORITY_EXHAUSTED else PRIORITY_RESERVED)))
  }

  /** The walker offers the state's window: its alternative is the first of the lowest priority. */
  ghost predicate InTurn(s: State) {
    && Sited([], s)
    && FirstLowest(s.alternatives, s.current.value)
    && Selects([], s.Chosen(), s.curMin, s.curMax)
  }

  lemma StandingIsInTurn(e: Entry, k: nat)
    requires Buildable(e) && k < |e.alternatives|
    requires var a := Alternatives(e)[k];
             a.length != 0 && a.Step() == 1 && a.minimum <= a.maximum && a.maximum - a.minimum == a.length - 1
    ensures InTurn(Standing(e, k))
  {
    hide Trim;
    var s := Standing(e, k);
    var a := s.Chosen();
    SnugIsKept(a.minimum, a.maximum, a.length);
    assert Within([], s);
  }

  /** A window that just holds its request survives trimming. */
  lemma SnugIsKept(minimum: u64, maximum: u64, length: u64)
    requires length != 0 && maximum == minimum + length - 1
    ensures Trim(minimum, maximum, length, 1) == Some((minimum, maximum))
  {
    hide AlignDown, Wrap64;
    WrapOfSmall(minimum);
    DownByOne(minimum);
  }

  lemma DownByOne(x: nat)
    ensures AlignDown(x, 1) == x
  {
    DivModUnique(x, x, 0, 1);
  }

  const EXCLUSIVE_RANGE := Range(0x10, 0x1F, 1, {}, false)
  const TWIN_RANGE := Range(0x10, 0x1F, 1, {}, true)
  const MOVED_RANGE := Range(0x40, 0x4F, 1, {}, true)
  const OTHERS_RANGE := Range(0x10, 0x1F, 2, {}, true)

  lemma TheyBuild()
    ensures Buildable(FIRST) && Buildable(SECOND) && Buildable(THIRD)
    ensures Alternatives(FIRST) == [BuildAlternative(EXCLUSIVE).value]
    ensures Alternatives(SECOND) == [BuildAlternative(TWIN).value, BuildAlternative(ELSEWHERE).value]
    ensures forall k :: 0 <= k < 3 ==> Alternatives(THIRD)[k] == BuildAlternative(TWIN).value
  {
  }

  /** The entry stands at its k-th alternative, which the walker offers in its turn. */
  ghost predicate Offered(e: Entry, k: nat, s: State) {
    Buildable(e) && k < |e.alternatives| && s == Standing(e, k) && InTurn(s)
  }

  /** A fixed request for sixteen bytes that stands where `r` does. */
  ghost predicate StandsAt(s: State, r: Range) {
    && s.HasCurrent() && s.Chosen().fixed && s.Chosen().length == 16 && s.Chosen().Step() == 1
    && s.available == {} && s.entry.device == r.owner && s.Chosen().shared == r.shared
    && s.start == s.curMin == r.start && s.end == s.curMax == r.end && r.end == r.start + 15
    && Primary(s) == r && Laid(MemoryArbiter, s) == [r] && FitsRequest([], s)
  }

  lemma StandsThere(e: Entry, k: nat, r: Range)
    requires Buildable(e) && k < |e.alternatives|
    requires e.alternatives[k] in {EXCLUSIVE, TWIN, ELSEWHERE}
    requires var d := e.alternatives[k]; r == Range(d.minimum, d.maximum, e.device, {}, d.share == Shared)
    ensures Offered(e, k, Standing(e, k)) && StandsAt(Standing(e, k), r)
  {
    hide InTurn, BuildAlternative;
    Built(e.alternatives[k]);
    assert e.alternatives[k] in e.alternatives;
    StandingIsInTurn(e, k);
    assert Primary(Standing(e, k)) == r;
  }

  lemma Built(d: IoDescriptor)
    requires d in {EXCLUSIVE, TWIN, ELSEWHERE}
    ensures d.maximum == d.minimum + 15
    ensures BuildAlternative(d) ==
            Some(Alternative(d.minimum, d.maximum, 16, 1, 0, d.share == Shared, true, false, false, d))
  {
  }

  /** Nothing fits a window that an intolerable range fills. */
  lemma Filled(rs: seq<Range>, s: State, r: Range)
    requires s.HasCurrent() && s.Chosen().length != 0 && s.curMax - s.curMin == s.Chosen().length - 1
    requires r in rs && r.start == s.curMin && r.end == s.curMax && r.start <= r.end
    requires !r.Tolerated(s.Chosen().shared, false, s.available)
    ensures NoRoom(rs, s)
  {
    var a := s.Chosen();
    forall p: int | Candidate(s.curMin, s.curMax, a.length, a.Step(), p)
      ensures !Clear(rs, p, p + a.length - 1, a.shared, false, s.available)
    {
      assert r.Overlaps(p, p + a.length - 1);
    }
  }

  /** The only placement in the window is free. */
  lemma Free(rs: seq<Range>, s: State)
    requires s.HasCurrent() && s.Chosen().length != 0 && s.curMax - s.curMin == s.Chosen().length - 1
    requires s.start == s.curMin && s.end == s.curMax && s.start % s.Chosen().Step() == 0
    requires forall r :: r in rs && r.Overlaps(s.start, s.end) ==> r.shared && s.Chosen().shared
    ensures PlacedHighest(rs, s)
  {
  }

  lemma OpeningIsPlain(e: Entry)
    requires e in {FIRST, SECOND, THIRD}
    ensures Buildable(e) && forall a :: 0 <= a < |e.alternatives| ==> PlainAlternative([], Opening(e).alternatives[a])
  {
    TheyBuild();
    forall a | 0 <= a < |e.alternatives|
      ensures PlainAlternative([], Opening(e).alternatives[a])
    {
      assert e.alternatives[a] in {EXCLUSIVE, TWIN, ELSEWHERE};
    }
  }

  /** The requirements of device 1 are twins, and nothing else stands in the way of the soundness claim. */
  lemma TheyAreTwins()
    ensures forall e :: e in [FIRST, SECOND, THIRD] ==> Buildable(e)
    ensures Plain(MEMORY, [], Stack([FIRST, SECOND, THIRD]))
    ensures !NoTwins(MEMORY, Stack([FIRST, SECOND, THIRD]))
  {
    hide PlainAlternative, Buildable, Twins, BuildAlternative;
    TheyBuild();
    var es := [FIRST, SECOND, THIRD];
    var init := Stack(es);
    assert init[0] == Opening(FIRST) && init[1] == Opening(SECOND) && init[2] == Opening(THIRD);
    TwinAlternatives();
    assert Twins(MEMORY, 1, init[1].alternatives[0], init[0].alternatives[0]);
    forall i, a | 0 <= i < |init| && 0 <= a < |init[i].alternatives|
      ensures PlainAlternative([], init[i].alternatives[a])
    {
      OpeningIsPlain(es[i]);
    }
  }

  lemma TwinAlternatives()
    ensures BuildAlternative(TWIN).Some? && BuildAlternative(EXCLUSIVE).Some?
    ensures Twins(MEMORY, 1, BuildAlternative(TWIN).value, BuildAlternative(EXCLUSIVE).value)
  {
    TwinsAreSeen(MEMORY, 1, BuildAlternative(TWIN).value, BuildAlternative(EXCLUSIVE).value);
  }

  lemma {:induction false} SumOfEqual(ds: seq<IoDescriptor>)
    requires |ds| <= 3 && forall d :: d in ds ==> ScoreRequirement(d) == 16
    ensures SumOfScores(ds) == 16 * |ds|
  {
    if ds != [] {
      SumOfEqual(ds[..|ds| - 1]);
    }
  }

  /** The scores leave the three requests in this order. */
  lemma TheyAreSorted()
    ensures Ascending(ScoredAll([FIRST, SECOND, THIRD]))
  {
    hide SumOfScores;
    assert ScoreRequirement(EXCLUSIVE) == ScoreRequirement(TWIN) == ScoreRequirement(ELSEWHERE) == 16;
    SumOfEqual(FIRST.alternatives);
    SumOfEqual(SECOND.alternatives);
    SumOfEqual(THIRD.alternatives);
  }

  /**
  The run. Device 1's exclusive range is laid; its fixed shared twin has no room
  and reclaims it; device 2 has no room, so the twin is taken back. Of the two
  ranges with its bounds and owner the first goes, the exclusive one. The second
  requirement moves elsewhere, and what is left lets device 2 in.
  */
  ghost predicate History(first: State, twin: State, moved: State, third: seq<State>) {
    && first.HasCurrent() && twin.HasCurrent() && moved.HasCurrent()
    && |third| == 3 && (forall i :: 0 <= i < 3 ==> third[i].HasCurrent())
    && var one := Laid(MemoryArbiter, first);
    && PlacedHighest([], first) && NoRoom(one, twin) && Reclaimable(one, twin)
    && var two := one + Laid(MemoryArbiter, twin);
    && (forall i :: 0 <= i < 3 ==> NoRoom(two, third[i]) && !Reclaimable(two, third[i]))
    && twin.Chosen().fixed && |two| == 2 && KeyOf(two[0]) == KeyOf(Primary(twin))
    && var three := two[1..];
    && PlacedHighest(three, moved)
    && var four := three + Laid(MemoryArbiter, moved);
    && PlacedHighest(four, third[0])
    && var five, st := four + Laid(MemoryArbiter, third[0]), [first, moved, third[0]];
    && Balanced(five, LaidAll(MemoryArbiter, st), false)
    && !Balanced(five, LaidAll(MemoryArbiter, st), true)
  }

  /** Every placement fits its request, and yet the exclusive range of device 1 is device 2's as well. */
  lemma TwinsShareAnExclusiveRange() returns (first: State, twin: State, moved: State, third: seq<State>)
    ensures Offered(FIRST, 0, first) && Offered(SECOND, 0, twin) && Offered(SECOND, 1, moved)
    ensures |third| == 3 && forall i :: 0 <= i < 3 ==> Offered(THIRD, i, third[i])
    ensures History(first, twin, moved, third)
    ensures FitsRequest([], first) && FitsRequest([], moved) && FitsRequest([], third[0])
    ensures !FitsBeside(MemoryArbiter, first, third[0])
  {
    hide Offered, Standing, NoRoom, PlacedHighest, Reclaimable, LaidAll, Balanced, Laid, FitsRequest;
    TheyBuild();
    StandsThere(FIRST, 0, EXCLUSIVE_RANGE);
    StandsThere(SECOND, 0, TWIN_RANGE);
    StandsThere(SECOND, 1, MOVED_RANGE);
    StandsThere(THIRD, 0, OTHERS_RANGE);
    StandsThere(THIRD, 1, OTHERS_RANGE);
    StandsThere(THIRD, 2, OTHERS_RANGE);
    first, twin, moved := Standing(FIRST, 0), Standing(SECOND, 0), Standing(SECOND, 1);
    third := [Standing(THIRD, 0), Standing(THIRD, 1), Standing(THIRD, 2)];
    TheRun(first, twin, moved, third);
  }

  lemma TheRun(first: State, twin: State, moved: State, third: seq<State>)
    requires StandsAt(first, EXCLUSIVE_RANGE) && StandsAt(twin, TWIN_RANGE) && StandsAt(moved, MOVED_RANGE)
    requires |third| == 3 && forall i :: 0 <= i < 3 ==> StandsAt(third[i], OTHERS_RANGE)
    ensures History(first, twin, moved, third)
    ensures !FitsBeside(MemoryArbiter, first, third[0])
  {
    hide NoRoom, PlacedHighest, Reclaimable, LaidAll, Balanced, Laid, FitsRequest;
    var one, two, four := [EXCLUSIVE_RANGE], [EXCLUSIVE_RANGE, TWIN_RANGE], [TWIN_RANGE, MOVED_RANGE];
    assert one + Laid(MemoryArbiter, twin) == two && two[1..] + Laid(MemoryArbiter, moved) == four;
    Free([], first);
    Filled(one, twin, EXCLUSIVE_RANGE);
    Reclaims(twin);
    forall i | 0 <= i < 3
      ensures NoRoom(two, third[i]) && !Reclaimable(two, third[i])
    {
      Filled(two, third[i], EXCLUSIVE_RANGE);
      ReclaimsOnlyItsOwn(two, third[i]);
    }
    Free(two[1..], moved);
    Free(four, third[0]);
    BooksOfTheRun(first, moved, third[0]);
    assert four + [OTHERS_RANGE] == [TWIN_RANGE] + [MOVED_RANGE, OTHERS_RANGE];
    assert EXCLUSIVE_RANGE in Laid(MemoryArbiter, first) && OTHERS_RANGE in Laid(MemoryArbiter, third[0]);
  }

  lemma Reclaims(s: State)
    requires s.HasCurrent() && s.Chosen().fixed && s.entry.device == 1 && s.curMin == 0x10 && s.curMax == 0x1F
    ensures Reclaimable([EXCLUSIVE_RANGE], s)
  {
    assert EXCLUSIVE_RANGE in [EXCLUSIVE_RANGE] && Blocks(EXCLUSIVE_RANGE, s);
  }

  lemma ReclaimsOnlyItsOwn(rs: seq<Range>, s: State)
    requires s.HasCurrent() && s.entry.device == 2 && s.curMin == 0x10 && s.curMax == 0x1F
    requires EXCLUSIVE_RANGE in rs
    ensures !Reclaimable(rs, s)
  {
    assert Blocks(EXCLUSIVE_RANGE, s);
  }

  /** Replacing a range by its twin keeps the bounds and owners and loses a sharing flag. */
  lemma Replaced(r: Range, twin: Range, rest: seq<Range>)
    requires KeyOf(r) == KeyOf(twin) && forall q :: q in [twin] + rest ==> ClaimOf(q) != ClaimOf(r)
    ensures Balanced([twin] + rest, [r] + rest, false) && !Balanced([twin] + rest, [r] + rest, true)
  {
    assert Map([twin] + rest, KeyOf) == Map([r] + rest, KeyOf);
    ImageMember([twin] + rest, ClaimOf, ClaimOf(r));
    ImageMember([r] + rest, ClaimOf, ClaimOf(r));
    assert r in [r] + rest;
  }

  lemma BooksOfTheRun(first: State, moved: State, last: State)
    requires Laid(MemoryArbiter, first) == [EXCLUSIVE_RANGE] && Laid(MemoryArbiter, moved) == [MOVED_RANGE]
    requires Laid(MemoryArbiter, last) == [OTHERS_RANGE]
    ensures var five := [TWIN_RANGE] + [MOVED_RANGE, OTHERS_RANGE];
            var ledger := LaidAll(MemoryArbiter, [first, moved, last]);
            Balanced(five, ledger, false) && !Balanced(five, ledger, true)
  {
    hide Laid, Balanced;
    var st := [first, moved, last];
    LaidAllStep(MemoryArbiter, [], st, 0);
    LaidAllStep(MemoryArbiter, [], st, 1);
    LaidAllStep(MemoryArbiter, [], st, 2);
    assert st[..0] == [] && st[..3] == st;
    assert LaidAll(MemoryArbiter, st) == [EXCLUSIVE_RANGE] + [MOVED_RANGE, OTHERS_RANGE];
    Replaced(EXCLUSIVE_RANGE, TWIN_RANGE, [MOVED_RANGE, OTHERS_RANGE]);
  }
}
