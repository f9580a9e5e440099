/**
The IDT vector allocator of the interrupt library: used sets per processor,
the line table and the message runs.
*/
module Vectors {
  import opened Words
  import opened RangeLists

  const MAX_PROCESSORS := 256
  const MAX_GSIV := 256
  const MAX_RUNS := 128
  const MAX_VECTOR := 0xFF
  const FIRST := 0x50
  const LAST := 0xBF
  const MSI_OWNER := 0xACB1A5E1

  lemma WrapAdds(x: int, a: nat)
    requires Wrap32(x) + a < TWO_32
    ensures Wrap32(x + a) == Wrap32(x) + a
  {
    DivModUnique(x + a, x / TWO_32, Wrap32(x) + a, TWO_32);
  }

  // ----- Used sets -----

  datatype VectorRange = VectorRange(first: int, last: int, owner: nat) {
    predicate Holds(v: int) {
      first <= v <= last
    }

    predicate Apart(other: VectorRange) {
      last < other.first || other.last < first
    }
  }

  /** One processor's entry. */
  datatype Idt = Idt(valid: bool, used: seq<VectorRange>)

  predicate Uses(used: seq<VectorRange>, v: int) {
    exists r :: r in used && r.Holds(v)
  }

  /** RtlAddRange without ADD_IF_CONFLICT lets no two ranges meet. */
  predicate Scattered(used: seq<VectorRange>) {
    && (forall r :: r in used ==> r.first <= r.last)
    && (forall i, j :: 0 <= i < j < |used| ==> used[i].Apart(used[j]))
  }

  /** The range list calls of this file: add unless something is met, delete an exact match. */
  function Added(used: seq<VectorRange>, r: VectorRange): seq<VectorRange> {
    if r.first <= r.last && forall q :: q in used ==> q.Apart(r) then used + [r] else used
  }

  function Deleted(used: seq<VectorRange>, r: VectorRange): seq<VectorRange> {
    if used == [] then []
    else if used[|used| - 1] == r then used[..|used| - 1]
    else Deleted(used[..|used| - 1], r) + [used[|used| - 1]]
  }

  lemma AddedScattered(used: seq<VectorRange>, r: VectorRange)
    requires Scattered(used)
    ensures Scattered(Added(used, r))
  {
    if Added(used, r) != used {
      assert forall i :: 0 <= i < |used| ==> used[i] in used;
    }
  }

  /** Free vectors become used, the rest stays. */
  lemma AddedUses(used: seq<VectorRange>, r: VectorRange)
    requires r.first <= r.last && (forall q :: q in used ==> q.first <= q.last)
    requires forall v :: r.Holds(v) ==> !Uses(used, v)
    ensures Added(used, r) == used + [r]
    ensures forall v :: Uses(Added(used, r), v) <==> Uses(used, v) || r.Holds(v)
  {
    forall q | q in used
      ensures q.Apart(r)
    {
      if q.first <= r.first {
        assert q.Holds(r.first) ==> Uses(used, r.first);
      } else {
        assert r.Holds(q.first) ==> !Uses(used, q.first);
        assert q.Holds(q.first);
      }
    }
    forall v
      ensures Uses(used + [r], v) <==> Uses(used, v) || r.Holds(v)
    {
      assert r in used + [r];
      if q :| q in used && q.Holds(v) {
        assert q in used + [r];
      }
    }
  }

  lemma {:induction false} DeletedMembers(used: seq<VectorRange>, r: VectorRange)
    requires Scattered(used)
    ensures forall q :: q in Deleted(used, r) <==> q in used && q != r
    ensures Scattered(Deleted(used, r))
  {
    if used != [] {
      var n := |used| - 1;
      DeletedMembers(used[..n], r);
      assert used == used[..n] + [used[n]];
      forall q | q in used[..n]
        ensures q.Apart(used[n])
      {
        var i :| 0 <= i < n && used[i] == q;
      }
      if used[n] != r {
        var rest := Deleted(used[..n], r);
        assert forall i :: 0 <= i < |rest| ==> rest[i] in used[..n];
      }
    }
  }

  /** Deleting a range of a scattered set frees its vectors and no others. */
  lemma DeletedUses(used: seq<VectorRange>, r: VectorRange)
    requires Scattered(used) && r in used
    ensures Scattered(Deleted(used, r))
    ensures forall q :: q in Deleted(used, r) <==> q in used && q != r
    ensures forall v :: Uses(Deleted(used, r), v) <==> Uses(used, v) && !r.Holds(v)
  {
    DeletedMembers(used, r);
    forall q | q in used && q != r
      ensures q.Apart(r)
    {
      var i :| 0 <= i < |used| && used[i] == q;
      var j :| 0 <= j < |used| && used[j] == r;
      assert i < j || j < i;
    }
  }

  // ----- Seeding -----

  /** The vectors the HAL keeps. Without a grant the fixed band is all there is to hand out. */
  predicate Seeded(granted: set<int>, v: int) {
    0 <= v <= MAX_VECTOR && if granted == {} then !(FIRST <= v <= LAST) else v !in granted
  }

  /** UacpiNtSeedIdtState: every vector the HAL did not grant counts as occupied. */
  method SeedIdt(granted: set<int>) returns (used: seq<VectorRange>)
    ensures Scattered(used)
    ensures forall v :: Uses(used, v) <==> Seeded(granted, v)
  {
    if granted == {} {
      used := [VectorRange(0, FIRST - 1, 0), VectorRange(LAST + 1, MAX_VECTOR, 0)];
      assert used[0] in used && used[1] in used;
      return;
    }
    used := [];
    var vector := 0;
    while vector <= MAX_VECTOR
      invariant 0 <= vector <= MAX_VECTOR + 1
      invariant Scattered(used) && forall r :: r in used ==> r.last < vector
      invariant forall v :: Uses(used, v) <==> Seeded(granted, v) && v < vector
      decreases MAX_VECTOR - vector
    {
      if vector in granted {
        vector := vector + 1;
      } else {
        var start := vector;
        while vector <= MAX_VECTOR && vector !in granted
          invariant start <= vector <= MAX_VECTOR + 1
          invariant forall v :: start <= v < vector ==> v !in granted
        {
          vector := vector + 1;
        }
        var r := VectorRange(start, vector - 1, 0);
        AddedScattered(used, r);
        AddedUses(used, r);
        used := Added(used, r);
      }
    }
  }

  // ----- Message runs -----

  /** What a 32-bit register makes of the sum of two 32-bit values. */
  function Low32(x: int): (r: int)
    ensures 0 <= x < 2 * TWO_32 ==> r == Wrap32(x)
  {
    if x < TWO_32 then x else x - TWO_32
  }

  /** UACPINT_MESSAGE_RUN. A slot without an owner is free. */
  datatype Run = Run(owner: nat, gsiv: u32, base: int, count: nat, claimed: bool) {
    predicate Live() {
      owner != 0
    }

    /** The comparison is made in 32 bits, so a run that reaches past them holds nothing. */
    predicate Holds(v: int) {
      base <= v < Low32(base + count)
    }

    /** The last vector lies past 32 bits. */
    predicate Wraps() {
      base + count > TWO_32
    }

    function AsRange(): VectorRange {
      VectorRange(base, Low32(base + count - 1), MSI_OWNER)
    }

    predicate Keyed(o: nat, g: u32, c: nat) {
      owner == o && gsiv == g && count == c
    }
  }

  const NO_RUN := Run(0, 0, 0, 0, false)

  predicate InRun(runs: seq<Run>, v: int) {
    exists i :: 0 <= i < |runs| && runs[i].Live() && runs[i].Holds(v)
  }

  // ----- Who holds which vector -----

  /** Processor 0's used set, the line table, the runs, and every line allocation ever made. */
  datatype Books = Books(used: seq<VectorRange>, table: seq<int>, runs: seq<Run>, lines: map<int, nat>)

  /**
  A run inside the band, on vectors the HAL gave away, with its range in the
  used set; or one that wraps, of which the used set knows nothing.
  */
  ghost predicate RunStands(granted: set<int>, used: seq<VectorRange>, run: Run) {
    && 1 <= run.count < TWO_32 && FIRST <= run.base < TWO_32
    && (!run.Wraps() ==>
          && run.base + run.count - 1 <= LAST
          && run.AsRange() in used
          && (forall v :: run.Holds(v) ==> !Seeded(granted, v)))
  }

  /** Runs do not meet, and lines keep clear of them. */
  ghost predicate RunsApart(runs: seq<Run>) {
    forall i, j, v ::
      0 <= i < |runs| && 0 <= j < |runs| && runs[i].Live() && runs[j].Live() && runs[i].Holds(v) && runs[j].Holds(v) ==>
        i == j
  }

  predicate LinesStand(granted: set<int>, runs: seq<Run>, lines: map<int, nat>) {
    forall v :: v in lines ==> FIRST <= v <= LAST && !Seeded(granted, v) && !InRun(runs, v)
  }

  /** The line table remembers the lines below 256 exactly. */
  predicate Remembered(table: seq<int>, lines: map<int, nat>) {
    && |table| == MAX_GSIV
    && (forall g :: 0 <= g < MAX_GSIV && table[g] != 0 ==> table[g] in lines && lines[table[g]] == g)
    && (forall v :: v in lines && lines[v] < MAX_GSIV ==> table[lines[v]] == v)
  }

  /** Processor 0's used set is the disjoint union of the seed, the lines and the live runs. */
  ghost predicate Exclusive(granted: set<int>, b: Books) {
    && Scattered(b.used)
    && (forall v :: Uses(b.used, v) <==> Seeded(granted, v) || v in b.lines || InRun(b.runs, v))
    && (forall i :: 0 <= i < |b.runs| && b.runs[i].Live() ==> RunStands(granted, b.used, b.runs[i]))
    && RunsApart(b.runs)
    && LinesStand(granted, b.runs, b.lines)
    && Remembered(b.table, b.lines)
  }

  lemma LineAdded(granted: set<int>, b: Books, g: nat, v: int)
    requires Exclusive(granted, b) && FIRST <= v <= LAST && !Uses(b.used, v)
    requires g < MAX_GSIV ==> b.table[g] == 0
    ensures var r := VectorRange(v, v, Wrap32(g + 1));
            var table := if g < MAX_GSIV then b.table[g := v] else b.table;
            Exclusive(granted, Books(Added(b.used, r), table, b.runs, b.lines[v := g]))
  {
    var r := VectorRange(v, v, Wrap32(g + 1));
    AddedScattered(b.used, r);
    AddedUses(b.used, r);
    assert v !in b.lines;
  }

  lemma InRunUpdate(runs: seq<Run>, i: nat, run: Run, v: int)
    requires i < |runs| && !runs[i].Live()
    ensures InRun(runs[i := run], v) <==> InRun(runs, v) || (run.Live() && run.Holds(v))
  {
    if j :| 0 <= j < |runs| && runs[j].Live() && runs[j].Holds(v) {
      assert runs[i := run][j] == runs[j];
    }
    assert runs[i := run][i] == run;
  }

  lemma RunAdded(granted: set<int>, b: Books, i: nat, run: Run)
    requires Exclusive(granted, b) && i < |b.runs| && !b.runs[i].Live()
    requires run.Live() && run.count >= 1 && FIRST <= run.base && run.base + run.count - 1 <= LAST
    requires forall v :: run.Holds(v) ==> !Uses(b.used, v)
    ensures Exclusive(granted, Books(Added(b.used, run.AsRange()), b.table, b.runs[i := run], b.lines))
  {
    var r := run.AsRange();
    assert forall v :: r.Holds(v) <==> run.Holds(v);
    AddedScattered(b.used, r);
    AddedUses(b.used, r);
    forall v
      ensures InRun(b.runs[i := run], v) <==> InRun(b.runs, v) || run.Holds(v)
    {
      InRunUpdate(b.runs, i, run, v);
    }
    forall v | run.Holds(v)
      ensures !InRun(b.runs, v) && !Seeded(granted, v)
    {
      assert !Uses(b.used, v);
    }
  }

  /** A run that wraps is refused by the used set and holds nothing. */
  lemma WrappedRunAdded(granted: set<int>, b: Books, i: nat, run: Run)
    requires Exclusive(granted, b) && i < |b.runs| && !b.runs[i].Live()
    requires run.Live() && 1 <= run.count < TWO_32 && FIRST <= run.base < TWO_32 && run.Wraps()
    ensures Added(b.used, run.AsRange()) == b.used
    ensures Exclusive(granted, b.(runs := b.runs[i := run]))
  {
    var runs := b.runs[i := run];
    assert forall v :: !run.Holds(v);
    forall v
      ensures InRun(runs, v) <==> InRun(b.runs, v)
    {
      InRunUpdate(b.runs, i, run, v);
    }
  }

  /** A run whose flag changes stays where it is. */
  lemma RunFlagged(granted: set<int>, b: Books, i: nat, claimed: bool)
    requires Exclusive(granted, b) && i < |b.runs| && b.runs[i].Live()
    ensures Exclusive(granted, b.(runs := b.runs[i := b.runs[i].(claimed := claimed)]))
  {
    hide InRun, Seeded, Scattered, Low32, Remembered;
    var runs := b.runs[i := b.runs[i].(claimed := claimed)];
    assert forall j :: 0 <= j < |runs| ==> runs[j] == b.runs[j].(claimed := runs[j].claimed);
    forall v
      ensures InRun(runs, v) <==> InRun(b.runs, v)
    {
      FlagIsNoVector(b.runs, i, claimed, v);
    }
  }

  lemma FlagIsNoVector(runs: seq<Run>, i: nat, claimed: bool, v: int)
    requires i < |runs|
    ensures InRun(runs[i := runs[i].(claimed := claimed)], v) <==> InRun(runs, v)
  {
    hide Low32;
    var after := runs[i := runs[i].(claimed := claimed)];
    if j :| 0 <= j < |after| && after[j].Live() && after[j].Holds(v) {
      assert runs[j].Live() && runs[j].Holds(v);
    }
    if j :| 0 <= j < |runs| && runs[j].Live() && runs[j].Holds(v) {
      assert after[j].Live() && after[j].Holds(v);
    }
  }

  lemma RunDropped(granted: set<int>, b: Books, i: nat)
    requires Exclusive(granted, b) && i < |b.runs| && b.runs[i].Live() && !b.runs[i].Wraps()
    ensures Exclusive(granted, b.(used := Deleted(b.used, b.runs[i].AsRange()), runs := b.runs[i := NO_RUN]))
  {
    var run, r := b.runs[i], b.runs[i].AsRange();
    var runs := b.runs[i := NO_RUN];
    DeletedUses(b.used, r);
    assert forall v :: r.Holds(v) <==> run.Holds(v);
    forall v
      ensures InRun(runs, v) <==> InRun(b.runs, v) && !run.Holds(v)
    {
      if j :| 0 <= j < |runs| && runs[j].Live() && runs[j].Holds(v) {
        assert b.runs[j].Live() && b.runs[j].Holds(v) && j != i;
      }
      if j :| 0 <= j < |b.runs| && b.runs[j].Live() && b.runs[j].Holds(v) {
        if !run.Holds(v) {
          assert runs[j].Live() && runs[j].Holds(v);
        }
      }
    }
    forall v | run.Holds(v)
      ensures !Seeded(granted, v) && v !in b.lines
    {
      assert InRun(b.runs, v);
    }
    forall j | 0 <= j < |runs| && runs[j].Live()
      ensures RunStands(granted, Deleted(b.used, r), runs[j])
    {
      assert RunStands(granted, b.used, b.runs[j]) && RunStands(granted, b.used, run);
      assert run.Holds(run.base);
      assert !b.runs[j].Holds(run.base);
    }
  }

  // ----- Free runs -----

  predicate FreeOn(idts: seq<Idt>, count: nat, v: int)
    requires count <= |idts|
  {
    forall p :: 0 <= p < count && idts[p].valid ==> !Uses(idts[p].used, v)
  }

  predicate PowerOfTwo(n: nat) {
    n == 1 || (n > 1 && n % 2 == 0 && PowerOfTwo(n / 2))
  }

  function AlignmentOf(count: nat): (a: nat)
    ensures a > 0
  {
    if PowerOfTwo(count) then count else 1
  }

  lemma {:induction false} PowersDouble(n: nat, m: nat)
    requires PowerOfTwo(n) && PowerOfTwo(m) && n < m
    ensures 2 * n <= m
  {
    if n > 1 {
      PowersDouble(n / 2, m / 2);
    }
  }

  lemma {:induction false} PowersMultiply(n: nat, m: nat)
    requires PowerOfTwo(n) && PowerOfTwo(m)
    ensures PowerOfTwo(n * m)
  {
    if n > 1 {
      var h := n / 2;
      PowersMultiply(h, m);
      assert n * m == 2 * (h * m);
      PowerDoubles(h * m);
    }
  }

  lemma PowerDoubles(n: nat)
    requires PowerOfTwo(n)
    ensures PowerOfTwo(2 * n)
  {
  }

  lemma WordIsPower()
    ensures PowerOfTwo(TWO_32)
  {
    PowersMultiply(2, 2);
    PowersMultiply(4, 4);
    PowersMultiply(0x10, 0x10);
    PowersMultiply(0x100, 0x100);
    PowersMultiply(0x1_0000, 0x1_0000);
  }

  /** The alignment of a 32-bit count leaves room above the band. */
  lemma AlignmentIsSmall(count: u32)
    requires count > 0
    ensures AlignmentOf(count) <= 0x8000_0000
    ensures AlignmentOf(count) == 1 || AlignmentOf(count) == count
  {
    if PowerOfTwo(count) {
      WordIsPower();
      PowersDouble(count, TWO_32);
    }
  }

  /** The lowest aligned vector of the band. */
  function FirstAligned(alignment: nat): (c: int)
    requires alignment > 0
  {
    FIRST + alignment - 1 - (FIRST + alignment - 1) % alignment
  }

  lemma FirstAlignedIsLowest(alignment: nat)
    requires alignment > 0
    ensures FirstAligned(alignment) % alignment == 0 && FIRST <= FirstAligned(alignment) < FIRST + alignment
    ensures forall b: int :: FIRST <= b && b % alignment == 0 ==> FirstAligned(alignment) <= b
  {
    var x := FIRST + alignment - 1;
    AlignDownIsHighest(x, alignment);
    var c := FirstAligned(alignment);
    StepDownIsNext(c, alignment);
  }

  lemma NextAligned(c: int, alignment: nat)
    requires alignment > 0 && c % alignment == 0
    ensures (c + alignment) % alignment == 0
    ensures forall b: int :: b % alignment == 0 && c < b ==> c + alignment <= b
  {
    MultipleIsAligned(c / alignment + 1, alignment);
    assert (c / alignment + 1) * alignment == c + alignment;
    StepDownIsNext(c + alignment, alignment);
  }

  /** Only a count this large reaches past 32 bits from inside the band. */
  predicate Unwrapped(count: nat) {
    FIRST + count <= TWO_32
  }

  /** The last vector of a run as the search computes it. */
  function LastOf(base: int, count: nat): int {
    base + count - 1 - if Unwrapped(count) then 0 else TWO_32
  }

  /** The vectors a run addresses, those past 32 bits counted from zero again. */
  predicate Spans(base: int, count: nat, v: int) {
    0 <= v < TWO_32 && (base <= v < base + count || base <= v + TWO_32 < base + count)
  }

  /** A base from which the run ends in the band and is free on every tracked processor. */
  ghost predicate Suits(idts: seq<Idt>, tracked: nat, count: nat, base: int)
    requires tracked <= |idts| && count > 0
  {
    && FIRST <= base && LastOf(base, count) <= LAST
    && base % AlignmentOf(count) == 0
    && forall v :: Spans(base, count, v) ==> FreeOn(idts, tracked, v)
  }

  /** Requested counts of zero mean one. */
  function AtLeastOne(count: u32): u32 {
    if count == 0 then 1 else count
  }
}
