/** The allocator's operations on the global tables, each under the library's lock. */
module VectorTables {
  import opened Words
  import opened RangeLists
  import opened Vectors

  /** What GetVectorInput says of a vector: a line's GSIV, a message, or not ours. */
  datatype Input = Line(gsiv: nat) | Message | Invalid | NotOurs

  /** The first slot keyed by owner, placement and count. */
  function FirstKeyed(runs: seq<Run>, owner: nat, gsiv: u32, count: nat): (i: nat)
    ensures i <= |runs|
    ensures i < |runs| ==> runs[i].Keyed(owner, gsiv, count)
    ensures forall j :: 0 <= j < i ==> !runs[j].Keyed(owner, gsiv, count)
  {
    if runs == [] then 0
    else if runs[0].Keyed(owner, gsiv, count) then 0
    else
      var rest := FirstKeyed(runs[1..], owner, gsiv, count);
      assert forall j :: 0 < j < 1 + rest ==> runs[j] == runs[1..][j - 1];
      1 + rest
  }

  lemma FirstKeyedIs(runs: seq<Run>, owner: nat, gsiv: u32, count: nat, i: nat)
    requires i < |runs| && runs[i].Keyed(owner, gsiv, count)
    requires forall j :: 0 <= j < i ==> !runs[j].Keyed(owner, gsiv, count)
    ensures FirstKeyed(runs, owner, gsiv, count) == i
  {
    var k := FirstKeyed(runs, owner, gsiv, count);
    assert k <= i;
    assert i <= k;
  }

  /** The base a resolve would find without allocating. */
  function Known(runs: seq<Run>, owner: nat, gsiv: u32, count: nat): Option<int> {
    var i := FirstKeyed(runs, owner, gsiv, count);
    if i < |runs| then Some(runs[i].base) else None
  }

  /** The first slot without an owner. */
  function FirstVacant(runs: seq<Run>): (i: nat)
    ensures i <= |runs|
    ensures i < |runs| ==> !runs[i].Live()
    ensures forall j :: 0 <= j < i ==> runs[j].Live()
  {
    if runs == [] || !runs[0].Live() then 0
    else
      var rest := FirstVacant(runs[1..]);
      assert forall j :: 0 < j < 1 + rest ==> runs[j] == runs[1..][j - 1];
      1 + rest
  }

  lemma FirstVacantIs(runs: seq<Run>, i: nat)
    requires i <= |runs| && (i < |runs| ==> !runs[i].Live()) && forall j :: 0 <= j < i ==> runs[j].Live()
    ensures FirstVacant(runs) == i
  {
    var k := FirstVacant(runs);
    assert k <= i;
    assert i <= k;
  }

  /** Arbiter placed runs of more than one vector are never forgotten or shadowed. */
  ghost predicate StillKnown(before: seq<Run>, after: seq<Run>) {
    forall owner: nat, gsiv: u32, count: nat ::
      owner != 0 && gsiv != 0 && count > 1 && Known(before, owner, gsiv, count).Some? ==>
        Known(after, owner, gsiv, count) == Known(before, owner, gsiv, count)
  }

  /** What every key but one finds stays what it was. */
  ghost predicate OtherKeysKept(before: seq<Run>, after: seq<Run>, owner: nat, gsiv: u32) {
    forall o: nat, g: u32, c: nat ::
      o != 0 && Known(before, o, g, c).Some? && !(o == owner && g == gsiv && c == 1) ==>
        Known(after, o, g, c) == Known(before, o, g, c)
  }

  lemma KnownAfterUpdate(before: seq<Run>, i: nat, run: Run, owner: nat, gsiv: u32, count: nat)
    requires i < |before|
    requires owner != 0 && Known(before, owner, gsiv, count).Some?
    requires before[i].Keyed(owner, gsiv, count) ==> run.Keyed(owner, gsiv, count) && run.base == before[i].base
    requires !before[i].Keyed(owner, gsiv, count) ==> !run.Keyed(owner, gsiv, count)
    ensures Known(before[i := run], owner, gsiv, count) == Known(before, owner, gsiv, count)
  {
    var k := FirstKeyed(before, owner, gsiv, count);
    FirstKeyedIs(before[i := run], owner, gsiv, count, k);
  }

  /** A claim changes one processor's set if it is tracked. */
  function ClaimedOn(idt: Idt, r: VectorRange): Idt {
    if idt.valid then idt.(used := Added(idt.used, r)) else idt
  }

  function FreedOn(idt: Idt, r: VectorRange): Idt {
    if idt.valid then idt.(used := Deleted(idt.used, r)) else idt
  }

  /** The vector at an offset of a run, addressed in 32-bit arithmetic, is free. */
  predicate FreeAt(idts: seq<Idt>, tracked: nat, base: u32, offset: nat)
    requires tracked <= |idts|
  {
    FreeOn(idts, tracked, Wrap32(base + offset))
  }

  predicate AllFree(idts: seq<Idt>, tracked: nat, base: u32, count: u32)
    requires tracked <= |idts|
  {
    forall o :: 0 <= o < count ==> FreeAt(idts, tracked, base, o)
  }

  lemma SpanIsFree(idts: seq<Idt>, tracked: nat, base: u32, count: u32)
    requires tracked <= |idts|
    ensures AllFree(idts, tracked, base, count)
            <==> forall v :: Spans(base, count, v) ==> FreeOn(idts, tracked, v)
  {
    hide FreeOn;
    if AllFree(idts, tracked, base, count) {
      forall v | Spans(base, count, v)
        ensures FreeOn(idts, tracked, v)
      {
        var o := if base <= v < base + count then v - base else v + TWO_32 - base;
        Low32IsWrap(base + o);
        assert FreeAt(idts, tracked, base, o);
      }
    } else {
      var o :| 0 <= o < count && !FreeAt(idts, tracked, base, o);
      Low32IsWrap(base + o);
      assert Spans(base, count, Low32(base + o));
    }
  }

  lemma Low32IsWrap(x: int)
    requires 0 <= x < 2 * TWO_32
    ensures Wrap32(x) == Low32(x)
  {
  }

  /** A run reaching past 32 bits takes in vector 0, so it does not suit where the HAL keeps that. */
  lemma WrappedRunMeetsZero(idts: seq<Idt>, tracked: nat, count: u32)
    requires 0 < tracked <= |idts| && idts[0].valid && Uses(idts[0].used, 0) && count > 0
    ensures Unwrapped(count) || NoneSuits(idts, tracked, count)
  {
    if !Unwrapped(count) {
      forall b
        ensures !Suits(idts, tracked, count, b)
      {
        if FIRST <= b && LastOf(b, count) <= LAST {
          assert Spans(b, count, 0);
          assert !FreeOn(idts, tracked, 0);
        }
      }
    }
  }

  /** The lowest base a run of this count can have. */
  ghost predicate Lowest(idts: seq<Idt>, tracked: nat, count: nat, base: int)
    requires tracked <= |idts| && count > 0
  {
    Suits(idts, tracked, count, base) && NoneBelow(idts, tracked, count, base)
  }

  ghost predicate NoneBelow(idts: seq<Idt>, tracked: nat, count: nat, base: int)
    requires tracked <= |idts| && count > 0
  {
    forall b :: Suits(idts, tracked, count, b) ==> base <= b
  }

  lemma SuitsIsAligned(idts: seq<Idt>, tracked: nat, count: nat)
    requires tracked <= |idts| && count > 0
    ensures forall b :: Suits(idts, tracked, count, b) ==> FIRST <= b && b % AlignmentOf(count) == 0
  {
  }

  /** A search that begins at all has a small alignment and stays inside 32 bits. */
  lemma FirstWindow(alignment: nat, count: u32)
    requires 0 < alignment <= 0x8000_0000 && count > 0 && (alignment == 1 || alignment == count)
    ensures var c := FirstAligned(alignment);
            && c < TWO_32
            && alignment <= Wrap32(c + count - 1) + 1
            && Wrap32(c + count - 1) == LastOf(c, count)
  {
    FirstAlignedIsLowest(alignment);
    hide FirstAligned;
    var c := FirstAligned(alignment);
    if alignment > 1 {
      DivModUnique(alignment, 1, 0, alignment);
      assert c + count - 1 < TWO_32;
    }
    Low32IsWrap(c + count - 1);
  }

  /** In the search loop a run that is free suits, and one that is not does not. */
  lemma FreeRunSuits(idts: seq<Idt>, tracked: nat, count: u32, base: u32, free: bool)
    requires tracked <= |idts| && count > 0
    requires FIRST <= base && base % AlignmentOf(count) == 0 && LastOf(base, count) <= LAST
    requires free <==> AllFree(idts, tracked, base, count)
    ensures free <==> Suits(idts, tracked, count, base)
  {
    hide FreeOn, AllFree, AlignmentOf;
    SpanIsFree(idts, tracked, base, count);
  }

  lemma NoneBelowNext(idts: seq<Idt>, tracked: nat, count: nat, base: int)
    requires tracked <= |idts| && count > 0 && base % AlignmentOf(count) == 0
    requires NoneBelow(idts, tracked, count, base) && !Suits(idts, tracked, count, base)
    ensures NoneBelow(idts, tracked, count, base + AlignmentOf(count))
    ensures (base + AlignmentOf(count)) % AlignmentOf(count) == 0
  {
    hide AlignmentOf, FreeOn;
    NextAligned(base, AlignmentOf(count));
    SuitsIsAligned(idts, tracked, count);
  }

  lemma NoneAbove(idts: seq<Idt>, tracked: nat, count: nat, base: int)
    requires tracked <= |idts| && count > 0
    requires NoneBelow(idts, tracked, count, base) && LastOf(base, count) > LAST
    ensures NoneSuits(idts, tracked, count)
  {
    hide FreeOn;
    forall b
      ensures !Suits(idts, tracked, count, b)
    {
      if b >= base {
        assert LastOf(b, count) > LAST;
      }
    }
  }

  class VectorTable {
    const granted: set<int>
    const idts: array<Idt>
    const table: array<int>
    const runs: array<Run>
    var tracked: nat
    ghost var lines: map<int, nat>

    ghost function View(): Books
      reads this, idts, table, runs
      requires idts.Length > 0
    {
      Books(idts[0].used, table[..], runs[..], lines)
    }

    ghost predicate Valid()
      reads this, idts, table, runs
    {
      && idts.Length == MAX_PROCESSORS && table.Length == MAX_GSIV && runs.Length == MAX_RUNS
      && 0 < tracked <= MAX_PROCESSORS && idts[0].valid
      && Exclusive(granted, View())
    }

    /** UacpiNtSeedExistingProcessors on fresh tables. */
    constructor (granted: set<int>, processors: nat)
      requires 0 < processors <= MAX_PROCESSORS
      ensures Valid() && fresh(idts) && fresh(table) && fresh(runs)
      ensures this.granted == granted && tracked == processors && lines == map[]
      ensures forall i :: 0 <= i < MAX_RUNS ==> !runs[i].Live()
    {
      this.granted := granted;
      idts := new Idt[MAX_PROCESSORS](_ => Idt(false, []));
      table := new int[MAX_GSIV](_ => 0);
      runs := new Run[MAX_RUNS](_ => NO_RUN);
      tracked := processors;
      lines := map[];
      new;
      hide Exclusive, Scattered, Uses, Seeded;
      var used := SeedIdt(granted);
      FreshBooks(granted, used, table[..], runs[..]);
      idts[0] := Idt(true, used);
      SeedOthers(processors);
    }

    method SeedOthers(processors: nat)
      requires 0 < processors <= idts.Length
      modifies idts
      ensures idts[0] == old(idts[0])
    {
      for p := 1 to processors
        invariant idts[0] == old(idts[0])
      {
        var used := SeedIdt(granted);
        idts[p] := Idt(true, used);
      }
    }

    method FreeEverywhere(v: u32) returns (free: bool)
      requires tracked <= idts.Length
      ensures free <==> FreeOn(idts[..], tracked, v)
    {
      for p := 0 to tracked
        invariant forall q :: 0 <= q < p && idts[q].valid ==> !Uses(idts[q].used, v)
      {
        if idts[p].valid && Uses(idts[p].used, v) {
          assert idts[..][p] == idts[p];
          return false;
        }
      }
      assert forall q :: 0 <= q < tracked ==> idts[..][q] == idts[q];
      return true;
    }

    method ClaimVectors(r: VectorRange)
      requires tracked <= idts.Length
      modifies idts
      ensures forall p :: 0 <= p < idts.Length ==>
                idts[p] == if p < tracked then ClaimedOn(old(idts[p]), r) else old(idts[p])
    {
      for p := 0 to tracked
        invariant forall q :: 0 <= q < idts.Length ==>
                  idts[q] == if q < p then ClaimedOn(old(idts[q]), r) else old(idts[q])
      {
        idts[p] := ClaimedOn(idts[p], r);
      }
    }

    /** UacpiNtApicFreeVectorRange. */
    method FreeVectors(r: VectorRange)
      requires tracked <= idts.Length
      modifies idts
      ensures forall p :: 0 <= p < idts.Length ==>
                idts[p] == if p < tracked then FreedOn(old(idts[p]), r) else old(idts[p])
    {
      for p := 0 to tracked
        invariant forall q :: 0 <= q < idts.Length ==>
                  idts[q] == if q < p then FreedOn(old(idts[q]), r) else old(idts[q])
      {
        idts[p] := FreedOn(idts[p], r);
      }
    }

    /** The lowest vector of the band that is free everywhere. */
    method FirstFree() returns (vector: Option<u32>)
      requires tracked <= idts.Length
      ensures vector.Some? ==>
                && FIRST <= vector.value <= LAST && FreeOn(idts[..], tracked, vector.value)
                && (forall v :: FIRST <= v < vector.value ==> !FreeOn(idts[..], tracked, v))
      ensures vector.None? ==> forall v :: FIRST <= v <= LAST ==> !FreeOn(idts[..], tracked, v)
    {
      var candidate := FIRST;
      while candidate <= LAST
        invariant FIRST <= candidate <= LAST + 1
        invariant forall v :: FIRST <= v < candidate ==> !FreeOn(idts[..], tracked, v)
      {
        var free := FreeEverywhere(candidate);
        if free {
          return Some(candidate);
        }
        candidate := candidate + 1;
      }
      return None;
    }

    /** UacpiNtApicAllocateVector: first fit for one line, remembered below GSIV 256. */
    method AllocateLine(gsiv: u32) returns (vector: Option<u32>)
      requires Valid()
      modifies this`lines, idts, table
      ensures Valid()
      // A line that is known keeps its vector.
      ensures gsiv < MAX_GSIV && old(table[gsiv]) != 0 ==>
                && vector == Some(old(table[gsiv]))
                && lines == old(lines) && idts[..] == old(idts[..]) && table[..] == old(table[..])
      // A new one gets the lowest vector that is free on every tracked processor.
      ensures !(gsiv < MAX_GSIV && old(table[gsiv]) != 0) && vector.Some? ==>
                && FIRST <= vector.value <= LAST && FreeOn(old(idts[..]), tracked, vector.value)
                && (forall v :: FIRST <= v < vector.value ==> !FreeOn(old(idts[..]), tracked, v))
                && vector.value !in old(lines) && lines == old(lines)[vector.value := gsiv]
                && table[..] == if gsiv < MAX_GSIV then old(table[..])[gsiv := vector.value] else old(table[..])
      ensures vector.None? ==>
                && (forall v :: FIRST <= v <= LAST ==> !FreeOn(old(idts[..]), tracked, v))
                && lines == old(lines) && idts[..] == old(idts[..]) && table[..] == old(table[..])
    {
      hide Exclusive, FreeOn;
      ghost var b := View();
      if gsiv < MAX_GSIV && table[gsiv] != 0 {
        TableIsBand(granted, b, gsiv);
        return Some(table[gsiv]);
      }
      vector := FirstFree();
      assert idts[..] == old(idts[..]);
      if vector.Some? {
        var v := vector.value;
        var r := VectorRange(v, v, Wrap32(gsiv + 1));
        FreeOnFirst(idts[..], tracked, v);
        assert idts[..][0] == idts[0];
        LineAdded(granted, b, gsiv, v);
        FreeIsNoLine(granted, b, v);
        ClaimVectors(r);
        if gsiv < MAX_GSIV {
          table[gsiv] := v;
        }
        lines := lines[v := gsiv];
        assert table[..] == if gsiv < MAX_GSIV then b.table[gsiv := v] else b.table;
        assert View() == Books(Added(b.used, r), table[..], b.runs, b.lines[v := gsiv]);
      }
    }

    /** The whole run is free on every tracked processor. */
    method RunIsFree(base: u32, count: u32) returns (free: bool)
      requires tracked <= idts.Length
      ensures free <==> AllFree(idts[..], tracked, base, count)
    {
      var offset := 0;
      while offset < count
        invariant 0 <= offset <= count
        invariant forall o :: 0 <= o < offset ==> FreeAt(idts[..], tracked, base, o)
      {
        free := FreeEverywhere(Wrap32(base + offset));
        if !free {
          assert !FreeAt(idts[..], tracked, base, offset);
          return false;
        }
        offset := offset + 1;
      }
      return true;
    }

    /** The lowest suitable base, searched in 32-bit arithmetic. */
    method FindRun(count: u32) returns (base: Option<u32>)
      requires count > 0 && tracked <= idts.Length
      ensures base.Some? ==> Lowest(idts[..], tracked, count, base.value)
      ensures base.None? ==> NoneSuits(idts[..], tracked, count)
    {
      hide PowerOfTwo, AlignmentOf, FirstAligned, FreeOn, Suits, Wrap32;
      ghost var all := idts[..];
      var alignment := AlignmentOf(count);
      AlignmentIsSmall(count);
      FirstAlignedIsLowest(alignment);
      SuitsIsAligned(all, tracked, count);
      var candidate := FirstAligned(alignment);
      FirstWindow(alignment, count);
      while Wrap32(candidate + count - 1) <= LAST
        invariant FIRST <= candidate < TWO_32 && candidate % alignment == 0
        invariant Wrap32(candidate + count - 1) == LastOf(candidate, count)
        invariant alignment <= LastOf(candidate, count) + 1
        invariant idts[..] == all
        invariant NoneBelow(all, tracked, count, candidate)
        decreases LAST + 1 - LastOf(candidate, count)
      {
        var free := RunIsFree(candidate, count);
        FreeRunSuits(all, tracked, count, candidate, free);
        if free {
          return Some(candidate);
        }
        NoneBelowNext(all, tracked, count, candidate);
        WrapAdds(candidate + count - 1, alignment);
        candidate := candidate + alignment;
      }
      NoneAbove(all, tracked, count, candidate);
      return None;
    }

    /** UacpiNtApicAllocateVectorRange. */
    method AllocateRange(count: u32) returns (base: Option<u32>)
      requires Valid() && count > 0
      modifies idts
      ensures base.Some? ==> Lowest(old(idts[..]), tracked, count, base.value)
      ensures base.None? ==> NoneSuits(old(idts[..]), tracked, count) && idts[..] == old(idts[..])
      ensures base.Some? ==>
                idts[0] == ClaimedOn(old(idts[0]), VectorRange(base.value, Low32(base.value + count - 1), MSI_OWNER))
    {
      hide NoneSuits, Exclusive, NoneBelow, FreeOn;
      ghost var all := idts[..];
      assert all[0] == idts[0];
      base := FindRun(count);
      if base.Some? {
        ClaimVectors(VectorRange(base.value, Low32(base.value + count - 1), MSI_OWNER));
      }
    }

    /** Allocates a run and records it in a free slot. */
    method Place(slot: nat, owner: nat, gsiv: u32, count: u32, claimed: bool) returns (base: Option<u32>)
      requires Valid() && slot < MAX_RUNS && !runs[slot].Live() && owner != 0 && count > 0
      modifies idts, runs
      ensures Valid()
      ensures base.Some? ==>
                && Lowest(old(idts[..]), tracked, count, base.value)
                && runs[..] == old(runs[..])[slot := Run(owner, gsiv, base.value, count, claimed)]
                && (Uses(idts[0].used, base.value) <==> Unwrapped(count))
      ensures base.None? ==>
                && NoneSuits(old(idts[..]), tracked, count)
                && idts[..] == old(idts[..]) && runs[..] == old(runs[..])
    {
      hide Exclusive, Suits, NoneBelow, Uses;
      ghost var b, all := View(), idts[..];
      base := AllocateRange(count);
      if base.Some? {
        var run := Run(owner, gsiv, base.value, count, claimed);
        assert all[0].used == b.used;
        SuitsIsFree(all, tracked, count, base.value);
        RunRecorded(granted, b, slot, run);
        runs[slot] := run;
        assert View() == Books(Added(b.used, run.AsRange()), b.table, b.runs[slot := run], b.lines);
      }
    }

    /** The first keyed slot, and the first free slot before it. */
    method Scan(owner: nat, gsiv: u32, count: u32) returns (found: Option<nat>, free: Option<nat>)
      requires runs.Length == MAX_RUNS
      ensures found.Some? ==> found.value < MAX_RUNS && FirstKeyed(runs[..], owner, gsiv, count) == found.value
      ensures found.None? ==> FirstKeyed(runs[..], owner, gsiv, count) == MAX_RUNS
      ensures free.Some? ==> free.value < MAX_RUNS && !runs[free.value].Live()
      ensures found.None? ==> FirstVacant(runs[..]) == if free.Some? then free.value else MAX_RUNS
    {
      free := None;
      for i := 0 to MAX_RUNS
        invariant forall j :: 0 <= j < i ==> !runs[j].Keyed(owner, gsiv, count)
        invariant free.Some? ==> free.value < MAX_RUNS && !runs[free.value].Live()
        invariant free.Some? ==> forall j :: 0 <= j < free.value ==> runs[j].Live()
        invariant free.None? ==> forall j :: 0 <= j < i ==> runs[j].Live()
      {
        if runs[i].Keyed(owner, gsiv, count) {
          FirstKeyedIs(runs[..], owner, gsiv, count, i);
          return Some(i), free;
        }
        if free.None? && !runs[i].Live() {
          free := Some(i);
        }
      }
      FirstVacantIs(runs[..], if free.Some? then free.value else MAX_RUNS);
      return None, free;
    }

    /**
    UacpiNtIrqLibResolveMessageVector: a known run is found again, a new one is
    allocated, if need be degraded to one vector.
    */
    method Resolve(owner: nat, gsiv: u32, requested: u32) returns (base: Option<u32>)
      requires Valid() && owner != 0
      modifies idts, runs
      ensures Valid()
      // A key that is known is answered without a change.
      ensures var known := Known(old(runs[..]), owner, gsiv, AtLeastOne(requested));
              known.Some? ==> base == known && idts[..] == old(idts[..]) && runs[..] == old(runs[..])
      // A new run has the lowest base for its full count, or, when there is none, for a single vector.
      ensures var count := AtLeastOne(requested);
              Known(old(runs[..]), owner, gsiv, count).None? && base.Some? ==>
                var slot := FirstVacant(old(runs[..]));
                var got := if NoneSuits(old(idts[..]), tracked, count) then 1 else count;
                && slot < MAX_RUNS && Lowest(old(idts[..]), tracked, got, base.value)
                && runs[..] == old(runs[..])[slot := Run(owner, gsiv, base.value, got, false)]
                // Its base is now in use, unless the run wraps.
                && (Uses(idts[0].used, base.value) <==> Unwrapped(got))
      // It fails for want of a slot or of any free vector, and then changes nothing.
      ensures var count := AtLeastOne(requested);
              base.None? <==>
                && Known(old(runs[..]), owner, gsiv, count).None?
                && (|| FirstVacant(old(runs[..])) == MAX_RUNS
                    || (NoneSuits(old(idts[..]), tracked, count) && NoneSuits(old(idts[..]), tracked, 1)))
      ensures base.None? ==> idts[..] == old(idts[..]) && runs[..] == old(runs[..])
      // Repeated, it finds its run again, unless the run was degraded.
      ensures var count := AtLeastOne(requested);
              base.Some? ==>
                Known(runs[..], owner, gsiv, count) ==
                if Known(old(runs[..]), owner, gsiv, count).None? && NoneSuits(old(idts[..]), tracked, count)
                then None else base
      // A single vector known under the same key is lost exactly when a degraded run goes into a slot before it.
      ensures Known(old(runs[..]), owner, gsiv, 1).Some? ==>
                (Known(runs[..], owner, gsiv, 1) != Known(old(runs[..]), owner, gsiv, 1) <==>
                 Shadows(old(runs[..]), old(idts[..]), tracked, owner, gsiv, AtLeastOne(requested)))
      ensures OtherKeysKept(old(runs[..]), runs[..], owner, gsiv)
    {
      hide Exclusive, Suits, NoneBelow, FirstKeyed, FirstVacant;
      var count := AtLeastOne(requested);
      var found, free := Scan(owner, gsiv, count);
      if found.Some? {
        RunIsBand(granted, View(), found.value);
        return Some(runs[found.value].base);
      }
      if free.None? {
        return None;
      }
      var slot := free.value;
      ghost var b, all := View(), idts[..];
      assert all[0] == idts[0];
      base := PlaceOrDegrade(slot, owner, gsiv, count);
      if base.Some? {
        AfterResolve(granted, b, all, tracked, owner, gsiv, count, base.value);
      }
    }

    /** A run of the full count or else of one vector. */
    method PlaceOrDegrade(slot: nat, owner: nat, gsiv: u32, count: u32) returns (base: Option<u32>)
      requires Valid() && slot < MAX_RUNS && !runs[slot].Live() && owner != 0 && count > 0
      modifies idts, runs
      ensures Valid()
      ensures base.None? <==> NoneSuits(old(idts[..]), tracked, count) && NoneSuits(old(idts[..]), tracked, 1)
      ensures base.None? ==> idts[..] == old(idts[..]) && runs[..] == old(runs[..])
      ensures base.Some? ==>
                var got := if NoneSuits(old(idts[..]), tracked, count) then 1 else count;
                && Lowest(old(idts[..]), tracked, got, base.value)
                && runs[..] == old(runs[..])[slot := Run(owner, gsiv, base.value, got, false)]
                && (Uses(idts[0].used, base.value) <==> Unwrapped(got))
    {
      hide Exclusive, Suits, NoneBelow;
      base := Place(slot, owner, gsiv, count, false);
      if base.None? && count > 1 {
        base := Place(slot, owner, gsiv, 1, false);
      }
    }

    /** The same resolve twice: the second answer is the first one again exactly if the first was not degraded. */
    method ResolveTwice(owner: nat, gsiv: u32, requested: u32) returns (first: Option<u32>, second: Option<u32>)
      requires Valid() && owner != 0
      modifies idts, runs
      ensures Valid()
      ensures first.Some? && second.Some? ==>
                var count := AtLeastOne(requested);
                (first == second <==>
                 Known(old(runs[..]), owner, gsiv, count).Some? || !NoneSuits(old(idts[..]), tracked, count))
    {
      hide Exclusive, Suits, NoneBelow, FirstKeyed, FirstVacant;
      first := Resolve(owner, gsiv, requested);
      ghost var b, all := View(), idts[..];
      assert all[0] == idts[0];
      second := Resolve(owner, gsiv, requested);
      if second.Some? && Known(b.runs, owner, gsiv, AtLeastOne(requested)).None? {
        ghost var got := if NoneSuits(all, tracked, AtLeastOne(requested)) then 1 else AtLeastOne(requested);
        SuitsIsFree(all, tracked, got, second.value);
      }
    }

    /** The lowest unclaimed run of an owner with this count, and the first free slot. */
    method LowestUnclaimed(owner: nat, count: u32) returns (best: Option<nat>, free: Option<nat>)
      requires Valid() && owner != 0
      ensures best.Some? ==> best.value < MAX_RUNS && Claimable(runs[best.value], owner, count)
      ensures best.Some? ==>
                forall i :: 0 <= i < MAX_RUNS && Claimable(runs[i], owner, count) ==>
                          runs[best.value].base <= runs[i].base
      ensures best.None? ==> forall i :: 0 <= i < MAX_RUNS ==> !Claimable(runs[i], owner, count)
      ensures free.Some? ==> free.value < MAX_RUNS && !runs[free.value].Live()
      ensures FirstVacant(runs[..]) == if free.Some? then free.value else MAX_RUNS
    {
      hide Claimable, Exclusive;
      best, free := None, None;
      for i := 0 to MAX_RUNS
        invariant best.Some? ==> best.value < i && Claimable(runs[best.value], owner, count)
        invariant best.Some? ==>
                    forall j :: 0 <= j < i && Claimable(runs[j], owner, count) ==> runs[best.value].base <= runs[j].base
        invariant best.None? ==> forall j :: 0 <= j < i ==> !Claimable(runs[j], owner, count)
        invariant free.Some? ==> free.value < i && !runs[free.value].Live()
        invariant free.Some? ==> forall j :: 0 <= j < free.value ==> runs[j].Live()
        invariant free.None? ==> forall j :: 0 <= j < i ==> runs[j].Live()
      {
        if Claimable(runs[i], owner, count) && (best.None? || runs[i].base < runs[best.value].base) {
          best := Some(i);
        }
        if free.None? && !runs[i].Live() {
          free := Some(i);
        }
      }
      FirstVacantIs(runs[..], if free.Some? then free.value else MAX_RUNS);
    }

    /** UacpiNtHalAllocateMessageTargetOverride: claims an arbiter placed run, or places one for the HAL. */
    method HalClaim(owner: nat, requested: u32) returns (base: Option<u32>)
      requires Valid() && owner != 0
      modifies idts, runs
      ensures Valid()
      // The owner's lowest unclaimed run of that count is claimed, and nothing else changes.
      ensures var count := AtLeastOne(requested);
              (exists i :: 0 <= i < MAX_RUNS && Claimable(old(runs[..])[i], owner, count)) ==>
                exists i ::
                  && 0 <= i < MAX_RUNS && Claimable(old(runs[..])[i], owner, count)
                  && (forall j :: 0 <= j < MAX_RUNS && Claimable(old(runs[..])[j], owner, count) ==>
                                    old(runs[..])[i].base <= old(runs[..])[j].base)
                  && base == Some(old(runs[..])[i].base) && idts[..] == old(idts[..])
                  && runs[..] == old(runs[..])[i := old(runs[..])[i].(claimed := true)]
      // Without one a new run is placed at the lowest base.
      ensures var count := AtLeastOne(requested);
              (forall i :: 0 <= i < MAX_RUNS ==> !Claimable(old(runs[..])[i], owner, count)) && base.Some? ==>
                var slot := FirstVacant(old(runs[..]));
                && slot < MAX_RUNS && Lowest(old(idts[..]), tracked, count, base.value)
                && runs[..] == old(runs[..])[slot := Run(owner, 0, base.value, count, true)]
                && (Uses(idts[0].used, base.value) <==> Unwrapped(count))
      ensures base.None? ==>
                && idts[..] == old(idts[..]) && runs[..] == old(runs[..])
                && (FirstVacant(runs[..]) == MAX_RUNS || NoneSuits(idts[..], tracked, AtLeastOne(requested)))
      ensures StillKnown(old(runs[..]), runs[..])
    {
      hide Exclusive, Suits, NoneBelow, FirstKeyed, FirstVacant;
      var count := AtLeastOne(requested);
      ghost var before, b := runs[..], View();
      var best, free := LowestUnclaimed(owner, count);
      if best.Some? {
        var i := best.value;
        assert before[i] == runs[i];
        RunFlagged(granted, b, i, true);
        RunIsBand(granted, b, i);
        FlagKeepsKnown(before, i, true);
        runs[i] := runs[i].(claimed := true);
        assert runs[..] == before[i := before[i].(claimed := true)];
        assert View() == b.(runs := before[i := before[i].(claimed := true)]);
        return Some(runs[i].base);
      }
      if free.None? {
        return None;
      }
      base := Place(free.value, owner, 0, count, true);
      if base.Some? {
        NewKeyKeepsKnown(before, free.value, Run(owner, 0, base.value, count, true));
      }
    }

    /** UacpiNtHalFreeMessageTargetOverride: arbiter placed runs persist, HAL placed ones are freed. */
    method HalFree(owner: nat, vector: u32)
      requires Valid() && owner != 0
      modifies idts, runs
      ensures Valid()
      ensures (forall i :: 0 <= i < MAX_RUNS ==>
                !(old(runs[..])[i].owner == owner && old(runs[..])[i].Holds(vector))) ==>
                runs[..] == old(runs[..]) && idts[..] == old(idts[..])
      ensures forall i :: 0 <= i < MAX_RUNS && old(runs[..])[i].owner == owner && old(runs[..])[i].Holds(vector) ==>
                            var run := old(runs[..])[i];
                            runs[..] == old(runs[..])[i := if run.gsiv == 0 then NO_RUN else run.(claimed := false)]
      ensures StillKnown(old(runs[..]), runs[..])
    {
      hide Exclusive, FirstKeyed;
      ghost var before, b := runs[..], View();
      for i := 0 to MAX_RUNS
        invariant unchanged(idts) && unchanged(runs) && Valid()
        invariant forall j :: 0 <= j < i ==> !(runs[j].owner == owner && runs[j].Holds(vector))
      {
        var run := runs[i];
        if run.owner == owner && run.Holds(vector) {
          assert before[i] == run;
          OnlyOneHolds(granted, b, i, vector);
          if run.gsiv == 0 {
            RunDropped(granted, b, i);
            FreeVectors(run.AsRange());
            runs[i] := NO_RUN;
            assert runs[..] == before[i := NO_RUN];
            assert View() == b.(used := Deleted(b.used, run.AsRange()), runs := before[i := NO_RUN]);
            NewKeyKeepsKnown(before, i, NO_RUN);
          } else {
            RunFlagged(granted, b, i, false);
            FlagKeepsKnown(before, i, false);
            runs[i] := run.(claimed := false);
            assert runs[..] == before[i := before[i].(claimed := false)];
            assert View() == b.(runs := before[i := before[i].(claimed := false)]);
          }
          return;
        }
      }
    }

    /** UacpiNtProcessorChangeCallback: a hot-added processor starts from a fresh seed that lists no earlier claim. */
    method AddProcessor(processor: nat)
      requires Valid()
      modifies this`tracked, idts
      ensures Valid() && idts[0] == old(idts[0])
      ensures processor < MAX_PROCESSORS && !old(idts[..])[processor].valid ==>
                && idts[processor].valid
                && (forall v :: Uses(idts[processor].used, v) <==> Seeded(granted, v))
                && tracked == Max(old(tracked), processor + 1)
      ensures forall p :: 0 <= p < MAX_PROCESSORS && (p != processor || old(idts[..])[p].valid) ==>
                idts[p] == old(idts[..])[p]
    {
      if processor < MAX_PROCESSORS && !idts[processor].valid {
        var used := SeedIdt(granted);
        idts[processor] := Idt(true, used);
        tracked := Max(tracked, processor + 1);
      }
    }

    /** UacpiNtHalGetVectorInputOverride. */
    method GetVectorInput(vector: u32) returns (input: Input)
      requires Valid()
      // The exact inverse of the line table.
      ensures input.Line? <==> vector != 0 && vector in table[..]
      ensures forall g :: 0 <= g < MAX_GSIV && vector != 0 ==> (input == Line(g) <==> table[g] == vector)
      // A message vector is never reported as a line.
      ensures input.Message? <==> InRun(runs[..], vector)
      ensures input.NotOurs? ==> vector !in table[..] && !InRun(runs[..], vector)
      ensures input.Invalid? <==> vector == 0
    {
      TableAndRunsApart(granted, View());
      if vector == 0 {
        return Invalid;
      }
      for g := 0 to MAX_GSIV
        invariant forall h :: 0 <= h < g ==> table[h] != vector
      {
        if table[g] == vector {
          return Line(g);
        }
      }
      for i := 0 to MAX_RUNS
        invariant forall j :: 0 <= j < i ==> !(runs[j].Live() && runs[j].Holds(vector))
      {
        var run := runs[i];
        if run.Live() && run.count != 0 && run.Holds(vector) {
          assert runs[..][i] == run;
          return Message;
        }
      }
      return NotOurs;
    }
  }

  /** With one processor, what is neither kept by the HAL nor held by a line or a run can be had. */
  lemma OneProcessorSuits(granted: set<int>, b: Books, idts: seq<Idt>, v: int)
    requires Exclusive(granted, b) && |idts| > 0 && idts[0].valid && idts[0].used == b.used
    requires FIRST <= v <= LAST && !Seeded(granted, v) && v !in b.lines && !InRun(b.runs, v)
    ensures Suits(idts, 1, 1, v) && !NoneSuits(idts, 1, 1)
  {
    assert !Uses(b.used, v);
    assert FreeOn(idts, 1, v);
  }

  /** No run that does not wrap is longer than the band. */
  lemma BandIsShort(idts: seq<Idt>, tracked: nat, count: nat)
    requires tracked <= |idts| && count > LAST - FIRST + 1 && Unwrapped(count)
    ensures NoneSuits(idts, tracked, count)
  {
  }

  lemma OneIsInBand(idts: seq<Idt>, tracked: nat, base: int)
    requires tracked <= |idts| && Lowest(idts, tracked, 1, base)
    ensures FIRST <= base <= LAST
  {
  }

  /** No slot but the given one is live. */
  predicate Alone(runs: seq<Run>, slot: nat) {
    forall i :: 0 <= i < |runs| && i != slot ==> !runs[i].Live()
  }

  /** Beside a single vector there is another one. */
  lemma RoomBesideOne(b: Books, idts: seq<Idt>, slot: nat)
    requires Exclusive({}, b) && |idts| > 0 && idts[0].valid && idts[0].used == b.used && b.lines == map[]
    requires slot < |b.runs| && Alone(b.runs, slot) && (b.runs[slot].Live() ==> b.runs[slot].count == 1)
    ensures !NoneSuits(idts, 1, 1)
  {
    hide Exclusive, Suits;
    OneProcessorSuits({}, b, idts, if b.runs[slot].base == FIRST then FIRST + 1 else FIRST);
  }

  lemma FirstSlots(runs: seq<Run>, slot: nat, owner: nat, gsiv: u32)
    requires |runs| == MAX_RUNS && slot <= 1 && Alone(runs, slot) && owner != 0
    ensures !runs[slot].Live() ==> FirstVacant(runs) == 0
    ensures runs[slot].Live() ==> FirstVacant(runs) == 1 - slot
    ensures forall count: nat | !runs[slot].Keyed(owner, gsiv, count) :: Known(runs, owner, gsiv, count) == None
    ensures forall count: nat | runs[slot].Keyed(owner, gsiv, count) ::
              FirstKeyed(runs, owner, gsiv, count) == slot && Known(runs, owner, gsiv, count) == Some(runs[slot].base)
  {
    FirstVacantIs(runs, if runs[slot].Live() then 1 - slot else 0);
    forall count: nat | runs[slot].Keyed(owner, gsiv, count)
      ensures FirstKeyed(runs, owner, gsiv, count) == slot
    {
      FirstKeyedIs(runs, owner, gsiv, count, slot);
    }
  }

  /** A full-size table whose second slot alone is taken: the HAL held the first one for a while. */
  method AfterHalLetGo(owner: nat, gsiv: u32) returns (t: VectorTable, first: Option<u32>)
    requires owner != 0
    ensures t.Valid() && fresh(t) && fresh(t.idts) && fresh(t.runs)
    ensures t.granted == {} && t.tracked == 1 && t.lines == map[]
    ensures first.Some? && Alone(t.runs[..], 1) && t.runs[1] == Run(owner, gsiv, first.value, 1, false)
  {
    hide Exclusive, Suits, Lowest, FirstKeyed, FirstVacant, NoneSuits, OtherKeysKept;
    var hal := owner + 1;
    t := new VectorTable({}, 1);
    FirstSlots(t.runs[..], 0, hal, 0);
    RoomBesideOne(t.View(), t.idts[..], 0);
    ghost var all := t.idts[..];
    var held := t.HalClaim(hal, 1);
    OneIsInBand(all, 1, held.value);

    FirstSlots(t.runs[..], 0, owner, gsiv);
    RoomBesideOne(t.View(), t.idts[..], 0);
    ghost var halRun := t.runs[..];
    first := t.Resolve(owner, gsiv, 1);

    assert t.runs[..] == halRun[1 := Run(owner, gsiv, first.value, 1, false)];
    assert t.runs[..][0] == Run(hal, 0, held.value, 1, true);
    t.HalFree(hal, held.value);
    assert t.runs[..][1] == Run(owner, gsiv, first.value, 1, false);
  }

  /**
  The same resolve is answered twice and differently: in between, a request for
  more vectors than the band has is degraded into the slot the HAL let go.
  */
  method SingleVectorIsLost(owner: nat, gsiv: u32) returns (first: Option<u32>, again: Option<u32>)
    requires owner != 0
    ensures first.Some? && again.Some? && first != again
  {
    hide Exclusive, Suits, Lowest, FirstKeyed, FirstVacant, NoneSuits, OtherKeysKept;
    var t;
    t, first := AfterHalLetGo(owner, gsiv);
    ghost var before := t.runs[..];
    FirstSlots(before, 1, owner, gsiv);
    RoomBesideOne(t.View(), t.idts[..], 1);
    BandIsShort(t.idts[..], 1, LAST - FIRST + 2);
    var degraded := t.Resolve(owner, gsiv, LAST - FIRST + 2);
    assert t.runs[..] == before[0 := Run(owner, gsiv, degraded.value, 1, false)];
    DegradedKey(before, 0, Run(owner, gsiv, degraded.value, 1, false));
    again := t.Resolve(owner, gsiv, 1);
  }

  /** A HAL that gives vector 0 away along with the band and everything above it. */
  predicate ZeroAndBand(granted: set<int>) {
    0 in granted && forall v :: FIRST <= v <= MAX_VECTOR ==> v in granted
  }

  const WRAPPING: u32 := TWO_32 - FIRST + 1

  /** Then a run of nearly 2^32 vectors passes for free: it ends at vector 0. */
  lemma WrappedRunSuits(granted: set<int>, b: Books, idts: seq<Idt>)
    requires ZeroAndBand(granted) && Exclusive(granted, b) && |idts| > 0 && idts[0].valid && idts[0].used == b.used
    requires b.lines == map[] && forall i :: 0 <= i < |b.runs| ==> !b.runs[i].Live()
    ensures Suits(idts, 1, WRAPPING, FIRST) && !NoneSuits(idts, 1, WRAPPING)
  {
    AlignmentOfWrapping();
    forall v | Spans(FIRST, WRAPPING, v)
      ensures FreeOn(idts, 1, v)
    {
      assert v == 0 || FIRST <= v;
      assert !Uses(b.used, v);
    }
  }

  lemma AlignmentOfWrapping()
    ensures AlignmentOf(WRAPPING) == 1
  {
    if PowerOfTwo(WRAPPING) {
      AlignmentIsSmall(WRAPPING);
    }
  }

  /**
  The resolve succeeds, but the range it claims runs backwards and is refused,
  so the next line is given the very vector the run begins at.
  */
  method WrappedRunIsNotClaimed(granted: set<int>, owner: nat, gsiv: u32, line: u32)
    returns (base: Option<u32>, vector: Option<u32>)
    requires ZeroAndBand(granted) && owner != 0
    ensures base == vector == Some(FIRST)
  {
    hide Exclusive, Suits, FirstKeyed, FirstVacant, NoneSuits, OtherKeysKept, FreeOn, ZeroAndBand;
    var t := new VectorTable(granted, 1);
    FirstSlots(t.runs[..], 0, owner, gsiv);
    ghost var all := t.idts[..];
    WrappedRunSuits(granted, t.View(), all);
    base := t.Resolve(owner, gsiv, WRAPPING);
    FirstIsLowest(all, WRAPPING, base.value);
    OneProcessorIsFree(t.idts[..], FIRST);
    NoLines(t.granted, t.View());
    vector := t.AllocateLine(line);
  }

  lemma FirstIsLowest(idts: seq<Idt>, count: nat, base: int)
    requires |idts| > 0 && count > 0 && Suits(idts, 1, count, FIRST) && Lowest(idts, 1, count, base)
    ensures base == FIRST
  {
  }

  lemma OneProcessorIsFree(idts: seq<Idt>, v: int)
    requires |idts| > 0 && !Uses(idts[0].used, v)
    ensures FreeOn(idts, 1, v)
  {
  }

  lemma NoLines(granted: set<int>, b: Books)
    requires Exclusive(granted, b) && b.lines == map[]
    ensures |b.table| == MAX_GSIV && forall g :: 0 <= g < MAX_GSIV ==> b.table[g] == 0
  {
  }

  lemma FreshBooks(granted: set<int>, used: seq<VectorRange>, table: seq<int>, runs: seq<Run>)
    requires Scattered(used) && forall v :: Uses(used, v) <==> Seeded(granted, v)
    requires |table| == MAX_GSIV && forall g :: 0 <= g < MAX_GSIV ==> table[g] == 0
    requires forall i :: 0 <= i < |runs| ==> !runs[i].Live()
    ensures Exclusive(granted, Books(used, table, runs, map[]))
  {
  }

  ghost predicate NoneSuits(idts: seq<Idt>, tracked: nat, count: nat)
    requires tracked <= |idts| && count > 0
  {
    forall b :: !Suits(idts, tracked, count, b)
  }

  /**
  A resolve that costs a known single vector its key: it asks for more than one
  vector, no such run is known or can be had, a single vector can, and the first
  free slot comes before the slot the single vector is known from.
  */
  ghost predicate Shadows(runs: seq<Run>, idts: seq<Idt>, tracked: nat, owner: nat, gsiv: u32, count: u32)
    requires tracked <= |idts| && count > 0
  {
    && count > 1 && Known(runs, owner, gsiv, count).None?
    && NoneSuits(idts, tracked, count) && !NoneSuits(idts, tracked, 1)
    && FirstVacant(runs) < FirstKeyed(runs, owner, gsiv, 1) < |runs|
  }

  /** What the keys find once a new run has been recorded. */
  lemma AfterResolve(granted: set<int>, b: Books, idts: seq<Idt>, tracked: nat, owner: nat, gsiv: u32, count: u32,
                     base: u32)
    requires Exclusive(granted, b) && 0 < tracked <= |idts| && idts[0].valid && idts[0].used == b.used
    requires owner != 0 && count > 0 && Known(b.runs, owner, gsiv, count).None?
    requires FirstVacant(b.runs) < |b.runs|
    requires Suits(idts, tracked, if NoneSuits(idts, tracked, count) then 1 else count, base)
    ensures var got := if NoneSuits(idts, tracked, count) then 1 else count;
            var after := b.runs[FirstVacant(b.runs) := Run(owner, gsiv, base, got, false)];
            && Known(after, owner, gsiv, count) == (if NoneSuits(idts, tracked, count) then None else Some(base))
            && (Known(b.runs, owner, gsiv, 1).Some? ==>
                  (Known(after, owner, gsiv, 1) != Known(b.runs, owner, gsiv, 1) <==>
                   Shadows(b.runs, idts, tracked, owner, gsiv, count)))
            && OtherKeysKept(b.runs, after, owner, gsiv)
  {
    hide Exclusive, Suits, FirstKeyed, FirstVacant;
    var got := if NoneSuits(idts, tracked, count) then 1 else count;
    var slot, run := FirstVacant(b.runs), Run(owner, gsiv, base, got, false);
    SuitsIsFree(idts, tracked, got, base);
    NewKeyFound(b.runs, slot, run, count);
    OtherKeysAre(b.runs, slot, run, count);
    if Known(b.runs, owner, gsiv, 1).Some? {
      KnownIsNotFree(granted, b, owner, gsiv, base);
      if got == 1 {
        DegradedKey(b.runs, slot, run);
      } else {
        KnownAfterUpdate(b.runs, slot, run, owner, gsiv, 1);
      }
    }
  }

  lemma NewKeyFound(before: seq<Run>, slot: nat, run: Run, count: nat)
    requires slot < |before| && !before[slot].Live() && run.Live() && Known(before, run.owner, run.gsiv, count).None?
    ensures Known(before[slot := run], run.owner, run.gsiv, count) ==
            if run.count == count then Some(run.base) else None
  {
    if run.count == count {
      FirstKeyedIs(before[slot := run], run.owner, run.gsiv, count, slot);
    }
  }

  lemma OtherKeysAre(before: seq<Run>, slot: nat, run: Run, count: nat)
    requires slot < |before| && !before[slot].Live() && Known(before, run.owner, run.gsiv, count).None?
    requires run.count == count || run.count == 1
    ensures OtherKeysKept(before, before[slot := run], run.owner, run.gsiv)
  {
    hide FirstKeyed;
    forall o: nat, g: u32, c: nat | o != 0 && Known(before, o, g, c).Some?
                                    && !(o == run.owner && g == run.gsiv && c == 1)
      ensures Known(before[slot := run], o, g, c) == Known(before, o, g, c)
    {
      KnownAfterUpdate(before, slot, run, o, g, c);
    }
  }

  /** A run of one vector takes over the key of the runs of one vector behind it, and of none before it. */
  lemma DegradedKey(before: seq<Run>, slot: nat, run: Run)
    requires slot < |before| && !before[slot].Live() && run.Live() && run.count == 1
    requires Known(before, run.owner, run.gsiv, 1).Some?
    ensures Known(before[slot := run], run.owner, run.gsiv, 1) ==
            if slot < FirstKeyed(before, run.owner, run.gsiv, 1) then Some(run.base)
            else Known(before, run.owner, run.gsiv, 1)
  {
    var k := FirstKeyed(before, run.owner, run.gsiv, 1);
    FirstKeyedIs(before[slot := run], run.owner, run.gsiv, 1, if slot < k then slot else k);
  }

  lemma KnownIsNotFree(granted: set<int>, b: Books, owner: nat, gsiv: u32, base: int)
    requires Exclusive(granted, b) && owner != 0 && !Uses(b.used, base)
    ensures Known(b.runs, owner, gsiv, 1) != Some(base)
  {
    var k := FirstKeyed(b.runs, owner, gsiv, 1);
    if k < |b.runs| {
      PlacedIsUsed(granted, b, k);
    }
  }

  lemma PlacedIsUsed(granted: set<int>, b: Books, i: nat)
    requires Exclusive(granted, b) && i < |b.runs| && b.runs[i].Live() && !b.runs[i].Wraps()
    ensures Uses(b.used, b.runs[i].base)
  {
    assert RunStands(granted, b.used, b.runs[i]);
    assert b.runs[i].Holds(b.runs[i].base);
    assert InRun(b.runs, b.runs[i].base);
  }

  /** Recording a run keeps the books; its base is in use exactly if it does not wrap. */
  lemma RunRecorded(granted: set<int>, b: Books, slot: nat, run: Run)
    requires Exclusive(granted, b) && slot < |b.runs| && !b.runs[slot].Live() && run.Live()
    requires 1 <= run.count < TWO_32 && FIRST <= run.base < TWO_32 && !Uses(b.used, run.base)
    requires Unwrapped(run.count) <==> !run.Wraps()
    requires Unwrapped(run.count) ==>
               run.base + run.count - 1 <= LAST && forall v :: run.Holds(v) ==> !Uses(b.used, v)
    ensures Exclusive(granted, Books(Added(b.used, run.AsRange()), b.table, b.runs[slot := run], b.lines))
    ensures Uses(Added(b.used, run.AsRange()), run.base) <==> Unwrapped(run.count)
  {
    hide Exclusive, Uses;
    if Unwrapped(run.count) {
      RunAdded(granted, b, slot, run);
      PlacedIsUsed(granted, Books(Added(b.used, run.AsRange()), b.table, b.runs[slot := run], b.lines), slot);
    } else {
      WrappedRunAdded(granted, b, slot, run);
    }
  }

  predicate Claimable(run: Run, owner: nat, count: nat) {
    run.owner == owner && run.count == count && !run.claimed
  }

  lemma SuitsIsFree(idts: seq<Idt>, tracked: nat, count: u32, base: u32)
    requires 0 < tracked <= |idts| && count > 0 && idts[0].valid
    requires Suits(idts, tracked, count, base)
    ensures FIRST <= base && !Uses(idts[0].used, base)
    ensures Unwrapped(count) <==> base + count <= TWO_32
    ensures Unwrapped(count) ==>
              base + count - 1 <= LAST && forall v :: base <= v < base + count ==> !Uses(idts[0].used, v)
  {
    assert Spans(base, count, base) && FreeOn(idts, tracked, base);
    forall v | Unwrapped(count) && base <= v < base + count
      ensures !Uses(idts[0].used, v)
    {
      assert Spans(base, count, v) && FreeOn(idts, tracked, v);
    }
  }

  lemma RunIsBand(granted: set<int>, b: Books, i: nat)
    requires Exclusive(granted, b) && i < |b.runs| && b.runs[i].Live()
    ensures FIRST <= b.runs[i].base < TWO_32
  {
  }

  lemma OnlyOneHolds(granted: set<int>, b: Books, i: nat, v: int)
    requires Exclusive(granted, b) && i < |b.runs| && b.runs[i].Live() && b.runs[i].Holds(v)
    ensures forall j :: 0 <= j < |b.runs| && b.runs[j].Live() && b.runs[j].Holds(v) ==> j == i
    ensures !b.runs[i].Wraps()
  {
  }

  lemma FlagKeepsKnown(before: seq<Run>, i: nat, claimed: bool)
    requires i < |before|
    ensures StillKnown(before, before[i := before[i].(claimed := claimed)])
  {
    hide FirstKeyed, Known;
    forall owner: nat, gsiv: u32, count: nat | owner != 0 && Known(before, owner, gsiv, count).Some?
      ensures Known(before[i := before[i].(claimed := claimed)], owner, gsiv, count)
           == Known(before, owner, gsiv, count)
    {
      KnownAfterUpdate(before, i, before[i].(claimed := claimed), owner, gsiv, count);
    }
  }

  /** A slot that is free or holds a HAL placed run can change hands between HAL placed runs. */
  lemma NewKeyKeepsKnown(before: seq<Run>, i: nat, run: Run)
    requires i < |before| && (!before[i].Live() || before[i].gsiv == 0)
    requires !run.Live() || run.gsiv == 0 || run.count == 1
    ensures StillKnown(before, before[i := run])
  {
    hide FirstKeyed, Known;
    forall owner: nat, gsiv: u32, count: nat | owner != 0 && gsiv != 0 && count > 1
                                               && Known(before, owner, gsiv, count).Some?
      ensures Known(before[i := run], owner, gsiv, count) == Known(before, owner, gsiv, count)
    {
      KnownAfterUpdate(before, i, run, owner, gsiv, count);
    }
  }

  lemma FreeOnFirst(idts: seq<Idt>, tracked: nat, v: int)
    requires 0 < tracked <= |idts| && idts[0].valid && FreeOn(idts, tracked, v)
    ensures !Uses(idts[0].used, v)
  {
  }

  lemma TableIsBand(granted: set<int>, b: Books, g: nat)
    requires Exclusive(granted, b) && g < MAX_GSIV && b.table[g] != 0
    ensures FIRST <= b.table[g] <= LAST
  {
  }

  lemma FreeIsNoLine(granted: set<int>, b: Books, v: int)
    requires Exclusive(granted, b) && !Uses(b.used, v)
    ensures v !in b.lines
  {
  }

  /** Table entries are distinct, in the band, and in no run; no run holds vector 0. */
  lemma TableAndRunsApart(granted: set<int>, b: Books)
    requires Exclusive(granted, b)
    ensures forall g, h :: 0 <= g < MAX_GSIV && 0 <= h < MAX_GSIV && b.table[g] == b.table[h] != 0 ==> g == h
    ensures forall g :: 0 <= g < MAX_GSIV && b.table[g] != 0 ==> !InRun(b.runs, b.table[g])
    ensures !InRun(b.runs, 0)
  {
  }
}
