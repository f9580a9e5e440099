/** The root arbiters' translation between descriptors and plain ranges. */
module Descriptors {
  import opened Words
  import opened ArbiterTypes

  /** UacpiNtResUnpackRequirement: minimum, maximum, length and alignment of a requirement. */
  function UnpackRequirement(d: IoDescriptor): (r: Option<(u64, u64, u64, u64)>) {
    match d.kind
    case Memory | MemoryLarge | Port =>
      Some((d.minimum, d.maximum, d.length, if d.alignment != 0 then d.alignment else 1))
    case BusNumber => Some((d.minimum, d.maximum, d.length, 1))
    case OtherResource => None
  }

  /** UacpiNtResPackResource: large memory is reported as memory, and a bus number keeps 32 bits. */
  function PackResource(d: IoDescriptor, start: u64): (r: Option<CmDescriptor>) {
    match d.kind
    case Memory | MemoryLarge => Some(CmDescriptor(Memory, start, d.length, d.share))
    case Port => Some(CmDescriptor(Port, start, d.length, d.share))
    case BusNumber => Some(CmDescriptor(BusNumber, start % TWO_32, d.length, d.share))
    case OtherResource => None
  }

  /** UacpiNtResUnpackResource: start and length of an assignment. */
  function UnpackResource(d: CmDescriptor): (r: Option<(u64, u64)>) {
    match d.kind
    case Memory | MemoryLarge | Port | BusNumber => Some((d.start, d.length))
    case OtherResource => None
  }

  /** The fields a descriptor can hold: bus numbers are 32 bits wide. */
  predicate WellFormed(d: IoDescriptor) {
    d.kind == BusNumber ==> d.maximum < TWO_32
  }

  /** An assignment unpacks to the start it was packed with and the length that was asked for. */
  lemma PackRoundTrip(d: IoDescriptor, start: u64)
    requires WellFormed(d) && start <= d.maximum
    ensures UnpackRequirement(d).Some? ==>
              && PackResource(d, start).Some?
              && UnpackResource(PackResource(d, start).value) == Some((start, UnpackRequirement(d).value.2))
  {
  }

  /** ArbpBuildAlternative. */
  function BuildAlternative(d: IoDescriptor): (a: Option<Alternative>)
    ensures a.Some? <==> UnpackRequirement(d).Some?
    ensures a.Some? ==>
              && UnpackRequirement(d) == Some((a.value.minimum, a.value.maximum, a.value.length, a.value.alignment))
              && a.value.descriptor == d && a.value.priority == 0
              && (a.value.shared <==> d.share == Shared)
              && (a.value.inaccessibleOk <==> d.inaccessibleOk && d.kind in {Memory, MemoryLarge})
    // A window that runs backwards is bad, and a good one is fixed if it holds the length in one place only.
    ensures a.Some? ==> (a.value.badRange <==> a.value.maximum < a.value.minimum)
    ensures a.Some? && !a.value.badRange && a.value.length != 0 ==>
              (a.value.fixed <==> a.value.maximum == a.value.minimum + a.value.length - 1)
  {
    var u := UnpackRequirement(d);
    if u.None? then None
    else
      var (minimum, maximum, length, alignment) := u.value;
      Some(Alternative(minimum, maximum, length, alignment, 0,
                       d.share == Shared,
                       Wrap64(maximum - minimum + 1) == length,
                       maximum < minimum,
                       d.kind in {Memory, MemoryLarge} && d.inaccessibleOk,
                       d))
  }

  const MAXLONG := 0x7FFF_FFFF

  /** UacpiNtResScoreRequirement: the number of placements, saturated; -1 for a requirement nothing can meet. */
  function ScoreRequirement(d: IoDescriptor): (score: int)
    ensures score >= 0 <==> BuildAlternative(d).Some? && !BuildAlternative(d).value.badRange
    ensures score >= 0 ==>
              var a := BuildAlternative(d).value; score == Min(MAXLONG, a.maximum - a.minimum + 1)
    ensures score < 0 ==> score == -1
  {
    var u := UnpackRequirement(d);
    if u.None? || u.value.1 < u.value.0 then -1
    else if u.value.1 - u.value.0 >= MAXLONG then MAXLONG
    else u.value.1 - u.value.0 + 1
  }
}
