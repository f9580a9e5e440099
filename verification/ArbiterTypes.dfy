/** The arbiter's requests: descriptors, list entries, alternatives and allocation states. */
module ArbiterTypes {
  import opened Words
  import opened RangeLists

  // ----- Descriptors -----

  datatype Share = DeviceExclusive | DriverExclusive | Shared

  /** The low bits of CM_RESOURCE_PORT_*: how many address lines an ISA card decodes. */
  datatype Decode = Full | TenBit | TwelveBit

  datatype Kind = Memory | MemoryLarge | Port | BusNumber | OtherResource

  /** IO_RESOURCE_DESCRIPTOR. Lengths and alignments are 32 bits wide on the wire. */
  datatype IoDescriptor = IoDescriptor(
    kind: Kind, minimum: u64, maximum: u64, length: u64, alignment: u64,
    share: Share, preferred: bool, decode: Decode, inaccessibleOk: bool)

  /** CM_PARTIAL_RESOURCE_DESCRIPTOR. */
  datatype CmDescriptor = CmDescriptor(kind: Kind, start: u64, length: u64, share: Share)

  // ----- Requests -----

  datatype Result = Untested | Succeeded | NullRequest | ExternalConflict

  /** ARBITER_LIST_ENTRY: one requirement of one device. */
  datatype Entry = Entry(
    device: Device, legacy: bool, bootConfig: bool, alternatives: seq<IoDescriptor>,
    workSpace: int, result: Result, selected: Option<IoDescriptor>,
    hasAssignment: bool, assignment: CmDescriptor)
  {
    /** Equal up to what a test writes back. */
    predicate SameRequest(other: Entry) {
      && device == other.device
      && legacy == other.legacy
      && bootConfig == other.bootConfig
      && hasAssignment == other.hasAssignment
      && alternatives == other.alternatives
      && workSpace == other.workSpace
    }
  }

  /** ARBITER_ALTERNATIVE. */
  datatype Alternative = Alternative(
    minimum: u64, maximum: u64, length: u64, alignment: u64, priority: int,
    shared: bool, fixed: bool, badRange: bool, inaccessibleOk: bool, descriptor: IoDescriptor)
  {
    /** The library reads a missing alignment as one. */
    function Step(): u64 {
      if alignment == 0 then 1 else alignment
    }

    predicate SameRequest(other: Alternative) {
      this.(priority := 0) == other.(priority := 0)
    }
  }

  /** ARBITER_ALLOCATION_STATE. `current` indexes `alternatives`; None is NULL. */
  datatype State = State(
    start: u64, end: u64, curMin: u64, curMax: u64, entry: Entry,
    current: Option<nat>, alternatives: seq<Alternative>,
    mcfgConflict: bool, attributes: set<Attribute>, available: set<Attribute>)
  {
    predicate HasCurrent() {
      current.Some? && current.value < |alternatives|
    }

    function Chosen(): Alternative
      requires HasCurrent()
    {
      alternatives[current.value]
    }

    /** The mark of a null request is only ever put on an entry with a zero-length alternative. */
    ghost predicate HonestMark(other: State) {
      entry.result == NullRequest ==> other.entry.result == NullRequest || AsksForNothing(alternatives)
    }

    /** The same requirement, whatever the search has done to it since it was `other`. */
    ghost predicate SameRequest(other: State) {
      && entry.SameRequest(other.entry)
      && SameAlternatives(alternatives, other.alternatives)
      && HonestMark(other)
    }
  }

  predicate AsksForNothing(alts: seq<Alternative>) {
    exists i :: 0 <= i < |alts| && alts[i].length == 0
  }

  lemma NothingIsNothing(a: seq<Alternative>, b: seq<Alternative>)
    requires SameAlternatives(a, b)
    ensures AsksForNothing(a) == AsksForNothing(b)
  {
    assert forall i :: 0 <= i < |a| ==> a[i].SameRequest(b[i]) && a[i].length == b[i].length;
  }

  ghost predicate SameAlternatives(a: seq<Alternative>, b: seq<Alternative>) {
    |a| == |b| && forall i :: 0 <= i < |a| ==> a[i].SameRequest(b[i])
  }

  /** The status codes the arbiters answer with. */
  datatype Status = Success | Unsuccessful | BadMcfgTable | InvalidParameter | DeviceConfigurationError

  /** One inclusive window of the ordering list. */
  datatype Ordering = Ordering(start: u64, end: u64)
}
