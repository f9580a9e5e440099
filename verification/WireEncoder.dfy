/** From objects to wire arguments, and the reply of an evaluation. */
module WireEncoder {
  import opened Words
  import opened RangeLists
  import opened WireFormat
  import opened WireDecoder

  // ----- The size pass -----

  /** What the size pass computes: package totals are added up in 32 bits. */
  function WireSize(o: Object, depth: nat): (n: Option<nat>)
    ensures n.Some? ==> 8 <= n.value <= ArgumentLength(MAX_USHORT)
    decreases o, 0
  {
    match o
    case Integer(_) => Some(ArgumentLength(4))
    case String(text) => if |text| + 1 > MAX_USHORT then None else Some(ArgumentLength(|text| + 1))
    case Buffer(data) => if |data| > MAX_USHORT then None else Some(ArgumentLength(|data|))
    case Package(es) =>
      if depth >= MAX_DEPTH then None
      else
        var total := WireTotal(es, depth + 1);
        if total.None? || total.value > MAX_USHORT then None else Some(ArgumentLength(total.value))
    case Other => None
  }

  function WireTotal(es: seq<Object>, depth: nat): (n: Option<nat>)
    ensures n.Some? ==> n.value < TWO_32
    decreases es, 1
  {
    if es == [] then Some(0)
    else
      var before, last := WireTotal(es[..|es| - 1], depth), WireSize(es[|es| - 1], depth);
      if before.None? || last.None? then None else Some((before.value + last.value) % TWO_32)
  }

  predicate AllSendable(es: seq<Object>, depth: nat) {
    forall i :: 0 <= i < |es| ==> Sendable(es[i], depth)
  }

  lemma SendableSplit(es: seq<Object>, last: nat, depth: nat)
    requires |es| == last + 1
    ensures AllSendable(es, depth) <==> AllSendable(es[..last], depth) && Sendable(es[last], depth)
  {
    hide Sendable;
    assert forall i :: 0 <= i < last ==> es[..last][i] == es[i];
  }

  /** As long as no sum overflows the size pass accepts exactly what can be sent, with its true size. */
  lemma {:induction false} WireSizeExact(o: Object, depth: nat)
    requires Size(o) < TWO_32
    ensures WireSize(o, depth) == if Sendable(o, depth) then Some(Size(o)) else None
    decreases o, 0
  {
    if o.Package? {
      WireTotalExact(o.elements, depth + 1);
    }
  }

  lemma {:induction false} WireTotalExact(es: seq<Object>, depth: nat)
    requires SizeAll(es) < TWO_32
    ensures WireTotal(es, depth) == if AllSendable(es, depth) then Some(SizeAll(es)) else None
    decreases es, 1
  {
    hide Sendable, Size, WireSize;
    if es != [] {
      var last := |es| - 1;
      WireTotalExact(es[..last], depth);
      WireSizeExact(es[last], depth);
      SendableSplit(es, last, depth);
    }
  }

  /** For an accepted object the size is the true one exactly when the true one fits 32 bits. */
  lemma SizeAgreement(o: Object, depth: nat)
    requires WireSize(o, depth).Some?
    ensures WireSize(o, depth).value == Size(o) <==> Size(o) < TWO_32
  {
    if Size(o) < TWO_32 {
      WireSizeExact(o, depth);
    }
  }

  lemma {:induction false} IntegersTotal(es: seq<Object>, depth: nat)
    requires forall i :: 0 <= i < |es| ==> es[i] == Integer(0)
    ensures SizeAll(es) == 8 * |es| && WireTotal(es, depth) == Some(8 * |es| % TWO_32)
  {
    if es != [] {
      var n := |es| - 1;
      assert forall i :: 0 <= i < n ==> es[..n][i] == es[i];
      IntegersTotal(es[..n], depth);
      EightMore(n);
    }
  }

  lemma EightMore(n: nat)
    ensures (8 * n % TWO_32 + 8) % TWO_32 == 8 * (n + 1) % TWO_32
  {
    var q, r := 8 * n / TWO_32, 8 * n % TWO_32;
    if r + 8 < TWO_32 {
      DivModUnique(8 * (n + 1), q, r + 8, TWO_32);
    } else {
      DivModUnique(8 * (n + 1), q + 1, r + 8 - TWO_32, TWO_32);
    }
  }

  /** A package of 2^29 integers is accepted as if it were empty. */
  lemma OverflowIsAccepted(depth: nat)
    requires depth < MAX_DEPTH
    ensures var o := Package(seq(0x2000_0000, _ => Integer(0)));
            WireSize(o, depth) == Some(8) && Size(o) == TWO_32 + 4
  {
    var es := seq(0x2000_0000, _ => Integer(0));
    IntegersTotal(es, depth + 1);
  }

  /** UacpiNtObjectWireSize. */
  method ObjectWireSize(o: Object, depth: nat) returns (size: Option<nat>)
    ensures size == WireSize(o, depth)
    decreases o
  {
    match o {
      case Integer(_) => return Some(ArgumentLength(4));
      case String(text) =>
        return if |text| + 1 > MAX_USHORT then None else Some(ArgumentLength(|text| + 1));
      case Buffer(data) =>
        return if |data| > MAX_USHORT then None else Some(ArgumentLength(|data|));
      case Package(es) =>
        if depth >= MAX_DEPTH {
          return None;
        }
        var total := ElementsWireSize(es, depth + 1);
        return if total.None? || total.value > MAX_USHORT then None else Some(ArgumentLength(total.value));
      case Other => return None;
    }
  }

  /** The sizes of a package's elements add up in 32 bits. */
  method ElementsWireSize(es: seq<Object>, depth: nat) returns (total: Option<nat>)
    ensures total == WireTotal(es, depth)
    decreases es, 0
  {
    var sum := 0;
    for i := 0 to |es|
      invariant WireTotal(es[..i], depth) == Some(sum)
    {
      assert es[..i + 1][..i] == es[..i];
      var element := ObjectWireSize(es[i], depth);
      if element.None? {
        NoTotal(es, i + 1, depth);
        return None;
      }
      sum := (sum + element.value) % TWO_32;
    }
    assert es[..|es|] == es;
    return Some(sum);
  }

  lemma {:induction false} NoTotal(es: seq<Object>, n: nat, depth: nat)
    requires n <= |es| && WireTotal(es[..n], depth).None?
    ensures WireTotal(es, depth).None?
    decreases |es| - n
  {
    if n == |es| {
      assert es[..n] == es;
    } else {
      assert es[..n + 1][..n] == es[..n];
      NoTotal(es, n + 1, depth);
    }
  }

  // ----- The write pass -----

  /** Two states of a buffer that differ in these bytes at most. */
  predicate Outside(was: seq<byte>, now: seq<byte>, at: nat, n: nat) {
    |was| == |now| && forall k :: 0 <= k < |was| && !(at <= k < at + n) ==> now[k] == was[k]
  }

  /** Two writes inside a stretch stay inside it. */
  lemma OutsideBoth(a: seq<byte>, b: seq<byte>, c: seq<byte>, at1: nat, n1: nat, at2: nat, n2: nat, at: nat, n: nat)
    requires Outside(a, b, at1, n1) && Outside(b, c, at2, n2)
    requires at <= at1 && at1 + n1 <= at + n && at <= at2 && at2 + n2 <= at + n
    ensures Outside(a, c, at, n)
  {
  }

  /** What lies beside a write is as before. */
  lemma OutsideSlice(was: seq<byte>, now: seq<byte>, at: nat, n: nat, i: nat, j: nat)
    requires Outside(was, now, at, n) && i <= j <= |was| && (j <= at || at + n <= i)
    ensures now[i..j] == was[i..j]
  {
  }

  /** Data first, then the header in front of it. */
  lemma BodyThenHeader(a: seq<byte>, b: seq<byte>, c: seq<byte>, at: nat, n: nat, size: nat)
    requires Outside(a, b, at + HEADER, n) && Outside(b, c, at, HEADER)
    requires HEADER + n <= size && at + size <= |a|
    ensures Outside(a, c, at, size)
    ensures c[at..at + size][..HEADER] == c[at..at + HEADER]
    ensures c[at..at + size][HEADER..HEADER + n] == b[at + HEADER..at + HEADER + n]
  {
    OutsideBoth(a, b, c, at + HEADER, n, at, HEADER, at, size);
    OutsideSlice(b, c, at, HEADER, at + HEADER, at + HEADER + n);
    Slice(c, at, size, 0, HEADER);
    Slice(c, at, size, HEADER, HEADER + n);
  }

  /** One more argument behind those already written. */
  lemma OneMore(a: seq<byte>, b: seq<byte>, c: seq<byte>, at: nat, total: nat, written: nat, whole: nat)
    requires Outside(a, b, at, whole) && Outside(b, c, at + total, written)
    requires total + written <= whole && at + whole <= |a|
    ensures Outside(a, c, at, whole)
    ensures c[at..at + total + written] == b[at..at + total] + c[at + total..at + total + written]
  {
    OutsideBoth(a, b, c, at, whole, at + total, written, at, whole);
    OutsideSlice(b, c, at + total, written, at, at + total);
    assert c[at..at + total + written] == c[at..at + total] + c[at + total..at + total + written];
  }

  method Write(out: array<byte>, at: nat, bs: seq<byte>)
    requires at + |bs| <= out.Length
    modifies out
    ensures out[at..at + |bs|] == bs && Outside(old(out[..]), out[..], at, |bs|)
  {
    for i := 0 to |bs|
      invariant forall k :: 0 <= k < out.Length ==> out[k] == if at <= k < at + i then bs[k - at] else old(out[k])
    {
      out[at + i] := bs[i];
    }
  }

  lemma HeaderIs(bs: seq<byte>, kind: nat, length: nat)
    requires |bs| >= HEADER && kind <= MAX_USHORT && length <= MAX_USHORT
    requires bs[..4] == Bytes16(kind) + Bytes16(length)
    ensures TypeOf(bs) == kind && DataLengthOf(bs) == length
  {
    assert bs[..2] == bs[..4][..2] && bs[2..][..2] == bs[..4][2..4];
  }

  method WriteHeader(out: array<byte>, at: nat, kind: nat, length: nat)
    requires at + HEADER <= out.Length && kind <= MAX_USHORT && length <= MAX_USHORT
    modifies out
    ensures out[at..at + HEADER] == Bytes16(kind) + Bytes16(length) && Outside(old(out[..]), out[..], at, HEADER)
  {
    Write(out, at, Bytes16(kind) + Bytes16(length));
  }

  /** A header and data, in a slot that may be longer. */
  method WriteArgument(out: array<byte>, at: nat, size: nat, kind: nat, data: seq<byte>)
    requires HEADER + |data| <= size && at + size <= out.Length && kind <= MAX_USHORT && |data| <= MAX_USHORT
    modifies out
    ensures out[at..at + size][..HEADER] == Bytes16(kind) + Bytes16(|data|)
    ensures out[at..at + size][HEADER..HEADER + |data|] == data
    ensures Outside(old(out[..]), out[..], at, size)
  {
    hide Bytes16, Outside;
    ghost var a := out[..];
    Write(out, at + HEADER, data);
    ghost var b := out[..];
    assert b[at + HEADER..at + HEADER + |data|] == data;
    WriteHeader(out, at, kind, |data|);
    ghost var c := out[..];
    BodyThenHeader(a, b, c, at, |data|, size);
  }

  /** UacpiNtObjectToArgument. Padding is left as it was. */
  method ObjectToArgument(o: Object, out: array<byte>, at: nat, ghost depth: nat) returns (written: nat)
    requires Sendable(o, depth) && at + Size(o) <= out.Length
    modifies out
    ensures written == Size(o)
    ensures Encodes(out[at..at + Size(o)], o)
    ensures Outside(old(out[..]), out[..], at, Size(o))
    decreases o
  {
    hide Encodes, EncodesAll, Bytes16, Bytes32, SizeAll, Outside;
    match o {
      case Integer(value) =>
        WriteArgument(out, at, 8, TYPE_INTEGER, Bytes32(value % TWO_32));
        IntegerWritten(out[at..at + 8], value);
        return ArgumentLength(4);
      case String(text) =>
        WriteArgument(out, at, Size(o), TYPE_STRING, text + [0]);
        StringWritten(out[at..at + Size(o)], text);
        return ArgumentLength(|text| + 1);
      case Buffer(data) =>
        WriteArgument(out, at, Size(o), TYPE_BUFFER, data);
        BufferWritten(out[at..at + Size(o)], data);
        return ArgumentLength(|data|);
      case Package(es) =>
        written := PackageToArgument(es, out, at, depth);
    }
  }

  /** The elements first, then the header with their total. */
  method PackageToArgument(es: seq<Object>, out: array<byte>, at: nat, ghost depth: nat) returns (written: nat)
    requires AllSendable(es, depth + 1) && SizeAll(es) <= MAX_USHORT && at + Size(Package(es)) <= out.Length
    modifies out
    ensures written == Size(Package(es))
    ensures Encodes(out[at..at + Size(Package(es))], Package(es))
    ensures Outside(old(out[..]), out[..], at, Size(Package(es)))
    decreases es, 1
  {
    hide Encodes, EncodesAll, Bytes16, SizeAll, Outside;
    ghost var a := out[..];
    var total := ElementsToArguments(es, out, at + HEADER, depth + 1);
    written := ArgumentLength(total);
    ghost var b := out[..];
    assert b[at + HEADER..at + HEADER + total] == out[at + HEADER..at + HEADER + total];
    WriteHeader(out, at, TYPE_PACKAGE, total);
    ghost var c := out[..];
    BodyThenHeader(a, b, c, at, total, written);
    PackageWritten(out[at..at + written], es);
  }

  /** Objects one after the other. */
  method ElementsToArguments(es: seq<Object>, out: array<byte>, at: nat, ghost depth: nat) returns (total: nat)
    requires AllSendable(es, depth) && at + SizeAll(es) <= out.Length
    modifies out
    ensures total == SizeAll(es)
    ensures EncodesAll(out[at..at + SizeAll(es)], es)
    ensures Outside(old(out[..]), out[..], at, SizeAll(es))
    decreases es, 0
  {
    hide Encodes, EncodesAll, Sendable, Size, SizeAll, Outside;
    total := 0;
    assert es[..0] == [] && out[at..at] == [];
    NothingToEncode();
    NothingWritten(out[..], at, SizeAll(es));
    for i := 0 to |es|
      invariant total == SizeAll(es[..i]) <= SizeAll(es)
      invariant EncodesAll(out[at..at + total], es[..i])
      invariant Outside(old(out[..]), out[..], at, SizeAll(es))
    {
      SizeAllPrefix(es, i + 1);
      assert es[..i + 1] == es[..i] + [es[i]];
      SizeAllOne(es[..i], es[i]);
      ghost var b := out[..];
      assert b[at..at + total] == out[at..at + total];
      var written := ObjectToArgument(es[i], out, at + total, depth);
      ghost var c := out[..];
      OneMore(old(out[..]), b, c, at, total, written, SizeAll(es));
      EncodesAllOne(b[at..at + total], es[..i], es[i], out[at + total..at + total + written]);
      total := total + written;
    }
    assert es[..|es|] == es;
  }

  lemma NothingWritten(bs: seq<byte>, at: nat, n: nat)
    ensures Outside(bs, bs, at, n)
  {
  }

  lemma NothingToEncode()
    ensures SizeAll([]) == 0 && EncodesAll([], [])
  {
  }

  lemma IntegerWritten(bs: seq<byte>, value: u64)
    requires |bs| == 8 && bs[..4] == Bytes16(TYPE_INTEGER) + Bytes16(4) && bs[4..8] == Bytes32(value % TWO_32)
    ensures Encodes(bs, Integer(value))
  {
    HeaderIs(bs, TYPE_INTEGER, 4);
  }

  lemma StringWritten(bs: seq<byte>, text: seq<byte>)
    requires |text| + 1 <= MAX_USHORT && |bs| == Size(String(text))
    requires bs[..4] == Bytes16(TYPE_STRING) + Bytes16(|text| + 1) && bs[4..4 + |text| + 1] == text + [0]
    ensures Encodes(bs, String(text))
  {
    HeaderIs(bs, TYPE_STRING, |text| + 1);
    var payload := bs[4..4 + |text| + 1];
    assert payload[..|text|] == text && payload[|text|] == 0;
    assert bs[4..4 + |text|] == payload[..|text|] && bs[4 + |text|] == payload[|text|];
  }

  lemma BufferWritten(bs: seq<byte>, data: seq<byte>)
    requires |data| <= MAX_USHORT && |bs| == Size(Buffer(data))
    requires bs[..4] == Bytes16(TYPE_BUFFER) + Bytes16(|data|) && bs[4..4 + |data|] == data
    ensures Encodes(bs, Buffer(data))
  {
    HeaderIs(bs, TYPE_BUFFER, |data|);
  }

  lemma PackageWritten(bs: seq<byte>, es: seq<Object>)
    requires SizeAll(es) <= MAX_USHORT && |bs| == Size(Package(es))
    requires bs[..4] == Bytes16(TYPE_PACKAGE) + Bytes16(SizeAll(es)) && EncodesAll(bs[4..4 + SizeAll(es)], es)
    ensures Encodes(bs, Package(es))
  {
    hide EncodesAll;
    HeaderIs(bs, TYPE_PACKAGE, SizeAll(es));
  }

  // ----- The reply -----

  const OUTPUT_HEADER := 12
  const OUTPUT_SIGNATURE := 0x426F_6541

  datatype Reply = Replied | BufferTooSmall | BufferOverflow | InvalidData

  /** A top level package becomes one argument per element. */
  function ReplyObjects(result: Object): seq<Object> {
    if result.Package? then result.elements else [result]
  }

  function ReplyDepth(result: Object): nat {
    if result.Package? then 1 else 0
  }

  function Required(result: Object): nat {
    OUTPUT_HEADER + SizeAll(ReplyObjects(result))
  }

  function OutputHeader(length: nat, count: nat): (bs: seq<byte>)
    requires length < TWO_32 && count < TWO_32
    ensures |bs| == OUTPUT_HEADER
  {
    Bytes32(OUTPUT_SIGNATURE) + Bytes32(length) + Bytes32(count)
  }

  /** The sizes of the reply's arguments, added up. */
  method ReplySize(objects: seq<Object>, depth: nat) returns (size: Option<nat>)
    requires SizeAll(objects) + OUTPUT_HEADER < TWO_32
    ensures size == if AllSendable(objects, depth) then Some(OUTPUT_HEADER + SizeAll(objects)) else None
  {
    hide Sendable, Size, SizeAll, WireSize;
    var required := OUTPUT_HEADER;
    assert objects[..0] == [];
    NothingToEncode();
    for i := 0 to |objects|
      invariant AllSendable(objects[..i], depth)
      invariant required == OUTPUT_HEADER + SizeAll(objects[..i])
    {
      assert objects[..i + 1] == objects[..i] + [objects[i]];
      SizeAllOne(objects[..i], objects[i]);
      SizeAllPrefix(objects, i + 1);
      WireSizeExact(objects[i], depth);
      var element := ObjectWireSize(objects[i], depth);
      if element.None? {
        return None;
      }
      required := (required + element.value) % TWO_32;
    }
    assert objects[..|objects|] == objects;
    return Some(required);
  }

  /** UacpiNtWriteEvalOutput. A missing buffer is one without room. */
  method WriteEvalOutput(result: Object, out: array<byte>) returns (status: Reply, information: nat)
    requires Required(result) < TWO_32
    modifies out
    ensures status.InvalidData? <==> !AllSendable(ReplyObjects(result), ReplyDepth(result))
    ensures status.InvalidData? || status.BufferTooSmall? ==> information == 0 && out[..] == old(out[..])
    ensures status.BufferTooSmall? ==> out.Length < OUTPUT_HEADER
    // Two pass callers read the length they need.
    ensures status.BufferOverflow? ==>
              && OUTPUT_HEADER <= out.Length < Required(result) && information == OUTPUT_HEADER
              && out[..OUTPUT_HEADER] == OutputHeader(Required(result), 0)
              && Outside(old(out[..]), out[..], 0, OUTPUT_HEADER)
    // A reply holds every object and does not pass the length it reports.
    ensures status.Replied? ==>
              && |ReplyObjects(result)| < TWO_32
              && Required(result) <= out.Length && information == Required(result)
              && out[..OUTPUT_HEADER] == OutputHeader(Required(result), |ReplyObjects(result)|)
              && EncodesAll(out[OUTPUT_HEADER..Required(result)], ReplyObjects(result))
              && Outside(old(out[..]), out[..], 0, Required(result))
  {
    hide EncodesAll, SizeAll, AllSendable, OutputHeader, Outside;
    var objects, depth := ReplyObjects(result), ReplyDepth(result);
    var size := ReplySize(objects, depth);
    if size.None? {
      return InvalidData, 0;
    }
    var required := size.value;
    if out.Length < OUTPUT_HEADER {
      return BufferTooSmall, 0;
    }
    if out.Length < required {
      Write(out, 0, OutputHeader(required, 0));
      return BufferOverflow, OUTPUT_HEADER;
    }
    ghost var a := out[..];
    Write(out, 0, OutputHeader(required, |objects|));
    ghost var b := out[..];
    assert b[0..OUTPUT_HEADER] == out[0..OUTPUT_HEADER];
    var written := ElementsToArguments(objects, out, OUTPUT_HEADER, depth);
    ghost var c := out[..];
    OutsideBoth(a, b, c, 0, OUTPUT_HEADER, OUTPUT_HEADER, written, 0, required);
    OutsideSlice(b, c, OUTPUT_HEADER, written, 0, OUTPUT_HEADER);
    return Replied, required;
  }

  lemma {:induction false} SendableHigher(o: Object, depth: nat, higher: nat)
    requires Sendable(o, depth) && higher <= depth
    ensures Sendable(o, higher)
  {
    if o.Package? {
      forall i | 0 <= i < |o.elements|
        ensures Sendable(o.elements[i], higher + 1)
      {
        SendableHigher(o.elements[i], depth + 1, higher + 1);
      }
    }
  }

  /** A reply reads back as the objects it was made from. */
  lemma ReplyReadsBack(result: Object, bs: seq<byte>)
    requires AllSendable(ReplyObjects(result), ReplyDepth(result))
    requires forall i :: 0 <= i < |ReplyObjects(result)| ==> Faithful(ReplyObjects(result)[i])
    requires EncodesAll(bs, ReplyObjects(result))
    ensures DecodeMany(bs, |ReplyObjects(result)|, 0) == Some(ReplyObjects(result))
  {
    hide Encodes, EncodesAll, Decode, Sendable, Faithful;
    var es := ReplyObjects(result);
    forall i | 0 <= i < |es|
      ensures Sendable(es[i], 0)
    {
      SendableHigher(es[i], ReplyDepth(result), 0);
    }
    EncodedCounts(bs, es);
    RoundTripAll(bs, es, [], 0);
    assert bs + [] == bs;
    PassesAgree(bs, |es|, 0);
  }
}
