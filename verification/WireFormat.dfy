/** The argument format of the evaluation IOCTLs: what bytes stand for which object. */
module WireFormat {
  import opened Words

  type byte = x: int | 0 <= x < 256

  const MAX_DEPTH := 8
  const MAX_USHORT := 0xFFFF
  const TYPE_INTEGER := 0
  const TYPE_STRING := 1
  const TYPE_BUFFER := 2
  const TYPE_PACKAGE := 3
  const HEADER := 4

  /** A uACPI object as far as it can travel. A string's bytes exclude its NUL. */
  datatype Object =
    | Integer(value: u64)
    | String(text: seq<byte>)
    | Buffer(data: seq<byte>)
    | Package(elements: seq<Object>)
    | Other

  // ----- Fields -----

  function Read16(bs: seq<byte>): (n: nat)
    requires |bs| >= 2
    ensures n <= MAX_USHORT
  {
    bs[0] as int + 0x100 * bs[1] as int
  }

  function Read32(bs: seq<byte>): (n: nat)
    requires |bs| >= 4
    ensures n < TWO_32
  {
    Read16(bs) + 0x1_0000 * Read16(bs[2..])
  }

  function Bytes16(n: nat): (bs: seq<byte>)
    requires n <= MAX_USHORT
    ensures |bs| == 2 && Read16(bs) == n
  {
    [n % 0x100, n / 0x100]
  }

  function Bytes32(n: nat): (bs: seq<byte>)
    requires n < TWO_32
    ensures |bs| == 4 && Read32(bs) == n
  {
    var bs := Bytes16(n % 0x1_0000) + Bytes16(n / 0x1_0000);
    assert bs[2..] == Bytes16(n / 0x1_0000);
    bs
  }

  /** ACPI_METHOD_ARGUMENT_LENGTH: a header and at least four bytes. */
  function ArgumentLength(dataLength: nat): nat {
    HEADER + Max(4, dataLength)
  }

  function TypeOf(bs: seq<byte>): nat
    requires |bs| >= HEADER
  {
    Read16(bs)
  }

  function DataLengthOf(bs: seq<byte>): (n: nat)
    requires |bs| >= HEADER
    ensures n <= MAX_USHORT
  {
    Read16(bs[2..])
  }

  // ----- Sizes -----

  /** The true wire size of an object. */
  function Size(o: Object): (n: nat)
    ensures n >= 8
  {
    match o
    case Integer(_) => ArgumentLength(4)
    case String(text) => ArgumentLength(|text| + 1)
    case Buffer(data) => ArgumentLength(|data|)
    case Package(es) => ArgumentLength(SizeAll(es))
    case Other => ArgumentLength(0)
  }

  function SizeAll(es: seq<Object>): (n: nat)
    ensures n >= 8 * |es|
  {
    if es == [] then 0 else SizeAll(es[..|es| - 1]) + Size(es[|es| - 1])
  }

  /** Has a wire form at this depth: known type, lengths in 16 bits, nesting within the limit. */
  predicate Sendable(o: Object, depth: nat) {
    match o
    case Integer(_) => true
    case String(text) => |text| + 1 <= MAX_USHORT
    case Buffer(data) => |data| <= MAX_USHORT
    case Package(es) =>
      depth < MAX_DEPTH && SizeAll(es) <= MAX_USHORT && forall i :: 0 <= i < |es| ==> Sendable(es[i], depth + 1)
    case Other => false
  }

  /** Comes back as it was sent: integers of 32 bits, strings without a NUL. */
  predicate Faithful(o: Object) {
    match o
    case Integer(value) => value < TWO_32
    case String(text) => forall c :: c in text ==> c != 0
    case Buffer(_) => true
    case Package(es) => forall i :: 0 <= i < |es| ==> Faithful(es[i])
    case Other => false
  }

  // ----- Wire forms -----

  /** These bytes are a wire form of the object. Padding bytes may be anything. */
  predicate Encodes(bs: seq<byte>, o: Object)
    decreases o
  {
    && |bs| == Size(o)
    && match o
       case Integer(value) => TypeOf(bs) == TYPE_INTEGER && DataLengthOf(bs) == 4 && Read32(bs[4..8]) == value % TWO_32
       case String(text) =>
         && TypeOf(bs) == TYPE_STRING && DataLengthOf(bs) == |text| + 1
         && bs[4..4 + |text|] == text && bs[4 + |text|] == 0
       case Buffer(data) => TypeOf(bs) == TYPE_BUFFER && DataLengthOf(bs) == |data| && bs[4..4 + |data|] == data
       case Package(es) =>
         && TypeOf(bs) == TYPE_PACKAGE && DataLengthOf(bs) == SizeAll(es)
         && EncodesAll(bs[4..4 + SizeAll(es)], es)
       case Other => false
  }

  /** Wire forms of all the objects, back to back. */
  predicate EncodesAll(bs: seq<byte>, es: seq<Object>)
    decreases es
  {
    && |bs| == SizeAll(es)
    && (es != [] ==>
          var last := |es| - 1;
          var split := SizeAll(es[..last]);
          EncodesAll(bs[..split], es[..last]) && Encodes(bs[split..], es[last]))
  }

  lemma EncodesAllOne(bs: seq<byte>, es: seq<Object>, o: Object, more: seq<byte>)
    requires EncodesAll(bs, es) && Encodes(more, o)
    ensures EncodesAll(bs + more, es + [o])
  {
    assert (es + [o])[..|es|] == es;
    assert (bs + more)[..|bs|] == bs && (bs + more)[|bs|..] == more;
  }

  lemma SizeAllOne(es: seq<Object>, o: Object)
    ensures SizeAll(es + [o]) == SizeAll(es) + Size(o)
  {
    assert (es + [o])[..|es|] == es;
  }

  lemma {:induction false} SizeAllPrefix(es: seq<Object>, n: nat)
    requires n <= |es|
    ensures SizeAll(es[..n]) <= SizeAll(es)
    decreases |es| - n
  {
    if n == |es| {
      assert es[..n] == es;
    } else {
      assert es[..n + 1][..n] == es[..n];
      SizeAllPrefix(es, n + 1);
    }
  }

  lemma {:induction false} SizeAllSplit(es: seq<Object>, n: nat)
    requires n <= |es|
    ensures SizeAll(es) == SizeAll(es[..n]) + SizeAll(es[n..])
    decreases |es| - n
  {
    if n == |es| {
      assert es[..n] == es;
    } else {
      var last := |es| - 1;
      SizeAllSplit(es[..last], n);
      assert es[..last][..n] == es[..n] && es[n..][..last - n] == es[..last][n..];
    }
  }

  lemma SizeOfRest(es: seq<Object>)
    requires es != []
    ensures SizeAll(es[1..]) == SizeAll(es) - Size(es[0])
  {
    SizeAllSplit(es, 1);
    assert es[..1] == [es[0]];
    SizeAllOne([], es[0]);
    assert [] + [es[0]] == [es[0]];
  }

  /** The rest of the objects is encoded by the rest of the bytes if all but the last of them are. */
  lemma EncodesLast(bs: seq<byte>, es: seq<Object>, k: nat)
    requires |es| > 1 && EncodesAll(bs, es) && k <= SizeAll(es[..|es| - 1])
    requires SizeAll(es[..|es| - 1][1..]) == SizeAll(es[..|es| - 1]) - k
    requires EncodesAll(bs[..SizeAll(es[..|es| - 1])][k..], es[..|es| - 1][1..])
    ensures EncodesAll(bs[k..], es[1..])
  {
    hide Encodes, Size;
    var last := |es| - 1;
    var split := SizeAll(es[..last]);
    var rest := es[1..];
    assert rest[..last - 1] == es[..last][1..];
    assert bs[k..][..split - k] == bs[..split][k..];
    assert bs[k..][split - k..] == bs[split..];
  }

  /** The wire form of the first object stands first. */
  lemma {:induction false} EncodesFirst(bs: seq<byte>, es: seq<Object>)
    requires EncodesAll(bs, es) && es != []
    ensures Size(es[0]) <= |bs|
    ensures Encodes(bs[..Size(es[0])], es[0]) && EncodesAll(bs[Size(es[0])..], es[1..])
  {
    hide Encodes, Size;
    var last := |es| - 1;
    if last == 0 {
      assert es[..0] == [] && es[1..] == [];
      assert bs[0..] == bs && bs[..|bs|] == bs;
    } else {
      var split := SizeAll(es[..last]);
      EncodesFirst(bs[..split], es[..last]);
      var k := Size(es[0]);
      assert bs[..split][..k] == bs[..k];
      SizeOfRest(es[..last]);
      EncodesLast(bs, es, k);
    }
  }
}
