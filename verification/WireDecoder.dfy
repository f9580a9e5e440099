/** From wire arguments to objects. */
module WireDecoder {
  import opened Words
  import opened WireFormat

  // ----- What the decoder computes -----

  /** The first argument lies within the bytes. */
  predicate HasArgument(bs: seq<byte>) {
    |bs| >= HEADER && ArgumentLength(DataLengthOf(bs)) <= |bs|
  }

  /** What follows the first argument. */
  function Rest(bs: seq<byte>): (rest: seq<byte>)
    requires HasArgument(bs)
    ensures |rest| + 8 <= |bs|
  {
    bs[ArgumentLength(DataLengthOf(bs))..]
  }

  /** How many arguments are packed back to back; fewer than four bytes at the end are ignored. */
  function Count(bs: seq<byte>): (n: Option<nat>)
    ensures n.Some? ==> 8 * n.value <= |bs|
    decreases |bs|
  {
    if |bs| < HEADER then Some(0)
    else if !HasArgument(bs) then None
    else
      var more := Count(Rest(bs));
      if more.None? then None else Some(more.value + 1)
  }

  /** A C string ends at its first NUL. */
  function CString(data: seq<byte>): (text: seq<byte>)
    requires 0 in data
    ensures 0 !in text && |text| < |data| && text == data[..|text|] && data[|text|] == 0
  {
    if data[0] == 0 then [] else [data[0]] + CString(data[1..])
  }

  lemma {:induction false} CStringOf(text: seq<byte>, tail: seq<byte>)
    requires 0 !in text
    ensures 0 in text + [0] + tail && CString(text + [0] + tail) == text
  {
    var all := text + [0] + tail;
    assert all[|text|] == 0;
    if text != [] {
      assert all[1..] == text[1..] + [0] + tail;
      CStringOf(text[1..], tail);
    }
  }

  function Decode(bs: seq<byte>, depth: nat): (o: Option<Object>)
    ensures o.Some? ==> HasArgument(bs)
    decreases |bs|, 0
  {
    if !HasArgument(bs) then None
    else
      var length := DataLengthOf(bs);
      var data := bs[HEADER..HEADER + length];
      var kind := TypeOf(bs);
      if kind == TYPE_INTEGER then Some(Integer(Read32(bs[4..8])))
      else if kind == TYPE_STRING then
        if length == 0 || data[length - 1] != 0 then None else Some(String(CString(data)))
      else if kind == TYPE_BUFFER then Some(Buffer(data))
      else if kind == TYPE_PACKAGE then
        if depth >= MAX_DEPTH then None
        else
          var n := Count(data);
          if n.None? then None
          else
            var es := DecodeMany(data, n.value, depth + 1);
            if es.None? then None else Some(Package(es.value))
      else None
  }

  /** Exactly `n` arguments, one after the other. */
  function DecodeList(bs: seq<byte>, n: nat, depth: nat): (es: Option<seq<Object>>)
    ensures es.Some? ==> |es.value| == n
    decreases |bs|, 1
  {
    if n == 0 then Some([])
    else
      var first := Decode(bs, depth);
      if first.None? then None
      else
        var more := DecodeList(Rest(bs), n - 1, depth);
        if more.None? then None else Some([first.value] + more.value)
  }

  function DecodeMany(bs: seq<byte>, n: nat, depth: nat): (es: Option<seq<Object>>)
    decreases |bs|, 2
  {
    if n == 0 then Some([])
    else if n > |bs| / ArgumentLength(0) then None
    else DecodeList(bs, n, depth)
  }

  // ----- The two passes agree -----

  /** What is left after `n` arguments, if the bytes hold that many. */
  function Skip(bs: seq<byte>, n: nat): (left: Option<seq<byte>>)
    decreases n
  {
    if n == 0 then Some(bs) else if HasArgument(bs) then Skip(Rest(bs), n - 1) else None
  }

  /** The count pass finds `n` exactly when `n` arguments fit and less than a header is left. */
  lemma {:induction false} CountIsSkip(bs: seq<byte>, n: nat)
    ensures Count(bs) == Some(n) <==> Skip(bs, n).Some? && |Skip(bs, n).value| < HEADER
    decreases |bs|
  {
    if HasArgument(bs) && n > 0 {
      CountIsSkip(Rest(bs), n - 1);
    }
  }

  /** The convert pass takes exactly the arguments the count pass counted, and never runs out of room over them. */
  lemma PassesAgree(bs: seq<byte>, n: nat, depth: nat)
    requires Count(bs) == Some(n)
    ensures DecodeMany(bs, n, depth) == DecodeList(bs, n, depth)
    ensures Skip(bs, n).Some? && |Skip(bs, n).value| < HEADER
  {
    CountIsSkip(bs, n);
  }

  // ----- The decoder -----

  lemma Slice(buffer: seq<byte>, at: nat, n: nat, i: nat, j: nat)
    requires at + n <= |buffer| && i <= j <= n
    ensures buffer[at..at + n][i..j] == buffer[at + i..at + j]
  {
    var a, b := buffer[at..at + n][i..j], buffer[at + i..at + j];
    assert |a| == |b| && forall k :: 0 <= k < |a| ==> a[k] == b[k];
  }

  /** The header fields of the argument at a cursor. */
  lemma HeaderAt(buffer: seq<byte>, at: nat, available: nat)
    requires at + available <= |buffer| && available >= HEADER
    ensures TypeOf(buffer[at..at + available]) == Read16(buffer[at..at + 2])
    ensures DataLengthOf(buffer[at..at + available]) == Read16(buffer[at + 2..at + 4])
  {
    var bs := buffer[at..at + available];
    Slice(buffer, at, available, 0, 2);
    Slice(buffer, at, available, 2, 4);
    assert bs[2..][..2] == bs[2..4] && bs[..2] == bs[0..2];
  }

  /** UacpiNtCountArguments over `length` bytes of a buffer. */
  method CountArguments(buffer: seq<byte>, at: nat, length: nat) returns (count: Option<nat>)
    requires at + length <= |buffer|
    ensures count == Count(buffer[at..at + length])
  {
    hide Read16, DataLengthOf, TypeOf, Count, Rest;
    var n, cursor, left := 0, at, length;
    while left >= HEADER
      invariant at <= cursor && 0 <= left && cursor + left == at + length
      invariant var more := Count(buffer[cursor..cursor + left]);
                Count(buffer[at..at + length]) == if more.None? then None else Some(n + more.value)
      decreases left
    {
      ghost var bs := buffer[cursor..cursor + left];
      HeaderAt(buffer, cursor, left);
      var size := ArgumentLength(Read16(buffer[cursor + 2..cursor + 4]));
      CountStep(bs);
      if size > left {
        return None;
      }
      Slice(buffer, cursor, left, size, left);
      RestIs(bs);
      assert bs[size..] == bs[size..left];
      n := n + 1;
      left := left - size;
      cursor := cursor + size;
    }
    CountStep(buffer[cursor..cursor + left]);
    return Some(n);
  }

  lemma CountStep(bs: seq<byte>)
    ensures |bs| < HEADER ==> Count(bs) == Some(0)
    ensures |bs| >= HEADER && !HasArgument(bs) ==> Count(bs).None?
    ensures HasArgument(bs) ==>
              Count(bs) == if Count(Rest(bs)).None? then None else Some(Count(Rest(bs)).value + 1)
  {
  }

  lemma RestIs(bs: seq<byte>)
    requires HasArgument(bs)
    ensures Rest(bs) == bs[ArgumentLength(DataLengthOf(bs))..]
  {
  }

  /** UacpiNtArgumentToObject. */
  method ArgumentToObject(buffer: seq<byte>, at: nat, available: nat, depth: nat)
    returns (made: Option<Object>, consumed: nat)
    requires at + available <= |buffer|
    ensures made == Decode(buffer[at..at + available], depth)
    ensures made.Some? ==> consumed == ArgumentLength(DataLengthOf(buffer[at..at + available])) <= available
    decreases available, 0
  {
    hide Count, DecodeMany, CString, Read16, TypeOf, DataLengthOf;
    ghost var bs := buffer[at..at + available];
    if available < HEADER {
      return None, 0;
    }
    HeaderAt(buffer, at, available);
    var kind, length := Read16(buffer[at..at + 2]), Read16(buffer[at + 2..at + 4]);
    consumed := ArgumentLength(length);
    if consumed > available {
      return None, 0;
    }
    var data := at + HEADER;
    Slice(buffer, at, available, HEADER, HEADER + length);
    if kind == TYPE_INTEGER {
      Slice(buffer, at, available, 4, 8);
      made := Some(Integer(Read32(buffer[data..data + 4])));
    } else if kind == TYPE_STRING {
      if length == 0 || buffer[data + length - 1] != 0 {
        return None, consumed;
      }
      assert buffer[data..data + length][length - 1] == 0;
      made := Some(String(CString(buffer[data..data + length])));
    } else if kind == TYPE_BUFFER {
      made := Some(Buffer(buffer[data..data + length]));
    } else if kind == TYPE_PACKAGE {
      if depth >= MAX_DEPTH {
        return None, consumed;
      }
      var count := CountArguments(buffer, data, length);
      if count.None? {
        return None, consumed;
      }
      var nested := ArgumentsToObjects(buffer, data, count.value, length, depth + 1);
      if nested.None? {
        return None, consumed;
      }
      made := Some(Package(nested.value));
    } else {
      return None, consumed;
    }
  }

  /** UacpiNtArgumentsToObjects. */
  method ArgumentsToObjects(buffer: seq<byte>, at: nat, count: nat, available: nat, depth: nat)
    returns (made: Option<seq<Object>>)
    requires at + available <= |buffer|
    ensures made == DecodeMany(buffer[at..at + available], count, depth)
    decreases available, 1
  {
    hide Decode, HasArgument, DataLengthOf, CString;
    if count == 0 {
      return Some([]);
    }
    if count > available / ArgumentLength(0) {
      return None;
    }
    var es: seq<Object>, cursor, left := [], at, available;
    ghost var all := DecodeList(buffer[at..at + available], count, depth);
    if all.Some? {
      assert es + all.value == all.value;
    }
    for i := 0 to count
      invariant at <= cursor && 0 <= left && cursor + left == at + available
      invariant var more := DecodeList(buffer[cursor..cursor + left], count - i, depth);
                all == if more.None? then None else Some(es + more.value)
    {
      ghost var bs := buffer[cursor..cursor + left];
      var made, consumed := ArgumentToObject(buffer, cursor, left, depth);
      if made.None? {
        return None;
      }
      Slice(buffer, cursor, left, consumed, left);
      assert Rest(bs) == bs[consumed..left];
      ghost var more := DecodeList(Rest(bs), count - i - 1, depth);
      if more.Some? {
        assert es + ([made.value] + more.value) == es + [made.value] + more.value;
      }
      es := es + [made.value];
      left := left - consumed;
      cursor := cursor + consumed;
    }
    assert es + [] == es;
    return Some(es);
  }

  // ----- Round trip -----

  lemma HeaderStands(bs: seq<byte>, tail: seq<byte>)
    requires |bs| >= HEADER
    ensures TypeOf(bs + tail) == TypeOf(bs) && DataLengthOf(bs + tail) == DataLengthOf(bs)
  {
  }

  lemma EncodedLength(bs: seq<byte>, o: Object)
    requires Encodes(bs, o)
    ensures |bs| == Size(o) >= HEADER && ArgumentLength(DataLengthOf(bs)) == |bs|
  {
  }

  /** A wire form is one argument, whatever follows it. */
  lemma FirstArgument(bs: seq<byte>, o: Object, tail: seq<byte>)
    requires Encodes(bs, o)
    ensures HasArgument(bs + tail) && Rest(bs + tail) == tail
  {
    hide Encodes;
    EncodedLength(bs, o);
    HeaderStands(bs, tail);
  }

  lemma {:induction false} EncodedCounts(bs: seq<byte>, es: seq<Object>)
    requires EncodesAll(bs, es)
    ensures Count(bs) == Some(|es|)
    decreases |es|
  {
    hide Encodes, EncodesAll, HasArgument, Rest, Size, SizeAll;
    if es == [] {
      NothingEncoded(bs);
    } else {
      EncodesFirst(bs, es);
      var k := Size(es[0]);
      assert bs == bs[..k] + bs[k..];
      FirstArgument(bs[..k], es[0], bs[k..]);
      EncodedCounts(bs[k..], es[1..]);
      HasHeader(bs);
    }
  }

  lemma NothingEncoded(bs: seq<byte>)
    requires EncodesAll(bs, [])
    ensures bs == []
  {
  }

  lemma HasHeader(bs: seq<byte>)
    requires HasArgument(bs)
    ensures |bs| >= HEADER
  {
  }

  lemma DataStands(bs: seq<byte>, tail: seq<byte>, length: nat)
    requires HEADER + length <= |bs|
    ensures (bs + tail)[HEADER..HEADER + length] == bs[HEADER..HEADER + length]
  {
  }

  lemma RoundTripString(bs: seq<byte>, text: seq<byte>, tail: seq<byte>, depth: nat)
    requires Encodes(bs, String(text)) && Faithful(String(text))
    ensures Decode(bs + tail, depth) == Some(String(text))
  {
    FirstArgument(bs, String(text), tail);
    HeaderStands(bs, tail);
    hide TypeOf, DataLengthOf, HasArgument, CString;
    DataStands(bs, tail, |text| + 1);
    assert bs[HEADER..HEADER + |text| + 1] == text + [0] + [];
    CStringOf(text, []);
  }

  lemma RoundTripPlain(bs: seq<byte>, o: Object, tail: seq<byte>, depth: nat)
    requires (o.Integer? || o.Buffer?) && Encodes(bs, o) && Faithful(o)
    ensures Decode(bs + tail, depth) == Some(o)
  {
    FirstArgument(bs, o, tail);
    HeaderStands(bs, tail);
    hide TypeOf, DataLengthOf, HasArgument;
    DataStands(bs, tail, if o.Integer? then 4 else |o.data|);
  }

  lemma PackageHeader(bs: seq<byte>, es: seq<Object>)
    requires Encodes(bs, Package(es))
    ensures HEADER + SizeAll(es) <= |bs| && TypeOf(bs) == TYPE_PACKAGE && DataLengthOf(bs) == SizeAll(es)
  {
    hide EncodesAll, SizeAll, TypeOf, DataLengthOf;
  }

  lemma RoundTripPackage(bs: seq<byte>, es: seq<Object>, tail: seq<byte>, depth: nat, data: seq<byte>)
    requires Encodes(bs, Package(es)) && depth < MAX_DEPTH
    requires HEADER + SizeAll(es) <= |bs| && data == bs[HEADER..HEADER + SizeAll(es)]
    requires Count(data) == Some(|es|) && DecodeMany(data, |es|, depth + 1) == Some(es)
    ensures Decode(bs + tail, depth) == Some(Package(es))
  {
    hide Encodes, TypeOf, DataLengthOf, HasArgument, EncodesAll, Count, DecodeMany, SizeAll;
    FirstArgument(bs, Package(es), tail);
    PackageHeader(bs, es);
    HeaderStands(bs, tail);
    DataStands(bs, tail, SizeAll(es));
  }

  /** Whatever follows, an object's wire form decodes to the object. */
  lemma {:induction false} RoundTrip(bs: seq<byte>, o: Object, tail: seq<byte>, depth: nat)
    requires Encodes(bs, o) && Sendable(o, depth) && Faithful(o)
    ensures HasArgument(bs + tail) && Rest(bs + tail) == tail
    ensures Decode(bs + tail, depth) == Some(o)
    decreases o, 0
  {
    hide Decode, Count, DecodeMany, DecodeList, Encodes, EncodesAll, Sendable, Faithful,
      HasArgument, Rest, TypeOf, DataLengthOf, Size, SizeAll;
    FirstArgument(bs, o, tail);
    OthersStay(bs, o);
    match o {
      case Integer(_) => RoundTripPlain(bs, o, tail, depth);
      case Buffer(_) => RoundTripPlain(bs, o, tail, depth);
      case String(text) => RoundTripString(bs, text, tail, depth);
      case Package(es) =>
        PackageData(bs, es);
        var data := bs[HEADER..HEADER + SizeAll(es)];
        SendableElements(es, depth);
        EncodedCounts(data, es);
        RoundTripAll(data, es, [], depth + 1);
        assert data + [] == data;
        PassesAgree(data, |es|, depth + 1);
        RoundTripPackage(bs, es, tail, depth, data);
    }
  }

  lemma OthersStay(bs: seq<byte>, o: Object)
    requires Encodes(bs, o)
    ensures !o.Other?
  {
  }

  lemma PackageData(bs: seq<byte>, es: seq<Object>)
    requires Encodes(bs, Package(es))
    ensures HEADER + SizeAll(es) <= |bs| && EncodesAll(bs[HEADER..HEADER + SizeAll(es)], es)
  {
    hide EncodesAll, TypeOf, DataLengthOf, SizeAll;
  }

  lemma SendableElements(es: seq<Object>, depth: nat)
    requires Sendable(Package(es), depth) && Faithful(Package(es))
    ensures depth < MAX_DEPTH
    ensures forall i :: 0 <= i < |es| ==> Sendable(es[i], depth + 1) && Faithful(es[i])
  {
  }

  /** And so does a whole argument list, nested and empty packages included. */
  lemma {:induction false} RoundTripAll(bs: seq<byte>, es: seq<Object>, tail: seq<byte>, depth: nat)
    requires EncodesAll(bs, es)
    requires forall i :: 0 <= i < |es| ==> Sendable(es[i], depth) && Faithful(es[i])
    ensures DecodeList(bs + tail, |es|, depth) == Some(es)
    decreases es, 1, |es|
  {
    hide Decode, Encodes, EncodesAll, Sendable, Faithful, Size, Rest;
    if es != [] {
      EncodesFirst(bs, es);
      var k := Size(es[0]);
      assert bs + tail == bs[..k] + (bs[k..] + tail);
      RoundTrip(bs[..k], es[0], bs[k..] + tail, depth);
      RoundTripAll(bs[k..], es[1..], tail, depth);
      assert [es[0]] + es[1..] == es;
    }
  }
}
