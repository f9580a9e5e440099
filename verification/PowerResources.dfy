/**
Shared power resources (section 7.2 of the ACPI Specification): reference
counts kept over device power transitions and wake arming. Each method is one
section under the power resource mutex; a transition is an acquire, the
device's _PSx method, and a release, and other devices may come in between.
*/
module PowerResources {
  import opened Words

  const MAX_HELD := 8

  datatype Resource = Resource(order: int, refCount: nat, on: bool)

  /** What a device holds, and the list of the transition it is in. */
  datatype Device = Device(held: seq<nat>, pending: Option<seq<nat>>) {
    /** Holds the resource, or newly needs it. */
    predicate Needs(r: nat) {
      r in held || (pending.Some? && r in pending.value)
    }
  }

  // ----- Resolving a package -----

  predicate Distinct(list: seq<nat>) {
    forall i, j :: 0 <= i < j < |list| ==> list[i] != list[j]
  }

  /** The known resources of a package in order of first mention. */
  function Mentioned(targets: seq<Option<nat>>): (list: seq<nat>)
    ensures Distinct(list)
    ensures forall r :: r in list <==> Some(r) in targets
  {
    if targets == [] then []
    else
      var rest, last := Mentioned(targets[..|targets| - 1]), targets[|targets| - 1];
      if last.None? || last.value in rest then rest else rest + [last.value]
  }

  predicate Ordered(list: seq<nat>, orders: nat -> int) {
    forall i, j :: 0 <= i < j < |list| ==> orders(list[i]) <= orders(list[j])
  }

  /** The resources of one order, in list order. */
  function OfOrder(list: seq<nat>, orders: nat -> int, k: int): seq<nat> {
    if list == [] then []
    else OfOrder(list[..|list| - 1], orders, k) + if orders(list[|list| - 1]) == k then [list[|list| - 1]] else []
  }

  /** Resources of equal order keep their sequence. */
  ghost predicate StablyOrdered(a: seq<nat>, b: seq<nat>, orders: nat -> int) {
    forall k :: OfOrder(a, orders, k) == OfOrder(b, orders, k)
  }

  lemma {:induction false} OfOrderAppend(a: seq<nat>, b: seq<nat>, orders: nat -> int, k: int)
    ensures OfOrder(a + b, orders, k) == OfOrder(a, orders, k) + OfOrder(b, orders, k)
  {
    if b == [] {
      assert a + b == a;
    } else {
      OfOrderAppend(a, b[..|b| - 1], orders, k);
      assert (a + b)[..|a + b| - 1] == a + b[..|b| - 1];
    }
  }

  lemma {:induction false} NoneOfOrder(list: seq<nat>, orders: nat -> int, k: int)
    requires forall r :: r in list ==> orders(r) != k
    ensures OfOrder(list, orders, k) == []
  {
    if list != [] {
      NoneOfOrder(list[..|list| - 1], orders, k);
    }
  }

  /** A resource that moves below strictly larger ones passes none of its own order. */
  lemma MovedDownIsStable(low: seq<nat>, high: seq<nat>, r: nat, rest: seq<nat>, orders: nat -> int)
    requires forall q :: q in high ==> orders(r) < orders(q)
    ensures StablyOrdered(low + [r] + high + rest, low + high + [r] + rest, orders)
  {
    hide OfOrder;
    forall k
      ensures OfOrder(low + [r] + high + rest, orders, k) == OfOrder(low + high + [r] + rest, orders, k)
    {
      OfOrderAppend(low + [r] + high, rest, orders, k);
      OfOrderAppend(low + [r], high, orders, k);
      OfOrderAppend(low, [r], orders, k);
      OfOrderAppend(low + high + [r], rest, orders, k);
      OfOrderAppend(low + high, [r], orders, k);
      OfOrderAppend(low, high, orders, k);
      if orders(r) == k {
        NoneOfOrder(high, orders, k);
      } else {
        assert OfOrder([r], orders, k) == [] by {
          NoneOfOrder([r], orders, k);
        }
      }
    }
  }

  /** The list is put into resource order in place. */
  method SortByOrder(list: array<nat>, count: nat, orders: nat -> int)
    requires count <= list.Length
    modifies list
    ensures multiset(list[..count]) == multiset(old(list[..count]))
    ensures Ordered(list[..count], orders)
    ensures StablyOrdered(list[..count], old(list[..count]), orders)
  {
    hide OfOrder;
    var i := 1;
    while i < count
      invariant 1 <= i && (count > 0 ==> i <= count)
      invariant multiset(list[..count]) == multiset(old(list[..count]))
      invariant i <= count ==> Ordered(list[..i], orders)
      invariant StablyOrdered(list[..count], old(list[..count]), orders)
    {
      InsertInOrder(list, count, i, orders);
      i := i + 1;
    }
  }

  /** Everything larger than the resource at `i` moves up by one and the resource goes below it. */
  method ShiftUp(list: array<nat>, i: nat, orders: nat -> int) returns (j: nat)
    requires i < list.Length
    modifies list
    ensures j <= i
    ensures forall k :: 0 <= k < list.Length ==>
                          list[k] == if k == j then old(list[i])
                                     else if j < k <= i then old(list[k - 1]) else old(list[k])
    ensures j > 0 ==> orders(old(list[j - 1])) <= orders(old(list[i]))
    ensures j < i ==> orders(old(list[i])) < orders(old(list[j]))
  {
    var r := list[i];
    j := i;
    while j > 0 && orders(list[j - 1]) > orders(r)
      invariant j <= i
      invariant forall k :: 0 <= k < list.Length && k != j ==>
                list[k] == if j < k <= i then old(list[k - 1]) else old(list[k])
      invariant j < i ==> orders(r) < orders(old(list[j]))
    {
      list[j] := list[j - 1];
      j := j - 1;
    }
    list[j] := r;
  }

  /** One insertion keeps the list and puts one more of it in order. */
  method InsertInOrder(list: array<nat>, count: nat, i: nat, orders: nat -> int)
    requires i < count <= list.Length && Ordered(list[..i], orders)
    modifies list
    ensures multiset(list[..count]) == multiset(old(list[..count]))
    ensures Ordered(list[..i + 1], orders)
    ensures StablyOrdered(list[..count], old(list[..count]), orders)
  {
    hide Ordered, StablyOrdered;
    ghost var was, low := list[..count], list[..i];
    assert was[..i] == low;
    var j := ShiftUp(list, i, orders);
    ghost var now := list[..count];
    assert now[..i + 1] == list[..i + 1];
    assert forall k :: 0 <= k < count ==> now[k] == list[k];
    assert forall k :: 0 <= k < count ==> was[k] == old(list[k]);
    Inserted(was, now, i, j, orders);
  }

  /** What one insertion does to the list, as a value. */
  lemma Inserted(was: seq<nat>, now: seq<nat>, i: nat, j: nat, orders: nat -> int)
    requires j <= i < |was| == |now| && Ordered(was[..i], orders)
    requires now[j] == was[i] && forall k :: 0 <= k < |now| && (k < j || i < k) ==> now[k] == was[k]
    requires forall k :: j < k <= i ==> now[k] == was[k - 1]
    requires j > 0 ==> orders(was[j - 1]) <= orders(was[i])
    requires j < i ==> orders(was[i]) < orders(was[j])
    ensures multiset(now) == multiset(was) && Ordered(now[..i + 1], orders) && StablyOrdered(now, was, orders)
  {
    hide Ordered, StablyOrdered;
    var low, high, r, rest := was[..j], was[j..i], was[i], was[i + 1..];
    Shifted(was, now, i, j);
    InsertedInOrder(low, high, r, orders);
    MovedDownIsStable(low, high, r, rest, orders);
    MovedDownPermutes(low, high, r, rest);
  }

  lemma Shifted(was: seq<nat>, now: seq<nat>, i: nat, j: nat)
    requires j <= i < |was| == |now|
    requires now[j] == was[i] && forall k :: 0 <= k < |now| && (k < j || i < k) ==> now[k] == was[k]
    requires forall k :: j < k <= i ==> now[k] == was[k - 1]
    ensures was[..i] == was[..j] + was[j..i]
    ensures was == was[..j] + was[j..i] + [was[i]] + was[i + 1..]
    ensures now[..i + 1] == was[..j] + [was[i]] + was[j..i]
    ensures now == was[..j] + [was[i]] + was[j..i] + was[i + 1..]
  {
    assert now[..j] == was[..j] && now[j + 1..i + 1] == was[j..i] && now[i + 1..] == was[i + 1..];
    assert now == now[..j] + [now[j]] + now[j + 1..i + 1] + now[i + 1..];
  }

  lemma OrderedParts(low: seq<nat>, high: seq<nat>, orders: nat -> int)
    requires Ordered(low + high, orders)
    ensures Ordered(low, orders) && Ordered(high, orders)
  {
    var all := low + high;
    assert forall i :: 0 <= i < |low| ==> all[i] == low[i];
    forall i, j | 0 <= i < j < |high|
      ensures orders(high[i]) <= orders(high[j])
    {
      assert all[|low| + i] == high[i] && all[|low| + j] == high[j];
    }
  }

  lemma OrderedJoin(low: seq<nat>, high: seq<nat>, orders: nat -> int)
    requires Ordered(low, orders) && Ordered(high, orders)
    requires forall p, q :: p in low && q in high ==> orders(p) <= orders(q)
    ensures Ordered(low + high, orders)
  {
  }

  lemma InsertedInOrder(low: seq<nat>, high: seq<nat>, r: nat, orders: nat -> int)
    requires Ordered(low + high, orders)
    requires |low| > 0 ==> orders(low[|low| - 1]) <= orders(r)
    requires |high| > 0 ==> orders(r) < orders(high[0])
    ensures Ordered(low + [r] + high, orders)
    ensures forall q :: q in high ==> orders(r) < orders(q)
  {
    OrderedParts(low, high, orders);
    forall p | p in low
      ensures orders(p) <= orders(r)
    {
      var k :| 0 <= k < |low| && low[k] == p;
      assert k < |low| - 1 ==> orders(low[k]) <= orders(low[|low| - 1]);
    }
    forall q | q in high
      ensures orders(r) < orders(q)
    {
      var k :| 0 <= k < |high| && high[k] == q;
      assert k > 0 ==> orders(high[0]) <= orders(high[k]);
    }
    OrderedJoin(low, [r], orders);
    OrderedJoin(low + [r], high, orders);
  }

  lemma MovedDownPermutes(low: seq<nat>, high: seq<nat>, r: nat, rest: seq<nat>)
    ensures multiset(low + [r] + high + rest) == multiset(low + high + [r] + rest)
  {
  }

  /** UacpiNtPowerResResolve: duplicates dropped, at most `max` taken, sorted by resource order. */
  method Resolve(targets: seq<Option<nat>>, max: nat, orders: nat -> int) returns (list: array<nat>, count: nat)
    ensures fresh(list) && count <= max <= list.Length
    ensures Ordered(list[..count], orders) && Distinct(list[..count])
    ensures exists n :: 0 <= n <= |targets| && multiset(list[..count]) == multiset(Mentioned(targets[..n]))
                        && StablyOrdered(list[..count], Mentioned(targets[..n]), orders)
                        && (n == |targets| || count == max)
  {
    list := new nat[max](_ => 0);
    count := 0;
    var i := 0;
    while i < |targets| && count < max
      invariant 0 <= i <= |targets| && count <= max
      invariant list[..count] == Mentioned(targets[..i])
    {
      assert targets[..i + 1][..i] == targets[..i];
      if targets[i].Some? && targets[i].value !in list[..count] {
        list[count] := targets[i].value;
        count := count + 1;
      }
      i := i + 1;
    }
    ghost var picked := list[..count];
    SortByOrder(list, count, orders);
    assert multiset(list[..count]) == multiset(Mentioned(targets[..i]));
    SortedStaysDistinct(picked, list[..count]);
  }

  lemma {:induction false} DistinctCounts(list: seq<nat>, r: nat)
    requires Distinct(list)
    ensures multiset(list)[r] <= 1
  {
    if list != [] {
      var n := |list| - 1;
      DistinctCounts(list[..n], r);
      assert list == list[..n] + [list[n]];
      assert list[n] !in list[..n];
    }
  }

  lemma {:induction false} CountsDistinct(list: seq<nat>)
    requires forall r :: multiset(list)[r] <= 1
    ensures Distinct(list)
  {
    if list != [] {
      var n := |list| - 1;
      var z := list[n];
      assert list == list[..n] + [z];
      assert multiset(list) == multiset(list[..n]) + multiset{z};
      assert z !in list[..n] by {
        assert multiset(list)[z] <= 1;
        assert z in list[..n] <==> z in multiset(list[..n]);
      }
      forall r
        ensures multiset(list[..n])[r] <= 1
      {
        assert multiset(list)[r] <= 1;
      }
      CountsDistinct(list[..n]);
      assert forall i :: 0 <= i < n ==> list[i] == list[..n][i];
    }
  }

  lemma SortedStaysDistinct(a: seq<nat>, b: seq<nat>)
    requires Distinct(a) && multiset(a) == multiset(b)
    ensures Distinct(b)
  {
    forall r
      ensures multiset(b)[r] <= 1
    {
      DistinctCounts(a, r);
    }
    CountsDistinct(b);
  }

  // ----- Counting holders -----

  function Holders(devices: seq<Device>, r: nat): nat {
    if devices == [] then 0
    else Holders(devices[..|devices| - 1], r) + if devices[|devices| - 1].Needs(r) then 1 else 0
  }

  lemma {:induction false} HoldersUpdate(devices: seq<Device>, d: nat, device: Device, r: nat)
    requires d < |devices|
    ensures Holders(devices[d := device], r)
         == Holders(devices, r) - (if devices[d].Needs(r) then 1 else 0) + (if device.Needs(r) then 1 else 0)
  {
    var n := |devices| - 1;
    if d < n {
      HoldersUpdate(devices[..n], d, device, r);
      assert devices[d := device][..n] == devices[..n][d := device];
    } else {
      assert devices[d := device][..n] == devices[..n];
    }
  }

  lemma {:induction false} HolderCounts(devices: seq<Device>, d: nat, r: nat)
    requires d < |devices| && devices[d].Needs(r)
    ensures Holders(devices, r) > 0
  {
    var n := |devices| - 1;
    if d < n {
      HolderCounts(devices[..n], d, r);
    }
  }

  predicate Usable(list: seq<nat>, resources: nat) {
    |list| <= MAX_HELD && Distinct(list) && forall r :: r in list ==> r < resources
  }

  // ----- The record of references -----

  /**
  References taken and dropped and resources woken, in the order they were.
  `ran` tells whether _ON or _OFF was evaluated for the call and how that went.
  */
  datatype Call =
    | Took(r: nat, ran: Option<bool>)
    | Dropped(r: nat, ran: Option<bool>)
    | Woken(r: nat, ran: Option<bool>)

  /** The new state's resources the device does not hold, in resource order. */
  function Taking(list: seq<nat>, held: seq<nat>): seq<nat> {
    if list == [] then []
    else Taking(list[..|list| - 1], held) + if list[|list| - 1] in held then [] else [list[|list| - 1]]
  }

  /** The held resources the new state does not need, in reverse resource order. */
  function Dropping(held: seq<nat>, list: seq<nat>): seq<nat> {
    if held == [] then [] else Dropping(held[1..], list) + if held[0] in list then [] else [held[0]]
  }

  /** A wake list is given back last first. */
  function Backwards(list: seq<nat>): seq<nat> {
    if list == [] then [] else Backwards(list[1..]) + [list[0]]
  }

  lemma TakingNone(held: seq<nat>)
    ensures Taking([], held) == []
  {
  }

  lemma TakingStep(list: seq<nat>, i: nat, held: seq<nat>)
    requires i < |list|
    ensures Taking(list[..i + 1], held) == Taking(list[..i], held) + if list[i] in held then [] else [list[i]]
  {
    assert list[..i + 1][..i] == list[..i];
  }

  lemma DroppingStep(held: seq<nat>, i: nat, list: seq<nat>)
    requires i < |held|
    ensures Dropping(held[i..], list) == Dropping(held[i + 1..], list) + if held[i] in list then [] else [held[i]]
  {
    assert held[i..][1..] == held[i + 1..];
  }

  lemma BackwardsStep(list: seq<nat>, i: nat)
    requires i < |list|
    ensures Backwards(list[i..]) == Backwards(list[i + 1..]) + [list[i]]
  {
    assert list[i..][1..] == list[i + 1..];
  }

  /** The calls are references to these resources in this order. */
  predicate Takes(calls: seq<Call>, rs: seq<nat>) {
    |calls| == |rs| && forall i :: 0 <= i < |rs| ==> calls[i].Took? && calls[i].r == rs[i]
  }

  predicate Drops(calls: seq<Call>, rs: seq<nat>) {
    |calls| == |rs| && forall i :: 0 <= i < |rs| ==> calls[i].Dropped? && calls[i].r == rs[i]
  }

  predicate Wakes(calls: seq<Call>, rs: seq<nat>) {
    |calls| == |rs| && forall i :: 0 <= i < |rs| ==> calls[i].Woken? && calls[i].r == rs[i]
  }

  lemma NothingWoken()
    ensures Wakes([], OnOnes([]))
  {
  }

  lemma WakesStep(calls: seq<Call>, rs: seq<nat>, call: Call)
    requires Wakes(calls, rs) && call.Woken?
    ensures Wakes(calls + [call], rs + [call.r])
  {
  }

  /** The resources that are on, in order. */
  function OnOnes(res: seq<Resource>): (rs: seq<nat>)
    ensures forall r :: r in rs <==> 0 <= r < |res| && res[r].on
  {
    if res == [] then []
    else OnOnes(res[..|res| - 1]) + if res[|res| - 1].on then [|res| - 1] else []
  }

  lemma OnOnesStep(res: seq<Resource>, r: nat)
    requires r < |res|
    ensures OnOnes(res[..r + 1]) == OnOnes(res[..r]) + if res[r].on then [r] else []
  {
    assert res[..r + 1][..r] == res[..r];
  }

  /** The first reference turns a resource on, the last one off, and no other call evaluates anything. */
  predicate Due(res: seq<Resource>, call: Call) {
    && call.r < |res|
    && match call
       case Took(r, ran) => ran.Some? <==> res[r].refCount == 0 && !res[r].on
       case Dropped(r, ran) => ran.Some? <==> res[r].refCount <= 1 && res[r].on
       case Woken(r, ran) => ran.Some? && res[r].on
  }

  function Replay(res: seq<Resource>, call: Call): (now: seq<Resource>)
    ensures |now| == |res|
  {
    if call.r >= |res| then res
    else
      var was := res[call.r];
      match call
      case Took(r, ran) => res[r := Resource(was.order, was.refCount + 1, was.on || ran == Some(true))]
      case Dropped(r, ran) => res[r := Resource(was.order, Max(0, was.refCount - 1), was.on && ran != Some(true))]
      case Woken(_, _) => res
  }

  /** What the calls make of the resources as they were found. */
  function Replayed(found: seq<Resource>, trace: seq<Call>): seq<Resource> {
    if trace == [] then found else Replay(Replayed(found, trace[..|trace| - 1]), trace[|trace| - 1])
  }

  predicate Lawful(found: seq<Resource>, trace: seq<Call>) {
    trace == []
    || (Lawful(found, trace[..|trace| - 1]) && Due(Replayed(found, trace[..|trace| - 1]), trace[|trace| - 1]))
  }

  /** The record is lawful and accounts for the state of every resource. */
  predicate Recorded(found: seq<Resource>, trace: seq<Call>, now: seq<Resource>) {
    Lawful(found, trace) && now == Replayed(found, trace)
  }

  lemma RecordedStep(found: seq<Resource>, trace: seq<Call>, before: seq<Resource>, call: Call)
    requires Recorded(found, trace, before) && Due(before, call)
    ensures Recorded(found, trace + [call], Replay(before, call))
  {
    assert (trace + [call])[..|trace|] == trace;
  }

  /** No reference was ever dropped that had not been taken. */
  predicate Paired(found: seq<Resource>, trace: seq<Call>) {
    trace == []
    || (&& Paired(found, trace[..|trace| - 1])
        && Backed(Replayed(found, trace[..|trace| - 1]), trace[|trace| - 1]))
  }

  /** A drop meets a positive count, so that it takes exactly one off. */
  predicate Backed(res: seq<Resource>, call: Call) {
    call.Dropped? ==> call.r < |res| && res[call.r].refCount > 0
  }

  lemma PairedStep(found: seq<Resource>, trace: seq<Call>, before: seq<Resource>, call: Call)
    requires Recorded(found, trace, before) && Paired(found, trace) && Backed(before, call)
    ensures Paired(found, trace + [call])
  {
    assert (trace + [call])[..|trace|] == trace;
  }

  /** References to the resource taken less those dropped. */
  function Balance(trace: seq<Call>, r: nat): int {
    if trace == [] then 0
    else
      var last := trace[|trace| - 1];
      Balance(trace[..|trace| - 1], r)
      + if last.r != r || last.Woken? then 0 else if last.Took? then 1 else -1
  }

  /** Then the count of a resource is what was taken less what was dropped. */
  lemma {:induction false} CountIsBalance(found: seq<Resource>, trace: seq<Call>, r: nat)
    requires Lawful(found, trace) && Paired(found, trace) && r < |found|
    ensures |Replayed(found, trace)| == |found|
    ensures Replayed(found, trace)[r].refCount == found[r].refCount + Balance(trace, r)
  {
    if trace != [] {
      CountIsBalance(found, trace[..|trace| - 1], r);
    }
  }

  /** The last _ON that a reference to the resource evaluated failed. */
  predicate Failed(trace: seq<Call>, r: nat) {
    if trace == [] then false
    else
      var last := trace[|trace| - 1];
      if last.Took? && last.r == r && last.ran.Some? then !last.ran.value else Failed(trace[..|trace| - 1], r)
  }

  lemma FailedStep(trace: seq<Call>, call: Call, r: nat)
    ensures Failed(trace + [call], r) ==
            if call.Took? && call.r == r && call.ran.Some? then !call.ran.value else Failed(trace, r)
  {
    assert (trace + [call])[..|trace|] == trace;
  }

  /** A resource with a reference is on, unless its last _ON failed. */
  predicate Powered(res: seq<Resource>, trace: seq<Call>, r: nat)
    requires r < |res|
  {
    res[r].refCount > 0 && !Failed(trace, r) ==> res[r].on
  }

  lemma PoweredStep(res: seq<Resource>, trace: seq<Call>, call: Call, r: nat)
    requires r < |res| && Due(res, call) && Powered(res, trace, r)
    ensures Powered(Replay(res, call), trace + [call], r)
  {
    FailedStep(trace, call, r);
  }

  /** Since `was` these were referenced, and nothing that was on before went off. */
  predicate TookSince(was: seq<Call>, before: seq<Resource>, rs: seq<nat>, trace: seq<Call>, now: seq<Resource>) {
    && was <= trace && Takes(trace[|was|..], rs)
    && |now| == |before| && forall r :: 0 <= r < |now| && before[r].on ==> now[r].on
  }

  lemma TookStep(was: seq<Call>, before: seq<Resource>, rs: seq<nat>, trace: seq<Call>, now: seq<Resource>, call: Call)
    requires TookSince(was, before, rs, trace, now) && call.Took?
    ensures TookSince(was, before, rs + [call.r], trace + [call], Replay(now, call))
  {
    assert (trace + [call])[|was|..] == trace[|was|..] + [call];
  }

  /**
  Since `was` references to these were dropped. _OFF was evaluated only for
  resources without a reference left; only such a resource went off, and none
  came on.
  */
  predicate DroppedSince(was: seq<Call>, before: seq<Resource>, rs: seq<nat>, trace: seq<Call>, now: seq<Resource>) {
    && was <= trace && Drops(trace[|was|..], rs)
    && (forall k :: |was| <= k < |trace| && trace[k].ran.Some? ==> Idle(now, trace[k].r))
    && |now| == |before|
    && forall r :: 0 <= r < |now| && now[r].on != before[r].on ==> !now[r].on && Idle(now, r)
  }

  predicate Idle(res: seq<Resource>, r: nat) {
    r < |res| && res[r].refCount == 0
  }

  lemma DroppedStep(was: seq<Call>, before: seq<Resource>, rs: seq<nat>, trace: seq<Call>, now: seq<Resource>,
                    call: Call)
    requires DroppedSince(was, before, rs, trace, now) && call.Dropped? && Due(now, call)
    ensures DroppedSince(was, before, rs + [call.r], trace + [call], Replay(now, call))
  {
    var trace', now' := trace + [call], Replay(now, call);
    assert trace'[|was|..] == trace[|was|..] + [call];
    forall k | |was| <= k < |trace'| && trace'[k].ran.Some?
      ensures Idle(now', trace'[k].r)
    {
      if k < |trace| {
        assert Idle(now, trace[k].r);
      }
    }
    forall r | 0 <= r < |now'| && now'[r].on != before[r].on
      ensures !now'[r].on && Idle(now', r)
    {
      if now[r].on != before[r].on {
        assert Idle(now, r);
      }
    }
  }

  // ----- The manager -----

  class PowerManager {
    const resources: array<Resource>
    const devices: array<Device>
    ghost const found: seq<Resource>    // the resources as they were found
    ghost var wake: multiset<nat>       // outstanding wake acquisitions, by resource
    ghost var trace: seq<Call>

    /** Each count is the devices that hold or newly need the resource plus its wake acquisitions. */
    ghost predicate Counted(r: nat)
      reads this, resources, devices
      requires r < resources.Length
    {
      resources[r].refCount == Holders(devices[..], r) + wake[r] && Powered(resources[..], trace, r)
    }

    ghost predicate Valid()
      reads this, resources, devices
    {
      && Recorded(found, trace, resources[..]) && Paired(found, trace)
      && (forall r :: 0 <= r < resources.Length ==> Counted(r))
      && (forall r :: r in wake ==> r < resources.Length)
      && (forall d :: 0 <= d < devices.Length ==> Usable(devices[d].held, resources.Length))
      && (forall d :: 0 <= d < devices.Length && devices[d].pending.Some? ==>
                        Usable(devices[d].pending.value, resources.Length))
    }

    /** Resources as found by their _STA, nobody holding any. */
    constructor (found: seq<Resource>, count: nat)
      requires forall r :: 0 <= r < |found| ==> found[r].refCount == 0
      ensures Valid() && resources[..] == found == this.found && devices.Length == count
      ensures forall d :: 0 <= d < count ==> devices[d] == Device([], None)
    {
      resources := new Resource[|found|](i requires 0 <= i < |found| => found[i]);
      devices := new Device[count](_ => Device([], None));
      this.found := found;
      wake, trace := multiset{}, [];
      new;
      assert resources[..] == found;
      forall r | 0 <= r < resources.Length
        ensures Counted(r)
      {
        NobodyHolds(devices[..], r);
      }
    }

    /** UacpiNtPowerResReference: the first reference runs _ON unless the resource is on. */
    method Reference(r: nat) returns (ghost call: Call)
      requires r < resources.Length && Recorded(found, trace, resources[..])
      modifies this`trace, resources
      ensures Recorded(found, trace, resources[..])
      ensures trace == old(trace) + [call] && call.Took? && call.r == r && Due(old(resources[..]), call)
      ensures resources[..] == Replay(old(resources[..]), call)
    {
      hide Recorded;
      ghost var before := resources[..];
      resources[r] := resources[r].(refCount := resources[r].refCount + 1);
      var ran := None;
      if resources[r].refCount == 1 && !resources[r].on {
        var ok := Evaluate();
        if ok {
          resources[r] := resources[r].(on := true);
        }
        ran := Some(ok);
      }
      call := Took(r, ran);
      RecordedStep(found, trace, before, call);
      trace := trace + [call];
      assert resources[..] == Replay(before, call);
    }

    /** UacpiNtPowerResDereference: the last reference runs _OFF if the resource is on. */
    method Dereference(r: nat) returns (ghost call: Call)
      requires r < resources.Length && Recorded(found, trace, resources[..])
      modifies this`trace, resources
      ensures Recorded(found, trace, resources[..])
      ensures trace == old(trace) + [call] && call.Dropped? && call.r == r && Due(old(resources[..]), call)
      ensures resources[..] == Replay(old(resources[..]), call)
    {
      hide Recorded;
      ghost var before := resources[..];
      if resources[r].refCount > 0 {
        resources[r] := resources[r].(refCount := resources[r].refCount - 1);
      }
      var ran := None;
      if resources[r].refCount == 0 && resources[r].on {
        var ok := Evaluate();
        if ok {
          resources[r] := resources[r].(on := false);
        }
        ran := Some(ok);
      }
      call := Dropped(r, ran);
      RecordedStep(found, trace, before, call);
      trace := trace + [call];
      assert resources[..] == Replay(before, call);
    }

    /** References taken so far by a device that moves to `list`. */
    ghost predicate AcquiringAt(d: nat, list: seq<nat>, i: nat, r: nat)
      reads this, resources, devices
      requires d < devices.Length && i <= |list| && r < resources.Length
    {
      && resources[r].refCount
         == Holders(devices[..], r) + wake[r] + (if r in list[..i] && r !in devices[d].held then 1 else 0)
      && Powered(resources[..], trace, r)
    }

    ghost predicate Acquiring(d: nat, list: seq<nat>, i: nat)
      reads this, resources, devices
      requires d < devices.Length && i <= |list|
    {
      && Recorded(found, trace, resources[..]) && Paired(found, trace)
      && forall r :: 0 <= r < resources.Length ==> AcquiringAt(d, list, i, r)
    }

    lemma NothingAcquired(d: nat, list: seq<nat>)
      requires Valid() && d < devices.Length
      ensures Acquiring(d, list, 0)
    {
      forall r | 0 <= r < resources.Length
        ensures AcquiringAt(d, list, 0, r)
      {
        assert Counted(r);
      }
    }

    /** Takes, in resource order, what the new state needs and the device does not hold. */
    method TakeNeeded(d: nat, list: seq<nat>)
      requires Valid() && d < devices.Length && Usable(list, resources.Length)
      modifies this`trace, resources
      ensures Acquiring(d, list, |list|)
      ensures TookSince(old(trace), old(resources[..]), Taking(list, devices[d].held), trace, resources[..])
    {
      hide Holders, Usable, Distinct, Taking, TookSince, Recorded;
      UsableInRange(list, resources.Length);
      NothingAcquired(d, list);
      TakingNone(devices[d].held);
      NothingYet(trace, resources[..]);
      assert list[..0] == [];
      for i := 0 to |list|
        invariant Acquiring(d, list, i)
        invariant TookSince(old(trace), old(resources[..]), Taking(list[..i], devices[d].held), trace, resources[..])
      {
        hide Acquiring;
        UsableIsDistinct(list, i, resources.Length);
        TakingStep(list, i, devices[d].held);
        TakeOne(d, list, i, old(trace), old(resources[..]), Taking(list[..i], devices[d].held));
      }
      assert list[..|list|] == list;
    }

    /** One resource of the list is referenced unless the device holds it. */
    method TakeOne(d: nat, list: seq<nat>, i: nat,
                   ghost was: seq<Call>, ghost before: seq<Resource>, ghost taken: seq<nat>)
      requires d < devices.Length && i < |list| && list[i] < resources.Length && list[i] !in list[..i]
      requires Acquiring(d, list, i) && TookSince(was, before, taken, trace, resources[..])
      modifies this`trace, resources
      ensures Acquiring(d, list, i + 1)
      ensures TookSince(was, before, taken + if list[i] in devices[d].held then [] else [list[i]], trace, resources[..])
    {
      hide Holders, TookSince, Recorded, Powered, Due;
      var r := list[i];
      ghost var next := i + 1;
      assert list[..next] == list[..i] + [r];
      assert taken + [] == taken;
      ghost var res, calls := resources[..], trace;
      if r !in devices[d].held {
        ghost var call := Reference(r);
        TookStep(was, before, taken, calls, res, call);
        PairedStep(found, calls, res, call);
        forall q | 0 <= q < resources.Length
          ensures AcquiringAt(d, list, next, q)
        {
          assert old(AcquiringAt(d, list, i, q));
          PoweredStep(res, calls, call, q);
          assert resources[..][q] == resources[q];
        }
      } else {
        forall q | 0 <= q < resources.Length
          ensures AcquiringAt(d, list, next, q)
        {
          assert AcquiringAt(d, list, i, q);
        }
      }
    }

    /** Before _PSx: UacpiNtPowerResAcquireForState with the resolved list of the new state. */
    method AcquireForState(d: nat, list: seq<nat>)
      requires Valid() && d < devices.Length && devices[d].pending.None? && Usable(list, resources.Length)
      modifies this`trace, resources, devices
      ensures Valid()
      ensures devices[..] == old(devices[..])[d := old(devices[d]).(pending := Some(list))]
      // What the device lacks is referenced in order, and nothing goes off.
      ensures TookSince(old(trace), old(resources[..]), Taking(list, old(devices[d].held)), trace, resources[..])
      // Everything the new state needs is on, unless its last _ON failed.
      ensures forall r :: r in list && !Failed(trace, r) ==> r < resources.Length && resources[r].on
    {
      hide Holders, Usable, Distinct, Taking, TookSince, Recorded, Failed;
      UsableInRange(list, resources.Length);
      TakeNeeded(d, list);
      assert list[..|list|] == list;
      ghost var was := devices[..];
      label Done:
      devices[d] := devices[d].(pending := Some(list));
      assert devices[..] == was[d := devices[d]];
      forall r | 0 <= r < resources.Length
        ensures Counted(r)
      {
        assert old@Done(AcquiringAt(d, list, |list|, r));
        HoldersUpdate(was, d, devices[d], r);
      }
      forall r | r in list && !Failed(trace, r)
        ensures resources[r].on
      {
        HolderCounts(devices[..], d, r);
        assert Counted(r);
      }
    }

    /** References still held by a device that leaves what `list` does not name. */
    ghost predicate ReleasingAt(d: nat, list: seq<nat>, i: nat, r: nat)
      reads this, resources, devices
      requires d < devices.Length && i <= |devices[d].held| && r < resources.Length
    {
      && resources[r].refCount
         == Holders(devices[..], r) + wake[r] - (if r in devices[d].held[i..] && r !in list then 1 else 0)
      && Powered(resources[..], trace, r)
    }

    ghost predicate Releasing(d: nat, list: seq<nat>, i: nat)
      reads this, resources, devices
      requires d < devices.Length && i <= |devices[d].held|
    {
      && Recorded(found, trace, resources[..]) && Paired(found, trace)
      && forall r :: 0 <= r < resources.Length ==> ReleasingAt(d, list, i, r)
    }

    lemma NothingReleased(d: nat, list: seq<nat>)
      requires Valid() && d < devices.Length
      ensures Releasing(d, list, |devices[d].held|)
    {
      forall r | 0 <= r < resources.Length
        ensures ReleasingAt(d, list, |devices[d].held|, r)
      {
        assert Counted(r);
      }
    }

    /** Drops, in reverse resource order, what the device holds and the new state does not need. */
    method DropUnneeded(d: nat, list: seq<nat>)
      requires Valid() && d < devices.Length
      modifies this`trace, resources
      ensures Releasing(d, list, 0)
      ensures DroppedSince(old(trace), old(resources[..]), Dropping(devices[d].held, list), trace, resources[..])
    {
      hide Holders, Usable, Distinct, Dropping, DroppedSince, Recorded;
      var held := devices[d].held;
      UsableInRange(held, resources.Length);
      NothingReleased(d, list);
      NothingYet(trace, resources[..]);
      DroppingNone(held, list);
      for i := |held| downto 0
        invariant Releasing(d, list, i)
        invariant DroppedSince(old(trace), old(resources[..]), Dropping(held[i..], list), trace, resources[..])
      {
        hide Releasing;
        UsableIsDistinctAbove(held, i, resources.Length);
        DroppingStep(held, i, list);
        DropOne(d, list, i, old(trace), old(resources[..]), Dropping(held[i + 1..], list));
      }
      assert held[0..] == held;
    }

    /** One held resource is dropped unless the new state needs it. */
    method DropOne(d: nat, list: seq<nat>, i: nat,
                   ghost was: seq<Call>, ghost before: seq<Resource>, ghost dropped: seq<nat>)
      requires d < devices.Length && i < |devices[d].held| && devices[d].held[i] < resources.Length
      requires devices[d].held[i] !in devices[d].held[i + 1..]
      requires Releasing(d, list, i + 1) && DroppedSince(was, before, dropped, trace, resources[..])
      modifies this`trace, resources
      ensures Releasing(d, list, i)
      ensures var r := devices[d].held[i];
              DroppedSince(was, before, dropped + if r in list then [] else [r], trace, resources[..])
    {
      hide Holders, DroppedSince, Recorded, Powered, Due;
      var held := devices[d].held;
      var r := held[i];
      assert held[i..] == [r] + held[i + 1..];
      assert dropped + [] == dropped;
      ghost var res, calls := resources[..], trace;
      HolderCounts(devices[..], d, r);
      assert ReleasingAt(d, list, i + 1, r);
      if r !in list {
        ghost var call := Dereference(r);
        DroppedStep(was, before, dropped, calls, res, call);
        PairedStep(found, calls, res, call);
        forall q | 0 <= q < resources.Length
          ensures ReleasingAt(d, list, i, q)
        {
          assert old(ReleasingAt(d, list, i + 1, q));
          PoweredStep(res, calls, call, q);
          assert resources[..][q] == resources[q];
        }
      } else {
        forall q | 0 <= q < resources.Length
          ensures ReleasingAt(d, list, i, q)
        {
          assert ReleasingAt(d, list, i + 1, q);
        }
      }
    }

    /** After _PSx: UacpiNtPowerResReleaseDelta drops what the new state does not need. */
    method ReleaseDelta(d: nat)
      requires Valid() && d < devices.Length && devices[d].pending.Some?
      modifies this`trace, resources, devices
      ensures Valid()
      ensures devices[..] == old(devices[..])[d := Device(old(devices[d].pending.value), None)]
      ensures var dropped := Dropping(old(devices[d].held), old(devices[d].pending.value));
              DroppedSince(old(trace), old(resources[..]), dropped, trace, resources[..])
      // An idle resource is one that nobody holds or needs and no wake is armed on.
      ensures forall r :: Idle(resources[..], r) ==> Holders(devices[..], r) == 0 && wake[r] == 0
    {
      hide Holders, Usable, Distinct, Dropping, DroppedSince, Recorded;
      var list := devices[d].pending.value;
      DropUnneeded(d, list);
      ghost var was := devices[..];
      assert was[d].held[0..] == was[d].held;
      label Done:
      devices[d] := Device(list, None);
      assert devices[..] == was[d := devices[d]];
      forall r | 0 <= r < resources.Length
        ensures Counted(r)
      {
        assert old@Done(ReleasingAt(d, list, 0, r));
        HoldersUpdate(was, d, devices[d], r);
      }
      UnusedIsUnheld();
    }

    /** UacpiNtPowerResAcquireWake with the resolved _PRW list. */
    method AcquireWake(list: seq<nat>)
      requires Valid() && Usable(list, resources.Length)
      modifies this`wake, this`trace, resources
      ensures Valid() && wake == old(wake) + multiset(list)
      ensures TookSince(old(trace), old(resources[..]), list, trace, resources[..])
      // Everything on the list is on, unless its last _ON failed.
      ensures forall r :: r in list && !Failed(trace, r) ==> r < resources.Length && resources[r].on
    {
      hide Holders, Usable, Distinct, TookSince, Recorded, Failed, Valid;
      UsableInRange(list, resources.Length);
      NothingYet(trace, resources[..]);
      assert list[..0] == [];
      for i := 0 to |list|
        invariant Valid() && wake == old(wake) + multiset(list[..i])
        invariant TookSince(old(trace), old(resources[..]), list[..i], trace, resources[..])
      {
        assert list[..i + 1] == list[..i] + [list[i]];
        TakeOneWake(list[i], old(trace), old(resources[..]), list[..i]);
      }
      assert list[..|list|] == list;
      forall r | r in list && !Failed(trace, r)
        ensures resources[r].on
      {
        WakeIsPowered(r);
      }
    }

    lemma WakeIsPowered(r: nat)
      requires Valid() && r < resources.Length && r in wake && !Failed(trace, r)
      ensures resources[r].on
    {
      assert Counted(r);
    }

    /** One wake reference is taken. */
    method TakeOneWake(r: nat, ghost was: seq<Call>, ghost before: seq<Resource>, ghost taken: seq<nat>)
      requires Valid() && r < resources.Length && TookSince(was, before, taken, trace, resources[..])
      modifies this`wake, this`trace, resources
      ensures Valid() && wake == old(wake) + multiset{r}
      ensures TookSince(was, before, taken + [r], trace, resources[..])
    {
      hide Holders, Usable, TookSince, Recorded, Powered, Due;
      ghost var res, calls := resources[..], trace;
      ghost var call := Reference(r);
      wake := wake + multiset{r};
      TookStep(was, before, taken, calls, res, call);
      PairedStep(found, calls, res, call);
      forall q | 0 <= q < resources.Length
        ensures Counted(q)
      {
        assert old(Counted(q));
        PoweredStep(res, calls, call, q);
        assert resources[..][q] == resources[q];
      }
    }

    /** One wake reference is given back. */
    method DropOneWake(r: nat, ghost was: seq<Call>, ghost before: seq<Resource>, ghost dropped: seq<nat>)
      requires Valid() && r in wake && DroppedSince(was, before, dropped, trace, resources[..])
      modifies this`wake, this`trace, resources
      ensures Valid() && wake == old(wake) - multiset{r}
      ensures DroppedSince(was, before, dropped + [r], trace, resources[..])
    {
      hide Holders, Usable, DroppedSince, Recorded, Powered, Due;
      assert Counted(r);
      ghost var res, calls := resources[..], trace;
      ghost var call := Dereference(r);
      wake := wake - multiset{r};
      DroppedStep(was, before, dropped, calls, res, call);
      PairedStep(found, calls, res, call);
      forall q | 0 <= q < resources.Length
        ensures Counted(q)
      {
        assert old(Counted(q));
        PoweredStep(res, calls, call, q);
        assert resources[..][q] == resources[q];
      }
    }

    /** UacpiNtPowerResReleaseWake of something acquired earlier. */
    method ReleaseWake(list: seq<nat>)
      requires Valid() && multiset(list) <= wake
      modifies this`wake, this`trace, resources
      ensures Valid() && wake == old(wake) - multiset(list)
      ensures DroppedSince(old(trace), old(resources[..]), Backwards(list), trace, resources[..])
      // An idle resource is one that nobody holds or needs and no wake is armed on.
      ensures forall r :: Idle(resources[..], r) ==> Holders(devices[..], r) == 0 && wake[r] == 0
    {
      hide Holders, Usable, Distinct, Valid, WakeAfter, DroppedSince, Backwards;
      ghost var wakeBefore := wake;
      ReleaseEnds(wake, list);
      NothingYet(trace, resources[..]);
      BackwardsNone(list);
      for i := |list| downto 0
        invariant Valid() && wake == WakeAfter(wakeBefore, list, i)
        invariant DroppedSince(old(trace), old(resources[..]), Backwards(list[i..]), trace, resources[..])
      {
        ReleaseStep(wakeBefore, list, i);
        BackwardsStep(list, i);
        DropOneWake(list[i], old(trace), old(resources[..]), Backwards(list[i + 1..]));
      }
      assert list[0..] == list;
      UnusedIsUnheld();
    }

    /** UacpiNtPowerResResume: _ON is evaluated for every resource that is on, and how that goes changes nothing. */
    method Resume()
      requires Valid()
      modifies this`trace
      ensures Valid()
      ensures old(trace) <= trace && Wakes(trace[|old(trace)|..], OnOnes(resources[..]))
      ensures forall r :: Failed(trace, r) == Failed(old(trace), r)
    {
      hide OnOnes, Valid, Failed, Wakes;
      ghost var res := resources[..];
      assert res[..0] == [] && trace[|trace|..] == [];
      NothingWoken();
      for r := 0 to resources.Length
        invariant Valid()
        invariant old(trace) <= trace && Wakes(trace[|old(trace)|..], OnOnes(res[..r]))
        invariant forall q :: Failed(trace, q) == Failed(old(trace), q)
      {
        OnOnesStep(res, r);
        assert OnOnes(res[..r]) + [] == OnOnes(res[..r]) && res[r] == resources[r];
        if resources[r].on {
          ghost var calls := trace;
          ghost var call := Wake(r);
          WakesStep(calls[|old(trace)|..], OnOnes(res[..r]), call);
          assert trace[|old(trace)|..] == calls[|old(trace)|..] + [call];
        }
      }
      assert res[..resources.Length] == res;
    }

    /** One resource that is on is turned on again. */
    method Wake(r: nat) returns (ghost call: Call)
      requires Valid() && r < resources.Length && resources[r].on
      modifies this`trace
      ensures Valid() && trace == old(trace) + [call] && call.Woken? && call.r == r
      ensures forall q :: Failed(trace, q) == Failed(old(trace), q)
    {
      hide Holders, Usable, Recorded, Powered, Failed, Paired;
      ghost var res, calls := resources[..], trace;
      var ok := Evaluate();
      call := Woken(r, Some(ok));
      RecordedStep(found, calls, res, call);
      PairedStep(found, calls, res, call);
      trace := trace + [call];
      forall q | 0 <= q < resources.Length
        ensures Counted(q)
      {
        assert old(Counted(q));
        PoweredStep(res, calls, call, q);
      }
      forall q
        ensures Failed(trace, q) == Failed(calls, q)
      {
        FailedStep(calls, call, q);
      }
    }

    /** A count of zero means that nobody holds or needs the resource and no wake is armed on it. */
    lemma UnusedIsUnheld()
      requires Valid()
      ensures forall r :: Idle(resources[..], r) ==> Holders(devices[..], r) == 0 && wake[r] == 0
    {
      forall r | Idle(resources[..], r)
        ensures Holders(devices[..], r) == 0 && wake[r] == 0
      {
        assert Counted(r);
      }
    }

    /** Evaluating _ON or _OFF may fail. */
    method Evaluate() returns (ok: bool) {
      ok := *;
    }
  }

  lemma NothingYet(trace: seq<Call>, res: seq<Resource>)
    ensures TookSince(trace, res, [], trace, res) && DroppedSince(trace, res, [], trace, res)
  {
  }

  lemma DroppingNone(held: seq<nat>, list: seq<nat>)
    ensures Dropping(held[|held|..], list) == []
  {
  }

  lemma BackwardsNone(list: seq<nat>)
    ensures Backwards(list[|list|..]) == []
  {
  }

  /** The wake acquisitions that remain once those of the list from `i` on are given back. */
  ghost function WakeAfter(wake: multiset<nat>, list: seq<nat>, i: nat): multiset<nat>
    requires i <= |list|
  {
    wake - multiset(list[i..])
  }

  lemma ReleaseEnds(wake: multiset<nat>, list: seq<nat>)
    ensures WakeAfter(wake, list, |list|) == wake && WakeAfter(wake, list, 0) == wake - multiset(list)
  {
    assert list[|list|..] == [] && list[0..] == list;
  }

  lemma ReleaseStep(wake: multiset<nat>, list: seq<nat>, i: nat)
    requires multiset(list) <= wake && i < |list|
    ensures list[i] in WakeAfter(wake, list, i + 1)
    ensures WakeAfter(wake, list, i) == WakeAfter(wake, list, i + 1) - multiset{list[i]}
  {
    assert list == list[..i] + ([list[i]] + list[i + 1..]);
    assert list[i..] == [list[i]] + list[i + 1..];
  }

  lemma UsableInRange(list: seq<nat>, n: nat)
    requires Usable(list, n)
    ensures forall r :: r in list ==> r < n
    ensures forall i :: 0 <= i < |list| ==> list[i] < n
  {
    assert forall i :: 0 <= i < |list| ==> list[i] in list;
  }

  lemma UsableIsDistinct(list: seq<nat>, i: nat, n: nat)
    requires Usable(list, n) && i < |list|
    ensures list[i] !in list[..i]
  {
  }

  lemma UsableIsDistinctAbove(list: seq<nat>, i: nat, n: nat)
    requires Usable(list, n) && i < |list|
    ensures list[i] !in list[i + 1..]
  {
  }

  lemma {:induction false} NobodyHolds(devices: seq<Device>, r: nat)
    requires forall d :: 0 <= d < |devices| ==> devices[d] == Device([], None)
    ensures Holders(devices, r) == 0
  {
    if devices != [] {
      NobodyHolds(devices[..|devices| - 1], r);
    }
  }
}
