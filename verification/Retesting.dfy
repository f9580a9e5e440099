/** A retest lays down, without searching, exactly what the test before it found. */
module Retesting {
  import opened Words
  import opened RangeLists
  import opened ArbiterTypes
  import opened Placement
  import opened Attempts
  import opened Premises
  import opened Descriptors
  import opened ArbitrationLists
  import opened Stacks
  import opened Solver
  import opened Soundness
  import opened Search
  import opened Arbiters

  // ----- The lists it is claimed for -----

  ghost predicate PlainDescriptor(os: seq<Ordering>, d: IoDescriptor) {
    && d.length != 0 && WellFormed(d) && d.share != DriverExclusive
    && BuildAlternative(d).Some?
    && (BuildAlternative(d).value.fixed ==> NoWindowCarries(os, BuildAlternative(d).value))
  }

  ghost predicate PlainEntry(os: seq<Ordering>, e: Entry) {
    && e.device != NULL && e.hasAssignment && e.alternatives != [] && e.result != NullRequest
    && forall d :: d in e.alternatives ==> PlainDescriptor(os, d)
  }

  /**
  A fixed alternative of `e` can come to hold bounds that an alternative of
  `f`, a request of the same device, can hold with the other sharing flag.
  */
  ghost predicate TwinEntries(setup: Setup, e: Entry, f: Entry) {
    && e.device == f.device
    && exists c, d :: c in e.alternatives && d in f.alternatives && TwinDescriptors(setup, e.device, c, d)
  }

  ghost predicate TwinDescriptors(setup: Setup, device: Device, c: IoDescriptor, d: IoDescriptor) {
    && BuildAlternative(c).Some? && BuildAlternative(d).Some?
    && Twins(setup, device, BuildAlternative(c).value, BuildAlternative(d).value)
  }

  ghost predicate PlainList(setup: Setup, committed: seq<Range>, es: seq<Entry>) {
    && (forall r :: r in committed ==> SharedDriver !in r.attributes)
    && (forall e :: e in es ==> PlainEntry(setup.orderings, e))
  }

  ghost predicate TwinFree(setup: Setup, es: seq<Entry>) {
    forall i, j :: 0 <= i < |es| && 0 <= j < |es| && i != j ==> !TwinEntries(setup, es[i], es[j])
  }

  // ----- From the list to the stack -----

  lemma ReorderedEntry(es: seq<Entry>, order: seq<Entry>, e: Entry) returns (f: Entry)
    requires StablyReordered(order, ScoredAll(es)) && e in order
    ensures f in es && e == Scored(f)
  {
    StableSameEntries(order, ScoredAll(es), e);
    var i :| 0 <= i < |es| && ScoredAll(es)[i] == e;
    f := es[i];
  }

  lemma ReorderedDevices(es: seq<Entry>, order: seq<Entry>)
    requires StablyReordered(order, ScoredAll(es))
    ensures Devices(order) == Devices(es)
  {
    forall e | e in order
      ensures e.device in Devices(es)
    {
      var f := ReorderedEntry(es, order, e);
    }
    forall f | f in es
      ensures f.device in Devices(order)
    {
      var i :| 0 <= i < |es| && es[i] == f;
      assert ScoredAll(es)[i] in ScoredAll(es);
      StableSameEntries(order, ScoredAll(es), Scored(f));
    }
  }

  lemma PlainReordered(setup: Setup, committed: seq<Range>, es: seq<Entry>, order: seq<Entry>)
    requires PlainList(setup, committed, es) && StablyReordered(order, ScoredAll(es))
    ensures PlainList(setup, committed, order)
  {
    forall e | e in order
      ensures PlainEntry(setup.orderings, e)
    {
      var f := ReorderedEntry(es, order, e);
      assert PlainEntry(setup.orderings, f);
    }
  }

  lemma TwinFreeReordered(setup: Setup, es: seq<Entry>, order: seq<Entry>)
    requires TwinFree(setup, es) && StablyReordered(order, ScoredAll(es))
    ensures TwinFree(setup, order)
  {
    hide StablyReordered, TwinEntries;
    StableSameMultiset(order, ScoredAll(es));
    forall i, j | 0 <= i < |order| && 0 <= j < |order| && i != j
      ensures !TwinEntries(setup, order[i], order[j])
    {
      var i', j' := SameMultisetPair(order, ScoredAll(es), i, j);
      ScoreMakesNoTwins(setup, es[i'], es[j']);
    }
  }

  lemma ScoreMakesNoTwins(setup: Setup, e: Entry, f: Entry)
    ensures TwinEntries(setup, Scored(e), Scored(f)) <==> TwinEntries(setup, e, f)
  {
  }

  lemma BuiltIsHonest(os: seq<Ordering>, d: IoDescriptor)
    requires PlainDescriptor(os, d)
    ensures PlainAlternative(os, BuildAlternative(d).value)
    ensures BuildAlternative(d).value.length != 0
    ensures BuildAlternative(d).value.shared == (d.share == Shared)
  {
  }

  lemma OpeningIsPlain(os: seq<Ordering>, e: Entry, k: nat)
    requires PlainEntry(os, e) && Buildable(e) && k < |e.alternatives|
    ensures PlainAlternative(os, Opening(e).alternatives[k])
    ensures Opening(e).alternatives[k].length != 0
    ensures Opening(e).alternatives[k].shared == (e.alternatives[k].share == Shared)
  {
    assert e.alternatives[k] in e.alternatives;
    BuiltIsHonest(os, e.alternatives[k]);
  }

  lemma StackOfAll(es: seq<Entry>)
    requires forall e :: e in es ==> Buildable(e) && e.alternatives != []
    ensures |Stack(es)| == |es| && forall i :: 0 <= i < |es| ==> Stack(es)[i] == Opening(es[i])
  {
  }

  lemma StackHasNoTwins(setup: Setup, es: seq<Entry>)
    requires forall e :: e in es ==> Buildable(e) && PlainEntry(setup.orderings, e)
    requires TwinFree(setup, es)
    ensures NoTwins(setup, Stack(es))
  {
    hide PlainEntry, Twins, Buildable, Alternatives;
    StackOfPlain(setup.orderings, es);
    var init := Stack(es);
    forall i, j, a, b | 0 <= i < |init| && 0 <= j < |init| && i != j && init[i].entry.device == init[j].entry.device
                        && 0 <= a < |init[i].alternatives| && 0 <= b < |init[j].alternatives|
      ensures !Twins(setup, init[i].entry.device, init[i].alternatives[a], init[j].alternatives[b])
    {
      assert es[i] in es && es[j] in es;
      OpeningsAreNoTwins(setup, es[i], es[j], a, b);
    }
  }

  lemma OpeningsAreNoTwins(setup: Setup, e: Entry, f: Entry, a: nat, b: nat)
    requires Buildable(e) && Buildable(f) && e.device == f.device && !TwinEntries(setup, e, f)
    requires a < |e.alternatives| && b < |f.alternatives|
    ensures !Twins(setup, e.device, Opening(e).alternatives[a], Opening(f).alternatives[b])
  {
    hide Twins, BuildAlternative;
    var c, d := e.alternatives[a], f.alternatives[b];
    assert c in e.alternatives && d in f.alternatives;
    assert !TwinDescriptors(setup, e.device, c, d);
  }

  lemma StackIsForeign(os: seq<Ordering>, start: seq<Range>, es: seq<Entry>)
    requires forall e :: e in es ==> Buildable(e) && PlainEntry(os, e)
    requires forall r :: r in start ==> r.owner !in Devices(es)
    ensures Foreign(start, Stack(es))
  {
    hide PlainEntry, Buildable, Alternatives;
    StackOfPlain(os, es);
    forall i | 0 <= i < |Stack(es)|
      ensures Stack(es)[i].entry.device in Devices(es)
    {
      assert es[i] in es;
    }
  }

  lemma StackOfPlain(os: seq<Ordering>, es: seq<Entry>)
    requires forall e :: e in es ==> Buildable(e) && PlainEntry(os, e)
    ensures |Stack(es)| == |es| && forall i :: 0 <= i < |es| ==> Stack(es)[i] == Opening(es[i])
  {
    StackOfAll(es);
  }

  lemma StackIsPlain(setup: Setup, committed: seq<Range>, es: seq<Entry>)
    requires PlainList(setup, committed, es) && forall e :: e in es ==> Buildable(e)
    ensures Plain(setup, WithoutOwners(committed, Devices(es)), Stack(es))
  {
    hide PlainEntry, PlainAlternative, Buildable, Foreign, Devices;
    StackOfPlain(setup.orderings, es);
    StackIsForeign(setup.orderings, WithoutOwners(committed, Devices(es)), es);
    var init := Stack(es);
    forall i, a | 0 <= i < |init| && 0 <= a < |init[i].alternatives|
      ensures PlainAlternative(setup.orderings, init[i].alternatives[a])
    {
      assert es[i] in es;
      OpeningIsPlain(setup.orderings, es[i], a);
    }
  }

  // ----- One entry -----

  /** The alternative a placed state chose is the one its requester is told about. */
  lemma ChosenWasBuilt(os: seq<Ordering>, e: Entry, s: State)
    requires PlainEntry(os, e) && Buildable(e) && s.SameRequest(Opening(e)) && s.HasCurrent()
    ensures PlainDescriptor(os, s.Chosen().descriptor)
    ensures BuildAlternative(s.Chosen().descriptor) == Some(s.Chosen().(priority := 0))
    ensures s.Chosen().length != 0 && !AsksForNothing(s.alternatives)
  {
    var k := s.current.value;
    forall i | 0 <= i < |s.alternatives|
      ensures s.alternatives[i].length != 0
    {
      assert s.alternatives[i].SameRequest(Opening(e).alternatives[i]);
      OpeningIsPlain(os, e, i);
    }
    assert s.alternatives[k].SameRequest(Opening(e).alternatives[k]);
    assert e.alternatives[k] in e.alternatives;
    assert Opening(e).alternatives[k].descriptor == e.alternatives[k];
  }

  /** What the entry of a placed state carries for a retest. */
  lemma ToldCarries(setup: Setup, e: Entry, s: State)
    requires PlainEntry(setup.orderings, e) && Buildable(e) && s.SameRequest(Opening(e))
    requires FitsRequest(setup.orderings, s) && Told(s)
    ensures s.entry.result != NullRequest && Redoable(s.entry) && s.Chosen().length != 0
    ensures UnpackResource(s.entry.assignment) == Some((s.start, s.Chosen().length))
    ensures BuildAlternative(s.entry.selected.value) == Some(s.Chosen().(priority := 0))
  {
    hide AsksForNothing;
    ChosenWasBuilt(setup.orderings, e, s);
    var d := s.Chosen().descriptor;
    assert s.start <= d.maximum && s.Chosen().length == d.length;
    PackRoundTrip(d, s.start);
  }

  lemma RetestStandsThere(setup: Setup, s: State)
    requires FitsRequest(setup.orderings, s) && s.attributes == {} && s.Chosen().length != 0 && Redoable(s.entry)
    requires UnpackResource(s.entry.assignment) == Some((s.start, s.Chosen().length))
    requires BuildAlternative(s.entry.selected.value) == Some(s.Chosen().(priority := 0))
    ensures SamePlacement(s, RetestState(s.entry))
  {
    hide UnpackResource, BuildAlternative;
  }

  lemma RetestRebuildsEntry(setup: Setup, e: Entry, s: State)
    requires PlainEntry(setup.orderings, e) && Buildable(e) && s.SameRequest(Opening(e))
    requires FitsRequest(setup.orderings, s) && Told(s) && s.attributes == {}
    ensures s.entry.result != NullRequest && Redoable(s.entry)
    ensures RelaidOne(setup.kind, s.entry) == Laid(setup.kind, s)
  {
    ToldCarries(setup, e, s);
    hide *;
    RetestStandsThere(setup, s);
    SameLaid(setup.kind, s, RetestState(s.entry));
    RelaidIsPut(setup.kind, s);
  }

  lemma RelaidIsPut(kind: ArbiterKind, s: State)
    requires s.HasCurrent() && s.Chosen().length != 0 && s.entry.result != NullRequest && Redoable(s.entry)
    requires UnpackResource(s.entry.assignment) == Some((s.start, s.Chosen().length))
    ensures RelaidOne(kind, s.entry) == Put(kind, RetestState(s.entry)) && Laid(kind, s) == Put(kind, s)
  {
    hide Put, BuildAlternative, UnpackResource;
  }

  // ----- The whole list -----

  lemma {:induction false} RelaidIsLaid(setup: Setup, es: seq<Entry>, st: seq<State>)
    requires |es| == |st| && Retestable(es)
    requires forall i :: 0 <= i < |es| ==> RelaidOne(setup.kind, es[i]) == Laid(setup.kind, st[i])
    ensures Relaid(setup.kind, es) == LaidAll(setup.kind, st)
  {
    hide RelaidOne, Laid, Redoable;
    if es != [] {
      assert forall e :: e in es[..|es| - 1] ==> e in es;
      assert es[|es| - 1] in es;
      RelaidIsLaid(setup, es[..|es| - 1], st[..|st| - 1]);
    }
  }

  /**
  Retest refines Test: after a successful test of a plain list, a retest of the
  list it left behind succeeds over the same committed ranges and rebuilds the
  same bounds and owners, and the same sharing flags too if no two requirements
  of one device are twins.
  */
  lemma RetestRebuildsTest(setup: Setup, committed: seq<Range>, es: seq<Entry>,
                           order: seq<Entry>, st: seq<State>, rs: seq<Range>, told: seq<Entry>)
    requires PlainList(setup, committed, es)
    requires Tested(setup, committed, es, order, st, rs, told)
    ensures Retestable(told)
    ensures Image(WithoutOwners(committed, Devices(told)) + Relaid(setup.kind, told), KeyOf) == Image(rs, KeyOf)
    ensures TwinFree(setup, es) ==>
              Image(WithoutOwners(committed, Devices(told)) + Relaid(setup.kind, told), ClaimOf) == Image(rs, ClaimOf)
    ensures Devices(told) == Devices(es) == TestOwners(es, NULL) && Relaid(setup.kind, told) == LaidAll(setup.kind, st)
  {
    hide PlainList, TwinFree, Separable, Solution, Told, Sound, SoundAt, WithoutOwners, Relaid, LaidAll;
    PlainReordered(setup, committed, es, order);
    ReorderedDevices(es, order);
    NoNullDevices(setup, committed, es);
    EveryoneContributes(setup, committed, order);
    var start := WithoutOwners(committed, Devices(order));
    StackIsPlain(setup, committed, order);
    if TwinFree(setup, es) {
      TwinFreeReordered(setup, es, order);
      SeparableStack(setup, committed, order);
    }
    SolutionOfPlain(setup, start, Stack(order), st, rs);
    StackOfAll(order);
    WriteBackAll(order, st);
    forall i | 0 <= i < |told|
      ensures told[i].device == order[i].device
      ensures told[i].result != NullRequest && Redoable(told[i])
      ensures RelaidOne(setup.kind, told[i]) == Laid(setup.kind, st[i])
    {
      assert order[i] in order;
      EveryEntryPlain(setup, committed, order, order[i]);
      RetestRebuildsEntry(setup, order[i], st[i]);
    }
    SameDevices(order, told);
    RelaidIsLaid(setup, told, st);
  }

  lemma SeparableStack(setup: Setup, committed: seq<Range>, es: seq<Entry>)
    requires PlainList(setup, committed, es) && (forall e :: e in es ==> Buildable(e)) && TwinFree(setup, es)
    ensures Separable(setup, WithoutOwners(committed, Devices(es)), Stack(es))
  {
    hide PlainEntry, TwinFree, NoTwins;
    StackIsPlain(setup, committed, es);
    StackHasNoTwins(setup, es);
  }

  lemma SameDevices(a: seq<Entry>, b: seq<Entry>)
    requires |a| == |b| && forall i :: 0 <= i < |a| ==> a[i].device == b[i].device
    ensures Devices(a) == Devices(b)
  {
    SomeDevices(a, b);
    SomeDevices(b, a);
  }

  lemma SomeDevices(a: seq<Entry>, b: seq<Entry>)
    requires |a| == |b| && forall i :: 0 <= i < |a| ==> a[i].device == b[i].device
    ensures Devices(a) <= Devices(b)
  {
    forall e | e in a
      ensures e.device in Devices(b)
    {
      var i :| 0 <= i < |a| && a[i] == e;
      assert b[i] in b;
    }
  }

  lemma NoNullDevices(setup: Setup, committed: seq<Range>, es: seq<Entry>)
    requires PlainList(setup, committed, es)
    ensures TestOwners(es, NULL) == Devices(es)
  {
    TestWithdrawsDevices(es);
  }

  lemma EveryEntryPlain(setup: Setup, committed: seq<Range>, es: seq<Entry>, e: Entry)
    requires PlainList(setup, committed, es) && e in es
    ensures PlainEntry(setup.orderings, e)
  {
  }

  lemma EveryoneContributes(setup: Setup, committed: seq<Range>, es: seq<Entry>)
    requires PlainList(setup, committed, es)
    ensures forall e :: e in es ==> e.alternatives != []
  {
  }

  /** What a solution of a plain stack comes to, entry by entry. */
  lemma SolutionOfPlain(setup: Setup, start: seq<Range>, init: seq<State>, st: seq<State>, rs: seq<Range>)
    requires Plain(setup, start, init) && Solution(setup, start, init, st, rs)
    ensures |st| == |init|
    ensures forall i :: 0 <= i < |st| ==>
              st[i].SameRequest(init[i]) && FitsRequest(setup.orderings, st[i]) && st[i].attributes == {}
    ensures Image(rs, KeyOf) == Image(start + LaidAll(setup.kind, st), KeyOf)
    ensures Separable(setup, start, init) ==> Image(rs, ClaimOf) == Image(start + LaidAll(setup.kind, st), ClaimOf)
  {
    forall i | 0 <= i < |st|
      ensures st[i].SameRequest(init[i]) && FitsRequest(setup.orderings, st[i]) && st[i].attributes == {}
    {
      assert SoundAt(setup, start, st, i, Separable(setup, start, init)) && StillPlain(setup, st[i]);
    }
  }
}
