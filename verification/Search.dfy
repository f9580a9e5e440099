/** The search loop itself, and the report of its result to the requesters. */
module Search {
  import opened Words
  import opened RangeLists
  import opened ArbiterTypes
  import opened Walker
  import opened Placement
  import opened Ledger
  import opened Attempts
  import opened Premises
  import opened Descriptors
  import opened Solver
  import opened Soundness

  const DEADLINE := 10_000_000
  const HARD_DEADLINE := 100_000_000

  // ----- Soundness along the way -----

  ghost predicate SoundSoFar(setup: Setup, start: seq<Range>, init: seq<State>, st: seq<State>, rs: seq<Range>,
                             depth: nat) {
    Plain(setup, start, init) ==>
      && Unmarked(start, rs)
      && (forall i :: 0 <= i < |st| ==> StillPlain(setup, st[i]))
      && depth <= |st|
      && (forall i :: 0 <= i < depth ==> SoundAt(setup, start, st, i, Separable(setup, start, init)))
  }

  lemma SoundAtStart(setup: Setup, start: seq<Range>, init: seq<State>)
    ensures SoundSoFar(setup, start, init, init, start, 0)
  {
  }

  lemma StaysPlain(setup: Setup, s0: State, s: State)
    requires StillPlain(setup, s0) && AttemptedFrom(setup.kind, s0, s)
    ensures StillPlain(setup, s)
  {
    DeclaredIsFixed(setup.kind, s, s0);
    forall a | 0 <= a < |s.alternatives|
      ensures PlainAlternative(setup.orderings, s.alternatives[a])
    {
      assert s.alternatives[a].SameRequest(s0.alternatives[a]);
      assert PlainAlternative(setup.orderings, s0.alternatives[a]);
      assert forall o :: Fits(o, s.alternatives[a]) <==> Fits(o, s0.alternatives[a]);
    }
    assert !AsksForDriver(s0.alternatives) by {
      assert forall a :: 0 <= a < |s0.alternatives| ==> PlainAlternative(setup.orderings, s0.alternatives[a]);
    }
  }

  lemma SoundTouched(setup: Setup, start: seq<Range>, init: seq<State>, st: seq<State>, rs0: seq<Range>, depth: nat,
                     cur: nat, s: State, rs: seq<Range>, st': seq<State>)
    requires SoundSoFar(setup, start, init, st, rs0, depth) && cur <= depth && cur < |st|
    requires AttemptedFrom(setup.kind, st[cur], s) && Touched(st, cur, s, st')
    requires forall q :: q in rs ==> q in rs0
    ensures SoundSoFar(setup, start, init, st', rs, cur)
  {
    hide Plain, StillPlain, Separable, AttemptedFrom, SoundAt;
    if Plain(setup, start, init) {
      StaysPlain(setup, st[cur], s);
      forall i | 0 <= i < |st|
        ensures StillPlain(setup, st'[i])
      {
        if i > cur {
          ResetStaysPlain(setup, st[i]);
        }
      }
      forall i | 0 <= i < cur
        ensures SoundAt(setup, start, st', i, Separable(setup, start, init))
      {
        SoundIsBelow(setup, start, st, st', i, Separable(setup, start, init));
      }
    }
  }

  lemma ResetStaysPlain(setup: Setup, s: State)
    requires StillPlain(setup, s)
    ensures StillPlain(setup, s.(current := None))
  {
    assert Declared(setup.kind, s.(current := None)) == Declared(setup.kind, s);
  }

  /** Soundness of an entry looks at it and at the entries below it only. */
  lemma SoundIsBelow(setup: Setup, start: seq<Range>, st: seq<State>, st': seq<State>, i: nat, separable: bool)
    requires i < |st| == |st'| && SoundAt(setup, start, st, i, separable)
    requires forall j :: 0 <= j <= i ==> st'[j] == st[j]
    ensures SoundAt(setup, start, st', i, separable)
  {
    hide FitsRequest, FitsOutside, FitsBeside;
    if separable {
      forall j | 0 <= j < i
        ensures FitsBeside(setup.kind, st'[j], st'[i])
      {
        assert FitsBeside(setup.kind, st[j], st[i]);
      }
    }
  }

  lemma SoundForward(setup: Setup, start: seq<Range>, init: seq<State>, st: seq<State>, cur: nat, rs: seq<Range>)
    requires SoundSoFar(setup, start, init, st, rs, cur) && cur < |st| && SameRequests(init, st)
    requires Kept(setup, start, init, st[..cur], rs)
    requires Sited(setup.orderings, st[cur]) && PlacedWhole(setup.kind, rs, st[cur])
    ensures SoundSoFar(setup, start, init, st, rs + Laid(setup.kind, st[cur]), cur + 1)
  {
    if Plain(setup, start, init) {
      assert StillPlain(setup, st[cur]);
      PlacementIsSound(setup, start, init, st, cur, rs);
      LaidBelongs(setup.kind, st[cur]);
    }
  }

  lemma PlacedMatches(setup: Setup, start: seq<Range>, init: seq<State>, st: seq<State>, cur: nat, rs: seq<Range>,
                      j: nat)
    requires SoundSoFar(setup, start, init, st, rs, cur) && j < cur < |st| && SameRequests(init, st)
    requires Kept(setup, start, init, st[..cur], rs) && Separable(setup, start, init)
    requires Sited(setup.orderings, st[cur]) && PlacedWhole(setup.kind, rs, st[cur])
    ensures Matching(Laid(setup.kind, st[j]), Laid(setup.kind, st[cur]))
  {
    hide Kept, Separable, Plain, Sited, PlacedWhole, Laid, Matching, StillPlain;
    if Plain(setup, start, init) {
      SoundForward(setup, start, init, st, cur, rs);
      assert SoundAt(setup, start, st, cur, true) && SoundAt(setup, start, st, j, true);
    }
    NewcomerMatches(setup, start, init, st, cur, rs, j);
  }

  // ----- The loop -----

  datatype Outcome = Solved | NoSolution(mcfgConflict: bool) | Abandoned

  /** All that holds at the head of the loop. */
  ghost predicate AtHead(setup: Setup, start: seq<Range>, init: seq<State>, st: seq<State>, rs: seq<Range>, cur: nat,
                         back: bool) {
    && Shaped(setup, init, st, cur, back)
    && Kept(setup, start, init, st[..Depth(cur, back)], rs)
    && SoundSoFar(setup, start, init, st, rs, Depth(cur, back))
  }

  /** The search was stopped between two turns; only the mark of the first entry is new. */
  ghost predicate Interrupted(setup: Setup, start: seq<Range>, init: seq<State>, st: seq<State>, rs: seq<Range>) {
    exists cur: nat, back, result ::
      st != [] && AtHead(setup, start, init, Marked(st, result), rs, cur, back) && cur < |st|
  }

  function Marked(st: seq<State>, result: Result): seq<State>
    requires st != []
  {
    st[0 := st[0].(entry := st[0].entry.(result := result))]
  }

  /** The current entry was placed: on to the next one. */
  lemma HeadForward(setup: Setup, start: seq<Range>, init: seq<State>, st: seq<State>, rs0: seq<Range>, cur: nat,
                    back: bool, s: State, rs: seq<Range>, st': seq<State>)
    requires AtHead(setup, start, init, st, rs0, cur, back) && cur < |st|
    requires AttemptedFrom(setup.kind, st[cur], s) && Touched(st, cur, s, st')
    requires Sited(setup.orderings, s) && PlacedWhole(setup.kind, rs, s)
    requires Kept(setup, start, init, st[..cur], rs)
    requires forall q :: q in rs ==> q in rs0
    ensures AtHead(setup, start, init, st', rs + Laid(setup.kind, s), cur + 1, false)
  {
    hide Shaped, Kept, SoundSoFar, SameRequests, Sited, PlacedWhole, Matching, Separable, Laid, AttemptedFrom, Touched;
    TouchedShape(setup, init, st, cur, back, s, st');
    SoundTouched(setup, start, init, st, rs0, Depth(cur, back), cur, s, rs, st');
    SoundForward(setup, start, init, st', cur, rs);
    if Separable(setup, start, init) {
      forall j | 0 <= j < cur
        ensures Matching(Laid(setup.kind, st'[j]), Laid(setup.kind, st'[cur]))
      {
        PlacedMatches(setup, start, init, st', cur, rs, j);
      }
    }
    KeptForward(setup, start, init, st', cur, rs);
  }

  /** The current entry has nowhere to go: back to the one before it. */
  lemma HeadBack(setup: Setup, start: seq<Range>, init: seq<State>, st: seq<State>, rs0: seq<Range>, cur: nat,
                 back: bool, s: State, rs: seq<Range>, st': seq<State>)
    requires AtHead(setup, start, init, st, rs0, cur, back) && 0 < cur < |st|
    requires AttemptedFrom(setup.kind, st[cur], s) && Touched(st, cur, s, st')
    requires Kept(setup, start, init, st[..cur], rs)
    requires forall q :: q in rs ==> q in rs0
    ensures AtHead(setup, start, init, st', rs, cur - 1, true)
  {
    hide Shaped, Kept, SoundSoFar, SameRequests, AttemptedFrom, Touched;
    TouchedShape(setup, init, st, cur, back, s, st');
    SoundTouched(setup, start, init, st, rs0, Depth(cur, back), cur, s, rs, st');
  }

  lemma VisitBegins(setup: Setup, start: seq<Range>, init: seq<State>, st: seq<State>, rs: seq<Range>, cur: nat,
                    back: bool)
    requires AtHead(setup, start, init, st, rs, cur, back) && cur < |st|
    ensures var ledger := start + LaidAll(setup.kind, st[..cur]);
            var sharing := Separable(setup, start, init);
            && Forward(rs)
            && (back ==> Sited(setup.orderings, st[cur]) && Balanced(rs, ledger + Laid(setup.kind, st[cur]), sharing))
            && (back && sharing ==> Matching(rs, Laid(setup.kind, st[cur])))
            && (!back ==> st[cur].current.None? && Balanced(rs, ledger, sharing))
  {
    hide Sited, Laid, LaidAll, Balanced, Matching, Forward, Separable, Accounted, SoundSoFar, Consistent;
    LaidAllStep(setup.kind, start, st, cur);
    if back && Separable(setup, start, init) {
      ListMatches(setup, start, init, st, cur, rs);
    }
  }

  lemma VisitEnds(setup: Setup, start: seq<Range>, init: seq<State>, st: seq<State>, rs0: seq<Range>, cur: nat,
                  back: bool, rs: seq<Range>)
    requires AtHead(setup, start, init, st, rs0, cur, back) && cur < |st|
    requires Balanced(rs, start + LaidAll(setup.kind, st[..cur]), Separable(setup, start, init))
    requires forall q :: q in rs ==> q in rs0
    requires forall q :: q in rs0 && q.owner != st[cur].entry.device ==> q in rs
    ensures Kept(setup, start, init, st[..cur], rs)
  {
    hide Sited, Laid, LaidAll, Balanced, Matching, Separable, Accounted, SoundSoFar;
    StillAccounted(start, init, st, rs0, rs, cur);
    assert forall i :: 0 <= i < cur ==> st[..cur][i] == st[..Depth(cur, back)][i];
  }

  /** One visit to the current entry, against the books as the loop head leaves them. */
  method Visit(setup: Setup, list: RangeList, s0: State, cur: nat, back: bool, deadline: nat,
               ghost start: seq<Range>, ghost init: seq<State>, ghost st: seq<State>)
    returns (found: bool, s: State, ghost rs: seq<Range>)
    requires setup.Valid() && cur < |st| && s0 == st[cur]
    requires AtHead(setup, start, init, st, list.ranges, cur, back)
    modifies list
    ensures AttemptedFrom(setup.kind, s0, s)
    ensures Kept(setup, start, init, st[..cur], rs)
    ensures forall q :: q in rs ==> q in old(list.ranges)
    ensures list.ranges == if found then rs + Laid(setup.kind, s) else rs
    ensures found ==> Sited(setup.orderings, s) && PlacedWhole(setup.kind, rs, s)
    ensures !found ==> GaveUp(s)
    ensures found ==> Weight(setup.orderings, s) < Level(setup.orderings, st, cur, back, cur)
  {
    hide AtHead, Kept, Sited, Laid, LaidAll, Balanced, Matching, Forward, Separable, AttemptedFrom, GaveUp, PlacedWhole;
    ghost var sharing := Separable(setup, start, init);
    ghost var ledger := start + LaidAll(setup.kind, st[..cur]);
    ghost var rs0 := list.ranges;
    VisitBegins(setup, start, init, st, rs0, cur, back);
    found, s, rs := Attempt(setup, list, s0, back, deadline, ledger, sharing);
    VisitEnds(setup, start, init, st, rs0, cur, back, rs);
  }

  /** The whole measure of the search at one position. */
  ghost function Remaining(setup: Setup, init: seq<State>, st: seq<State>, cur: nat, back: bool): nat {
    Horner(Levels(setup.orderings, st, cur, back), Base(setup.orderings, init))
  }

  /** A move to a later position of the search. */
  lemma MovesOn(setup: Setup, start: seq<Range>, init: seq<State>, st: seq<State>, rs0: seq<Range>, cur: nat,
                back: bool, s: State, st': seq<State>, found: bool)
    requires AtHead(setup, start, init, st, rs0, cur, back) && cur < |st|
    requires AttemptedFrom(setup.kind, st[cur], s) && Touched(st, cur, s, st')
    requires found ==> Weight(setup.orderings, s) < Level(setup.orderings, st, cur, back, cur)
    requires !found ==> cur > 0
    ensures var cur' := if found then cur + 1 else cur - 1;
            Remaining(setup, init, st', cur', !found) < Remaining(setup, init, st, cur, back)
  {
    hide Weight, Ceiling, Sited, Kept, SoundSoFar, Horner, Levels, Base;
    var os := setup.orderings;
    var cur' := if found then cur + 1 else cur - 1;
    assert forall i :: 0 <= i < |st| ==> st[i].SameRequest(init[i]);
    assert forall i :: 0 <= i < |st| ==> |st'[i].alternatives| == |st[i].alternatives| == |init[i].alternatives|;
    assert st'[..cur] == st[..cur];
    WeightBelowCeiling(os, st[cur]);
    Onward(os, init, st, cur, back, st', cur', !found, cur);
  }

  lemma HeadShape(setup: Setup, start: seq<Range>, init: seq<State>, st: seq<State>, rs: seq<Range>, cur: nat,
                  back: bool)
    requires AtHead(setup, start, init, st, rs, cur, back)
    ensures cur <= |st| && (back ==> cur + 1 < |st|)
    ensures forall i :: (if back then cur + 2 else cur + 1) <= i < |st| ==> st[i].current.None?
  {
  }

  lemma HeadRequests(setup: Setup, start: seq<Range>, init: seq<State>, st: seq<State>, rs: seq<Range>, cur: nat,
                     back: bool)
    requires AtHead(setup, start, init, st, rs, cur, back)
    ensures SameRequests(init, st)
  {
  }

  lemma StuckAtFirst(setup: Setup, start: seq<Range>, init: seq<State>, st: seq<State>, rs0: seq<Range>, back: bool,
                     s: State, rs: seq<Range>, st': seq<State>)
    requires st != [] && AtHead(setup, start, init, st, rs0, 0, back)
    requires AttemptedFrom(setup.kind, st[0], s) && Touched(st, 0, s, st')
    requires Kept(setup, start, init, st[..0], rs)
    ensures SameRequests(init, st') && Kept(setup, start, init, [], rs)
  {
    TouchedShape(setup, init, st, 0, back, s, st');
    assert st[..0] == [];
  }

  /** Writes the visited entry back; on the way back the entry after it starts over. */
  method Store(stack: array<State>, cur: nat, back: bool, s: State)
    requires cur < stack.Length && (back ==> cur + 1 < stack.Length)
    requires forall i :: (if back then cur + 2 else cur + 1) <= i < stack.Length ==> stack[i].current.None?
    modifies stack
    ensures Touched(old(stack[..]), cur, s, stack[..]) && stack[cur] == s
  {
    if back {
      stack[cur + 1] := stack[cur + 1].(current := None);
    }
    stack[cur] := s;
  }

  /** One turn of the loop. It is stuck when even the first entry has no solution. */
  method Turn(setup: Setup, list: RangeList, stack: array<State>, cur: nat, back: bool, deadline: nat,
              ghost start: seq<Range>, ghost init: seq<State>)
    returns (stuck: bool, next: nat, nextBack: bool, mcfgConflict: bool)
    requires setup.Valid() && cur < stack.Length
    requires AtHead(setup, start, init, stack[..], list.ranges, cur, back)
    modifies list, stack
    ensures stuck ==> SameRequests(init, stack[..]) && Kept(setup, start, init, [], list.ranges) && GaveUp(stack[0])
    ensures !stuck ==> AtHead(setup, start, init, stack[..], list.ranges, next, nextBack)
    ensures !stuck ==>
              Remaining(setup, init, stack[..], next, nextBack) < Remaining(setup, init, old(stack[..]), cur, back)
  {
    hide AtHead, Kept, SameRequests, Touched, Remaining, GaveUp, AttemptedFrom, Sited, PlacedWhole, Weight, Level, Laid;
    HeadShape(setup, start, init, stack[..], list.ranges, cur, back);
    ghost var st, rs0 := stack[..], list.ranges;
    var found, s;
    ghost var rs;
    found, s, rs := Visit(setup, list, stack[cur], cur, back, deadline, start, init, st);
    Store(stack, cur, back, s);
    ghost var st' := stack[..];
    if found {
      HeadForward(setup, start, init, st, rs0, cur, back, s, rs, st');
      MovesOn(setup, start, init, st, rs0, cur, back, s, st', true);
      return false, cur + 1, false, false;
    }
    if cur == 0 {
      StuckAtFirst(setup, start, init, st, rs0, back, s, rs, st');
      return true, 0, false, s.mcfgConflict;
    }
    HeadBack(setup, start, init, st, rs0, cur, back, s, rs, st');
    MovesOn(setup, start, init, st, rs0, cur, back, s, st', false);
    return false, cur - 1, true, s.mcfgConflict;
  }

  /** A result written into one entry is not part of its request. */
  lemma ResultIsNotRequest(init: seq<State>, st: seq<State>, result: Result)
    requires SameRequests(init, st) && st != [] && result != NullRequest
    ensures SameRequests(init, st[0 := st[0].(entry := st[0].entry.(result := result))])
  {
  }

  /**
  Places every entry of the stack or none. Ends whatever the clock says: the
  measure does not mention it.
  */
  method Solve(setup: Setup, list: RangeList, stack: array<State>) returns (outcome: Outcome)
    requires setup.Valid() && Forward(list.ranges)
    requires forall i :: 0 <= i < stack.Length ==> stack[i].current.None?
    modifies list, stack
    ensures SameRequests(old(stack[..]), stack[..])
    ensures outcome.Solved? ==>
              AtHead(setup, old(list.ranges), old(stack[..]), stack[..], list.ranges, stack.Length, false)
    ensures outcome.NoSolution? ==> Kept(setup, old(list.ranges), old(stack[..]), [], list.ranges)
    ensures outcome.NoSolution? ==> stack.Length > 0 && GaveUp(stack[0])
    ensures outcome.Abandoned? ==> Interrupted(setup, old(list.ranges), old(stack[..]), stack[..], list.ranges)
  {
    hide AtHead, Kept, SameRequests, Remaining, Exhausted;
    ghost var start, init := list.ranges, stack[..];
    var now := QueryInterruptTime();
    var deadline := now + DEADLINE;
    now := QueryInterruptTime();
    var hardDeadline := now + HARD_DEADLINE;
    var cur: nat, back, mcfgConflict := 0, false, false;
    SearchBegins(setup, start, init);
    while cur < stack.Length
      invariant AtHead(setup, start, init, stack[..], list.ranges, cur, back)
      decreases Remaining(setup, init, stack[..], cur, back)
    {
      now := QueryInterruptTime();
      HeadShape(setup, start, init, stack[..], list.ranges, cur, back);
      if now > hardDeadline {
        HeadRequests(setup, start, init, stack[..], list.ranges, cur, back);
        ResultIsNotRequest(init, stack[..], ExternalConflict);
        ghost var st, result := stack[..], stack[0].entry.result;
        stack[0] := stack[0].(entry := stack[0].entry.(result := ExternalConflict));
        assert Marked(stack[..], result) == st;
        return Abandoned;
      }
      var stuck, conflict;
      stuck, cur, back, conflict := Turn(setup, list, stack, cur, back, deadline, start, init);
      mcfgConflict := mcfgConflict || conflict;
      if stuck {
        ResultIsNotRequest(init, stack[..], ExternalConflict);
        stack[0] := stack[0].(entry := stack[0].entry.(result := ExternalConflict));
        return NoSolution(mcfgConflict);
      }
    }
    HeadShape(setup, start, init, stack[..], list.ranges, cur, back);
    HeadRequests(setup, start, init, stack[..], list.ranges, cur, back);
    return Solved;
  }

  lemma SearchBegins(setup: Setup, start: seq<Range>, init: seq<State>)
    requires Forward(start)
    requires forall i :: 0 <= i < |init| ==> init[i].current.None?
    ensures AtHead(setup, start, init, init, start, 0, false)
  {
    SoundAtStart(setup, start, init);
    assert start + [] == start;
  }

  // ----- The report -----

  /** A complete placement of the stack, and the list that holds it. */
  ghost predicate Solution(setup: Setup, start: seq<Range>, init: seq<State>, st: seq<State>, rs: seq<Range>) {
    && SameRequests(init, st)
    && (forall i :: 0 <= i < |st| ==> Sited(setup.orderings, st[i]))
    && Kept(setup, start, init, st, rs)
    && (Plain(setup, start, init) ==>
          && Sound(setup, start, st, Separable(setup, start, init))
          && forall i :: 0 <= i < |st| ==> StillPlain(setup, st[i]))
  }

  lemma SolvedIsSolution(setup: Setup, start: seq<Range>, init: seq<State>, st: seq<State>, rs: seq<Range>)
    requires AtHead(setup, start, init, st, rs, |st|, false)
    ensures Solution(setup, start, init, st, rs)
  {
    hide Kept, Plain, StillPlain, Separable, SoundAt, Sited, Unmarked;
    assert st[..|st|] == st;
  }

  predicate Reportable(s: State) {
    s.HasCurrent() && (s.entry.hasAssignment ==> PackResource(s.Chosen().descriptor, s.start).Some?)
  }

  /** What the requester is told about one placement. The mark of a null request stays. */
  function Reported(s: State): State
    requires Reportable(s)
  {
    var d := s.Chosen().descriptor;
    s.(entry := s.entry.(selected := Some(d),
                         assignment := if s.entry.hasAssignment then PackResource(d, s.start).value
                                       else s.entry.assignment,
                         result := if s.entry.result == NullRequest then NullRequest else Succeeded))
  }

  method Report(stack: array<State>) returns (ok: bool)
    requires forall i :: 0 <= i < stack.Length ==> stack[i].HasCurrent()
    modifies stack
    ensures ok <==> forall i :: 0 <= i < stack.Length ==> Reportable(old(stack[i]))
    ensures forall i :: 0 <= i < stack.Length ==> stack[i].SameRequest(old(stack[i]))
    ensures forall i :: 0 <= i < stack.Length ==> (Reportable(stack[i]) <==> Reportable(old(stack[i])))
    ensures ok ==> forall i :: 0 <= i < stack.Length ==> stack[i] == Reported(old(stack[i]))
  {
    hide PackResource, AsksForNothing;
    var i := 0;
    while i < stack.Length
      invariant 0 <= i <= stack.Length
      invariant forall j :: 0 <= j < i ==> Reportable(old(stack[j])) && stack[j] == Reported(old(stack[j]))
      invariant forall j :: i <= j < stack.Length ==> stack[j] == old(stack[j])
    {
      var s := stack[i];
      var d := s.Chosen().descriptor;
      s := s.(entry := s.entry.(selected := Some(d)));
      if s.entry.hasAssignment {
        var packed := PackResource(d, s.start);
        if packed.None? {
          assert !Reportable(old(stack[i]));
          stack[i] := s;
          return false;
        }
        s := s.(entry := s.entry.(assignment := packed.value));
      }
      if s.entry.result != NullRequest {
        s := s.(entry := s.entry.(result := Succeeded));
      }
      stack[i] := s;
      i := i + 1;
    }
    ok := true;
  }

  lemma ReportKeepsState(setup: Setup, init: State, s: State)
    requires Reportable(s) && s.SameRequest(init) && Sited(setup.orderings, s)
    ensures var s' := Reported(s);
            && s'.SameRequest(init) && Sited(setup.orderings, s') && SamePlacement(s, s')
            && Declared(setup.kind, s') == Declared(setup.kind, s)
            && Laid(setup.kind, s') == Laid(setup.kind, s)
            && (StillPlain(setup, s) ==> StillPlain(setup, s'))
  {
    SameLaid(setup.kind, s, Reported(s));
  }

  lemma ReportKeepsSound(setup: Setup, start: seq<Range>, st: seq<State>, st': seq<State>, i: nat, separable: bool)
    requires i < |st| == |st'| && SoundAt(setup, start, st, i, separable)
    requires forall j :: 0 <= j < |st| ==> Reportable(st[j]) && st'[j] == Reported(st[j])
    requires forall j :: 0 <= j < |st| ==> Laid(setup.kind, st'[j]) == Laid(setup.kind, st[j])
    requires Declared(setup.kind, st'[i]) == Declared(setup.kind, st[i])
    ensures SoundAt(setup, start, st', i, separable)
  {
    hide Laid, Declared;
    forall j | 0 <= j < i
      ensures separable ==> FitsBeside(setup.kind, st'[j], st'[i])
    {
      assert separable ==> FitsBeside(setup.kind, st[j], st[i]);
    }
  }

  /** A report moves nothing. */
  lemma ReportKeepsSolution(setup: Setup, start: seq<Range>, init: seq<State>, st: seq<State>, st': seq<State>,
                            rs: seq<Range>)
    requires Solution(setup, start, init, st, rs) && |st'| == |st|
    requires forall i :: 0 <= i < |st| ==> Reportable(st[i]) && st'[i] == Reported(st[i])
    ensures Solution(setup, start, init, st', rs)
  {
    hide Sited, StillPlain, Plain, Laid, Declared, Reported, Reportable, Separable, Foreign, Matching, Accounted,
      Balanced, SamePlacement, SoundAt;
    forall i | 0 <= i < |st|
      ensures st'[i].SameRequest(init[i]) && Sited(setup.orderings, st'[i]) && SamePlacement(st[i], st'[i])
      ensures Declared(setup.kind, st'[i]) == Declared(setup.kind, st[i])
      ensures Laid(setup.kind, st'[i]) == Laid(setup.kind, st[i])
      ensures StillPlain(setup, st[i]) ==> StillPlain(setup, st'[i])
    {
      ReportKeepsState(setup, init[i], st[i]);
    }
    SameLaidAll(setup.kind, st, st');
    if Plain(setup, start, init) {
      forall i | 0 <= i < |st|
        ensures SoundAt(setup, start, st', i, Separable(setup, start, init))
      {
        ReportKeepsSound(setup, start, st, st', i, Separable(setup, start, init));
      }
    }
  }

  lemma SameRequestsChain(a: seq<State>, b: seq<State>, c: seq<State>)
    requires SameRequests(a, b) && SameRequests(b, c)
    ensures SameRequests(a, c)
  {
    forall i | 0 <= i < |c|
      ensures c[i].SameRequest(a[i])
    {
      assert c[i].SameRequest(b[i]) && b[i].SameRequest(a[i]);
      NothingIsNothing(c[i].alternatives, b[i].alternatives);
      forall k | 0 <= k < |c[i].alternatives|
        ensures c[i].alternatives[k].SameRequest(a[i].alternatives[k])
      {
        assert c[i].alternatives[k].SameRequest(b[i].alternatives[k]);
        assert b[i].alternatives[k].SameRequest(a[i].alternatives[k]);
      }
    }
  }

  /** ArbiterLibAllocateEntry. */
  method AllocateEntry(setup: Setup, list: RangeList, stack: array<State>)
    returns (status: Status, ghost outcome: Outcome)
    requires setup.Valid() && Forward(list.ranges)
    requires forall i :: 0 <= i < stack.Length ==> stack[i].current.None?
    modifies list, stack
    ensures SameRequests(old(stack[..]), stack[..])
    ensures status == Success ==> Solution(setup, old(list.ranges), old(stack[..]), stack[..], list.ranges)
    ensures status == Success ==> forall i :: 0 <= i < stack.Length ==> Told(stack[i])
    ensures outcome.NoSolution? ==> Kept(setup, old(list.ranges), old(stack[..]), [], list.ranges)
    ensures outcome.NoSolution? ==> stack.Length > 0 && GaveUp(stack[0])
    ensures outcome.Abandoned? ==> Interrupted(setup, old(list.ranges), old(stack[..]), stack[..], list.ranges)
    ensures match outcome
            case Abandoned => status == Unsuccessful
            case NoSolution(mcfgConflict) => status == if mcfgConflict then BadMcfgTable else Unsuccessful
            case Solved => status == Success || status == InvalidParameter
    ensures status == InvalidParameter ==> exists i :: 0 <= i < stack.Length && !Reportable(stack[i])
  {
    hide AtHead, Kept, SameRequests, Sited, Plain, GaveUp;
    ghost var start, init := list.ranges, stack[..];
    var end := Solve(setup, list, stack);
    outcome := end;
    match end {
      case Abandoned => return Unsuccessful, outcome;
      case NoSolution(mcfgConflict) =>
        return if mcfgConflict then BadMcfgTable else Unsuccessful, outcome;
      case Solved =>
    }
    ghost var st := stack[..];
    SolvedIsSolution(setup, start, init, st, list.ranges);
    SitedHasCurrent(setup.orderings, st);
    var ok := Report(stack);
    if !ok {
      SameRequestsPointwise(st, stack[..]);
      SameRequestsChain(init, st, stack[..]);
      return InvalidParameter, outcome;
    }
    ReportKeepsSolution(setup, start, init, st, stack[..], list.ranges);
    return Success, outcome;
  }

  /** The entry carries what the placement was packed to. */
  ghost predicate Told(s: State) {
    && s.HasCurrent()
    && s.entry.selected == Some(s.Chosen().descriptor)
    && s.entry.result in {NullRequest, Succeeded}
    && (s.entry.hasAssignment ==> PackResource(s.Chosen().descriptor, s.start) == Some(s.entry.assignment))
  }

  lemma SitedHasCurrent(os: seq<Ordering>, st: seq<State>)
    requires forall i :: 0 <= i < |st| ==> Sited(os, st[i])
    ensures forall i :: 0 <= i < |st| ==> st[i].HasCurrent()
  {
  }

  lemma SameRequestsPointwise(a: seq<State>, b: seq<State>)
    requires |a| == |b| && forall i :: 0 <= i < |a| ==> b[i].SameRequest(a[i])
    ensures SameRequests(a, b)
  {
  }
}
