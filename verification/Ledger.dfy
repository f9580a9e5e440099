/**
Laying a placement down and taking it back. The tentative list is kept
against a ledger: the ranges it ought to hold, compared as multisets.
*/
module Ledger {
  import opened Words
  import opened RangeLists
  import opened ArbiterTypes
  import opened Placement

  /**
  The list holds the ledger's bounds and owners and, when `sharing` is to be
  followed as well, its sharing flags.
  */
  ghost predicate Balanced(rs: seq<Range>, ledger: seq<Range>, sharing: bool) {
    && Image(rs, KeyOf) == Image(ledger, KeyOf)
    && (sharing ==> Image(rs, ClaimOf) == Image(ledger, ClaimOf))
  }

  /** No range runs backwards; RtlAddRange lets none in. */
  predicate Forward(rs: seq<Range>) {
    forall r :: r in rs ==> r.start <= r.end
  }

  /** Ranges of the two lists with equal bounds and owner carry equal sharing flags. */
  ghost predicate Matching(rs: seq<Range>, laid: seq<Range>) {
    forall q, r :: q in rs && r in laid && KeyOf(q) == KeyOf(r) ==> q.shared == r.shared
  }

  lemma MatchingPart(rs: seq<Range>, laid: seq<Range>, fewer: seq<Range>, part: seq<Range>)
    requires Matching(rs, laid)
    requires forall q :: q in fewer ==> q in rs
    requires forall r :: r in part ==> r in laid
    ensures Matching(fewer, part)
  {
  }

  lemma BalancedAppend(rs: seq<Range>, ledger: seq<Range>, more: seq<Range>, sharing: bool)
    requires Balanced(rs, ledger, sharing)
    ensures Balanced(rs + more, ledger + more, sharing)
  {
    ImageAppend(rs, more, KeyOf);
    ImageAppend(ledger, more, KeyOf);
    ImageAppend(rs, more, ClaimOf);
    ImageAppend(ledger, more, ClaimOf);
  }

  /** RtlAddRange with ADD_IF_CONFLICT. */
  method Lay(list: RangeList, r: Range)
    modifies list
    ensures list.ranges == old(list.ranges) + Accepted(r)
  {
    var ok := list.Add(r.start, r.end, r.attributes, true, r.shared, r.owner);
  }

  /**
  RtlDeleteRange of something laid earlier. Whichever matching range goes, the
  books balance without it.
  */
  method Withdraw(list: RangeList, r: Range, ghost before: seq<Range>, ghost after: seq<Range>, ghost sharing: bool)
    requires Forward(list.ranges)
    requires Balanced(list.ranges, before + Accepted(r) + after, sharing)
    requires sharing ==> Matching(list.ranges, Accepted(r))
    modifies list
    ensures Balanced(list.ranges, before + after, sharing)
    ensures forall q :: q in list.ranges ==> q in old(list.ranges)
    ensures forall q :: q in old(list.ranges) && q.owner != r.owner ==> q in list.ranges
  {
    ghost var rs := list.ranges;
    var ok, gone := list.Delete(r.start, r.end, r.owner);
    if ok {
      assert rs[gone] in rs;
      RemoveBalances(rs, gone, r, before, after, KeyOf);
      if sharing {
        RemoveBalances(rs, gone, r, before, after, ClaimOf);
      }
    } else {
      if r.start <= r.end {
        assert r in before + [r] + after;
        ImageMember(before + [r] + after, KeyOf, KeyOf(r));
        ImageMember(rs, KeyOf, KeyOf(r));
      }
      assert before + [] + after == before + after;
    }
  }

  lemma RemoveBalances<T>(rs: seq<Range>, i: nat, r: Range, before: seq<Range>, after: seq<Range>, f: Range -> T)
    requires i < |rs| && f(rs[i]) == f(r)
    requires Image(rs, f) == Image(before + [r] + after, f)
    ensures Image(rs[..i] + rs[i + 1..], f) == Image(before + after, f)
  {
    ImageRemove(rs, i, f);
    var all := before + [r] + after;
    ImageRemove(all, |before|, f);
    assert all[..|before|] + all[|before| + 1..] == before + after;
    assert Image(rs, f) - multiset{f(r)} == Image(rs[..i] + rs[i + 1..], f);
    assert Image(all, f) - multiset{f(r)} == Image(before + after, f);
  }

  lemma PutInParts(ledger: seq<Range>, kind: ArbiterKind, s: State)
    requires s.HasCurrent()
    ensures var primary := ledger + Accepted(Primary(s));
            ledger + Put(kind, s) ==
              if kind == PortArbiter && s.Chosen().length != 0 then primary + Mirrors(s, s.start) else primary
  {
  }

  method LayMirrors(list: RangeList, s: State)
    requires s.HasCurrent()
    modifies list
    ensures list.ranges == old(list.ranges) + Mirrors(s, s.start)
  {
    hide Mirror, Accepted;
    ghost var done: seq<Range> := [];
    var last: u64 := s.start;
    var next := NextAlias(s.Chosen().descriptor.decode, last);
    while next.Some?
      invariant next == NextAlias(s.Chosen().descriptor.decode, last)
      invariant list.ranges == old(list.ranges) + done
      invariant done + Mirrors(s, last) == Mirrors(s, s.start)
      decreases Max(0, IO_SPACE_LAST + 1 - last)
    {
      ghost var r := Accepted(Mirror(s, next.value));
      assert done + Mirrors(s, last) == (done + r) + Mirrors(s, next.value);
      Lay(list, Mirror(s, next.value));
      done := done + r;
      last := next.value;
      next := NextAlias(s.Chosen().descriptor.decode, last);
    }
    assert done + [] == done;
  }

  /** ArbiterLibAddAllocation, or UacpiNtResPortAddAllocation for the port arbiter. */
  method AddAllocation(list: RangeList, kind: ArbiterKind, s: State)
    requires s.HasCurrent()
    modifies list
    ensures list.ranges == old(list.ranges) + Put(kind, s)
  {
    Lay(list, Primary(s));
    PutInParts(old(list.ranges), kind, s);
    if kind == PortArbiter && s.Chosen().length != 0 {
      LayMirrors(list, s);
    }
  }

  /** The mirrors of a placement go first, lowest first. */
  method WithdrawMirrors(list: RangeList, s: State, ghost primary: seq<Range>, ghost sharing: bool)
    requires s.HasCurrent()
    requires Forward(list.ranges)
    requires Balanced(list.ranges, primary + Mirrors(s, s.start), sharing)
    requires sharing ==> Matching(list.ranges, Mirrors(s, s.start))
    modifies list
    ensures Balanced(list.ranges, primary, sharing)
    ensures forall q :: q in list.ranges ==> q in old(list.ranges)
    ensures forall q :: q in old(list.ranges) && q.owner != s.entry.device ==> q in list.ranges
  {
    hide Matching, Balanced;
    var last: u64 := s.start;
    var next := NextAlias(s.Chosen().descriptor.decode, last);
    while next.Some?
      invariant next == NextAlias(s.Chosen().descriptor.decode, last)
      invariant Balanced(list.ranges, primary + Mirrors(s, last), sharing)
      invariant sharing ==> Matching(list.ranges, Mirrors(s, last))
      invariant forall q :: q in list.ranges ==> q in old(list.ranges)
      invariant forall q :: q in old(list.ranges) && q.owner != s.entry.device ==> q in list.ranges
      decreases Max(0, IO_SPACE_LAST + 1 - last)
    {
      ghost var rs, rest := list.ranges, Mirrors(s, next.value);
      assert primary + Mirrors(s, last) == primary + Accepted(Mirror(s, next.value)) + rest;
      if sharing {
        MatchingPart(rs, Mirrors(s, last), rs, Accepted(Mirror(s, next.value)));
      }
      Withdraw(list, Mirror(s, next.value), primary, rest, sharing);
      if sharing {
        MatchingPart(rs, Mirrors(s, last), list.ranges, rest);
      }
      last := next.value;
      next := NextAlias(s.Chosen().descriptor.decode, last);
    }
    assert primary + Mirrors(s, last) == primary;
  }

  /** ArbiterLibBacktrackAllocation, or UacpiNtResPortBacktrackAllocation for the port arbiter. */
  method BacktrackAllocation(list: RangeList, kind: ArbiterKind, s: State, ghost ledger: seq<Range>,
                             ghost sharing: bool)
    requires s.HasCurrent() && s.Chosen().length != 0
    requires Forward(list.ranges)
    requires Balanced(list.ranges, ledger + Laid(kind, s), sharing)
    requires sharing ==> Matching(list.ranges, Laid(kind, s))
    modifies list
    ensures Balanced(list.ranges, ledger, sharing)
    ensures forall q :: q in list.ranges ==> q in old(list.ranges)
    ensures forall q :: q in old(list.ranges) && q.owner != s.entry.device ==> q in list.ranges
  {
    hide Matching, Balanced;
    ghost var primary := ledger + Accepted(Primary(s));
    PutInParts(ledger, kind, s);
    ghost var rs := list.ranges;
    if kind == PortArbiter {
      if sharing {
        MatchingPart(rs, Laid(kind, s), rs, Mirrors(s, s.start));
      }
      WithdrawMirrors(list, s, primary, sharing);
    }
    if sharing {
      MatchingPart(rs, Laid(kind, s), list.ranges, Accepted(Primary(s)));
    }
    assert primary == ledger + Accepted(Primary(s)) + [];
    Withdraw(list, Primary(s), ledger, [], sharing);
    assert ledger + [] == ledger;
  }
}
