/** What a solution is worth: every placement fits its request and stays clear of other devices. */
module Soundness {
  import opened Words
  import opened RangeLists
  import opened ArbiterTypes
  import opened Walker
  import opened Placement
  import opened Ledger
  import opened Attempts
  import opened Premises
  import opened Solver

  // ----- The claim -----

  /**
  Aligned, exactly as long as asked for, and inside the alternative it was
  chosen from, or below it if a window of it carries.
  */
  ghost predicate FitsRequest(os: seq<Ordering>, s: State) {
    && s.HasCurrent()
    && (s.Chosen().length != 0 ==>
          var a := s.Chosen();
          && s.start % a.Step() == 0
          && s.end == s.start + a.length - 1
          && Floor(os, a) <= s.start && s.end <= a.maximum)
  }

  /**
  The placement and its mirrors meet a range that was there before only if both
  are shared or the range was declared available. A mirror may also meet what
  nobody owns.
  */
  ghost predicate FitsOutside(kind: ArbiterKind, start: seq<Range>, s: State) {
    forall n, r :: n in Laid(kind, s) && r in start && r.Overlaps(n.start, n.end) ==>
                     r.Tolerated(n.shared, PortAlias in n.attributes, Declared(kind, s))
  }

  /** They meet what another device of the stack holds only if both are shared. */
  ghost predicate FitsBeside(kind: ArbiterKind, other: State, s: State) {
    other.entry.device != s.entry.device ==>
      forall n, r :: n in Laid(kind, s) && r in Laid(kind, other) && r.Overlaps(n.start, n.end) ==>
                       (r.shared && n.shared) || (PortAlias in n.attributes && other.entry.device == NULL)
  }

  /** `separable` says that the sharing flags in the list can be relied on. */
  ghost predicate SoundAt(setup: Setup, start: seq<Range>, st: seq<State>, i: nat, separable: bool)
    requires i < |st|
  {
    && FitsRequest(setup.orderings, st[i])
    && FitsOutside(setup.kind, start, st[i])
    && (separable ==> forall j :: 0 <= j < i ==> FitsBeside(setup.kind, st[j], st[i]))
  }

  ghost predicate Sound(setup: Setup, start: seq<Range>, st: seq<State>, separable: bool) {
    forall i :: 0 <= i < |st| ==> SoundAt(setup, start, st, i, separable)
  }

  // ----- Proof -----

  /** What the search has added carries no attribute that anyone declares available. */
  ghost predicate Unmarked(start: seq<Range>, rs: seq<Range>) {
    forall r :: r in rs ==> r in start || r.attributes <= {PortAlias}
  }

  /** A state of a plain stack, as far as the search has taken it. */
  ghost predicate StillPlain(setup: Setup, s: State) {
    && s.attributes == {}
    && s.available <= Declared(setup.kind, s)
    && forall a :: 0 <= a < |s.alternatives| ==> PlainAlternative(setup.orderings, s.alternatives[a])
  }

  /** The window an alternative is given ends inside it and, unless it carries, begins there too. */
  lemma TrimmedInsideAlternative(setup: Setup, s: State) returns (w: (u64, u64))
    requires Sited(setup.orderings, s) && StillPlain(setup, s)
    requires s.Chosen().length != 0
    ensures var a := s.Chosen();
            && Floor(setup.orderings, a) <= w.0 <= s.curMin && s.curMax <= w.1 <= a.maximum
            && a.length - 1 <= w.1 - w.0
            && (w.1 - w.0 == a.length - 1 ==> (s.curMin, s.curMax) == w)
            && w.0 % a.Step() == 0
  {
    var a := s.Chosen();
    var raw := RawWindow(setup.orderings, a);
    assert Settled(setup.orderings, a);
    w := Trim(raw.0, raw.1, a.length, a.Step()).value;
    TrimEndsFit(raw.0, raw.1, a.length, a.Step());
    if NoWindowCarries(setup.orderings, a) {
      assert NoCarry(raw.0, a.Step());
      TrimStartsAbove(raw.0, raw.1, a.length, a.Step());
    }
  }

  /** A window as long as the whole span is the whole span. */
  lemma WholeSpan(minimum: u64, maximum: u64, length: u64, w: (u64, u64))
    requires length > 0 && Wrap64(maximum - minimum + 1) == length
    requires minimum <= w.0 <= w.1 <= maximum && length - 1 <= w.1 - w.0
    ensures w == (minimum, maximum) && w.1 - w.0 == length - 1
  {
  }

  /** A fixed alternative is offered as a whole or not at all. */
  lemma FixedWindowIsWhole(setup: Setup, s: State)
    requires Sited(setup.orderings, s) && StillPlain(setup, s)
    requires s.Chosen().length != 0 && s.Chosen().fixed
    ensures s.curMin == s.Chosen().minimum && s.curMax == s.Chosen().maximum
    ensures s.curMax - s.curMin == s.Chosen().length - 1
    ensures s.curMin % s.Chosen().Step() == 0
  {
    hide Trim, RawWindow, Within, NoWindowCarries, Settled;
    var a := s.Chosen();
    var w := TrimmedInsideAlternative(setup, s);
    assert PlainAlternative(setup.orderings, a);
    WholeSpan(a.minimum, a.maximum, a.length, w);
  }

  lemma NobodySharesByDriver(setup: Setup, start: seq<Range>, rs: seq<Range>, s: State)
    requires StillPlain(setup, s) && s.HasCurrent()
    requires Unmarked(start, rs)
    requires forall r :: r in start ==> SharedDriver !in r.attributes
    ensures !PlacedByDriver(rs, s)
  {
  }

  lemma PlacementFitsRequest(setup: Setup, start: seq<Range>, rs: seq<Range>, s: State)
    requires Sited(setup.orderings, s) && StillPlain(setup, s) && PlacedWhole(setup.kind, rs, s)
    requires Unmarked(start, rs)
    requires forall r :: r in start ==> SharedDriver !in r.attributes
    ensures FitsRequest(setup.orderings, s)
  {
    NobodySharesByDriver(setup, start, rs, s);
    if s.Chosen().length != 0 {
      var w := TrimmedInsideAlternative(setup, s);
      if !PlacedFree(rs, s) {
        FixedWindowIsWhole(setup, s);
      }
    }
  }

  /** Whatever the placement or a mirror of it meets is tolerated, unless it is fixed and meets its own device. */
  lemma LaidTolerates(setup: Setup, start: seq<Range>, rs: seq<Range>, s: State, n: Range, r: Range)
    requires Sited(setup.orderings, s) && StillPlain(setup, s) && PlacedWhole(setup.kind, rs, s)
    requires Unmarked(start, rs)
    requires forall q :: q in start ==> SharedDriver !in q.attributes
    requires n in Laid(setup.kind, s) && r in rs && r.Overlaps(n.start, n.end)
    ensures || r.Tolerated(n.shared, PortAlias in n.attributes, s.available)
            || (s.Chosen().fixed && r.owner == s.entry.device)
  {
    hide MirrorsFit, Mirrors, Sited, Unmarked, Declared, PlainAlternative;
    if n in Accepted(Primary(s)) {
      NobodySharesByDriver(setup, start, rs, s);
    } else {
      EachMirrorFits(rs, s, s.start, n);
    }
  }

  /** What the search itself has laid down is tolerated for no attribute of it. */
  lemma OnlySharingHelps(setup: Setup, start: seq<Range>, rs: seq<Range>, s: State, n: Range, q: Range)
    requires Sited(setup.orderings, s) && StillPlain(setup, s) && PlacedWhole(setup.kind, rs, s)
    requires Unmarked(start, rs)
    requires forall q :: q in start ==> SharedDriver !in q.attributes
    requires n in Laid(setup.kind, s) && q in rs && q !in start && q.Overlaps(n.start, n.end)
    ensures || (q.shared && n.shared)
            || (PortAlias in n.attributes && q.owner == NULL)
            || (s.Chosen().fixed && q.owner == s.entry.device)
  {
    LaidTolerates(setup, start, rs, s, n, q);
  }

  /** A placement chosen against well-kept books is sound. */
  lemma PlacementIsSound(setup: Setup, start: seq<Range>, init: seq<State>, st: seq<State>, cur: nat, rs: seq<Range>)
    requires Plain(setup, start, init) && SameRequests(init, st) && cur < |st|
    requires Kept(setup, start, init, st[..cur], rs) && Unmarked(start, rs)
    requires Sited(setup.orderings, st[cur]) && StillPlain(setup, st[cur])
    requires PlacedWhole(setup.kind, rs, st[cur])
    ensures SoundAt(setup, start, st, cur, Separable(setup, start, init))
  {
    hide Laid, Sited, PlacedWhole, Separable, Kept, Unmarked, Declared, PlainAlternative;
    var s := st[cur];
    PlacementFitsRequest(setup, start, rs, s);
    PlacementFitsOutside(setup, start, init, st, cur, rs);
    if Separable(setup, start, init) {
      forall j | 0 <= j < cur
        ensures FitsBeside(setup.kind, st[j], s)
      {
        PlacementFitsBeside(setup, start, init, st, cur, rs, j);
      }
    }
  }

  lemma PlacementFitsOutside(setup: Setup, start: seq<Range>, init: seq<State>, st: seq<State>, cur: nat,
                             rs: seq<Range>)
    requires Plain(setup, start, init) && SameRequests(init, st) && cur < |st|
    requires Kept(setup, start, init, st[..cur], rs) && Unmarked(start, rs)
    requires Sited(setup.orderings, st[cur]) && StillPlain(setup, st[cur])
    requires PlacedWhole(setup.kind, rs, st[cur])
    ensures FitsOutside(setup.kind, start, st[cur])
  {
    hide Laid, Sited, PlacedWhole, Separable, Unmarked, Declared, PlainAlternative, Consistent, Balanced;
    var s := st[cur];
    assert s.SameRequest(init[cur]);
    forall n, r | n in Laid(setup.kind, s) && r in start && r.Overlaps(n.start, n.end)
      ensures r.Tolerated(n.shared, PortAlias in n.attributes, Declared(setup.kind, s))
    {
      LaidTolerates(setup, start, rs, s, n, r);
    }
  }

  lemma PlacementFitsBeside(setup: Setup, start: seq<Range>, init: seq<State>, st: seq<State>, cur: nat, rs: seq<Range>,
                            j: nat)
    requires Plain(setup, start, init) && SameRequests(init, st) && j < cur < |st| && Separable(setup, start, init)
    requires Kept(setup, start, init, st[..cur], rs) && Unmarked(start, rs)
    requires Sited(setup.orderings, st[cur]) && StillPlain(setup, st[cur])
    requires PlacedWhole(setup.kind, rs, st[cur])
    ensures FitsBeside(setup.kind, st[j], st[cur])
  {
    hide Laid, Sited, PlacedWhole, Separable, Unmarked, StillPlain, Kept, PlainAlternative;
    var s := st[cur];
    forall n, r | n in Laid(setup.kind, s) && r in Laid(setup.kind, st[j]) && r.Overlaps(n.start, n.end)
                  && st[j].entry.device != s.entry.device
      ensures (r.shared && n.shared) || (PortAlias in n.attributes && st[j].entry.device == NULL)
    {
      var q := LaidIsListed(setup, start, init, st, cur, rs, j, r);
      OnlySharingHelps(setup, start, rs, s, n, q);
    }
  }

  /** Everything a placed entry laid down is in the tentative list, up to its attributes. */
  lemma LaidIsListed(setup: Setup, start: seq<Range>, init: seq<State>, st: seq<State>, cur: nat, rs: seq<Range>,
                     j: nat, r: Range)
    returns (q: Range)
    requires Separable(setup, start, init) && SameRequests(init, st) && j < cur < |st|
    requires Kept(setup, start, init, st[..cur], rs)
    requires r in Laid(setup.kind, st[j])
    ensures q in rs && q !in start && ClaimOf(q) == ClaimOf(r) && q.owner == st[j].entry.device
  {
    hide Laid, Consistent, Accounted;
    LaidBelongs(setup.kind, st[j]);
    LaidAllHolds(setup.kind, st[..cur], j, r);
    var ledger := start + LaidAll(setup.kind, st[..cur]);
    ImageMember(ledger, ClaimOf, ClaimOf(r));
    ImageMember(rs, ClaimOf, ClaimOf(r));
    q :| q in rs && ClaimOf(q) == ClaimOf(r);
    assert st[j].SameRequest(init[j]);
  }

  lemma {:induction false} LaidAllHolds(kind: ArbiterKind, st: seq<State>, j: nat, r: Range)
    requires j < |st|
    requires r in Laid(kind, st[j])
    ensures r in LaidAll(kind, st)
  {
    hide Laid;
    if j < |st| - 1 {
      LaidAllHolds(kind, st[..|st| - 1], j, r);
    }
  }

  // ----- Twins -----

  /** What a placement that fits its request lays down is among what its alternative can hold. */
  lemma LaidCanBeHeld(setup: Setup, s: State, n: Range)
    requires FitsRequest(setup.orderings, s) && n in Laid(setup.kind, s)
    ensures CanHold(setup, s.Chosen(), n.start, n.end)
  {
    hide Mirrors;
    var a := s.Chosen();
    assert Candidate(Floor(setup.orderings, a), a.maximum, a.length, a.Step(), s.start);
    if n !in Accepted(Primary(s)) {
      EachMirrorFits([], s, s.start, n);
    }
  }

  lemma SameCanHold(setup: Setup, a: Alternative, b: Alternative, lo: u64, hi: u64)
    requires a.SameRequest(b) && CanHold(setup, a, lo, hi)
    ensures CanHold(setup, b, lo, hi)
  {
    assert a.minimum == b.minimum && a.maximum == b.maximum && a.length == b.length && a.Step() == b.Step();
    assert forall o :: Fits(o, a) <==> Fits(o, b);
    assert Floor(setup.orderings, a) == Floor(setup.orderings, b);
  }

  /** Requirements without twins are not placed on each other with different sharing flags. */
  lemma NoTwinsNoMismatch(setup: Setup, init: seq<State>, st: seq<State>, i: nat, j: nat, n: Range, r: Range)
    requires NoTwins(setup, init) && SameRequests(init, st) && i < |st| && j < |st| && i != j
    requires FitsRequest(setup.orderings, st[i]) && FitsRequest(setup.orderings, st[j])
    requires n in Laid(setup.kind, st[i]) && r in Laid(setup.kind, st[j]) && KeyOf(n) == KeyOf(r)
    requires st[i].Chosen().fixed || (setup.kind == PortArbiter && st[i].entry.device == NULL)
    ensures n.shared == r.shared
  {
    hide Laid, CanHold;
    var x, y, a, b := init[i], init[j], st[i].current.value, st[j].current.value;
    LaidBelongs(setup.kind, st[i]);
    LaidBelongs(setup.kind, st[j]);
    assert st[i].SameRequest(x) && st[j].SameRequest(y);
    assert st[i].alternatives[a].SameRequest(x.alternatives[a]) && st[j].alternatives[b].SameRequest(y.alternatives[b]);
    LaidCanBeHeld(setup, st[i], n);
    SameCanHold(setup, st[i].Chosen(), x.alternatives[a], n.start, n.end);
    LaidCanBeHeld(setup, st[j], r);
    SameCanHold(setup, st[j].Chosen(), y.alternatives[b], n.start, n.end);
    assert !Twins(setup, x.entry.device, x.alternatives[a], y.alternatives[b]);
  }

  lemma AgreeingNoMismatch(kind: ArbiterKind, init: seq<State>, st: seq<State>, i: nat, j: nat)
    requires Agreeing(init) && SameRequests(init, st) && i < |st| && j < |st|
    ensures Matching(Laid(kind, st[j]), Laid(kind, st[i]))
  {
    hide Laid;
    LaidBelongs(kind, st[i]);
    LaidBelongs(kind, st[j]);
    forall r, n | r in Laid(kind, st[j]) && n in Laid(kind, st[i]) && KeyOf(r) == KeyOf(n)
      ensures r.shared == n.shared
    {
      var a, b := st[i].current.value, st[j].current.value;
      assert st[i].SameRequest(init[i]) && st[j].SameRequest(init[j]);
      assert st[i].alternatives[a].SameRequest(init[i].alternatives[a]);
      assert st[j].alternatives[b].SameRequest(init[j].alternatives[b]);
    }
  }

  /** The newcomer agrees on sharing with every placed range it coincides with. */
  lemma NewcomerMatches(setup: Setup, start: seq<Range>, init: seq<State>, st: seq<State>, cur: nat, rs: seq<Range>,
                        j: nat)
    requires SameRequests(init, st) && j < cur < |st| && Separable(setup, start, init)
    requires Kept(setup, start, init, st[..cur], rs)
    requires Plain(setup, start, init) ==>
               && Unmarked(start, rs) && StillPlain(setup, st[cur])
               && FitsRequest(setup.orderings, st[cur]) && FitsRequest(setup.orderings, st[j])
    requires Sited(setup.orderings, st[cur]) && PlacedWhole(setup.kind, rs, st[cur])
    ensures Matching(Laid(setup.kind, st[j]), Laid(setup.kind, st[cur]))
  {
    hide Laid, Sited, PlacedWhole, Kept, FitsRequest, StillPlain, Unmarked, NoTwins, Agreeing, PlainAlternative;
    if Agreeing(init) {
      AgreeingNoMismatch(setup.kind, init, st, cur, j);
    } else {
      forall r, n | r in Laid(setup.kind, st[j]) && n in Laid(setup.kind, st[cur]) && KeyOf(r) == KeyOf(n)
        ensures r.shared == n.shared
      {
        NewcomerAgrees(setup, start, init, st, cur, rs, j, r, n);
      }
    }
  }

  lemma NewcomerAgrees(setup: Setup, start: seq<Range>, init: seq<State>, st: seq<State>, cur: nat, rs: seq<Range>,
                       j: nat, r: Range, n: Range)
    requires Plain(setup, start, init) && NoTwins(setup, init)
    requires SameRequests(init, st) && j < cur < |st|
    requires Kept(setup, start, init, st[..cur], rs) && Unmarked(start, rs)
    requires StillPlain(setup, st[cur]) && FitsRequest(setup.orderings, st[cur]) && FitsRequest(setup.orderings, st[j])
    requires Sited(setup.orderings, st[cur]) && PlacedWhole(setup.kind, rs, st[cur])
    requires r in Laid(setup.kind, st[j]) && n in Laid(setup.kind, st[cur]) && KeyOf(r) == KeyOf(n)
    ensures r.shared == n.shared
  {
    hide Laid, Sited, PlacedWhole, Kept, FitsRequest, Unmarked, NoTwins, Agreeing, PlainAlternative;
    var q := LaidIsListed(setup, start, init, st, cur, rs, j, r);
    LaidBelongs(setup.kind, st[cur]);
    OnlySharingHelps(setup, start, rs, st[cur], n, q);
    if !(q.shared && n.shared) {
      if PortAlias in n.attributes {
        OnlyPortsHaveMirrors(setup.kind, st[cur], n);
      }
      NoTwinsNoMismatch(setup, init, st, cur, j, n, r);
    }
  }

  lemma OnlyPortsHaveMirrors(kind: ArbiterKind, s: State, n: Range)
    requires n in Laid(kind, s) && s.attributes == {} && PortAlias in n.attributes
    ensures kind == PortArbiter
  {
  }

  // ----- Why a fixed alternative may not carry -----

  const NEARLY_ALL := [Range(0, MAX_U64 - 1, 1, {}, false)]

  /** Device 1 asks for the top 2 KB, aligned to a page, and stands where the carried window begins. */
  function TopOfMemory(d: IoDescriptor, e: Entry): State {
    var a := Alternative(TWO_64 - 0x800, MAX_U64, 0x800, 0x1000, PRIORITY_RESERVED, false, true, false, false, d);
    State(0, TWO_64 - 0x801, 0, TWO_64 - 0x801, e.(device := 1), Some(0), [a], false, {}, {})
  }

  lemma TopCarriesToZero()
    ensures Trim(TWO_64 - 0x800, MAX_U64, 0x800, 0x1000) == Some((0, TWO_64 - 0x801))
  {
    DivModUnique(TWO_64 + 0x7FF, 1, 0x7FF, TWO_64);
    DivModUnique(0x7FF, 0, 0x7FF, 0x1000);
    DivModUnique(TWO_64 - 0x800, 0xF_FFFF_FFFF_FFFF, 0x800, 0x1000);
  }

  /** Over its own device it is then given nearly all of memory instead of 2 KB. */
  lemma CarriedFixedOverruns(d: IoDescriptor, e: Entry)
    ensures var s := TopOfMemory(d, e);
            && Sited([], s) && HonestFlag(s.Chosen()) && !NoWindowCarries([], s.Chosen())
            && NoRoom(NEARLY_ALL, s) && PlacedOverOwn(NEARLY_ALL, s)
            && !FitsRequest([], s)
  {
    hide Trim;
    TopCarriesToZero();
    var s := TopOfMemory(d, e);
    var r := NEARLY_ALL[0];
    assert Within([], s);
    assert r in NEARLY_ALL && Blocks(r, s);
    forall p: int | Candidate(s.curMin, s.curMax, 0x800, 0x1000, p)
      ensures !Clear(NEARLY_ALL, p, p + 0x7FF, false, false, {})
    {
      assert r.Overlaps(p, p + 0x7FF);
    }
  }
}
