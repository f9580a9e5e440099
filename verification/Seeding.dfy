/**
ArbpSeedRangeList: a range list keeps what is unavailable, so seeding it from
the windows a bus decodes means blocking everything outside them.
*/
module Seeding {
  import opened Words
  import opened RangeLists
  import opened ArbiterTypes
  import opened Placement

  datatype Window = Window(start: u64, end: u64) {
    /** A window whose end wrapped around holds nothing. */
    predicate Holds(x: int) {
      start <= x <= end
    }
  }

  /** The descriptor is of the arbiter's own type; large memory counts as memory. */
  predicate Matches(kind: ArbiterKind, d: CmDescriptor) {
    match kind
    case BusArbiter => d.kind == BusNumber
    case MemoryArbiter => d.kind == Memory || d.kind == MemoryLarge
    case PortArbiter => d.kind == Port
  }

  /** A descriptor that contributes a window. */
  predicate Decodes(kind: ArbiterKind, d: CmDescriptor) {
    Matches(kind, d) && d.length != 0
  }

  function WindowOf(d: CmDescriptor): Window {
    Window(d.start, Wrap64(d.start + d.length - 1))
  }

  predicate HasWindow(kind: ArbiterKind, ds: seq<CmDescriptor>) {
    exists d :: d in ds && Decodes(kind, d)
  }

  predicate Decoded(kind: ArbiterKind, ds: seq<CmDescriptor>, x: int) {
    exists d :: d in ds && Decodes(kind, d) && WindowOf(d).Holds(x)
  }

  predicate Blocked(rs: seq<Range>, x: int) {
    exists r :: r in rs && r.Overlaps(x, x)
  }

  predicate LowestFirst(ws: seq<Window>) {
    forall i, j :: 0 <= i < j < |ws| ==> ws[i].start <= ws[j].start
  }

  lemma InsertedLowestFirst(ws: seq<Window>, k: nat, w: Window)
    requires LowestFirst(ws) && k <= |ws|
    requires k > 0 ==> ws[k - 1].start <= w.start
    requires k < |ws| ==> w.start <= ws[k].start
    ensures LowestFirst(ws[..k] + [w] + ws[k..])
  {
  }

  /** Makes room for a window in the sorted front of the array and puts it there. */
  method MoveUp(windows: array<Window>, n: nat, w: Window) returns (k: nat)
    requires n < windows.Length
    modifies windows
    ensures k <= n && windows[k] == w
    ensures forall j :: 0 <= j < k ==> windows[j] == old(windows[j])
    ensures forall j :: k < j <= n ==> windows[j] == old(windows[j - 1])
    ensures k > 0 ==> old(windows[k - 1]).start <= w.start
    ensures k < n ==> w.start < old(windows[k]).start
  {
    k := n;
    while k > 0 && windows[k - 1].start > w.start
      invariant k <= n
      invariant forall j :: 0 <= j < k ==> windows[j] == old(windows[j])
      invariant forall j :: k < j <= n ==> windows[j] == old(windows[j - 1])
      invariant k < n ==> w.start < old(windows[k]).start
    {
      windows[k] := windows[k - 1];
      k := k - 1;
    }
    windows[k] := w;
  }

  lemma MovedUp(was: seq<Window>, now: seq<Window>, k: nat, w: Window)
    requires k <= |was| && |now| == |was| + 1 && now[k] == w
    requires forall j :: 0 <= j < k ==> now[j] == was[j]
    requires forall j :: k < j < |now| ==> now[j] == was[j - 1]
    ensures now == was[..k] + [w] + was[k..]
  {
    assert now[..k] == was[..k] && now[k + 1..] == was[k..];
    assert now == now[..k] + [now[k]] + now[k + 1..];
  }

  /** Puts one window into the sorted front of the array. */
  method Insert(windows: array<Window>, n: nat, w: Window) returns (ghost k: nat)
    requires n < windows.Length && LowestFirst(windows[..n])
    modifies windows
    ensures k <= n && windows[..n + 1] == old(windows[..n])[..k] + [w] + old(windows[..n])[k..]
    ensures LowestFirst(windows[..n + 1])
  {
    hide LowestFirst;
    ghost var was := windows[..n];
    var at := MoveUp(windows, n, w);
    k := at;
    InsertedLowestFirst(was, k, w);
    MovedUp(was, windows[..n + 1], k, w);
  }

  /** One of the descriptors contributes this window. */
  predicate IsWindow(kind: ArbiterKind, ds: seq<CmDescriptor>, w: Window) {
    exists d :: d in ds && Decodes(kind, d) && WindowOf(d) == w
  }

  lemma IsWindowStep(kind: ArbiterKind, ds: seq<CmDescriptor>, i: nat, w: Window)
    requires i < |ds|
    ensures IsWindow(kind, ds[..i + 1], w) <==>
              IsWindow(kind, ds[..i], w) || (Decodes(kind, ds[i]) && w == WindowOf(ds[i]))
  {
    assert ds[..i + 1] == ds[..i] + [ds[i]];
  }

  /** The array's front lists exactly the windows of the descriptors. */
  ghost predicate Lists(kind: ArbiterKind, ds: seq<CmDescriptor>, ws: seq<Window>) {
    forall w :: w in ws <==> IsWindow(kind, ds, w)
  }

  lemma ListsMore(kind: ArbiterKind, ds: seq<CmDescriptor>, i: nat, ws: seq<Window>, k: nat)
    requires i < |ds| && Lists(kind, ds[..i], ws) && k <= |ws|
    ensures Lists(kind, ds[..i + 1], if Decodes(kind, ds[i]) then ws[..k] + [WindowOf(ds[i])] + ws[k..] else ws)
  {
    hide IsWindow;
    var more := if Decodes(kind, ds[i]) then ws[..k] + [WindowOf(ds[i])] + ws[k..] else ws;
    assert ws == ws[..k] + ws[k..];
    forall w: Window
      ensures w in more <==> IsWindow(kind, ds[..i + 1], w)
    {
      IsWindowStep(kind, ds, i, w);
      assert w in more <==> w in ws || (Decodes(kind, ds[i]) && w == WindowOf(ds[i]));
      assert w in ws <==> IsWindow(kind, ds[..i], w);
    }
  }

  /** The windows of the arbiter's own type, lowest first. */
  method Collect(kind: ArbiterKind, ds: seq<CmDescriptor>) returns (windows: array<Window>, n: nat)
    ensures fresh(windows) && n <= windows.Length
    ensures LowestFirst(windows[..n]) && Lists(kind, ds, windows[..n])
  {
    windows := new Window[|ds|](_ => Window(0, 0));
    n := 0;
    assert Lists(kind, ds[..0], []);
    hide Lists, LowestFirst;
    NoneIsLowestFirst();
    for i := 0 to |ds|
      invariant n <= i
      invariant LowestFirst(windows[..n])
      invariant Lists(kind, ds[..i], windows[..n])
    {
      ghost var ws := windows[..n];
      ghost var k: nat := 0;
      if Decodes(kind, ds[i]) {
        k := Insert(windows, n, WindowOf(ds[i]));
        n := n + 1;
      }
      ListsMore(kind, ds, i, ws, k);
    }
    assert ds[..|ds|] == ds;
  }

  lemma NoneIsLowestFirst()
    ensures LowestFirst([])
  {
  }

  /** Blocks one stretch on behalf of nobody. */
  method Block(list: RangeList, lo: u64, hi: u64)
    requires lo <= hi
    modifies list
    ensures list.ranges == old(list.ranges) + [Range(lo, hi, NULL, {}, false)]
  {
    var ok := list.Add(lo, hi, {}, true, false, NULL);
  }

  lemma BlockedAppend(rs: seq<Range>, lo: u64, hi: u64, x: int)
    ensures Blocked(rs + [Range(lo, hi, NULL, {}, false)], x) <==> Blocked(rs, x) || lo <= x <= hi
  {
    var r := Range(lo, hi, NULL, {}, false);
    assert r in rs + [r];
    if q :| q in rs && q.Overlaps(x, x) {
      assert q in rs + [r];
    }
  }

  predicate InSome(ws: seq<Window>, x: int) {
    exists w :: w in ws && w.Holds(x)
  }

  /** The sweep has settled everything below `next`, and has blocked nothing it should not. */
  ghost predicate SweptTo(ws: seq<Window>, i: nat, next: int, rs: seq<Range>) {
    && i <= |ws|
    && (forall j :: 0 <= j < i ==> ws[j].end < next)
    && (forall x: int :: 0 <= x < next ==> Blocked(rs, x) || InSome(ws, x))
    && (forall x: int :: Blocked(rs, x) ==> 0 <= x <= MAX_U64 && !InSome(ws, x))
    && (forall r :: r in rs ==> r.owner == NULL && r.attributes == {} && !r.shared)
  }

  /** Blocking up to the next window, or to the top, is sound: no window reaches in there. */
  lemma BlockIsSound(ws: seq<Window>, i: nat, next: u64, hi: u64, rs: seq<Range>)
    requires SweptTo(ws, i, next, rs) && LowestFirst(ws) && next <= hi
    requires i < |ws| ==> hi < ws[i].start
    ensures SweptTo(ws, i, next, rs + [Range(next, hi, NULL, {}, false)])
    ensures forall x: int :: next <= x <= hi ==> Blocked(rs + [Range(next, hi, NULL, {}, false)], x)
  {
    forall x: int
      ensures Blocked(rs + [Range(next, hi, NULL, {}, false)], x) <==> Blocked(rs, x) || next <= x <= hi
    {
      BlockedAppend(rs, next, hi, x);
    }
    forall x: int | next <= x <= hi
      ensures !InSome(ws, x)
    {
      forall w | w in ws
        ensures !w.Holds(x)
      {
        var j :| 0 <= j < |ws| && ws[j] == w;
        if i < j {
          assert ws[i].start <= ws[j].start;
        }
      }
    }
  }

  /** Past a window the mark moves behind its end, unless it is there already. */
  lemma WindowIsSettled(ws: seq<Window>, i: nat, next: int, rs: seq<Range>, mark: int)
    requires SweptTo(ws, i, next, rs) && i < |ws| && next <= MAX_U64
    requires forall x: int :: next <= x < ws[i].start ==> Blocked(rs, x)
    requires mark == Max(next, ws[i].end + 1)
    ensures SweptTo(ws, i + 1, mark, rs)
  {
    forall x: int | next <= x < mark
      ensures Blocked(rs, x) || InSome(ws, x)
    {
      if x >= ws[i].start {
        assert ws[i] in ws && ws[i].Holds(x);
      }
    }
  }

  method Seed(kind: ArbiterKind, ds: seq<CmDescriptor>, list: RangeList)
    modifies list
    // An address is blocked exactly when there are windows and it lies in none of them.
    ensures forall x: int :: 0 <= x <= MAX_U64 ==>
                               (Blocked(list.ranges, x) <==> HasWindow(kind, ds) && !Decoded(kind, ds, x))
    ensures forall r :: r in list.ranges ==> r.owner == NULL && r.attributes == {} && !r.shared
  {
    hide SweptTo, InSome;
    list.Reset();
    if ds == [] {
      return;
    }
    var windows, n := Collect(kind, ds);
    ghost var ws := windows[..n];
    WindowsAreDecoded(kind, ds, ws);
    if n == 0 {
      return;
    }
    var next: u64 := 0;
    SweepBegins(ws);
    for i := 0 to n
      invariant windows[..n] == ws && next <= MAX_U64
      invariant SweptTo(ws, i, next, list.ranges)
    {
      var w := windows[i];
      assert w == ws[i];
      if w.start > next {
        BlockIsSound(ws, i, next, w.start - 1, list.ranges);
        Block(list, next, w.start - 1);
      }
      WindowIsSettled(ws, i, next, list.ranges, Max(next, w.end + 1));
      if w.end == MAX_U64 {
        SweepEnds(ws, i + 1, list.ranges);
        return;
      }
      if w.end >= next {
        next := w.end + 1;
      }
    }
    BlockIsSound(ws, n, next, MAX_U64, list.ranges);
    Block(list, next, MAX_U64);
    SweptOver(ws, n, next, list.ranges);
    SweepEnds(ws, n, list.ranges);
  }

  lemma SweepBegins(ws: seq<Window>)
    ensures SweptTo(ws, 0, 0, [])
  {
  }

  lemma SweptOver(ws: seq<Window>, i: nat, next: int, rs: seq<Range>)
    requires SweptTo(ws, i, next, rs) && next <= MAX_U64
    requires forall x: int :: next <= x <= MAX_U64 ==> Blocked(rs, x)
    ensures SweptTo(ws, i, TWO_64, rs)
  {
  }

  lemma SweepEnds(ws: seq<Window>, i: nat, rs: seq<Range>)
    requires SweptTo(ws, i, TWO_64, rs)
    ensures forall x: int :: 0 <= x <= MAX_U64 ==> (Blocked(rs, x) <==> !InSome(ws, x))
    ensures forall r :: r in rs ==> r.owner == NULL && r.attributes == {} && !r.shared
  {
  }

  lemma WindowsAreDecoded(kind: ArbiterKind, ds: seq<CmDescriptor>, ws: seq<Window>)
    requires Lists(kind, ds, ws)
    ensures HasWindow(kind, ds) <==> ws != []
    ensures forall x: int :: InSome(ws, x) <==> Decoded(kind, ds, x)
  {
    if d :| d in ds && Decodes(kind, d) {
      assert IsWindow(kind, ds, WindowOf(d));
    }
    if ws != [] {
      assert IsWindow(kind, ds, ws[0]);
    }
    forall x: int
      ensures InSome(ws, x) <==> Decoded(kind, ds, x)
    {
      if d :| d in ds && Decodes(kind, d) && WindowOf(d).Holds(x) {
        assert IsWindow(kind, ds, WindowOf(d));
      }
      if w :| w in ws && w.Holds(x) {
        assert IsWindow(kind, ds, w);
      }
    }
  }
}
