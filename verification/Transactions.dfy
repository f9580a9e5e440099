/** Whole runs of arbiter actions, and what they leave committed. */
module Transactions {
  import opened Words
  import opened RangeLists
  import opened ArbiterTypes
  import opened Placement
  import opened Ledger
  import opened Attempts
  import opened Premises
  import opened ArbitrationLists
  import opened Stacks
  import opened Solver
  import opened Soundness
  import opened Search
  import opened Arbiters
  import opened Retesting

  // ----- One action -----

  /** The two lists of an arbiter instance and its transaction flag. */
  datatype View = View(committed: seq<Range>, scratch: seq<Range>, inProgress: bool)

  /** How a test succeeded: the order it took the entries in, where it placed them, and what it told the requesters. */
  datatype Found = Found(order: seq<Entry>, st: seq<State>, told: seq<Entry>)

  /** A request with the list it came with; a test also carries its outcome. */
  datatype Action =
    | Test(es: seq<Entry>, found: Option<Found>)
    | Retest(es: seq<Entry>)
    | Commit
    | Rollback
    | QueryConflict(device: Device, resource: IoDescriptor)
    | Boot(es: seq<Entry>)

  /** A successful test or retest. */
  predicate Proposes(a: Action) {
    || (a.Test? && a.found.Some?)
    || (a.Retest? && Retestable(a.es))
  }

  /** The devices whose ranges a proposal reassigns. */
  function Withdrawn(a: Action): set<Device>
    requires Proposes(a)
  {
    if a.Test? then TestOwners(a.es, NULL) else Devices(a.es)
  }

  /** The ranges it gives them. */
  function Assigned(kind: ArbiterKind, a: Action): seq<Range>
    requires Proposes(a)
  {
    if a.Test? then LaidAll(kind, a.found.value.st) else Relaid(kind, a.es)
  }

  ghost predicate Step(setup: Setup, v: View, a: Action, v': View) {
    match a
    case Test(es, Some(f)) =>
      && v' == View(v.committed, v'.scratch, true)
      && Tested(setup, v.committed, es, f.order, f.st, v'.scratch, f.told)
    case Test(es, None) => v' == View(v.committed, [], v.inProgress)
    case Retest(es) =>
      if Retestable(es)
      then v' == View(v.committed, WithoutOwners(v.committed, Devices(es)) + Relaid(setup.kind, es), true)
      else v' == View(v.committed, [], v.inProgress)
    case Commit => v' == View(v.scratch, [], false)
    case Rollback => v' == View(v.committed, [], false)
    case QueryConflict(_, _) => v' == View(v.committed, [], v.inProgress)
    case Boot(es) => v' == View(v.committed + BootLaid(setup.kind, es), [], v.inProgress)
  }

  datatype Request =
    | TestRequest(list: ArbitrationList)
    | RetestRequest(list: ArbitrationList)
    | CommitRequest
    | RollbackRequest
    | BootRequest(list: ArbitrationList)
    | QueryRequest(device: Device, resource: IoDescriptor)

  ghost function ViewOf(a: Arbiter): View
    reads a, a.allocation, a.possible
  {
    View(a.allocation.ranges, a.possible.ranges, a.inProgress)
  }

  /** The list a request comes with. */
  ghost function Listed(request: Request): seq<Entry>
    reads if request.TestRequest? || request.RetestRequest? || request.BootRequest? then {request.list} else {}
  {
    if request.TestRequest? || request.RetestRequest? || request.BootRequest? then request.list.entries else []
  }

  /** The request, asked with the list `es`, is the action. */
  ghost predicate IsAction(request: Request, es: seq<Entry>, a: Action) {
    match request
    case TestRequest(_) => a.Test? && a.es == es
    case RetestRequest(_) => a == Retest(es)
    case CommitRequest => a == Commit
    case RollbackRequest => a == Rollback
    case BootRequest(_) => a == Boot(es)
    case QueryRequest(device, resource) => a == QueryConflict(device, resource)
  }

  /** ArbiterLibHandler: every action is one step of the machine, and the two lists stay apart. */
  method Handle(a: Arbiter, request: Request) returns (status: Status, ghost action: Action)
    requires a.Valid()
    modifies a, a.allocation, a.possible, if request.TestRequest? || request.BootRequest? then {request.list} else {}
    ensures a.Valid()
    ensures {a.allocation, a.possible} == old({a.allocation, a.possible})
    ensures IsAction(request, old(Listed(request)), action)
    ensures Step(a.setup, old(ViewOf(a)), action, ViewOf(a))
    ensures request.TestRequest? || request.RetestRequest? ==> (status == Success <==> Proposes(action))
    ensures request.TestRequest? && status == Success ==> Listed(request) == action.found.value.told
  {
    hide Tested, Retestable, WithoutOwners, Devices, Relaid, BootLaid;
    status := Success;
    match request {
      case TestRequest(list) =>
        ghost var es := list.entries;
        ghost var order, st;
        status, order, st := a.Test(list);
        action := Test(es, if status == Success then Some(Found(order, st, list.entries)) else None);
      case RetestRequest(list) =>
        status := a.Retest(list);
        action := Retest(list.entries);
      case CommitRequest =>
        a.Commit();
        action := Commit;
      case RollbackRequest =>
        a.Rollback();
        action := Rollback;
      case BootRequest(list) =>
        action := Boot(list.entries);
        a.Boot(list);
      case QueryRequest(device, resource) =>
        var conflicts;
        ghost var s, rs;
        status, conflicts, s, rs := a.QueryConflict(device, resource);
        action := QueryConflict(device, resource);
    }
    if status == Success {
      if request.TestRequest? || request.RetestRequest? {
        a.inProgress := true;
      } else if request.CommitRequest? || request.RollbackRequest? {
        a.inProgress := false;
      }
    }
  }

  /** The proposal's sharing flags are exact: always for a retest, and for a test that twins do not confuse. */
  ghost predicate ExactProposal(setup: Setup, v: View, a: Action)
    requires Proposes(a)
  {
    a.Test? && (forall e :: e in a.found.value.order ==> Buildable(e)) ==>
      Separable(setup, WithoutOwners(v.committed, Withdrawn(a)), Stack(a.found.value.order))
  }

  /** A proposal leaves the committed ranges without the listed devices', and the newly assigned ones. */
  lemma ProposalIsScratch(setup: Setup, v: View, a: Action, v': View)
    requires Step(setup, v, a, v') && Proposes(a)
    ensures Balanced(v'.scratch, WithoutOwners(v.committed, Withdrawn(a)) + Assigned(setup.kind, a),
                     ExactProposal(setup, v, a))
  {
    hide Balanced, LaidAll, Separable, Sound, Plain, StillPlain, Consistent, Accounted, Relaid, WithoutOwners,
      Retestable;
    if a.Retest? {
      BalancedSelf(v'.scratch, true);
      BalancedWeaken(v'.scratch, v'.scratch, true, ExactProposal(setup, v, a));
    }
  }

  /** A plain list without twins is proposed exactly. */
  lemma PlainIsExact(setup: Setup, v: View, a: Action, v': View)
    requires Step(setup, v, a, v') && Proposes(a)
    requires a.Test? ==> PlainList(setup, v.committed, a.es) && TwinFree(setup, a.es)
    ensures ExactProposal(setup, v, a)
  {
    hide PlainList, TwinFree, Solution, Told, Separable, WithoutOwners, Retestable;
    if a.Test? {
      var order := a.found.value.order;
      PlainReordered(setup, v.committed, a.es, order);
      TwinFreeReordered(setup, a.es, order);
      ReorderedDevices(a.es, order);
      NoNullDevices(setup, v.committed, a.es);
      SeparableStack(setup, v.committed, order);
    }
  }

  // ----- Runs -----

  ghost predicate Run(setup: Setup, vs: seq<View>, acts: seq<Action>) {
    && |vs| == |acts| + 1
    && forall i :: 0 <= i < |acts| ==> Step(setup, vs[i], acts[i], vs[i + 1])
  }

  /** Every commit directly follows a successful test or retest. */
  predicate Disciplined(acts: seq<Action>) {
    forall i :: 0 <= i < |acts| && acts[i].Commit? ==> i > 0 && Proposes(acts[i - 1])
  }

  /**
  The book of record, from the requests alone: a boot reservation adds the
  configurations on its list, and a commit takes the devices of the list
  proposed just before it and gives them the ranges found for them.
  */
  function BookOfRecord(kind: ArbiterKind, base: seq<Range>, acts: seq<Action>): seq<Range>
    requires Disciplined(acts)
  {
    if acts == [] then base
    else
      var n := |acts| - 1;
      assert Disciplined(acts[..n]);
      var before := BookOfRecord(kind, base, acts[..n]);
      match acts[n]
      case Boot(es) => before + BootLaid(kind, es)
      case Commit => WithoutOwners(before, Withdrawn(acts[n - 1])) + Assigned(kind, acts[n - 1])
      case _ => before
  }

  /** All that was committed had been proposed exactly. */
  ghost predicate Exact(setup: Setup, vs: seq<View>, acts: seq<Action>)
    requires Disciplined(acts) && |vs| == |acts| + 1
  {
    forall i :: 0 < i < |acts| && acts[i].Commit? ==> ExactProposal(setup, vs[i - 1], acts[i - 1])
  }

  /** How often a projection occurs once some owners' ranges are gone. */
  lemma {:induction false} WithoutOwnersImage<T>(rs: seq<Range>, owners: set<Device>, f: Range -> T,
                                                 ownerOf: T -> Device, x: T)
    requires forall r :: ownerOf(f(r)) == r.owner
    ensures Image(WithoutOwners(rs, owners), f)[x] == if ownerOf(x) in owners then 0 else Image(rs, f)[x]
  {
    if rs == [] {
    } else {
      var n := |rs| - 1;
      WithoutOwnersImage(rs[..n], owners, f, ownerOf, x);
      assert rs == rs[..n] + [rs[n]];
      ImageAppend(rs[..n], [rs[n]], f);
      ImageAppend(WithoutOwners(rs[..n], owners), [rs[n]], f);
      assert Map([rs[n]], f) == [f(rs[n])];
    }
  }

  /** Withdrawing owners keeps the books balanced. */
  lemma BalancedWithout(rs: seq<Range>, ledger: seq<Range>, owners: set<Device>, sharing: bool)
    requires Balanced(rs, ledger, sharing)
    ensures Balanced(WithoutOwners(rs, owners), WithoutOwners(ledger, owners), sharing)
  {
    hide Image, WithoutOwners;
    var rs', ledger' := WithoutOwners(rs, owners), WithoutOwners(ledger, owners);
    forall x
      ensures Image(rs', KeyOf)[x] == Image(ledger', KeyOf)[x]
    {
      WithoutOwnersImage(rs, owners, KeyOf, (k: Key) => k.owner, x);
      WithoutOwnersImage(ledger, owners, KeyOf, (k: Key) => k.owner, x);
    }
    assert Image(rs', KeyOf) == Image(ledger', KeyOf);
    if sharing {
      forall x
        ensures Image(rs', ClaimOf)[x] == Image(ledger', ClaimOf)[x]
      {
        WithoutOwnersImage(rs, owners, ClaimOf, (c: Claim) => c.owner, x);
        WithoutOwnersImage(ledger, owners, ClaimOf, (c: Claim) => c.owner, x);
      }
      assert Image(rs', ClaimOf) == Image(ledger', ClaimOf);
    }
  }

  lemma BalancedChain(a: seq<Range>, b: seq<Range>, c: seq<Range>, ab: bool, bc: bool)
    requires Balanced(a, b, ab) && Balanced(b, c, bc)
    ensures Balanced(a, c, ab && bc)
  {
  }

  lemma BalancedSelf(rs: seq<Range>, sharing: bool)
    ensures Balanced(rs, rs, sharing)
  {
  }

  lemma BalancedWeaken(a: seq<Range>, b: seq<Range>, strong: bool, weak: bool)
    requires Balanced(a, b, strong) && (weak ==> strong)
    ensures Balanced(a, b, weak)
  {
  }

  lemma RunPrefix(setup: Setup, vs: seq<View>, acts: seq<Action>)
    requires Run(setup, vs, acts) && Disciplined(acts) && acts != []
    ensures var n := |acts| - 1;
            && Run(setup, vs[..|acts|], acts[..n]) && Disciplined(acts[..n])
            && (Exact(setup, vs, acts) ==> Exact(setup, vs[..|acts|], acts[..n]))
  {
    hide Step, Proposes, ExactProposal;
    var n := |acts| - 1;
    assert forall i :: 0 <= i < n ==> acts[..n][i] == acts[i];
    assert forall i :: 0 <= i <= n ==> vs[..|acts|][i] == vs[i];
  }

  /**
  Transaction safety: at the end of every disciplined run the committed list is
  the starting one changed by the committed proposals and the boot reservations
  alone, each taken in order.
  */
  lemma {:induction false} CommittedIsRecord(setup: Setup, vs: seq<View>, acts: seq<Action>)
    requires Run(setup, vs, acts) && Disciplined(acts)
    ensures Balanced(vs[|acts|].committed, BookOfRecord(setup.kind, vs[0].committed, acts), Exact(setup, vs, acts))
  {
    hide Balanced, WithoutOwners, ExactProposal, Step, Withdrawn, Assigned, Proposes, BootLaid;
    if acts == [] {
      BalancedSelf(vs[0].committed, Exact(setup, vs, acts));
    } else {
      var n := |acts| - 1;
      RunPrefix(setup, vs, acts);
      CommittedIsRecord(setup, vs[..|acts|], acts[..n]);
      RecordStep(setup, vs, acts, BookOfRecord(setup.kind, vs[0].committed, acts[..n]),
                 Exact(setup, vs[..|acts|], acts[..n]));
    }
  }

  /** The last action changes the committed list as it changes the book. */
  lemma RecordStep(setup: Setup, vs: seq<View>, acts: seq<Action>, was: seq<Range>, exact: bool)
    requires Run(setup, vs, acts) && Disciplined(acts) && acts != []
    requires Balanced(vs[|acts| - 1].committed, was, exact)
    requires was == BookOfRecord(setup.kind, vs[0].committed, acts[..|acts| - 1])
    requires Exact(setup, vs, acts) ==> exact
    ensures Balanced(vs[|acts|].committed, BookOfRecord(setup.kind, vs[0].committed, acts), Exact(setup, vs, acts))
  {
    hide Balanced, WithoutOwners, ExactProposal, Tested, Withdrawn, Assigned, BootLaid, Relaid, Retestable;
    var n := |acts| - 1;
    var kind, before := setup.kind, vs[n].committed;
    assert Step(setup, vs[n], acts[n], vs[n + 1]);
    match acts[n] {
      case Boot(es) =>
        BalancedAppend(before, was, BootLaid(kind, es), exact);
        BalancedWeaken(before + BootLaid(kind, es), was + BootLaid(kind, es), exact, Exact(setup, vs, acts));
      case Commit =>
        var a := acts[n - 1];
        assert Step(setup, vs[n - 1], a, vs[n]);
        var sharing := ExactProposal(setup, vs[n - 1], a);
        ProposalIsScratch(setup, vs[n - 1], a, vs[n]);
        var owners, given := Withdrawn(a), Assigned(kind, a);
        BalancedWithout(before, was, owners, exact);
        BalancedAppend(WithoutOwners(before, owners), WithoutOwners(was, owners), given, exact);
        BalancedChain(vs[n].scratch, WithoutOwners(before, owners) + given, WithoutOwners(was, owners) + given,
                      sharing, exact);
        BalancedWeaken(vs[n].scratch, WithoutOwners(was, owners) + given, sharing && exact, Exact(setup, vs, acts));
      case _ =>
        BalancedWeaken(before, was, exact, Exact(setup, vs, acts));
    }
  }

  /** Every successful test of the run was of a plain list. */
  ghost predicate PlainRun(setup: Setup, vs: seq<View>, acts: seq<Action>)
    requires |vs| == |acts| + 1
  {
    forall i :: 0 <= i < |acts| && acts[i].Test? && Proposes(acts[i]) ==> PlainList(setup, vs[i].committed, acts[i].es)
  }

  /** Plain lists without twins are committed with their sharing flags. */
  lemma PlainRunIsExact(setup: Setup, vs: seq<View>, acts: seq<Action>)
    requires Run(setup, vs, acts) && Disciplined(acts) && PlainRun(setup, vs, acts)
    requires forall a :: a in acts && a.Test? ==> TwinFree(setup, a.es)
    ensures Exact(setup, vs, acts)
  {
    hide Step, Proposes, PlainList, TwinFree, ExactProposal;
    forall i | 0 < i < |acts| && acts[i].Commit?
      ensures ExactProposal(setup, vs[i - 1], acts[i - 1])
    {
      assert acts[i - 1] in acts && Step(setup, vs[i - 1], acts[i - 1], vs[i - 1 + 1]);
      PlainIsExact(setup, vs[i - 1], acts[i - 1], vs[i]);
    }
  }

  // ----- What the requesters were told -----

  /** The book as the requesters could keep it: from the assignments they were given. */
  function BookOfAssignments(kind: ArbiterKind, base: seq<Range>, acts: seq<Action>): seq<Range>
    requires Disciplined(acts)
    requires forall a :: a in acts && a.Test? && Proposes(a) ==> Retestable(a.found.value.told)
  {
    if acts == [] then base
    else
      var n := |acts| - 1;
      assert Disciplined(acts[..n]) && forall a :: a in acts[..n] ==> a in acts;
      var before := BookOfAssignments(kind, base, acts[..n]);
      match acts[n]
      case Boot(es) => before + BootLaid(kind, es)
      case Commit =>
        var p := acts[n - 1];
        assert p in acts;
        var told := if p.Test? then p.found.value.told else p.es;
        WithoutOwners(before, Devices(told)) + Relaid(kind, told)
      case _ => before
  }

  /** What a plain test was found to place is what its requesters were told. */
  lemma ToldIsPlaced(setup: Setup, v: View, a: Action, v': View)
    requires Step(setup, v, a, v') && a.Test? && Proposes(a) && PlainList(setup, v.committed, a.es)
    ensures var told := a.found.value.told;
            Retestable(told) && Devices(told) == Withdrawn(a) && Relaid(setup.kind, told) == Assigned(setup.kind, a)
  {
    hide Tested, PlainList, Retestable, Relaid, Devices, LaidAll, TestOwners;
    var f := a.found.value;
    RetestRebuildsTest(setup, v.committed, a.es, f.order, f.st, v'.scratch, f.told);
  }

  lemma ToldCanBeRetested(setup: Setup, vs: seq<View>, acts: seq<Action>)
    requires Run(setup, vs, acts) && PlainRun(setup, vs, acts)
    ensures forall a :: a in acts && a.Test? && Proposes(a) ==> Retestable(a.found.value.told)
  {
    hide Step, PlainList, Retestable;
    forall a | a in acts && a.Test? && Proposes(a)
      ensures Retestable(a.found.value.told)
    {
      var i :| 0 <= i < |acts| && acts[i] == a;
      ToldIsPlaced(setup, vs[i], a, vs[i + 1]);
    }
  }

  /** The book of record and the assignments told to the requesters say the same. */
  lemma {:induction false} RecordIsTold(setup: Setup, vs: seq<View>, acts: seq<Action>)
    requires Run(setup, vs, acts) && Disciplined(acts) && PlainRun(setup, vs, acts)
    ensures forall a :: a in acts && a.Test? && Proposes(a) ==> Retestable(a.found.value.told)
    ensures BookOfAssignments(setup.kind, vs[0].committed, acts) == BookOfRecord(setup.kind, vs[0].committed, acts)
  {
    hide Step, PlainRun, Disciplined, Proposes, Retestable, BookOfRecord, BookOfAssignments;
    ToldCanBeRetested(setup, vs, acts);
    if acts == [] {
      EmptyBooks(setup.kind, vs[0].committed);
    } else {
      RunPrefix(setup, vs, acts);
      PlainPrefix(setup, vs, acts);
      RecordIsTold(setup, vs[..|acts|], acts[..|acts| - 1]);
      ToldStep(setup, vs, acts);
    }
  }

  lemma EmptyBooks(kind: ArbiterKind, base: seq<Range>)
    ensures Disciplined([]) && BookOfRecord(kind, base, []) == base == BookOfAssignments(kind, base, [])
  {
  }

  /** The last action changes both books alike. */
  lemma ToldStep(setup: Setup, vs: seq<View>, acts: seq<Action>)
    requires Run(setup, vs, acts) && Disciplined(acts) && PlainRun(setup, vs, acts) && acts != []
    requires forall a :: a in acts && a.Test? && Proposes(a) ==> Retestable(a.found.value.told)
    requires Disciplined(acts[..|acts| - 1])
    requires forall a :: a in acts[..|acts| - 1] && a.Test? && Proposes(a) ==> Retestable(a.found.value.told)
    requires BookOfAssignments(setup.kind, vs[0].committed, acts[..|acts| - 1]) ==
             BookOfRecord(setup.kind, vs[0].committed, acts[..|acts| - 1])
    ensures BookOfAssignments(setup.kind, vs[0].committed, acts) == BookOfRecord(setup.kind, vs[0].committed, acts)
  {
    hide Step, PlainRun, Proposes, Retestable, WithoutOwners, Devices, Relaid, BootLaid, Withdrawn, Assigned;
    if acts[|acts| - 1].Commit? {
      ProposalIsTold(setup, vs, acts);
    }
  }

  lemma PlainPrefix(setup: Setup, vs: seq<View>, acts: seq<Action>)
    requires acts != [] && |vs| == |acts| + 1 && PlainRun(setup, vs, acts)
    ensures PlainRun(setup, vs[..|acts|], acts[..|acts| - 1])
  {
    hide Proposes, PlainList;
  }

  lemma ProposalIsTold(setup: Setup, vs: seq<View>, acts: seq<Action>)
    requires Run(setup, vs, acts) && Disciplined(acts) && PlainRun(setup, vs, acts)
    requires acts != [] && acts[|acts| - 1].Commit?
    ensures |acts| > 1 && Proposes(acts[|acts| - 2])
    ensures var p := acts[|acts| - 2];
            var told := if p.Test? then p.found.value.told else p.es;
            && Retestable(told) && Withdrawn(p) == Devices(told)
            && Assigned(setup.kind, p) == Relaid(setup.kind, told)
  {
    hide Step, PlainList, Retestable, Devices, Relaid, Withdrawn, Assigned;
    var k := |acts| - 2;
    var p := acts[k];
    if p.Test? {
      ToldIsPlaced(setup, vs[k], p, vs[k + 1]);
    } else {
      RetestAssigns(setup.kind, p);
    }
  }

  lemma RetestAssigns(kind: ArbiterKind, a: Action)
    requires !a.Test? && Proposes(a)
    ensures a.Retest? && Withdrawn(a) == Devices(a.es) && Retestable(a.es) && Assigned(kind, a) == Relaid(kind, a.es)
  {
  }

  /** The discipline is needed: a commit that does not directly follow a proposal installs the empty list. */
  lemma UndisciplinedCommitLosesAll(setup: Setup, vs: seq<View>, acts: seq<Action>, i: nat)
    requires Run(setup, vs, acts) && i + 1 < |acts| && acts[i + 1].Commit? && !Proposes(acts[i])
    ensures vs[i + 2].committed == []
  {
    assert Step(setup, vs[i], acts[i], vs[i + 1]) && Step(setup, vs[i + 1], acts[i + 1], vs[i + 2]);
  }
}
