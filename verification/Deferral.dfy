/**
Deferral from DIRQL to the DPC, as atomic steps of any number of agents: a
signaller, a running DPC instance, a worker thread or a draining thread each
occupy one agent slot. What a work handler does is done by further agents.
*/
module Deferral {
  import opened Words

  // ----- The machine -----

  /** What can stand on the pending list: a semaphore's entry or a work item's. */
  datatype Entry = Signal(sem: nat) | Work(item: nat)

  /** Where an agent stands between two atomic operations. */
  datatype Pc =
    | Idle
    | Pushing(entry: Entry, inDpc: bool)    // about to push an entry
    | Inserting(inDpc: bool)                // pushed, about to queue the DPC
    | AtPop                                 // a DPC instance at the head of its loop
    | Popped(entry: Entry)                  // holds what it popped
    | Read(sem: nat, units: nat)            // a flush that has read the units
    | Released(sem: nat, units: nat)        // a flush that has released them
    | Scheduling(item: nat)                 // counted, not handed on yet
    | Running(item: nat)                    // a worker inside a handler
    | SettingEvent                          // took the count to zero
    | Clearing | Checking | Waiting         // a drain

  /** One semaphore, with the units given to it and released to it so far. */
  datatype Semaphore = Semaphore(deferred: int, given: nat, released: nat)

  datatype State = State(
    agents: seq<Pc>, pending: seq<Entry>, dpcQueued: bool, sems: seq<Semaphore>,
    queued: multiset<nat>, outstanding: int, event: bool)

  datatype Step =
    | GiveLow(sem: nat)                     // a signal at DISPATCH_LEVEL or below
    | GiveHigh(sem: nat)                    // a signal above it
    | Push
    | Insert
    | StartDpc
    | Pop
    | ReadUnits
    | ReleaseUnits
    | Settle
    | QueueWork
    | ScheduleWork(item: nat)
    | HandOn(high: bool)
    | StartWork(item: nat)
    | FinishWork
    | SetEvent
    | StartDrain
    | ClearEvent
    | CheckCount
    | Wake

  /** An agent moves to its next position. */
  function At(c: State, a: nat, pc: Pc): State
    requires a < |c.agents|
  {
    c.(agents := c.agents[a := pc])
  }

  function WithSem(c: State, s: nat, sem: Semaphore): State
    requires s < |c.sems|
  {
    c.(sems := c.sems[s := sem])
  }

  /** Back to the DPC loop, or out of the signal or schedule call. */
  function Resume(inDpc: bool): Pc {
    if inDpc then AtPop else Idle
  }

  /** One atomic operation of agent `a`. */
  predicate Next(c: State, a: nat, step: Step, c': State) {
    a < |c.agents| &&
    var pc := c.agents[a];
    match step
    case GiveLow(s) =>
      && pc.Idle? && s < |c.sems|
      && c' == WithSem(c, s, c.sems[s].(given := c.sems[s].given + 1, released := c.sems[s].released + 1))
    case GiveHigh(s) =>
      && pc.Idle? && s < |c.sems|
      && var sem := c.sems[s].(deferred := c.sems[s].deferred + 1, given := c.sems[s].given + 1);
         c' == At(WithSem(c, s, sem), a, if sem.deferred == 1 then Pushing(Signal(s), false) else Idle)
    case Push =>
      pc.Pushing? && c' == At(c, a, Inserting(pc.inDpc)).(pending := [pc.entry] + c.pending)
    case Insert =>
      pc.Inserting? && c' == At(c, a, Resume(pc.inDpc)).(dpcQueued := true)
    case StartDpc =>
      pc.Idle? && c.dpcQueued && c' == At(c, a, AtPop).(dpcQueued := false)
    case Pop =>
      && pc.AtPop?
      && c' == if c.pending == [] then At(c, a, Idle)
               else At(c, a, Popped(c.pending[0])).(pending := c.pending[1..])
    case ReadUnits =>
      && pc.Popped? && pc.entry.Signal? && pc.entry.sem < |c.sems|
      && c.sems[pc.entry.sem].deferred >= 0
      && c' == At(c, a, Read(pc.entry.sem, c.sems[pc.entry.sem].deferred))
    case ReleaseUnits =>
      && pc.Read? && pc.sem < |c.sems|
      && var sem := c.sems[pc.sem];
         c' == At(WithSem(c, pc.sem, sem.(released := sem.released + pc.units)), a, Released(pc.sem, pc.units))
    case Settle =>
      && pc.Released? && pc.sem < |c.sems|
      && var sem := c.sems[pc.sem];
         c' == At(WithSem(c, pc.sem, sem.(deferred := sem.deferred - pc.units)), a,
                  if sem.deferred != pc.units then Pushing(Signal(pc.sem), true) else AtPop)
    case QueueWork =>
      pc.Popped? && pc.entry.Work? && c' == At(c, a, AtPop).(queued := c.queued + multiset{pc.entry.item})
    case ScheduleWork(item) =>
      pc.Idle? && c' == At(c, a, Scheduling(item)).(outstanding := c.outstanding + 1)
    case HandOn(high) =>
      && pc.Scheduling?
      && c' == if high then At(c, a, Pushing(Work(pc.item), false))
               else At(c, a, Idle).(queued := c.queued + multiset{pc.item})
    case StartWork(item) =>
      pc.Idle? && item in c.queued && c' == At(c, a, Running(item)).(queued := c.queued - multiset{item})
    case FinishWork =>
      && pc.Running?
      && c' == At(c, a, if c.outstanding == 1 then SettingEvent else Idle).(outstanding := c.outstanding - 1)
    case SetEvent =>
      pc.SettingEvent? && c' == At(c, a, Idle).(event := true)
    case StartDrain =>
      pc.Idle? && c' == At(c, a, Clearing)
    case ClearEvent =>
      pc.Clearing? && c' == At(c, a, Checking).(event := false)
    case CheckCount =>
      pc.Checking? && c' == At(c, a, if c.outstanding == 0 then Idle else Waiting)
    case Wake =>
      pc.Waiting? && c' == At(c, a, Clearing)    // the event or the timeout
  }

  predicate Init(c: State) {
    && (forall a :: 0 <= a < |c.agents| ==> c.agents[a].Idle?)
    && c.pending == [] && !c.dpcQueued && c.queued == multiset{} && c.outstanding == 0
    && (forall s :: 0 <= s < |c.sems| ==> c.sems[s] == Semaphore(0, 0, 0))
  }

  // ----- Who is responsible -----

  /** The agent holds the semaphore's units: about to push its entry, or flushing it. */
  function Holds(pc: Pc, s: nat): nat {
    match pc
    case Pushing(e, _) => if e == Signal(s) then 1 else 0
    case Popped(e) => if e == Signal(s) then 1 else 0
    case Read(sem, _) => if sem == s then 1 else 0
    case Released(sem, _) => if sem == s then 1 else 0
    case _ => 0
  }

  /** Units a flush has released and not taken off the count yet. */
  function InFlight(pc: Pc, s: nat): int {
    if pc.Released? && pc.sem == s then pc.units else 0
  }

  /** The agent carries a work item that is deferred or running. */
  function Carries(pc: Pc): nat {
    match pc
    case Pushing(e, _) => if e.Work? then 1 else 0
    case Popped(e) => if e.Work? then 1 else 0
    case Scheduling(_) => 1
    case Running(_) => 1
    case _ => 0
  }

  function Sum(agents: seq<Pc>, f: Pc -> int): int {
    if agents == [] then 0 else Sum(agents[..|agents| - 1], f) + f(agents[|agents| - 1])
  }

  function Tally(pending: seq<Entry>, f: Entry -> int): int {
    if pending == [] then 0 else f(pending[0]) + Tally(pending[1..], f)
  }

  lemma {:induction false} SumUpdate(agents: seq<Pc>, f: Pc -> int, a: nat, pc: Pc)
    requires a < |agents|
    ensures Sum(agents[a := pc], f) == Sum(agents, f) - f(agents[a]) + f(pc)
  {
    var n := |agents| - 1;
    if a < n {
      SumUpdate(agents[..n], f, a, pc);
      assert agents[a := pc][..n] == agents[..n][a := pc];
    } else {
      assert agents[a := pc][..n] == agents[..n];
    }
  }

  lemma {:induction false} SumIsNatural(agents: seq<Pc>, f: Pc -> int)
    requires forall pc :: f(pc) >= 0
    ensures Sum(agents, f) >= 0
    ensures forall a :: 0 <= a < |agents| ==> f(agents[a]) <= Sum(agents, f)
  {
    if agents != [] {
      SumIsNatural(agents[..|agents| - 1], f);
    }
  }

  lemma {:induction false} TallyIsNatural(pending: seq<Entry>, f: Entry -> int)
    requires forall e :: f(e) >= 0
    ensures Tally(pending, f) >= 0
    ensures forall i :: 0 <= i < |pending| ==> f(pending[i]) <= Tally(pending, f)
  {
    if pending != [] {
      TallyIsNatural(pending[1..], f);
    }
  }

  function HoldsOf(s: nat): Pc -> int {
    pc => Holds(pc, s)
  }

  function InFlightOf(s: nat): Pc -> int {
    pc => InFlight(pc, s)
  }

  function CarriesOf(): Pc -> int {
    pc => Carries(pc)
  }

  function Names(s: nat): Entry -> int {
    e => if e == Signal(s) then 1 else 0
  }

  function IsWork(): Entry -> int {
    (e: Entry) => if e.Work? then 1 else 0
  }

  /** List entries, pushers and flushes of one semaphore. */
  function Responsible(c: State, s: nat): int {
    Sum(c.agents, HoldsOf(s)) + Tally(c.pending, Names(s))
  }

  /** Work items anywhere between being scheduled and having run. */
  function Alive(c: State): int {
    Sum(c.agents, CarriesOf()) + Tally(c.pending, IsWork()) + |c.queued|
  }

  // ----- The invariant -----

  /** A flush has no more units in hand than the semaphore is owed. */
  predicate FlushStands(c: State, pc: Pc) {
    && (pc.Read? || pc.Released? ==> pc.sem < |c.sems| && 1 <= pc.units <= c.sems[pc.sem].deferred)
    && (pc.Pushing? && pc.entry.Signal? ==> pc.entry.sem < |c.sems|)
    && (pc.Popped? && pc.entry.Signal? ==> pc.entry.sem < |c.sems|)
  }

  predicate SemStands(c: State, s: nat)
    requires s < |c.sems|
  {
    && c.sems[s].deferred >= 0
    && Responsible(c, s) == (if c.sems[s].deferred > 0 then 1 else 0)
    && c.sems[s].given == c.sems[s].released + c.sems[s].deferred - Sum(c.agents, InFlightOf(s))
  }

  /** The DPC will look at the list: it is queued, about to be, or an instance has yet to find the list empty. */
  predicate InLoop(pc: Pc) {
    || pc.Inserting? || pc.AtPop? || pc.Popped? || pc.Read? || pc.Released?
    || (pc.Pushing? && pc.inDpc)
  }

  predicate SomeoneLooks(c: State) {
    c.pending != [] ==> c.dpcQueued || exists a :: 0 <= a < |c.agents| && InLoop(c.agents[a])
  }

  ghost predicate Inv(c: State) {
    && (forall s :: 0 <= s < |c.sems| ==> SemStands(c, s))
    && (forall a :: 0 <= a < |c.agents| ==> FlushStands(c, c.agents[a]))
    && (forall e :: e in c.pending && e.Signal? ==> e.sem < |c.sems|)
    && c.outstanding == Alive(c)
    && SomeoneLooks(c)
  }

  lemma InitInv(c: State)
    requires Init(c)
    ensures Inv(c)
  {
    forall s | 0 <= s < |c.sems|
      ensures SemStands(c, s)
    {
      AllIdle(c.agents, HoldsOf(s));
      AllIdle(c.agents, InFlightOf(s));
    }
    AllIdle(c.agents, CarriesOf());
  }

  lemma {:induction false} AllIdle(agents: seq<Pc>, f: Pc -> int)
    requires f(Idle) == 0 && forall a :: 0 <= a < |agents| ==> agents[a].Idle?
    ensures Sum(agents, f) == 0
  {
    if agents != [] {
      AllIdle(agents[..|agents| - 1], f);
    }
  }

  // ----- Every step keeps it -----

  /** Only the moving agent's position changes. */
  lemma OneMoves(c: State, a: nat, step: Step, c': State)
    requires Next(c, a, step, c')
    ensures a < |c.agents| == |c'.agents| && c'.agents == c.agents[a := c'.agents[a]]
    ensures |c'.sems| == |c.sems|
  {
  }

  lemma {:induction false} TwoCount(agents: seq<Pc>, f: Pc -> int, a: nat, b: nat)
    requires a < b < |agents| && forall pc :: f(pc) >= 0
    ensures Sum(agents, f) >= f(agents[a]) + f(agents[b])
  {
    var n := |agents| - 1;
    if b < n {
      TwoCount(agents[..n], f, a, b);
    } else {
      SumIsNatural(agents[..n], f);
      assert agents[..n][a] == agents[a];
    }
  }

  /** Nobody else has a semaphore's units while one agent has them, and its entry is not on the list. */
  lemma Alone(c: State, a: nat, b: nat, s: nat)
    requires Inv(c) && s < |c.sems| && a < |c.agents| && b < |c.agents| && a != b
    requires Holds(c.agents[a], s) == 1
    ensures Holds(c.agents[b], s) == 0 && c.sems[s].deferred > 0
  {
    assert SemStands(c, s);
    TwoCount(c.agents, HoldsOf(s), Min(a, b), Max(a, b));
    TallyIsNatural(c.pending, Names(s));
  }

  lemma PendingTally(c: State, a: nat, step: Step, c': State, f: Entry -> int)
    requires Next(c, a, step, c')
    ensures Tally(c'.pending, f) == Tally(c.pending, f)
              + (if step.Push? then f(c.agents[a].entry) else 0)
              - (if step.Pop? && c.pending != [] then f(c.pending[0]) else 0)
  {
    if step.Push? {
      assert c'.pending[1..] == c.pending;
    }
  }

  lemma StepKeepsSem(c: State, a: nat, step: Step, c': State, s: nat)
    requires Inv(c) && Next(c, a, step, c') && s < |c.sems|
    ensures s < |c'.sems| && SemStands(c', s)
  {
    hide Next, Inv, Responsible, Sum, Tally;
    OneMoves(c, a, step, c');
    SumUpdate(c.agents, HoldsOf(s), a, c'.agents[a]);
    SumUpdate(c.agents, InFlightOf(s), a, c'.agents[a]);
    PendingTally(c, a, step, c', Names(s));
    SemBefore(c, a, s);
    SemDelta(c, a, step, c', s);
    SemAfter(c, c', s);
  }

  /** What the invariant says about one semaphore and the moving agent. */
  lemma SemBefore(c: State, a: nat, s: nat)
    requires Inv(c) && s < |c.sems| && a < |c.agents|
    ensures SemStands(c, s) && FlushStands(c, c.agents[a])
    ensures Holds(c.agents[a], s) == 1 ==> c.sems[s].deferred > 0
  {
    SumIsNatural(c.agents, HoldsOf(s));
    TallyIsNatural(c.pending, Names(s));
    assert SemStands(c, s);
  }

  lemma SemAfter(c: State, c': State, s: nat)
    requires s < |c.sems| == |c'.sems| && SemStands(c, s)
    requires c'.sems[s].deferred >= 0
    requires Sum(c'.agents, HoldsOf(s)) + Tally(c'.pending, Names(s))
             - Sum(c.agents, HoldsOf(s)) - Tally(c.pending, Names(s))
          == (if c'.sems[s].deferred > 0 then 1 else 0) - (if c.sems[s].deferred > 0 then 1 else 0)
    requires c'.sems[s].given - c'.sems[s].released - c'.sems[s].deferred + Sum(c'.agents, InFlightOf(s))
          == c.sems[s].given - c.sems[s].released - c.sems[s].deferred + Sum(c.agents, InFlightOf(s))
    ensures SemStands(c', s)
  {
  }

  /** The steps that read or write a semaphore. */
  predicate Touches(step: Step) {
    step.GiveLow? || step.GiveHigh? || step.ReadUnits? || step.ReleaseUnits? || step.Settle?
  }

  /** The change of one semaphore's books in one step. */
  lemma SemDelta(c: State, a: nat, step: Step, c': State, s: nat)
    requires Next(c, a, step, c') && s < |c.sems| && |c'.sems| == |c.sems| && |c'.agents| == |c.agents|
    requires c.sems[s].deferred >= 0 && FlushStands(c, c.agents[a])
    requires Holds(c.agents[a], s) == 1 ==> c.sems[s].deferred > 0
    ensures c'.sems[s].deferred >= 0
    ensures Holds(c'.agents[a], s) - Holds(c.agents[a], s)
            + (if step.Push? then Names(s)(c.agents[a].entry) else 0)
            - (if step.Pop? && c.pending != [] then Names(s)(c.pending[0]) else 0)
         == (if c'.sems[s].deferred > 0 then 1 else 0) - (if c.sems[s].deferred > 0 then 1 else 0)
    ensures c'.sems[s].given - c'.sems[s].released - c'.sems[s].deferred + InFlight(c'.agents[a], s)
         == c.sems[s].given - c.sems[s].released - c.sems[s].deferred + InFlight(c.agents[a], s)
  {
    if Touches(step) {
      SemTouched(c, a, step, c', s);
    } else {
      SemUntouched(c, a, step, c', s);
    }
  }

  lemma SemTouched(c: State, a: nat, step: Step, c': State, s: nat)
    requires Next(c, a, step, c') && s < |c.sems| && |c'.sems| == |c.sems| && |c'.agents| == |c.agents|
    requires c.sems[s].deferred >= 0 && FlushStands(c, c.agents[a]) && Touches(step)
    requires Holds(c.agents[a], s) == 1 ==> c.sems[s].deferred > 0
    ensures c'.sems[s].deferred >= 0
    ensures Holds(c'.agents[a], s) - Holds(c.agents[a], s)
         == (if c'.sems[s].deferred > 0 then 1 else 0) - (if c.sems[s].deferred > 0 then 1 else 0)
    ensures c'.sems[s].given - c'.sems[s].released - c'.sems[s].deferred + InFlight(c'.agents[a], s)
         == c.sems[s].given - c.sems[s].released - c.sems[s].deferred + InFlight(c.agents[a], s)
  {
    match step {
      case GiveLow(_) =>
      case GiveHigh(_) =>
      case ReadUnits =>
      case ReleaseUnits =>
      case Settle =>
    }
  }

  lemma SemUntouched(c: State, a: nat, step: Step, c': State, s: nat)
    requires Next(c, a, step, c') && s < |c.sems| && |c'.agents| == |c.agents| && !Touches(step)
    ensures c'.sems == c.sems
    ensures Holds(c'.agents[a], s) - Holds(c.agents[a], s)
            + (if step.Push? then Names(s)(c.agents[a].entry) else 0)
            - (if step.Pop? && c.pending != [] then Names(s)(c.pending[0]) else 0) == 0
    ensures InFlight(c'.agents[a], s) == InFlight(c.agents[a], s)
  {
    SemsUntouched(c, a, step, c');
    NothingInFlight(c, a, step, c', s);
    if step.Push? || step.Pop? {
      EntryMoves(c, a, step, c', s);
    } else {
      NoEntryMoves(c, a, step, c', s);
    }
  }

  lemma SemsUntouched(c: State, a: nat, step: Step, c': State)
    requires Next(c, a, step, c') && !Touches(step)
    ensures c'.sems == c.sems
  {
  }

  lemma NothingInFlight(c: State, a: nat, step: Step, c': State, s: nat)
    requires Next(c, a, step, c') && !Touches(step) && |c'.agents| == |c.agents|
    ensures InFlight(c'.agents[a], s) == 0 && InFlight(c.agents[a], s) == 0
  {
  }

  lemma EntryMoves(c: State, a: nat, step: Step, c': State, s: nat)
    requires Next(c, a, step, c') && (step.Push? || step.Pop?) && |c'.agents| == |c.agents|
    ensures Holds(c'.agents[a], s) - Holds(c.agents[a], s)
            + (if step.Push? then Names(s)(c.agents[a].entry) else 0)
            - (if step.Pop? && c.pending != [] then Names(s)(c.pending[0]) else 0) == 0
  {
  }

  lemma NoEntryMoves(c: State, a: nat, step: Step, c': State, s: nat)
    requires Next(c, a, step, c') && !Touches(step) && !step.Push? && !step.Pop? && |c'.agents| == |c.agents|
    ensures Holds(c'.agents[a], s) == 0 && Holds(c.agents[a], s) == 0
  {
    if MovesWork(step) {
      WorkIsNoEntry(c, a, step, c', s);
    } else {
      match step {
        case Insert =>
        case StartDpc =>
        case SetEvent =>
        case StartDrain =>
        case ClearEvent =>
        case CheckCount =>
        case Wake =>
      }
    }
  }

  lemma WorkIsNoEntry(c: State, a: nat, step: Step, c': State, s: nat)
    requires Next(c, a, step, c') && MovesWork(step) && |c'.agents| == |c.agents|
    ensures Holds(c'.agents[a], s) == 0 && Holds(c.agents[a], s) == 0
  {
    hide Next, Holds;
    CarriesNoSignal(c, a, step, c');
    NoSignalNoHold(c.agents[a], s);
    NoSignalNoHold(c'.agents[a], s);
  }

  /** The agent neither pushes a signal nor flushes one. */
  predicate NoSignal(pc: Pc) {
    && !pc.Read? && !pc.Released?
    && (pc.Pushing? || pc.Popped? ==> pc.entry.Work?)
  }

  lemma NoSignalNoHold(pc: Pc, s: nat)
    requires NoSignal(pc)
    ensures Holds(pc, s) == 0
  {
  }

  lemma CarriesNoSignal(c: State, a: nat, step: Step, c': State)
    requires Next(c, a, step, c') && MovesWork(step)
    ensures a < |c.agents| == |c'.agents| && NoSignal(c.agents[a]) && NoSignal(c'.agents[a])
  {
    match step {
      case QueueWork =>
      case ScheduleWork(_) =>
      case HandOn(_) =>
      case StartWork(_) =>
      case FinishWork =>
    }
  }

  /** An agent with neither units nor an entry in hand has nothing to cover. */
  predicate EmptyHanded(pc: Pc) {
    !pc.Read? && !pc.Released? && !pc.Pushing? && !pc.Popped?
  }

  /** The steps that put units or an entry into the moving agent's hand. */
  predicate Fills(step: Step) {
    step.GiveHigh? || step.Pop? || step.ReadUnits? || step.ReleaseUnits? || step.Settle? || step.HandOn?
  }

  lemma OthersStayEmpty(c: State, a: nat, step: Step, c': State)
    requires Next(c, a, step, c') && !Fills(step) && |c'.agents| == |c.agents|
    ensures EmptyHanded(c'.agents[a])
  {
  }

  lemma GiverStands(c: State, a: nat, step: Step, c': State)
    requires Next(c, a, step, c') && (step.GiveHigh? || step.HandOn? || step.Pop?) && |c'.agents| == |c.agents|
    requires step.Pop? && c.pending != [] && c.pending[0].Signal? ==> c.pending[0].sem < |c.sems|
    ensures FlushStands(c', c'.agents[a])
  {
  }

  lemma FlusherStands(c: State, a: nat, step: Step, c': State)
    requires Next(c, a, step, c') && |c'.agents| == |c.agents|
    requires step.ReadUnits? || step.ReleaseUnits? || step.Settle?
    requires FlushStands(c, c.agents[a])
    requires step.ReadUnits? ==> c.sems[c.agents[a].entry.sem].deferred > 0
    ensures FlushStands(c', c'.agents[a])
  {
  }

  /** The moving agent's own units stay covered. */
  lemma OwnFlush(c: State, a: nat, step: Step, c': State)
    requires Next(c, a, step, c') && FlushStands(c, c.agents[a]) && |c'.agents| == |c.agents|
    requires step.Pop? && c.pending != [] && c.pending[0].Signal? ==> c.pending[0].sem < |c.sems|
    requires step.ReadUnits? ==> c.sems[c.agents[a].entry.sem].deferred > 0
    ensures FlushStands(c', c'.agents[a])
  {
    assert a < |c.agents|;
    hide Next, FlushStands;
    if !Fills(step) {
      OthersStayEmpty(c, a, step, c');
      EmptyStands(c', c'.agents[a]);
    } else if step.GiveHigh? || step.HandOn? || step.Pop? {
      GiverStands(c, a, step, c');
    } else {
      FlusherStands(c, a, step, c');
    }
  }

  lemma EmptyStands(c: State, pc: Pc)
    requires EmptyHanded(pc)
    ensures FlushStands(c, pc)
  {
  }

  /** Only a flush takes units off a count, and only its own. */
  lemma OthersCovered(c: State, a: nat, step: Step, c': State, s: nat)
    requires Next(c, a, step, c') && s < |c.sems|
    requires step.Settle? ==> c.agents[a].sem != s
    ensures s < |c'.sems| && c'.sems[s].deferred >= c.sems[s].deferred
  {
    match step {
      case GiveLow(_) =>
      case GiveHigh(_) =>
      case Push =>
      case Insert =>
      case StartDpc =>
      case Pop =>
      case ReadUnits =>
      case ReleaseUnits =>
      case Settle =>
      case QueueWork =>
      case ScheduleWork(_) =>
      case HandOn(_) =>
      case StartWork(_) =>
      case FinishWork =>
      case SetEvent =>
      case StartDrain =>
      case ClearEvent =>
      case CheckCount =>
      case Wake =>
    }
  }

  lemma StepKeepsFlushes(c: State, a: nat, step: Step, c': State, b: nat)
    requires Inv(c) && Next(c, a, step, c') && b < |c.agents|
    ensures b < |c'.agents| && FlushStands(c', c'.agents[b])
  {
    hide Next, SemStands, SomeoneLooks, Alive, Responsible;
    OneMoves(c, a, step, c');
    assert FlushStands(c, c.agents[a]) && FlushStands(c, c.agents[b]);
    StepsHold(c, a, step, c');
    if b == a {
      if step.Pop? && c.pending != [] {
        assert c.pending[0] in c.pending;
      }
      if step.ReadUnits? {
        SemBefore(c, a, c.agents[a].entry.sem);
      }
      OwnFlush(c, a, step, c');
    } else {
      var pc := c.agents[b];
      if pc.Read? || pc.Released? {
        if step.Settle? {
          Alone(c, a, b, c.agents[a].sem);
        }
        OthersCovered(c, a, step, c', pc.sem);
      }
    }
  }

  lemma StepsHold(c: State, a: nat, step: Step, c': State)
    requires Next(c, a, step, c')
    ensures step.ReadUnits? ==>
              c.agents[a].Popped? && c.agents[a].entry.Signal? && c.agents[a].entry.sem < |c.sems|
              && Holds(c.agents[a], c.agents[a].entry.sem) == 1
    ensures step.Settle? ==>
              c.agents[a].Released? && c.agents[a].sem < |c.sems| && Holds(c.agents[a], c.agents[a].sem) == 1
  {
  }

  predicate MovesWork(step: Step) {
    step.QueueWork? || step.ScheduleWork? || step.HandOn? || step.StartWork? || step.FinishWork?
  }

  lemma WorkMoves(c: State, a: nat, step: Step, c': State)
    requires Next(c, a, step, c') && |c'.agents| == |c.agents| && MovesWork(step)
    ensures c'.outstanding - c.outstanding
         == Carries(c'.agents[a]) - Carries(c.agents[a]) + |c'.queued| - |c.queued|
  {
    match step {
      case QueueWork =>
      case ScheduleWork(_) =>
      case HandOn(_) =>
      case StartWork(_) =>
      case FinishWork =>
    }
  }

  lemma WorkStays(c: State, a: nat, step: Step, c': State)
    requires Next(c, a, step, c') && |c'.agents| == |c.agents| && !MovesWork(step)
    ensures c'.outstanding == c.outstanding && c'.queued == c.queued
    ensures Carries(c'.agents[a]) - Carries(c.agents[a])
            + (if step.Push? then IsWork()(c.agents[a].entry) else 0)
            - (if step.Pop? && c.pending != [] then IsWork()(c.pending[0]) else 0) == 0
  {
    match step {
      case GiveLow(_) =>
      case GiveHigh(_) =>
      case Push =>
      case Insert =>
      case StartDpc =>
      case Pop =>
      case ReadUnits =>
      case ReleaseUnits =>
      case Settle =>
      case SetEvent =>
      case StartDrain =>
      case ClearEvent =>
      case CheckCount =>
      case Wake =>
    }
  }

  /** Work changes hands one item at a time. */
  lemma WorkDelta(c: State, a: nat, step: Step, c': State)
    requires Next(c, a, step, c') && |c'.agents| == |c.agents|
    ensures c'.outstanding - c.outstanding
         == Carries(c'.agents[a]) - Carries(c.agents[a]) + |c'.queued| - |c.queued|
            + (if step.Push? then IsWork()(c.agents[a].entry) else 0)
            - (if step.Pop? && c.pending != [] then IsWork()(c.pending[0]) else 0)
  {
    if MovesWork(step) {
      WorkMoves(c, a, step, c');
    } else {
      WorkStays(c, a, step, c');
    }
  }

  lemma StepKeepsWork(c: State, a: nat, step: Step, c': State)
    requires Inv(c) && Next(c, a, step, c')
    ensures c'.outstanding == Alive(c')
  {
    hide Next, Sum, Tally, SemStands, FlushStands, SomeoneLooks;
    OneMoves(c, a, step, c');
    SumUpdate(c.agents, CarriesOf(), a, c'.agents[a]);
    PendingTally(c, a, step, c', IsWork());
    WorkDelta(c, a, step, c');
  }

  lemma StepKeepsLook(c: State, a: nat, step: Step, c': State)
    requires SomeoneLooks(c) && Next(c, a, step, c')
    ensures SomeoneLooks(c')
  {
    OneMoves(c, a, step, c');
    if c'.pending != [] && !c'.dpcQueued {
      if InLoop(c'.agents[a]) {
      } else {
        var b :| 0 <= b < |c.agents| && InLoop(c.agents[b]);
        assert b != a && c'.agents[b] == c.agents[b];
      }
    }
  }

  lemma StepKeepsPending(c: State, a: nat, step: Step, c': State)
    requires Inv(c) && Next(c, a, step, c')
    ensures forall e :: e in c'.pending && e.Signal? ==> e.sem < |c'.sems|
  {
    assert FlushStands(c, c.agents[a]);
  }

  lemma NextKeepsInv(c: State, a: nat, step: Step, c': State)
    requires Inv(c) && Next(c, a, step, c')
    ensures Inv(c')
  {
    hide Next, SemStands, FlushStands, Alive, SomeoneLooks;
    OneMoves(c, a, step, c');
    forall s | 0 <= s < |c'.sems|
      ensures SemStands(c', s)
    {
      StepKeepsSem(c, a, step, c', s);
    }
    forall b | 0 <= b < |c'.agents|
      ensures FlushStands(c', c'.agents[b])
    {
      StepKeepsFlushes(c, a, step, c', b);
    }
    StepKeepsWork(c, a, step, c');
    StepKeepsLook(c, a, step, c');
    StepKeepsPending(c, a, step, c');
  }

  // ----- Every run -----

  /** A run: the states passed through, and which agent took which step. */
  predicate Run(cs: seq<State>, moves: seq<(nat, Step)>) {
    && |cs| == |moves| + 1 && Init(cs[0])
    && forall i :: 0 <= i < |moves| ==> Next(cs[i], moves[i].0, moves[i].1, cs[i + 1])
  }

  lemma {:induction false} RunInv(cs: seq<State>, moves: seq<(nat, Step)>, i: nat)
    requires Run(cs, moves) && i < |cs|
    ensures Inv(cs[i])
  {
    if i == 0 {
      InitInv(cs[0]);
    } else {
      RunInv(cs, moves, i - 1);
      NextKeepsInv(cs[i - 1], moves[i - 1].0, moves[i - 1].1, cs[i]);
    }
  }

  /** What is owed to a semaphore: deferred units that no flush has released yet. */
  function Owed(c: State, s: nat): int
    requires s < |c.sems|
  {
    c.sems[s].deferred - Sum(c.agents, InFlightOf(s))
  }

  lemma {:induction false} InFlightBounded(c: State, s: nat, n: nat)
    requires n <= |c.agents| && s < |c.sems| && c.sems[s].deferred >= 0
    requires forall a :: 0 <= a < n ==> FlushStands(c, c.agents[a])
    ensures 0 <= Sum(c.agents[..n], InFlightOf(s)) <= c.sems[s].deferred * Sum(c.agents[..n], HoldsOf(s))
    ensures Sum(c.agents[..n], HoldsOf(s)) >= 0
  {
    if n > 0 {
      InFlightBounded(c, s, n - 1);
      assert c.agents[..n][..n - 1] == c.agents[..n - 1];
      var pc := c.agents[n - 1];
      assert FlushStands(c, pc);
      var d, h := c.sems[s].deferred, Sum(c.agents[..n - 1], HoldsOf(s));
      assert d * (h + Holds(pc, s)) == d * h + d * Holds(pc, s);
    }
  }

  /** Conservation: in every reachable state the units given are those released and those still owed. */
  lemma UnitsConserved(cs: seq<State>, moves: seq<(nat, Step)>, i: nat, s: nat)
    requires Run(cs, moves) && i < |cs| && s < |cs[i].sems|
    ensures cs[i].sems[s].given == cs[i].sems[s].released + Owed(cs[i], s) && Owed(cs[i], s) >= 0
  {
    var c := cs[i];
    RunInv(cs, moves, i);
    assert SemStands(c, s);
    assert c.agents[..|c.agents|] == c.agents;
    InFlightBounded(c, s, |c.agents|);
    TallyIsNatural(c.pending, Names(s));
    var d, h := c.sems[s].deferred, Sum(c.agents, HoldsOf(s));
    if h == 0 {
      assert d * h == 0;
    } else {
      assert h == 1;
    }
  }

  /** A semaphore's entry is on the list at most once, and with units deferred exactly one party is responsible. */
  lemma ExactlyOneResponsible(cs: seq<State>, moves: seq<(nat, Step)>, i: nat, s: nat)
    requires Run(cs, moves) && i < |cs| && s < |cs[i].sems|
    ensures Responsible(cs[i], s) == if cs[i].sems[s].deferred != 0 then 1 else 0
    ensures 0 <= Tally(cs[i].pending, Names(s)) <= 1
    ensures cs[i].sems[s].deferred == 0 ==>
              && Signal(s) !in cs[i].pending
              && forall a :: 0 <= a < |cs[i].agents| ==> Holds(cs[i].agents[a], s) == 0
  {
    var c := cs[i];
    RunInv(cs, moves, i);
    assert SemStands(c, s);
    SumIsNatural(c.agents, HoldsOf(s));
    TallyIsNatural(c.pending, Names(s));
    assert forall a :: 0 <= a < |c.agents| ==> HoldsOf(s)(c.agents[a]) == Holds(c.agents[a], s);
    assert forall k :: 0 <= k < |c.pending| ==> Names(s)(c.pending[k]) <= Tally(c.pending, Names(s));
  }

  /** Whatever is on the list will be looked at. */
  lemma PendingIsSeen(cs: seq<State>, moves: seq<(nat, Step)>, i: nat)
    requires Run(cs, moves) && i < |cs| && cs[i].pending != []
    ensures cs[i].dpcQueued || exists a :: 0 <= a < |cs[i].agents| && InLoop(cs[i].agents[a])
  {
    RunInv(cs, moves, i);
  }

  /** A drain returns only when no scheduled item is deferred, queued or running. */
  lemma DrainMeansDone(cs: seq<State>, moves: seq<(nat, Step)>, i: nat)
    requires Run(cs, moves) && i < |moves|
    requires moves[i].1.CheckCount? && cs[i + 1].agents[moves[i].0].Idle?
    ensures cs[i].queued == multiset{}
    ensures forall item :: Work(item) !in cs[i].pending
    ensures forall a :: 0 <= a < |cs[i].agents| ==> Carries(cs[i].agents[a]) == 0
  {
    var c := cs[i];
    RunInv(cs, moves, i);
    SumIsNatural(c.agents, CarriesOf());
    TallyIsNatural(c.pending, IsWork());
    assert Next(cs[i], moves[i].0, moves[i].1, cs[i + 1]);
    assert Alive(c) == 0;
    assert forall a :: 0 <= a < |c.agents| ==> CarriesOf()(c.agents[a]) == Carries(c.agents[a]);
    assert forall k :: 0 <= k < |c.pending| ==> IsWork()(c.pending[k]) == 0;
  }
}
