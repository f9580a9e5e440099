/**
A thermal zone: its worker, its cancellable IRP queue, and start and stop, as
atomic steps of any number of agents. A section under the zone lock is one
step; so is an interlocked exchange of an IRP's cancel routine.
*/
module Thermal {
  import opened Words

  // ----- The machine -----

  datatype Bit = Init | Policy | Trips | Active | Temperature | Complete

  const ALL: set<Bit> := {Init, Policy, Trips, Active, Temperature, Complete}

  datatype Kind = Query | CoolingPolicy | ActiveCooling | PassiveLimit | Description

  /** Where an IRP is, and which agent has it in hand. */
  datatype Place =
    | Fresh
    | Queued
    | Claimed(holder: nat)      // on the queue, its cancel routine about to run
    | Unlinked(holder: nat)     // taken off the queue by its cancel routine
    | Taken(holder: nat)        // taken off the queue by a completion pass
    | Done

  datatype Irp = Irp(kind: Kind, cancel: bool, place: Place, completions: nat)

  datatype Pc =
    | Idle
    | MustQueue                         // set Running, has yet to queue the worker
    | AtHead                            // the worker, queued or at the head of its loop
    | Busy(bits: set<Bit>)              // the worker with work in hand
    | Passing(worker: bool, taken: set<nat>)
    | Stopping                          // a stop between its two sections
    | Cancelling(irp: nat)              // a cancel routine waiting for the lock
    | Finishing(irp: nat)               // a cancel routine about to complete

  datatype Zone = Zone(work: set<Bit>, running: bool, active: bool, delivered: bool, queue: set<nat>)

  datatype State = State(agents: seq<Pc>, irps: seq<Irp>, zone: Zone)

  datatype Step =
    | Submit(irp: nat, stale: bool)     // an IOCTL; a query may carry a stale stamp
    | Notify(trips: bool)
    | Cancel(irp: nat)
    | Unlink
    | FinishCancel
    | QueueWorker(ok: bool)
    | Head
    | Work
    | CompleteOne(irp: nat)
    | EndPass
    | Start
    | Stop
    | StopPass

  /** UacpiNtThermalAddWork: the new zone, and whether the caller must queue the worker. */
  function AddWork(z: Zone, bits: set<Bit>): (r: (Zone, bool)) {
    var z' := z.(work := z.work + bits, delivered := z.delivered && Complete !in bits);
    if z'.work == {} || z'.running then (z', false) else (z'.(running := true), true)
  }

  /** The work an IOCTL asks for. */
  function Request(z: Zone, kind: Kind, stale: bool): set<Bit> {
    match kind
    case Query => if stale then {Temperature, Complete} else if !z.delivered then {Complete} else {}
    case CoolingPolicy => {Policy, Trips, Complete}
    case ActiveCooling => {Active, Complete}
    case PassiveLimit => {Temperature, Complete}
    case Description => {Complete}
  }

  function Moved(c: State, a: nat, pc: Pc): State
    requires a < |c.agents|
  {
    c.(agents := c.agents[a := pc])
  }

  function Placed(c: State, i: nat, place: Place): State
    requires i < |c.irps|
  {
    c.(irps := c.irps[i := c.irps[i].(place := place)])
  }

  function Completed(c: State, i: nat): State
    requires i < |c.irps|
  {
    c.(irps := c.irps[i := c.irps[i].(place := Done, completions := c.irps[i].completions + 1)])
  }

  /** More work for the zone, and the agent's part in it. */
  function Asked(c: State, a: nat, bits: set<Bit>): State
    requires a < |c.agents|
  {
    var (z, queue) := AddWork(c.zone, bits);
    Moved(c.(zone := z), a, if queue then MustQueue else Idle)
  }

  /** What a completion pass takes: all but the IRPs whose cancel routine has started. */
  function Takable(c: State): set<nat> {
    set i | 0 <= i < |c.irps| && i in c.zone.queue && c.irps[i].place == Queued
  }

  function TakenIrps(irps: seq<Irp>, taken: set<nat>, a: nat): seq<Irp> {
    seq(|irps|, i requires 0 <= i < |irps| => if i in taken then irps[i].(place := Taken(a)) else irps[i])
  }

  /** The locked section of UacpiNtThermalCompleteIrps. */
  function Pass(c: State, a: nat, worker: bool): State
    requires a < |c.agents|
  {
    var taken := Takable(c);
    var hadQuery := exists i :: i in taken && 0 <= i < |c.irps| && c.irps[i].kind == Query;
    State(c.agents[a := Passing(worker, taken)], TakenIrps(c.irps, taken, a),
          c.zone.(queue := c.zone.queue - taken, delivered := c.zone.delivered || hadQuery))
  }

  predicate Next(c: State, a: nat, step: Step, c': State) {
    a < |c.agents| &&
    var pc := c.agents[a];
    match step
    case Submit(i, stale) =>
      && pc.Idle? && i < |c.irps| && c.irps[i].place == Fresh
      && c' == (if !c.zone.active || (c.irps[i].kind == Query && c.irps[i].cancel) then Completed(c, i)
                else Asked(Placed(c, i, Queued).(zone := c.zone.(queue := c.zone.queue + {i})), a,
                           Request(c.zone, c.irps[i].kind, stale)))
    case Notify(trips) =>
      && pc.Idle?
      && c' == if c.zone.active then Asked(c, a, {Temperature, Complete} + if trips then {Trips} else {}) else c
    case Cancel(i) =>
      && pc.Idle? && i < |c.irps|
      && var marked := c.(irps := c.irps[i := c.irps[i].(cancel := true)]);
         c' == if c.irps[i].kind == Query && c.irps[i].place == Queued
               then Moved(Placed(marked, i, Claimed(a)), a, Cancelling(i)) else marked
    case Unlink =>
      && pc.Cancelling? && pc.irp < |c.irps|
      && var unlinked := Moved(Placed(c, pc.irp, Unlinked(a)), a, Finishing(pc.irp));
         c' == unlinked.(zone := c.zone.(queue := c.zone.queue - {pc.irp}))
    case FinishCancel =>
      pc.Finishing? && pc.irp < |c.irps| && c' == Moved(Completed(c, pc.irp), a, Idle)
    case QueueWorker(ok) =>
      && pc.MustQueue?
      && c' == if ok then Moved(c, a, AtHead) else Moved(c, a, Idle).(zone := c.zone.(running := false))
    case Head =>
      && pc.AtHead?
      && c' == if c.zone.work == {} then Moved(c, a, Idle).(zone := c.zone.(running := false))
               else Moved(c, a, Busy(c.zone.work)).(zone := c.zone.(work := {}))
    case Work =>
      pc.Busy? && c' == if Complete in pc.bits then Pass(c, a, true) else Moved(c, a, AtHead)
    case CompleteOne(i) =>
      && pc.Passing? && i in pc.taken && i < |c.irps|
      && c' == Moved(Completed(c, i), a, Passing(pc.worker, pc.taken - {i}))
    case EndPass =>
      pc.Passing? && pc.taken == {} && c' == Moved(c, a, if pc.worker then AtHead else Idle)
    case Start =>
      && pc.Idle?
      && c' == if c.zone.active then c else Asked(c.(zone := c.zone.(active := true)), a, ALL)
    case Stop =>
      pc.Idle? && c' == Moved(c, a, Stopping).(zone := c.zone.(active := false, work := {}))
    case StopPass =>
      pc.Stopping? && c' == Pass(c, a, false)
  }

  predicate Initial(c: State) {
    && (forall a :: 0 <= a < |c.agents| ==> c.agents[a].Idle?)
    && (forall i :: 0 <= i < |c.irps| ==> c.irps[i].place == Fresh && c.irps[i].completions == 0)
    && c.zone.queue == {} && c.zone.work == {} && !c.zone.running && !c.zone.active
  }

  // ----- The invariant -----

  /** The agent is the worker, or owes the zone one. */
  function IsWorker(pc: Pc): nat {
    if pc.MustQueue? || pc.AtHead? || pc.Busy? || (pc.Passing? && pc.worker) then 1 else 0
  }

  function Workers(agents: seq<Pc>): nat {
    if agents == [] then 0 else Workers(agents[..|agents| - 1]) + IsWorker(agents[|agents| - 1])
  }

  /** The agent has this IRP in hand. */
  predicate Holds(pc: Pc, i: nat) {
    match pc
    case Cancelling(j) => i == j
    case Finishing(j) => i == j
    case Passing(_, taken) => i in taken
    case _ => false
  }

  /** The place an IRP has when agent `a` holds it. */
  function HeldPlace(pc: Pc, a: nat): Place {
    match pc
    case Cancelling(_) => Claimed(a)
    case Finishing(_) => Unlinked(a)
    case _ => Taken(a)
  }

  /** Every IRP is in exactly one place and is completed exactly when it is done. */
  predicate IrpStands(c: State, i: nat)
    requires i < |c.irps|
  {
    var irp := c.irps[i];
    && irp.completions == (if irp.place == Done then 1 else 0)
    && (i in c.zone.queue <==> irp.place.Queued? || irp.place.Claimed?)
    && (irp.place.Claimed? ==> irp.kind == Query)
    && (irp.place.Claimed? || irp.place.Unlinked? || irp.place.Taken? ==>
          && irp.place.holder < |c.agents|
          && Holds(c.agents[irp.place.holder], i)
          && irp.place == HeldPlace(c.agents[irp.place.holder], irp.place.holder))
  }

  ghost predicate AgentStands(c: State, a: nat)
    requires a < |c.agents|
  {
    forall i: nat :: Holds(c.agents[a], i) ==> i < |c.irps| && c.irps[i].place == HeldPlace(c.agents[a], a)
  }

  /** A non-query IRP waits on the queue. */
  predicate SomeoneWaits(c: State) {
    exists i :: 0 <= i < |c.irps| && i in c.zone.queue && c.irps[i].kind != Query
  }

  /** A completion step is pending, held by the worker, or owed by a stop. */
  predicate CompletionDue(c: State) {
    || Complete in c.zone.work
    || exists a :: 0 <= a < |c.agents| && (c.agents[a].Stopping? || (c.agents[a].Busy? && Complete in c.agents[a].bits))
  }

  ghost predicate Inv(c: State) {
    && Workers(c.agents) == (if c.zone.running then 1 else 0)
    && (forall i :: 0 <= i < |c.irps| ==> IrpStands(c, i))
    && (forall i :: i in c.zone.queue ==> i < |c.irps|)
    && (forall a :: 0 <= a < |c.agents| ==> AgentStands(c, a))
    && (SomeoneWaits(c) ==> CompletionDue(c))
  }

  lemma InitialInv(c: State)
    requires Initial(c)
    ensures Inv(c)
  {
    NoWorkers(c.agents);
  }

  lemma {:induction false} NoWorkers(agents: seq<Pc>)
    requires forall a :: 0 <= a < |agents| ==> agents[a].Idle?
    ensures Workers(agents) == 0
  {
    if agents != [] {
      NoWorkers(agents[..|agents| - 1]);
    }
  }

  // ----- Every step keeps it -----

  lemma {:induction false} WorkersUpdate(agents: seq<Pc>, a: nat, pc: Pc)
    requires a < |agents|
    ensures Workers(agents[a := pc]) == Workers(agents) - IsWorker(agents[a]) + IsWorker(pc)
    ensures Workers(agents) >= IsWorker(agents[a])
  {
    var n := |agents| - 1;
    if a < n {
      WorkersUpdate(agents[..n], a, pc);
      assert agents[a := pc][..n] == agents[..n][a := pc];
    } else {
      assert agents[a := pc][..n] == agents[..n];
    }
  }

  /** Only the moving agent's position changes, and no IRP changes its kind. */
  lemma OneMoves(c: State, a: nat, step: Step, c': State)
    requires Next(c, a, step, c')
    ensures a < |c.agents| == |c'.agents| && c'.agents == c.agents[a := c'.agents[a]]
    ensures |c'.irps| == |c.irps|
    ensures forall i :: 0 <= i < |c.irps| ==> c'.irps[i].kind == c.irps[i].kind
  {
    match step {
      case Submit(_, _) =>
      case Notify(_) =>
      case Cancel(_) =>
      case Unlink =>
      case FinishCancel =>
      case QueueWorker(_) =>
      case Head =>
      case Work =>
      case CompleteOne(_) =>
      case EndPass =>
      case Start =>
      case Stop =>
      case StopPass =>
    }
  }

  /** Running follows the worker. */
  lemma WorkerMoves(c: State, a: nat, step: Step, c': State)
    requires Next(c, a, step, c') && |c'.agents| == |c.agents|
    requires IsWorker(c.agents[a]) == 1 ==> c.zone.running
    ensures IsWorker(c'.agents[a]) - IsWorker(c.agents[a])
         == (if c'.zone.running then 1 else 0) - (if c.zone.running then 1 else 0)
  {
    match step {
      case Submit(_, _) =>
      case Notify(_) =>
      case Cancel(_) =>
      case Unlink =>
      case FinishCancel =>
      case QueueWorker(_) =>
      case Head =>
      case Work =>
      case CompleteOne(_) =>
      case EndPass =>
      case Start =>
      case Stop =>
      case StopPass =>
    }
  }

  lemma StepKeepsWorker(c: State, a: nat, step: Step, c': State)
    requires Inv(c) && Next(c, a, step, c')
    ensures Workers(c'.agents) == (if c'.zone.running then 1 else 0)
  {
    hide Next, IrpStands, AgentStands, SomeoneWaits, CompletionDue;
    OneMoves(c, a, step, c');
    WorkersUpdate(c.agents, a, c'.agents[a]);
    WorkerMoves(c, a, step, c');
  }

  /** The steps that touch one IRP, the passes, and the rest. */
  function Target(c: State, a: nat, step: Step): Option<nat>
    requires a < |c.agents|
  {
    match step
    case Submit(i, _) => Some(i)
    case Cancel(i) => Some(i)
    case CompleteOne(i) => Some(i)
    case Unlink => if c.agents[a].Cancelling? then Some(c.agents[a].irp) else None
    case FinishCancel => if c.agents[a].Finishing? then Some(c.agents[a].irp) else None
    case _ => None
  }

  predicate IsPass(c: State, a: nat, step: Step)
    requires a < |c.agents|
  {
    step.StopPass? || (step.Work? && c.agents[a].Busy? && Complete in c.agents[a].bits)
  }

  /** An IRP that is not the target of a step and not taken by a pass stays as it is. */
  lemma Untouched(c: State, a: nat, step: Step, c': State, i: nat)
    requires Next(c, a, step, c') && i < |c.irps| == |c'.irps|
    requires Target(c, a, step) != Some(i) && !IsPass(c, a, step)
    ensures c'.irps[i] == c.irps[i] && (i in c'.zone.queue <==> i in c.zone.queue)
    ensures |c'.agents| == |c.agents| && (Holds(c'.agents[a], i) <==> Holds(c.agents[a], i))
    ensures Holds(c.agents[a], i) ==> HeldPlace(c'.agents[a], a) == HeldPlace(c.agents[a], a)
  {
    match step {
      case Submit(_, _) =>
      case Notify(_) =>
      case Cancel(_) =>
      case Unlink =>
      case FinishCancel =>
      case QueueWorker(_) =>
      case Head =>
      case Work =>
      case CompleteOne(_) =>
      case EndPass =>
      case Start =>
      case Stop =>
    }
  }

  /** What a step does to the one IRP it touches. */
  lemma Touched(c: State, a: nat, step: Step, c': State, i: nat)
    requires Next(c, a, step, c') && i < |c.irps| && Target(c, a, step) == Some(i)
    requires IrpStands(c, i) && AgentStands(c, a)
    ensures |c'.irps| == |c.irps| && IrpStands(c', i)
    ensures |c'.agents| == |c.agents|
    ensures Holds(c'.agents[a], i) ==> c'.irps[i].place == HeldPlace(c'.agents[a], a)
  {
    assert Holds(c.agents[a], i) ==> c.irps[i].place == HeldPlace(c.agents[a], a);
    match step {
      case Submit(_, _) =>
      case Cancel(_) =>
      case Unlink =>
      case FinishCancel =>
      case CompleteOne(_) =>
    }
  }

  /** What a pass does to each IRP. */
  lemma Passed(c: State, a: nat, step: Step, c': State, i: nat)
    requires Next(c, a, step, c') && i < |c.irps| && IsPass(c, a, step)
    ensures |c'.irps| == |c.irps| && |c'.agents| == |c.agents| && c'.agents[a].Passing?
    ensures !Holds(c.agents[a], i)
    ensures if i in c.zone.queue && c.irps[i].place == Queued
            then c'.irps[i] == c.irps[i].(place := Taken(a)) && i in c'.agents[a].taken && i !in c'.zone.queue
            else c'.irps[i] == c.irps[i] && i !in c'.agents[a].taken && (i in c'.zone.queue <==> i in c.zone.queue)
  {
  }

  lemma StepKeepsIrp(c: State, a: nat, step: Step, c': State, i: nat)
    requires Inv(c) && Next(c, a, step, c') && i < |c.irps|
    ensures i < |c'.irps| && IrpStands(c', i)
  {
    hide Next, SomeoneWaits, CompletionDue;
    OneMoves(c, a, step, c');
    assert IrpStands(c, i) && AgentStands(c, a);
    if Target(c, a, step) == Some(i) {
      Touched(c, a, step, c', i);
    } else if IsPass(c, a, step) {
      Passed(c, a, step, c', i);
    } else {
      Untouched(c, a, step, c', i);
    }
  }

  /** Agents other than the moving one keep what they hold. */
  lemma OthersKeep(c: State, a: nat, step: Step, c': State, b: nat, i: nat)
    requires Inv(c) && Next(c, a, step, c') && b < |c.agents| && b != a && Holds(c.agents[b], i)
    ensures i < |c.irps| == |c'.irps| && c'.irps[i].place == c.irps[i].place == HeldPlace(c.agents[b], b)
  {
    hide Next, SomeoneWaits, CompletionDue;
    OneMoves(c, a, step, c');
    assert AgentStands(c, b) && AgentStands(c, a);
    if Target(c, a, step) == Some(i) {
      TargetIsFree(c, a, step, c', i);
    } else if IsPass(c, a, step) {
      Passed(c, a, step, c', i);
    } else {
      Untouched(c, a, step, c', i);
    }
  }

  /** A step leaves the place of its target alone, or the IRP was fresh, queued, or the agent's own. */
  lemma TargetIsFree(c: State, a: nat, step: Step, c': State, i: nat)
    requires Next(c, a, step, c') && i < |c.irps| && Target(c, a, step) == Some(i)
    ensures |c'.irps| == |c.irps|
    ensures || c'.irps[i].place == c.irps[i].place
            || c.irps[i].place.Fresh? || c.irps[i].place.Queued? || Holds(c.agents[a], i)
  {
  }

  lemma StepKeepsAgent(c: State, a: nat, step: Step, c': State, b: nat)
    requires Inv(c) && Next(c, a, step, c') && b < |c.agents|
    ensures b < |c'.agents| && AgentStands(c', b)
  {
    hide Next, SomeoneWaits, CompletionDue, HeldPlace;
    OneMoves(c, a, step, c');
    forall i: nat | Holds(c'.agents[b], i)
      ensures i < |c'.irps| && c'.irps[i].place == HeldPlace(c'.agents[b], b)
    {
      if b != a {
        OthersKeep(c, a, step, c', b, i);
      } else {
        OwnHolds(c, a, step, c', i);
      }
    }
  }

  lemma OwnHolds(c: State, a: nat, step: Step, c': State, i: nat)
    requires Inv(c) && Next(c, a, step, c')
    requires a < |c'.agents| && Holds(c'.agents[a], i)
    ensures i < |c'.irps| && c'.irps[i].place == HeldPlace(c'.agents[a], a)
  {
    hide Next, SomeoneWaits, CompletionDue;
    OneMoves(c, a, step, c');
    assert AgentStands(c, a);
    HeldIsIrp(c, a, step, c', i);
    assert IrpStands(c, i);
    if Target(c, a, step) == Some(i) {
      Touched(c, a, step, c', i);
    } else if IsPass(c, a, step) {
      Passed(c, a, step, c', i);
    } else {
      Untouched(c, a, step, c', i);
    }
  }

  lemma HeldIsIrp(c: State, a: nat, step: Step, c': State, i: nat)
    requires Inv(c) && Next(c, a, step, c') && a < |c'.agents| && Holds(c'.agents[a], i)
    ensures i < |c.irps|
  {
    assert AgentStands(c, a);
    match step {
      case Submit(_, _) =>
      case Notify(_) =>
      case Cancel(_) =>
      case Unlink =>
      case FinishCancel =>
      case QueueWorker(_) =>
      case Head =>
      case Work =>
      case CompleteOne(_) =>
        assert Holds(c.agents[a], i);
      case EndPass =>
      case Start =>
      case Stop =>
      case StopPass =>
    }
  }

  lemma StepKeepsQueue(c: State, a: nat, step: Step, c': State)
    requires Next(c, a, step, c') && forall i :: i in c.zone.queue ==> i < |c.irps|
    ensures forall i :: i in c'.zone.queue ==> i < |c'.irps|
  {
    match step {
      case Submit(_, _) =>
      case Notify(_) =>
      case Cancel(_) =>
      case Unlink =>
      case FinishCancel =>
      case QueueWorker(_) =>
      case Head =>
      case Work =>
      case CompleteOne(_) =>
      case EndPass =>
      case Start =>
      case Stop =>
      case StopPass =>
    }
  }

  /** The agent holds or owes a completion step. */
  predicate Owes(pc: Pc) {
    pc.Stopping? || (pc.Busy? && Complete in pc.bits)
  }

  /** After a pass no IRP without a cancel routine is left on the queue. */
  lemma PassServesAll(c: State, a: nat, step: Step, c': State)
    requires Inv(c) && Next(c, a, step, c') && IsPass(c, a, step)
    ensures !SomeoneWaits(c')
  {
    hide Next, CompletionDue, AgentStands;
    OneMoves(c, a, step, c');
    forall i | 0 <= i < |c'.irps| && c'.irps[i].kind != Query
      ensures i !in c'.zone.queue
    {
      Passed(c, a, step, c', i);
      assert IrpStands(c, i);
    }
  }

  /** Outside a pass a completion that is due stays due, and who starts to wait makes one due. */
  lemma DueStays(c: State, a: nat, step: Step, c': State)
    requires Next(c, a, step, c') && !IsPass(c, a, step) && |c'.agents| == |c.agents| && |c'.irps| == |c.irps|
    ensures Complete in c.zone.work ==> Complete in c'.zone.work || Owes(c'.agents[a])
    ensures Owes(c.agents[a]) ==> Owes(c'.agents[a])
    ensures forall i :: 0 <= i < |c.irps| && i in c'.zone.queue && i !in c.zone.queue && c.irps[i].kind != Query ==>
                          Complete in c'.zone.work
  {
    match step {
      case Submit(_, _) =>
      case Notify(_) =>
      case Cancel(_) =>
      case Unlink =>
      case FinishCancel =>
      case QueueWorker(_) =>
      case Head =>
      case Work =>
      case CompleteOne(_) =>
      case EndPass =>
      case Start =>
      case Stop =>
    }
  }

  lemma StepKeepsDue(c: State, a: nat, step: Step, c': State)
    requires Inv(c) && Next(c, a, step, c')
    ensures SomeoneWaits(c') ==> CompletionDue(c')
  {
    hide Next, IrpStands, AgentStands, Workers;
    OneMoves(c, a, step, c');
    if IsPass(c, a, step) {
      PassServesAll(c, a, step, c');
    } else if SomeoneWaits(c') {
      DueStays(c, a, step, c');
      if Complete !in c'.zone.work {
        var i :| 0 <= i < |c'.irps| && i in c'.zone.queue && c'.irps[i].kind != Query;
        assert i in c.zone.queue;
        assert CompletionDue(c);
        if Complete !in c.zone.work {
          var b :| 0 <= b < |c.agents| && Owes(c.agents[b]);
          assert Owes(c'.agents[b]);
        } else {
          assert Owes(c'.agents[a]);
        }
      }
    }
  }

  lemma NextKeepsInv(c: State, a: nat, step: Step, c': State)
    requires Inv(c) && Next(c, a, step, c')
    ensures Inv(c')
  {
    hide Next, IrpStands, AgentStands, SomeoneWaits, CompletionDue, Workers;
    OneMoves(c, a, step, c');
    StepKeepsWorker(c, a, step, c');
    forall i | 0 <= i < |c'.irps|
      ensures IrpStands(c', i)
    {
      StepKeepsIrp(c, a, step, c', i);
    }
    forall b | 0 <= b < |c'.agents|
      ensures AgentStands(c', b)
    {
      StepKeepsAgent(c, a, step, c', b);
    }
    StepKeepsQueue(c, a, step, c');
    StepKeepsDue(c, a, step, c');
  }

  // ----- Every run -----

  predicate Run(cs: seq<State>, moves: seq<(nat, Step)>) {
    && |cs| == |moves| + 1 && Initial(cs[0])
    && forall i :: 0 <= i < |moves| ==> Next(cs[i], moves[i].0, moves[i].1, cs[i + 1])
  }

  lemma {:induction false} RunInv(cs: seq<State>, moves: seq<(nat, Step)>, k: nat)
    requires Run(cs, moves) && k < |cs|
    ensures Inv(cs[k])
  {
    hide Next, Initial, Inv;
    if k == 0 {
      InitialInv(cs[0]);
    } else {
      RunInv(cs, moves, k - 1);
      NextKeepsInv(cs[k - 1], moves[k - 1].0, moves[k - 1].1, cs[k]);
    }
  }

  lemma {:induction false} AtMostWorkers(agents: seq<Pc>, a: nat, b: nat)
    requires a < b < |agents|
    ensures Workers(agents) >= IsWorker(agents[a]) + IsWorker(agents[b])
  {
    var n := |agents| - 1;
    if b < n {
      AtMostWorkers(agents[..n], a, b);
    } else {
      WorkersUpdate(agents[..n], a, Idle);
    }
  }

  /** At most one worker is queued or running, and one is exactly when the zone says so. */
  lemma OneWorker(cs: seq<State>, moves: seq<(nat, Step)>, k: nat, a: nat, b: nat)
    requires Run(cs, moves) && k < |cs| && a < b < |cs[k].agents|
    ensures IsWorker(cs[k].agents[a]) + IsWorker(cs[k].agents[b]) <= 1
    ensures cs[k].zone.running <==> Workers(cs[k].agents) == 1
  {
    RunInv(cs, moves, k);
    AtMostWorkers(cs[k].agents, a, b);
  }

  /** No IRP is completed twice, and one that was pended is completed or in exactly one pair of hands. */
  lemma CompletedOnce(cs: seq<State>, moves: seq<(nat, Step)>, k: nat, i: nat)
    requires Run(cs, moves) && k < |cs| && i < |cs[k].irps|
    ensures cs[k].irps[i].completions <= 1
    ensures cs[k].irps[i].completions == 1 <==> cs[k].irps[i].place == Done
    ensures cs[k].irps[i].place != Fresh && cs[k].irps[i].completions == 0 ==>
              (i in cs[k].zone.queue || exists a :: 0 <= a < |cs[k].agents| && Holds(cs[k].agents[a], i))
    ensures forall a, b ::
              0 <= a < |cs[k].agents| && 0 <= b < |cs[k].agents|
              && Holds(cs[k].agents[a], i) && Holds(cs[k].agents[b], i) ==>
                a == b
  {
    RunInv(cs, moves, k);
    var c := cs[k];
    assert IrpStands(c, i);
    forall a, b | 0 <= a < |c.agents| && 0 <= b < |c.agents| && Holds(c.agents[a], i) && Holds(c.agents[b], i)
      ensures a == b
    {
      assert AgentStands(c, a) && AgentStands(c, b);
    }
  }

  /** Done stays done. */
  lemma {:induction false} DoneForGood(cs: seq<State>, moves: seq<(nat, Step)>, j: nat, k: nat, i: nat)
    requires Run(cs, moves) && j <= k < |cs| && i < |cs[j].irps| && cs[j].irps[i].place == Done
    ensures i < |cs[k].irps| && cs[k].irps[i].place == Done && cs[k].irps[i].completions == 1
    decreases k - j
  {
    if j < k {
      RunInv(cs, moves, j);
      DoneStays(cs[j], moves[j].0, moves[j].1, cs[j + 1], i);
      DoneForGood(cs, moves, j + 1, k, i);
    } else {
      CompletedOnce(cs, moves, k, i);
    }
  }

  lemma DoneStays(c: State, a: nat, step: Step, c': State, i: nat)
    requires Inv(c) && Next(c, a, step, c') && i < |c.irps| && c.irps[i].place == Done
    ensures i < |c'.irps| && c'.irps[i].place == Done
  {
    hide Next, SomeoneWaits, CompletionDue;
    OneMoves(c, a, step, c');
    assert AgentStands(c, a);
    if Target(c, a, step) == Some(i) {
      TargetIsFree(c, a, step, c', i);
    } else if IsPass(c, a, step) {
      Passed(c, a, step, c', i);
    } else {
      Untouched(c, a, step, c', i);
    }
  }

  /** Work is pending and no worker is there to do it. */
  predicate Stranded(c: State) {
    c.zone.work != {} && !c.zone.running
  }

  /** Only a failed work item allocation strands a zone. */
  lemma StrandedStep(c: State, a: nat, step: Step, c': State)
    requires Next(c, a, step, c') && Stranded(c')
    ensures step == QueueWorker(false) || Stranded(c)
  {
    match step {
      case Submit(_, _) =>
      case Notify(_) =>
      case Cancel(_) =>
      case Unlink =>
      case FinishCancel =>
      case QueueWorker(_) =>
      case Head =>
      case Work =>
      case CompleteOne(_) =>
      case EndPass =>
      case Start =>
      case Stop =>
      case StopPass =>
    }
  }

  /** A stranded zone has been so ever since the last time a work item could not be had. */
  lemma {:induction false} StrandedSinceFailure(cs: seq<State>, moves: seq<(nat, Step)>, k: nat) returns (j: nat)
    requires Run(cs, moves) && k < |cs| && Stranded(cs[k])
    ensures j < k && moves[j].1 == QueueWorker(false) && forall i :: j < i <= k ==> Stranded(cs[i])
  {
    hide Next, Stranded;
    NotStrandedAtFirst(cs[0]);
    StrandedStep(cs[k - 1], moves[k - 1].0, moves[k - 1].1, cs[k - 1 + 1]);
    if moves[k - 1].1 == QueueWorker(false) {
      j := k - 1;
    } else {
      j := StrandedSinceFailure(cs, moves, k - 1);
    }
  }

  lemma NotStrandedAtFirst(c: State)
    requires Initial(c)
    ensures !Stranded(c)
  {
  }

  lemma {:induction false} SomeWorker(agents: seq<Pc>) returns (a: nat)
    requires Workers(agents) > 0
    ensures a < |agents| && IsWorker(agents[a]) == 1
  {
    if IsWorker(agents[|agents| - 1]) == 1 {
      a := |agents| - 1;
    } else {
      a := SomeWorker(agents[..|agents| - 1]);
    }
  }

  /** An agent that will get to the completion pass. */
  predicate AtWork(c: State) {
    exists a :: 0 <= a < |c.agents| && (IsWorker(c.agents[a]) == 1 || c.agents[a].Stopping?)
  }

  /**
  While a non-query IRP waits, a completion step is pending, held by the worker
  or owed by a stop; and somebody is there to take it, unless a work item could
  not be had and nobody has asked for anything since.
  */
  lemma WaitersAreServed(cs: seq<State>, moves: seq<(nat, Step)>, k: nat)
    requires Run(cs, moves) && k < |cs| && SomeoneWaits(cs[k])
    ensures CompletionDue(cs[k])
    ensures || AtWork(cs[k])
            || exists j :: 0 <= j < k && moves[j].1 == QueueWorker(false) && forall i :: j < i <= k ==> Stranded(cs[i])
  {
    hide Next, Initial;
    RunInv(cs, moves, k);
    if cs[k].zone.running {
      var a := SomeWorker(cs[k].agents);
    } else if Complete in cs[k].zone.work {
      var j := StrandedSinceFailure(cs, moves, k);
    }
  }
}
