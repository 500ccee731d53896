/** The per-flow DNS listeners of one server: start, stop and refresh as a step machine.

    Operations run concurrently, one atomic step at a time. Locks are the flow map's mutex and
    one refresh mutex per flow entry. A run of the service owns a parent cancel token; each
    listener holds a child of it, so it is cancelled when its own token or its run's token is.
    Listeners may die at any moment; their tasks end only after cancellation. */
module DnsLifecycle {
  import opened Options

  type FlowId = nat
  type RunId = nat
  type OpId = nat

  /** A listener that was bound: `tasks` counts its tracked tasks still running. */
  datatype Listener = Listener(flow: FlowId, run: RunId, cancelled: bool, tasks: nat)

  datatype Entry = Entry(lock: Option<OpId>, runtime: Option<nat>)

  /** Program counters of the operations. */
  datatype Op =
    | StopCalled
    | StopSwapped(run: RunId)
    | StopCancelled(run: RunId)
    | StopWaited(run: RunId)
    | Sweeping(run: RunId, left: set<FlowId>)
    | SweepHolds(run: RunId, left: set<FlowId>, flow: FlowId)
    | RefreshCalled(flow: FlowId)
    | RefreshInMap(flow: FlowId)
    | RefreshWants(flow: FlowId)
    | RefreshHolds(flow: FlowId)
    | Renewing(flow: FlowId)
    | Rebuilding(flow: FlowId)
    | Binding(flow: FlowId, run: RunId)
    | Bound(flow: FlowId, listener: nat)
    | Storing(flow: FlowId, listener: nat)
    | RenewCalled
    | RenewInMap
    | RenewWants(left: set<FlowId>)
    | RenewHolds(left: set<FlowId>, flow: FlowId)
    | ProbeCalled(flow: FlowId)
    | ProbeInMap(flow: FlowId)
    | ProbeWants(flow: FlowId)
    | ProbeHolds(flow: FlowId)
    | StatusCalled
    | StatusInMap
    | Finished

  datatype State = State(
    run: Option<RunId>,
    dead: set<RunId>,
    nextRun: RunId,
    mapLock: Option<OpId>,
    entries: map<FlowId, Entry>,
    listeners: seq<Listener>,
    ops: seq<Op>)

  /** A new server has a run from the start and no flows. */
  ghost predicate Init(s: State) {
    s == State(Some(0), {}, 1, None, map[], [], [])
  }

  /** A decision the environment or the iteration order makes for a step. */
  datatype Choice = Go | Pick(flow: FlowId) | BindFails | Binds(tasks: nat)

  datatype Action =
    | Call(op: Op)
    | Start
    | Die(listener: nat)
    | TaskEnds(listener: nat)
    | Move(i: OpId, choice: Choice)

  predicate Cancelled(s: State, l: nat)
    requires l < |s.listeners|
  {
    s.listeners[l].cancelled || s.listeners[l].run in s.dead
  }

  /** The flow's stored runtime exists and its token is not cancelled. */
  predicate HasLive(s: State, f: FlowId)
    requires f in s.entries
  {
    s.entries[f].runtime.Some? && s.entries[f].runtime.value < |s.listeners| && !Cancelled(s, s.entries[f].runtime.value)
  }

  /** A stop that has taken the run away and not returned yet. */
  predicate Stops(op: Op) {
    op.StopSwapped? || op.StopCancelled? || op.StopWaited? || op.Sweeping? || op.SweepHolds?
  }

  predicate Refreshes(op: Op) {
    || op.RefreshCalled? || op.RefreshInMap? || op.RefreshWants? || op.RefreshHolds?
    || op.Renewing? || op.Rebuilding? || op.Binding? || op.Bound? || op.Storing?
  }

  /** Renewal of all flows, a cache probe of one flow, or a status query. */
  predicate Reads(op: Op) {
    || op.RenewCalled? || op.RenewInMap? || op.RenewWants? || op.RenewHolds?
    || op.ProbeCalled? || op.ProbeInMap? || op.ProbeWants? || op.ProbeHolds?
    || op.StatusCalled? || op.StatusInMap?
  }

  predicate HoldsMap(op: Op) {
    op.RefreshInMap? || op.RenewInMap? || op.ProbeInMap? || op.StatusInMap? || op.Sweeping? || op.SweepHolds?
  }

  /** The flow whose refresh mutex an operation holds. */
  function Held(op: Op): Option<FlowId> {
    match op
    case SweepHolds(_, _, f) => Some(f)
    case RefreshHolds(f) => Some(f)
    case Renewing(f) => Some(f)
    case Rebuilding(f) => Some(f)
    case Binding(f, _) => Some(f)
    case Bound(f, _) => Some(f)
    case Storing(f, _) => Some(f)
    case RenewHolds(_, f) => Some(f)
    case ProbeHolds(f) => Some(f)
    case _ => None
  }

  predicate NewCall(op: Op) {
    op.StopCalled? || op.RefreshCalled? || op.RenewCalled? || op.ProbeCalled? || op.StatusCalled?
  }

  predicate FlowFree(s: State, f: FlowId) {
    f in s.entries && s.entries[f].lock == None
  }

  // --------------------------------------------------------------- the steps

  /** When operation `i` can take its next step. Only waiting for a lock, or for the tracked
      tasks of the stopped run, ever blocks. */
  predicate CanMove(s: State, i: OpId, ch: Choice) {
    i < |s.ops| &&
    match s.ops[i]
    case StopCalled => ch.Go?
    case StopSwapped(_) => ch.Go?
    case StopCancelled(r) => ch.Go? && forall l | 0 <= l < |s.listeners| && s.listeners[l].run == r :: s.listeners[l].tasks == 0
    case StopWaited(_) => ch.Go? && s.mapLock == None
    case Sweeping(_, left) => if left == {} then ch.Go? else ch.Pick? && ch.flow in left && FlowFree(s, ch.flow)
    case SweepHolds(_, _, f) => ch.Go? && f in s.entries
    case RefreshCalled(_) => ch.Go? && s.mapLock == None
    case RefreshInMap(_) => ch.Go?
    case RefreshWants(f) => ch.Go? && FlowFree(s, f)
    case RefreshHolds(f) => ch.Go? && f in s.entries
    case Renewing(f) => ch.Go? && f in s.entries
    case Rebuilding(f) => ch.Go? && f in s.entries
    case Binding(f, _) => f in s.entries && (ch.BindFails? || (ch.Binds? && 1 <= ch.tasks <= 2))
    case Bound(f, l) => ch.Go? && f in s.entries && l < |s.listeners|
    case Storing(f, _) => ch.Go? && f in s.entries
    case RenewCalled => ch.Go? && s.mapLock == None
    case RenewInMap => ch.Go?
    case RenewWants(left) => if left == {} then ch.Go? else ch.Pick? && ch.flow in left && FlowFree(s, ch.flow)
    case RenewHolds(_, f) => ch.Go? && f in s.entries
    case ProbeCalled(_) => ch.Go? && s.mapLock == None
    case ProbeInMap(_) => ch.Go?
    case ProbeWants(f) => ch.Go? && FlowFree(s, f)
    case ProbeHolds(f) => ch.Go? && f in s.entries
    case StatusCalled => ch.Go? && s.mapLock == None
    case StatusInMap => ch.Go?
    case Finished => false
  }

  function SetOp(s: State, i: OpId, op: Op): State
    requires i < |s.ops|
  {
    s.(ops := s.ops[i := op])
  }

  function LockFlow(s: State, f: FlowId, i: OpId): State
    requires f in s.entries
  {
    s.(entries := s.entries[f := s.entries[f].(lock := Some(i))])
  }

  function UnlockFlow(s: State, f: FlowId): State
    requires f in s.entries
  {
    s.(entries := s.entries[f := s.entries[f].(lock := None)])
  }

  /** Store a runtime and leave the critical section. */
  function StoreAndUnlock(s: State, f: FlowId, runtime: Option<nat>): State {
    s.(entries := s.entries[f := Entry(None, runtime)])
  }

  function MoveStop(s: State, i: OpId, ch: Choice): State
    requires CanMove(s, i, ch) && (s.ops[i].StopCalled? || Stops(s.ops[i]))
  {
    match s.ops[i]
    case StopCalled =>
      if s.run == None then SetOp(s, i, Finished)
      else SetOp(s.(run := None), i, StopSwapped(s.run.value))
    case StopSwapped(r) => SetOp(s.(dead := s.dead + {r}), i, StopCancelled(r))
    case StopCancelled(r) => SetOp(s, i, StopWaited(r))
    case StopWaited(r) => SetOp(s.(mapLock := Some(i)), i, Sweeping(r, s.entries.Keys))
    case Sweeping(r, left) =>
      if left == {} then SetOp(s.(mapLock := None), i, Finished)
      else SetOp(LockFlow(s, ch.flow, i), i, SweepHolds(r, left - {ch.flow}, ch.flow))
    case SweepHolds(r, left, f) => SetOp(StoreAndUnlock(s, f, None), i, Sweeping(r, left))
  }

  function MoveRefresh(s: State, i: OpId, ch: Choice): State
    requires CanMove(s, i, ch) && Refreshes(s.ops[i])
  {
    match s.ops[i]
    case RefreshCalled(f) => SetOp(s.(mapLock := Some(i)), i, RefreshInMap(f))
    case RefreshInMap(f) =>
      var entries := if f in s.entries then s.entries else s.entries[f := Entry(None, None)];
      SetOp(s.(mapLock := None, entries := entries), i, RefreshWants(f))
    case RefreshWants(f) => SetOp(LockFlow(s, f, i), i, RefreshHolds(f))
    case RefreshHolds(f) => SetOp(s, i, if HasLive(s, f) then Renewing(f) else Rebuilding(f))
    case Renewing(f) => SetOp(UnlockFlow(s, f), i, Finished)
    case Rebuilding(f) =>
      if s.run == None then SetOp(UnlockFlow(s, f), i, Finished)
      else SetOp(s, i, Binding(f, s.run.value))
    case Binding(f, r) =>
      if ch.BindFails? then SetOp(UnlockFlow(s, f), i, Finished)
      else SetOp(s.(listeners := s.listeners + [Listener(f, r, false, ch.tasks)]), i, Bound(f, |s.listeners|))
    case Bound(f, l) =>
      if Cancelled(s, l) then SetOp(UnlockFlow(s, f), i, Finished)
      else SetOp(s, i, Storing(f, l))
    case Storing(f, l) => SetOp(StoreAndUnlock(s, f, Some(l)), i, Finished)
  }

  function MoveReader(s: State, i: OpId, ch: Choice): State
    requires CanMove(s, i, ch) && Reads(s.ops[i])
  {
    match s.ops[i]
    case RenewCalled => SetOp(s.(mapLock := Some(i)), i, RenewInMap)
    case RenewInMap => SetOp(s.(mapLock := None), i, RenewWants(s.entries.Keys))
    case RenewWants(left) =>
      if left == {} then SetOp(s, i, Finished)
      else SetOp(LockFlow(s, ch.flow, i), i, RenewHolds(left - {ch.flow}, ch.flow))
    case RenewHolds(left, f) => SetOp(UnlockFlow(s, f), i, RenewWants(left))
    case ProbeCalled(f) => SetOp(s.(mapLock := Some(i)), i, ProbeInMap(f))
    case ProbeInMap(f) => SetOp(s.(mapLock := None), i, if f in s.entries then ProbeWants(f) else Finished)
    case ProbeWants(f) => SetOp(LockFlow(s, f, i), i, ProbeHolds(f))
    case ProbeHolds(f) => SetOp(UnlockFlow(s, f), i, Finished)
    case StatusCalled => SetOp(s.(mapLock := Some(i)), i, StatusInMap)
    case StatusInMap => SetOp(s.(mapLock := None), i, Finished)
  }

  function MoveOp(s: State, i: OpId, ch: Choice): State
    requires CanMove(s, i, ch)
  {
    var op := s.ops[i];
    if op.StopCalled? || Stops(op) then MoveStop(s, i, ch)
    else if Refreshes(op) then MoveRefresh(s, i, ch)
    else MoveReader(s, i, ch)
  }

  /** The calling discipline: a start only when no run is present and no stop is in progress. */
  predicate Enabled(s: State, a: Action) {
    match a
    case Call(op) => NewCall(op)
    case Start => s.run == None && forall i | 0 <= i < |s.ops| :: !Stops(s.ops[i])
    case Die(l) => l < |s.listeners|
    case TaskEnds(l) => l < |s.listeners| && s.listeners[l].tasks > 0 && Cancelled(s, l)
    case Move(i, ch) => CanMove(s, i, ch)
  }

  function Step(s: State, a: Action): State
    requires Enabled(s, a)
  {
    match a
    case Call(op) => s.(ops := s.ops + [op])
    case Start => s.(run := Some(s.nextRun), nextRun := s.nextRun + 1)
    case Die(l) => s.(listeners := s.listeners[l := s.listeners[l].(cancelled := true)])
    case TaskEnds(l) => s.(listeners := s.listeners[l := s.listeners[l].(tasks := s.listeners[l].tasks - 1)])
    case Move(i, ch) => MoveOp(s, i, ch)
  }

  ghost predicate Run(states: seq<State>, actions: seq<Action>) {
    && |states| == |actions| + 1
    && Init(states[0])
    && forall i | 0 <= i < |actions| :: Enabled(states[i], actions[i]) && states[i + 1] == Step(states[i], actions[i])
  }

  // ----------------------------------------------------------- the invariant

  /** The mutexes are held by exactly the operations inside the critical sections. */
  ghost predicate LocksOk(s: State) {
    && (s.mapLock.Some? ==> s.mapLock.value < |s.ops| && HoldsMap(s.ops[s.mapLock.value]))
    && (forall i | 0 <= i < |s.ops| && HoldsMap(s.ops[i]) :: s.mapLock == Some(i))
    && (forall f <- s.entries :: s.entries[f].lock.Some? ==>
          s.entries[f].lock.value < |s.ops| && Held(s.ops[s.entries[f].lock.value]) == Some(f))
    && (forall i | 0 <= i < |s.ops| && Held(s.ops[i]).Some? ::
          Held(s.ops[i]).value in s.entries && s.entries[Held(s.ops[i]).value].lock == Some(i))
  }

  /** Flows an operation still has to visit are in the map. */
  ghost predicate VisitsOk(s: State, op: Op) {
    match op
    case RefreshWants(f) => f in s.entries
    case ProbeWants(f) => f in s.entries
    case RenewWants(left) => left <= s.entries.Keys
    case RenewHolds(left, _) => left <= s.entries.Keys
    case Sweeping(_, left) => left <= s.entries.Keys
    case SweepHolds(_, left, f) => left <= s.entries.Keys
    case _ => true
  }

  /** Run bookkeeping: at most one stop at work, and it has taken the current run. */
  ghost predicate RunsOk(s: State) {
    && (forall r <- s.dead :: r < s.nextRun)
    && (s.run.Some? ==> s.run.value < s.nextRun && s.run.value !in s.dead)
    && (forall i | 0 <= i < |s.ops| && Stops(s.ops[i]) ::
          s.run == None && s.ops[i].run < s.nextRun && (s.ops[i].run in s.dead <==> !s.ops[i].StopSwapped?))
    && (forall i, j | 0 <= i < j < |s.ops| :: !Stops(s.ops[i]) || !Stops(s.ops[j]))
  }

  /** The stop has not swept this flow yet. */
  predicate Unswept(op: Op, f: FlowId) {
    match op
    case Sweeping(_, left) => f in left
    case SweepHolds(_, left, g) => f in left || f == g
    case _ => true
  }

  /** Run `r` may still own things at flow `f`: it is current, or being stopped with `f` unswept. */
  ghost predicate Owns(s: State, r: RunId, f: FlowId) {
    || s.run == Some(r)
    || exists i :: 0 <= i < |s.ops| && Stops(s.ops[i]) && s.ops[i].run == r && Unswept(s.ops[i], f)
  }

  /** The listener belongs to flow `f` and to a run that still owns things there. */
  ghost predicate Belongs(s: State, l: nat, f: FlowId) {
    l < |s.listeners| && s.listeners[l].flow == f && Owns(s, s.listeners[l].run, f)
  }

  /** Whoever rebuilds a flow knows its stored runtime is gone or dead. */
  ghost predicate BuilderOk(s: State, op: Op) {
    match op
    case Rebuilding(f) => f in s.entries && !HasLive(s, f)
    case Binding(f, r) => f in s.entries && !HasLive(s, f) && Owns(s, r, f)
    case Bound(f, l) => f in s.entries && !HasLive(s, f) && Belongs(s, l, f)
    case Storing(f, l) => f in s.entries && !HasLive(s, f) && Belongs(s, l, f)
    case _ => true
  }

  ghost predicate Installing(s: State, l: nat, i: OpId)
    requires l < |s.listeners|
  {
    i < |s.ops| && (s.ops[i] == Bound(s.listeners[l].flow, l) || s.ops[i] == Storing(s.listeners[l].flow, l))
  }

  /** A live listener is stored in its flow's entry or being installed under its flow's lock. */
  ghost predicate Accounted(s: State, l: nat)
    requires l < |s.listeners|
  {
    var f := s.listeners[l].flow;
    || (f in s.entries && s.entries[f].runtime == Some(l))
    || exists i :: Installing(s, l, i)
  }

  ghost predicate ListenersOk(s: State) {
    && (forall f <- s.entries :: s.entries[f].runtime.Some? ==> Belongs(s, s.entries[f].runtime.value, f))
    && (forall l | 0 <= l < |s.listeners| && !Cancelled(s, l) :: Accounted(s, l))
  }

  ghost predicate Inv(s: State) {
    && LocksOk(s)
    && RunsOk(s)
    && ListenersOk(s)
    && (forall i | 0 <= i < |s.ops| :: VisitsOk(s, s.ops[i]) && BuilderOk(s, s.ops[i]))
  }

  // ------------------------------------------------------------ preservation

  /** Only operation `i` moved. */
  ghost predicate Alone(s: State, t: State, i: OpId) {
    i < |s.ops| && |t.ops| == |s.ops| && forall j | 0 <= j < |s.ops| && j != i :: t.ops[j] == s.ops[j]
  }

  /** Operation `i` took, kept or gave back a mutex, and its program counter says so. */
  ghost predicate LockMove(before: Option<OpId>, after: Option<OpId>, i: OpId, held: bool, holds: bool) {
    || (after == before && held == holds)
    || (before == None && after == Some(i) && holds)
    || (held && after == None && !holds)
  }

  ghost predicate FlowMove(s: State, t: State, i: OpId, f: FlowId)
    requires i < |s.ops| && i < |t.ops|
  {
    f in t.entries &&
    LockMove(if f in s.entries then s.entries[f].lock else None, t.entries[f].lock, i,
             Held(s.ops[i]) == Some(f), Held(t.ops[i]) == Some(f))
  }

  ghost predicate LocksMove(s: State, t: State, i: OpId)
    requires i < |s.ops| && i < |t.ops|
  {
    && LockMove(s.mapLock, t.mapLock, i, HoldsMap(s.ops[i]), HoldsMap(t.ops[i]))
    && s.entries.Keys <= t.entries.Keys
    && (forall f <- t.entries :: FlowMove(s, t, i, f))
    && (Held(t.ops[i]).Some? ==> Held(t.ops[i]).value in t.entries)
  }

  lemma LocksKept(s: State, t: State, i: OpId)
    requires LocksOk(s) && Alone(s, t, i) && LocksMove(s, t, i)
    ensures LocksOk(t)
  {
    hide HoldsMap, Held;
    forall f | f in t.entries && t.entries[f].lock.Some?
      ensures t.entries[f].lock.value < |t.ops| && Held(t.ops[t.entries[f].lock.value]) == Some(f)
    {
      assert FlowMove(s, t, i, f);
    }
    forall j | 0 <= j < |t.ops| && Held(t.ops[j]).Some?
      ensures Held(t.ops[j]).value in t.entries && t.entries[Held(t.ops[j]).value].lock == Some(j)
    {
      assert FlowMove(s, t, i, Held(t.ops[j]).value);
    }
  }

  lemma MapMove(s: State, t: State, i: OpId)
    requires LocksOk(s) && Alone(s, t, i) && t.entries == s.entries && Held(t.ops[i]) == Held(s.ops[i])
    requires LockMove(s.mapLock, t.mapLock, i, HoldsMap(s.ops[i]), HoldsMap(t.ops[i]))
    ensures LocksOk(t)
  {
    hide Held, HoldsMap;
    LocksKept(s, t, i);
  }

  lemma FlowTaken(s: State, t: State, i: OpId, f: FlowId)
    requires LocksOk(s) && Alone(s, t, i) && FlowFree(s, f)
    requires t.mapLock == s.mapLock && HoldsMap(t.ops[i]) == HoldsMap(s.ops[i])
    requires t.entries == s.entries[f := s.entries[f].(lock := Some(i))]
    requires Held(s.ops[i]) == None && Held(t.ops[i]) == Some(f)
    ensures LocksOk(t)
  {
    hide Held, HoldsMap;
    LocksKept(s, t, i);
  }

  lemma FlowGiven(s: State, t: State, i: OpId, f: FlowId, runtime: Option<nat>)
    requires LocksOk(s) && Alone(s, t, i)
    requires t.mapLock == s.mapLock && HoldsMap(t.ops[i]) == HoldsMap(s.ops[i])
    requires t.entries == s.entries[f := Entry(None, runtime)]
    requires Held(s.ops[i]) == Some(f) && Held(t.ops[i]) == None
    ensures LocksOk(t)
  {
    hide Held, HoldsMap;
    LocksKept(s, t, i);
  }

  lemma StopKeepsLocks(s: State, i: OpId, ch: Choice)
    requires LocksOk(s) && CanMove(s, i, ch) && (s.ops[i].StopCalled? || Stops(s.ops[i]))
    ensures LocksOk(MoveStop(s, i, ch))
  {
    hide LocksOk;
    var t := MoveStop(s, i, ch);
    if s.ops[i].SweepHolds? {
      FlowGiven(s, t, i, s.ops[i].flow, None);
    } else if s.ops[i].Sweeping? && s.ops[i].left != {} {
      FlowTaken(s, t, i, ch.flow);
    } else {
      MapMove(s, t, i);
    }
  }

  lemma ReaderKeepsLocks(s: State, i: OpId, ch: Choice)
    requires LocksOk(s) && CanMove(s, i, ch) && Reads(s.ops[i])
    ensures LocksOk(MoveReader(s, i, ch))
  {
    hide LocksOk;
    var t := MoveReader(s, i, ch);
    var op := s.ops[i];
    if op.RenewHolds? || op.ProbeHolds? {
      FlowGiven(s, t, i, op.flow, s.entries[op.flow].runtime);
    } else if op.ProbeWants? {
      FlowTaken(s, t, i, op.flow);
    } else if op.RenewWants? && op.left != {} {
      FlowTaken(s, t, i, ch.flow);
    } else {
      MapMove(s, t, i);
    }
  }

  lemma RefreshKeepsLocks(s: State, i: OpId, ch: Choice)
    requires LocksOk(s) && CanMove(s, i, ch) && Refreshes(s.ops[i])
    ensures LocksOk(MoveRefresh(s, i, ch))
  {
    hide LocksOk, HasLive, Cancelled;
    var t := MoveRefresh(s, i, ch);
    var op := s.ops[i];
    if op.RefreshInMap? && op.flow !in s.entries {
      EntryAdded(s, t, i, op.flow);
    } else if op.RefreshWants? {
      FlowTaken(s, t, i, op.flow);
    } else if t.ops[i].Finished? {
      FlowGiven(s, t, i, op.flow, if op.Storing? then Some(op.listener) else s.entries[op.flow].runtime);
    } else {
      MapMove(s, t, i);
    }
  }

  lemma EntryAdded(s: State, t: State, i: OpId, f: FlowId)
    requires LocksOk(s) && Alone(s, t, i) && f !in s.entries
    requires t.entries == s.entries[f := Entry(None, None)]
    requires HoldsMap(s.ops[i]) && t.mapLock == None && !HoldsMap(t.ops[i])
    requires Held(s.ops[i]) == None && Held(t.ops[i]) == None
    ensures LocksOk(t)
  {
    hide Held, HoldsMap;
    LocksKept(s, t, i);
  }

  /** Nothing is forgotten: entries, cancelled tokens and listeners only accumulate. */
  ghost predicate Grows(s: State, t: State) {
    && s.entries.Keys <= t.entries.Keys
    && s.dead <= t.dead
    && |s.listeners| <= |t.listeners|
    && forall l | 0 <= l < |s.listeners| ::
         && t.listeners[l].flow == s.listeners[l].flow && t.listeners[l].run == s.listeners[l].run
         && (s.listeners[l].cancelled ==> t.listeners[l].cancelled)
  }

  /** A stored runtime changes only under the flow's refresh mutex, by a store or a sweep. */
  ghost predicate RuntimesKept(s: State, t: State, i: OpId)
    requires i < |s.ops|
  {
    && (forall f <- s.entries :: f in t.entries &&
          (t.entries[f].runtime == s.entries[f].runtime ||
           (Held(s.ops[i]) == Some(f) && (s.ops[i].Storing? || s.ops[i].SweepHolds?))))
    && (forall f <- t.entries :: f !in s.entries ==> t.entries[f].runtime == None)
  }

  lemma StopFrame(s: State, i: OpId, ch: Choice)
    requires CanMove(s, i, ch) && (s.ops[i].StopCalled? || Stops(s.ops[i]))
    ensures var t := MoveStop(s, i, ch);
            Alone(s, t, i) && Grows(s, t) && RuntimesKept(s, t, i) && t.listeners == s.listeners
  {
  }

  lemma RefreshFrame(s: State, i: OpId, ch: Choice)
    requires CanMove(s, i, ch) && Refreshes(s.ops[i])
    ensures var t := MoveRefresh(s, i, ch);
            && Alone(s, t, i) && Grows(s, t) && RuntimesKept(s, t, i)
            && t.run == s.run && t.dead == s.dead && t.nextRun == s.nextRun && !Stops(t.ops[i])
  {
    hide HasLive, Cancelled;
  }

  lemma ReaderFrame(s: State, i: OpId, ch: Choice)
    requires CanMove(s, i, ch) && Reads(s.ops[i])
    ensures var t := MoveReader(s, i, ch);
            && Alone(s, t, i) && Grows(s, t) && RuntimesKept(s, t, i) && t.listeners == s.listeners
            && t.run == s.run && t.dead == s.dead && t.nextRun == s.nextRun && !Stops(t.ops[i])
  {
  }

  lemma MoveFrame(s: State, i: OpId, ch: Choice)
    requires CanMove(s, i, ch)
    ensures var t := MoveOp(s, i, ch); Alone(s, t, i) && Grows(s, t) && RuntimesKept(s, t, i)
    ensures !s.ops[i].StopCalled? && !Stops(s.ops[i]) ==>
              var t := MoveOp(s, i, ch);
              && Alone(s, t, i) && !Stops(t.ops[i])
              && t.run == s.run && t.dead == s.dead && t.nextRun == s.nextRun
    ensures !Refreshes(s.ops[i]) ==> MoveOp(s, i, ch).listeners == s.listeners
  {
    hide MoveStop, MoveRefresh, MoveReader, Grows, RuntimesKept;
    if s.ops[i].StopCalled? || Stops(s.ops[i]) {
      StopFrame(s, i, ch);
    } else if Refreshes(s.ops[i]) {
      RefreshFrame(s, i, ch);
    } else {
      IsReader(s, i, ch);
      ReaderFrame(s, i, ch);
    }
  }

  lemma IsReader(s: State, i: OpId, ch: Choice)
    requires CanMove(s, i, ch) && !s.ops[i].StopCalled? && !Stops(s.ops[i]) && !Refreshes(s.ops[i])
    ensures Reads(s.ops[i])
  {
  }

  /** A run loses a flow only when the sweep empties it. */
  lemma OwnsKept(s: State, i: OpId, ch: Choice, r: RunId, f: FlowId)
    requires CanMove(s, i, ch) && f in s.entries && Owns(s, r, f)
    requires !(s.ops[i].SweepHolds? && s.ops[i].flow == f)
    ensures Owns(MoveOp(s, i, ch), r, f)
  {
    MoveFrame(s, i, ch);
    var t := MoveOp(s, i, ch);
    if s.ops[i].StopCalled? || Stops(s.ops[i]) {
      StopOwnsKept(s, i, ch, r, f);
    } else if s.run != Some(r) {
      hide MoveOp, CanMove, Unswept, Stops;
      var k :| 0 <= k < |s.ops| && Stops(s.ops[k]) && s.ops[k].run == r && Unswept(s.ops[k], f);
      assert t.ops[k] == s.ops[k];
    }
  }

  lemma StopOwnsKept(s: State, i: OpId, ch: Choice, r: RunId, f: FlowId)
    requires CanMove(s, i, ch) && f in s.entries && Owns(s, r, f) && (s.ops[i].StopCalled? || Stops(s.ops[i]))
    requires !(s.ops[i].SweepHolds? && s.ops[i].flow == f)
    ensures Owns(MoveStop(s, i, ch), r, f)
  {
    var t := MoveStop(s, i, ch);
    if s.run == Some(r) {
      if s.ops[i].StopCalled? {
        assert Stops(t.ops[i]) && t.ops[i].run == r && Unswept(t.ops[i], f);
      }
    } else {
      var k :| 0 <= k < |s.ops| && Stops(s.ops[k]) && s.ops[k].run == r && Unswept(s.ops[k], f);
      assert Stops(t.ops[k]) && t.ops[k].run == r && Unswept(t.ops[k], f);
    }
  }

  lemma RunsSame(s: State, t: State, i: OpId)
    requires RunsOk(s) && Alone(s, t, i)
    requires t.run == s.run && t.dead == s.dead && t.nextRun == s.nextRun
    requires Stops(t.ops[i]) ==>
               Stops(s.ops[i]) && t.ops[i].run == s.ops[i].run && !t.ops[i].StopSwapped? && !s.ops[i].StopSwapped?
    ensures RunsOk(t)
  {
    hide Stops;
  }

  lemma SwapKeepsRuns(s: State, t: State, i: OpId)
    requires RunsOk(s) && i < |s.ops| && s.ops[i].StopCalled? && s.run.Some?
    requires t == SetOp(s.(run := None), i, StopSwapped(s.run.value))
    ensures RunsOk(t)
  {
    assert forall j | 0 <= j < |s.ops| :: !Stops(s.ops[j]);
  }

  lemma CancelKeepsRuns(s: State, t: State, i: OpId)
    requires RunsOk(s) && i < |s.ops| && s.ops[i].StopSwapped?
    requires t == SetOp(s.(dead := s.dead + {s.ops[i].run}), i, StopCancelled(s.ops[i].run))
    ensures RunsOk(t)
  {
    assert Stops(s.ops[i]);
    assert forall j | 0 <= j < |s.ops| && j != i :: !Stops(s.ops[j]);
  }

  lemma StopKeepsRuns(s: State, i: OpId, ch: Choice)
    requires RunsOk(s) && CanMove(s, i, ch) && (s.ops[i].StopCalled? || Stops(s.ops[i]))
    ensures RunsOk(MoveStop(s, i, ch))
  {
    hide RunsOk;
    var t := MoveStop(s, i, ch);
    if s.ops[i].StopCalled? && s.run.Some? {
      SwapKeepsRuns(s, t, i);
    } else if s.ops[i].StopSwapped? {
      CancelKeepsRuns(s, t, i);
    } else {
      RunsSame(s, t, i);
    }
  }

  lemma MoveKeepsRuns(s: State, i: OpId, ch: Choice)
    requires CanMove(s, i, ch) && RunsOk(s)
    ensures RunsOk(MoveOp(s, i, ch))
  {
    MoveFrame(s, i, ch);
    hide RunsOk, MoveStop, MoveRefresh, MoveReader;
    if s.ops[i].StopCalled? || Stops(s.ops[i]) {
      StopKeepsRuns(s, i, ch);
    } else {
      RunsSame(s, MoveOp(s, i, ch), i);
    }
  }

  lemma LiveStaysDead(s: State, t: State, i: OpId, f: FlowId)
    requires i < |s.ops| && Grows(s, t) && f in s.entries && f in t.entries && !HasLive(s, f)
    requires t.entries[f].runtime == s.entries[f].runtime
    requires s.entries[f].runtime.Some? ==> s.entries[f].runtime.value < |s.listeners|
    ensures !HasLive(t, f)
  {
  }

  /** The operations that did not move keep their promises. */
  lemma OthersKept(s: State, i: OpId, ch: Choice, j: OpId)
    requires Inv(s) && CanMove(s, i, ch) && j < |s.ops| && j != i
    ensures var t := MoveOp(s, i, ch);
            Alone(s, t, i) && VisitsOk(t, t.ops[j]) && BuilderOk(t, t.ops[j])
  {
    MoveFrame(s, i, ch);
    var t := MoveOp(s, i, ch);
    var op := s.ops[j];
    hide Owns, HasLive, ListenersOk, RunsOk, MoveOp, CanMove;
    assert VisitsOk(s, op) && BuilderOk(s, op);
    if op.Rebuilding? || op.Binding? || op.Bound? || op.Storing? {
      var f := op.flow;
      assert s.entries[f].lock == Some(j);
      assert Held(s.ops[i]) != Some(f);
      assert t.entries[f].runtime == s.entries[f].runtime;
      if s.entries[f].runtime.Some? {
        EntryInRange(s, f);
      }
      LiveStaysDead(s, t, i, f);
      if op.Binding? {
        OwnsKept(s, i, ch, op.run, f);
      } else if op.Bound? || op.Storing? {
        OwnsKept(s, i, ch, s.listeners[op.listener].run, f);
      }
    }
  }

  lemma EntryInRange(s: State, f: FlowId)
    requires ListenersOk(s) && f in s.entries && s.entries[f].runtime.Some?
    ensures Belongs(s, s.entries[f].runtime.value, f)
  {
  }

  lemma StopMoved(s: State, i: OpId, ch: Choice)
    requires CanMove(s, i, ch) && (s.ops[i].StopCalled? || Stops(s.ops[i])) && VisitsOk(s, s.ops[i])
    ensures var t := MoveStop(s, i, ch); |t.ops| == |s.ops| && VisitsOk(t, t.ops[i]) && BuilderOk(t, t.ops[i])
  {
    hide HasLive, Owns;
  }

  lemma ReaderMoved(s: State, i: OpId, ch: Choice)
    requires CanMove(s, i, ch) && Reads(s.ops[i]) && VisitsOk(s, s.ops[i])
    ensures var t := MoveReader(s, i, ch); |t.ops| == |s.ops| && VisitsOk(t, t.ops[i]) && BuilderOk(t, t.ops[i])
  {
    hide HasLive, Owns;
  }

  lemma RefreshMoved(s: State, i: OpId, ch: Choice)
    requires Inv(s) && CanMove(s, i, ch) && Refreshes(s.ops[i])
    ensures var t := MoveRefresh(s, i, ch); |t.ops| == |s.ops| && VisitsOk(t, t.ops[i]) && BuilderOk(t, t.ops[i])
  {
    hide ListenersOk, RunsOk, LocksOk, Owns;
    var op := s.ops[i];
    assert VisitsOk(s, op) && BuilderOk(s, op);
    if op.Binding? {
      hide MoveRefresh, CanMove, VisitsOk, BuilderOk;
      BindingMoved(s, i, ch);
    } else if op.Bound? {
      hide MoveRefresh, CanMove, VisitsOk, BuilderOk;
      BoundMoved(s, i, ch);
    } else if op.Rebuilding? && s.run.Some? {
      CurrentOwns(MoveRefresh(s, i, ch), s.run.value, op.flow);
    }
  }

  lemma BoundMoved(s: State, i: OpId, ch: Choice)
    requires Inv(s) && CanMove(s, i, ch) && s.ops[i].Bound?
    ensures var t := MoveRefresh(s, i, ch); |t.ops| == |s.ops| && VisitsOk(t, t.ops[i]) && BuilderOk(t, t.ops[i])
  {
    var op := s.ops[i];
    assert BuilderOk(s, op);
    OwnsKept(s, i, ch, s.listeners[op.listener].run, op.flow);
    hide Owns, Inv, HasLive, Cancelled;
    BoundStays(s, MoveRefresh(s, i, ch), i);
  }

  /** A rebuild that leaves listeners, runs and runtimes alone keeps its promises. */
  lemma BoundStays(s: State, t: State, i: OpId)
    requires i < |s.ops| && s.ops[i].Bound? && BuilderOk(s, s.ops[i]) && s.ops[i].flow in s.entries
    requires t == SetOp(s, i, Storing(s.ops[i].flow, s.ops[i].listener))
             || t == SetOp(UnlockFlow(s, s.ops[i].flow), i, Finished)
    requires Belongs(s, s.ops[i].listener, s.ops[i].flow) ==> Owns(t, s.listeners[s.ops[i].listener].run, s.ops[i].flow)
    ensures |t.ops| == |s.ops| && VisitsOk(t, t.ops[i]) && BuilderOk(t, t.ops[i])
  {
    hide Owns;
  }

  lemma BindingMoved(s: State, i: OpId, ch: Choice)
    requires Inv(s) && CanMove(s, i, ch) && s.ops[i].Binding?
    ensures var t := MoveRefresh(s, i, ch); |t.ops| == |s.ops| && VisitsOk(t, t.ops[i]) && BuilderOk(t, t.ops[i])
  {
    var op := s.ops[i];
    assert BuilderOk(s, op);
    EntryOk(s, op.flow);
    hide Inv, Owns, HasLive, Grows, RuntimesKept, Alone;
    OwnsKept(s, i, ch, op.run, op.flow);
    MoveFrame(s, i, ch);
    BindingStays(s, MoveRefresh(s, i, ch), i, ch);
  }

  lemma EntryOk(s: State, f: FlowId)
    requires Inv(s) && f in s.entries
    ensures s.entries[f].runtime.Some? ==> s.entries[f].runtime.value < |s.listeners|
  {
    hide LocksOk, RunsOk, VisitsOk, BuilderOk, Accounted, Owns;
  }

  /** Binding leaves runs and stored runtimes alone, so the rebuild keeps its promises. */
  lemma BindingStays(s: State, t: State, i: OpId, ch: Choice)
    requires CanMove(s, i, ch) && s.ops[i].Binding? && t == MoveRefresh(s, i, ch) && BuilderOk(s, s.ops[i])
    requires Grows(s, t) && Owns(t, s.ops[i].run, s.ops[i].flow)
    requires s.entries[s.ops[i].flow].runtime.Some? ==> s.entries[s.ops[i].flow].runtime.value < |s.listeners|
    ensures |t.ops| == |s.ops| && VisitsOk(t, t.ops[i]) && BuilderOk(t, t.ops[i])
  {
    hide Owns, HasLive, Grows;
    if !ch.BindFails? {
      LiveStaysDead(s, t, i, s.ops[i].flow);
    }
  }

  lemma CurrentOwns(s: State, r: RunId, f: FlowId)
    requires s.run == Some(r)
    ensures Owns(s, r, f)
  {
  }

  /** Entries keep listeners of runs that still own them. */
  lemma EntriesKept(s: State, i: OpId, ch: Choice, f: FlowId)
    requires Inv(s) && CanMove(s, i, ch)
    requires f in MoveOp(s, i, ch).entries && MoveOp(s, i, ch).entries[f].runtime.Some?
    ensures Belongs(MoveOp(s, i, ch), MoveOp(s, i, ch).entries[f].runtime.value, f)
  {
    MoveFrame(s, i, ch);
    var t := MoveOp(s, i, ch);
    hide Owns, RunsOk, LocksOk;
    if f in s.entries && t.entries[f].runtime == s.entries[f].runtime && !(s.ops[i].SweepHolds? && s.ops[i].flow == f) {
      hide MoveOp, CanMove;
      EntryInRange(s, f);
      OwnsKept(s, i, ch, s.listeners[s.entries[f].runtime.value].run, f);
    } else {
      hide HasLive;
      assert BuilderOk(s, s.ops[i]);
      if s.ops[i].Storing? {
        OwnsKept(s, i, ch, s.listeners[s.ops[i].listener].run, f);
      }
    }
  }

  /** The run being swept is cancelled, so the sweep never drops a live listener. */
  lemma SweptIsDead(s: State, i: OpId, l: nat)
    requires Inv(s) && i < |s.ops| && s.ops[i].SweepHolds? && Belongs(s, l, s.ops[i].flow)
    ensures Cancelled(s, l)
  {
    hide LocksOk, ListenersOk, HasLive;
    var r := s.listeners[l].run;
    assert Stops(s.ops[i]);
    var k :| 0 <= k < |s.ops| && Stops(s.ops[k]) && s.ops[k].run == r && Unswept(s.ops[k], s.ops[i].flow);
    OneStop(s, i, k);
  }

  lemma OneStop(s: State, i: OpId, k: OpId)
    requires RunsOk(s) && i < |s.ops| && k < |s.ops| && Stops(s.ops[i]) && Stops(s.ops[k])
    ensures i == k
  {
  }

  /** Live listeners stay accounted for across a move. */
  lemma LiveKept(s: State, i: OpId, ch: Choice, l: nat)
    requires Inv(s) && CanMove(s, i, ch)
    requires l < |MoveOp(s, i, ch).listeners| && !Cancelled(MoveOp(s, i, ch), l)
    ensures Accounted(MoveOp(s, i, ch), l)
  {
    MoveFrame(s, i, ch);
    if l >= |s.listeners| {
      NewListener(s, i, ch, l);
    } else {
      hide Owns, RunsOk, LocksOk, MoveOp, CanMove, BuilderOk, VisitsOk;
      assert !Cancelled(s, l) && Accounted(s, l);
      var f := s.listeners[l].flow;
      if f in s.entries && s.entries[f].runtime == Some(l) {
        StoredKept(s, i, ch, l);
      } else {
        var k :| Installing(s, l, k);
        InstallerKept(s, i, ch, l, k);
      }
    }
  }

  lemma NewListener(s: State, i: OpId, ch: Choice, l: nat)
    requires CanMove(s, i, ch) && |s.listeners| <= l < |MoveOp(s, i, ch).listeners|
    ensures Accounted(MoveOp(s, i, ch), l)
  {
    hide HasLive, Cancelled;
    assert Installing(MoveOp(s, i, ch), l, i);
  }

  lemma StoredKept(s: State, i: OpId, ch: Choice, l: nat)
    requires Inv(s) && CanMove(s, i, ch) && l < |s.listeners| && !Cancelled(s, l)
    requires s.listeners[l].flow in s.entries && s.entries[s.listeners[l].flow].runtime == Some(l)
    ensures l < |MoveOp(s, i, ch).listeners| && Accounted(MoveOp(s, i, ch), l)
  {
    MoveFrame(s, i, ch);
    var f := s.listeners[l].flow;
    hide Owns, RunsOk, MoveOp, CanMove, LocksOk;
    assert BuilderOk(s, s.ops[i]);
    if Held(s.ops[i]) == Some(f) && s.ops[i].SweepHolds? {
      SweptIsDead(s, i, l);
    }
  }

  lemma InstallerKept(s: State, i: OpId, ch: Choice, l: nat, k: OpId)
    requires CanMove(s, i, ch) && l < |s.listeners| && !Cancelled(s, l) && Installing(s, l, k)
    ensures l < |MoveOp(s, i, ch).listeners| && Accounted(MoveOp(s, i, ch), l)
  {
    MoveFrame(s, i, ch);
    var t := MoveOp(s, i, ch);
    if k != i {
      hide MoveOp, CanMove;
      assert Installing(t, l, k);
    } else {
      hide HasLive, RuntimesKept;
      assert s.ops[i].Bound? ==> Installing(t, l, i);
    }
  }

  lemma MoveKeepsListeners(s: State, i: OpId, ch: Choice)
    requires Inv(s) && CanMove(s, i, ch)
    ensures ListenersOk(MoveOp(s, i, ch))
  {
    var t := MoveOp(s, i, ch);
    hide MoveOp, CanMove, Inv, Accounted, Belongs, Cancelled;
    forall f | f in t.entries && t.entries[f].runtime.Some? ensures Belongs(t, t.entries[f].runtime.value, f) {
      EntriesKept(s, i, ch, f);
    }
    forall l | 0 <= l < |t.listeners| && !Cancelled(t, l) ensures Accounted(t, l) {
      LiveKept(s, i, ch, l);
    }
  }

  lemma MoveKeepsInv(s: State, i: OpId, ch: Choice)
    requires Inv(s) && CanMove(s, i, ch)
    ensures Inv(MoveOp(s, i, ch))
  {
    hide LocksOk, RunsOk, ListenersOk, VisitsOk, BuilderOk;
    var t := MoveOp(s, i, ch);
    MoveFrame(s, i, ch);
    MoveKeepsListeners(s, i, ch);
    MoveKeepsRuns(s, i, ch);
    forall j | 0 <= j < |t.ops| && j != i ensures VisitsOk(t, t.ops[j]) && BuilderOk(t, t.ops[j]) {
      OthersKept(s, i, ch, j);
    }
    if s.ops[i].StopCalled? || Stops(s.ops[i]) {
      StopKeepsLocks(s, i, ch);
      StopMoved(s, i, ch);
    } else if Refreshes(s.ops[i]) {
      RefreshKeepsLocks(s, i, ch);
      RefreshMoved(s, i, ch);
    } else {
      ReaderKeepsLocks(s, i, ch);
      ReaderMoved(s, i, ch);
    }
  }

  /** No operation moved, and listeners at most came closer to their end. */
  ghost predicate Quiet(s: State, t: State) {
    && t.run == s.run && t.dead == s.dead && t.nextRun == s.nextRun && t.mapLock == s.mapLock && t.entries == s.entries
    && |s.ops| <= |t.ops| && (forall j | 0 <= j < |s.ops| :: t.ops[j] == s.ops[j])
    && |t.listeners| == |s.listeners| && Grows(s, t)
  }

  lemma QuietKeepsListeners(s: State, t: State)
    requires ListenersOk(s) && Quiet(s, t)
    ensures ListenersOk(t)
  {
    SameOwners(s, t);
    hide Owns;
    forall l | 0 <= l < |t.listeners| && !Cancelled(t, l) ensures Accounted(t, l) {
      assert !Cancelled(s, l) && Accounted(s, l);
      if k :| Installing(s, l, k) {
        assert Installing(t, l, k);
      }
    }
  }

  lemma QuietKeepsOps(s: State, t: State, j: OpId)
    requires Quiet(s, t) && ListenersOk(s) && j < |s.ops| && VisitsOk(s, s.ops[j]) && BuilderOk(s, s.ops[j])
    ensures VisitsOk(t, t.ops[j]) && BuilderOk(t, t.ops[j])
  {
    SameOwners(s, t);
    hide Owns;
  }

  lemma CallKeepsLocks(s: State, t: State, op: Op)
    requires LocksOk(s) && RunsOk(s) && NewCall(op) && t == s.(ops := s.ops + [op])
    ensures LocksOk(t) && RunsOk(t)
  {
    assert !HoldsMap(op) && Held(op) == None && !Stops(op);
    hide HoldsMap, Held, Stops, NewCall;
    assert forall j | 0 <= j < |s.ops| :: t.ops[j] == s.ops[j];
    AddedKeepsLocks(s, t, op);
  }

  lemma AddedKeepsLocks(s: State, t: State, op: Op)
    requires LocksOk(s) && !HoldsMap(op) && Held(op) == None && t == s.(ops := s.ops + [op])
    ensures LocksOk(t)
  {
    hide HoldsMap, Held;
    assert forall j | 0 <= j < |s.ops| :: t.ops[j] == s.ops[j];
    assert t.ops[|s.ops|] == op;
  }

  lemma CallKeepsInv(s: State, op: Op)
    requires Inv(s) && NewCall(op)
    ensures Inv(Step(s, Call(op)))
  {
    var t := Step(s, Call(op));
    assert forall j | 0 <= j < |s.ops| :: t.ops[j] == s.ops[j];
    hide LocksOk, RunsOk, ListenersOk;
    CallKeepsLocks(s, t, op);
    QuietKeepsListeners(s, t);
    forall j | 0 <= j < |s.ops| ensures VisitsOk(t, t.ops[j]) && BuilderOk(t, t.ops[j]) {
      QuietKeepsOps(s, t, j);
    }
  }

  /** Owners survive a step that leaves the run and the operations' program counters alone. */
  lemma SameOwners(s: State, t: State)
    requires t.run == s.run && |s.ops| <= |t.ops| && forall j | 0 <= j < |s.ops| :: t.ops[j] == s.ops[j]
    ensures forall r: RunId, f: FlowId | Owns(s, r, f) :: Owns(t, r, f)
  {
    forall r: RunId, f: FlowId | Owns(s, r, f) ensures Owns(t, r, f) {
      if s.run != Some(r) {
        var k :| 0 <= k < |s.ops| && Stops(s.ops[k]) && s.ops[k].run == r && Unswept(s.ops[k], f);
        assert t.ops[k] == s.ops[k];
      }
    }
  }

  /** With no run and no stop at work nobody owns anything, so nothing is stored or being built. */
  lemma StoppedOwnsNothing(s: State)
    requires Inv(s) && s.run == None && forall i | 0 <= i < |s.ops| :: !Stops(s.ops[i])
    ensures forall r: RunId, f: FlowId :: !Owns(s, r, f)
    ensures forall f <- s.entries :: s.entries[f].runtime == None
    ensures forall l | 0 <= l < |s.listeners| :: Cancelled(s, l)
    ensures forall i | 0 <= i < |s.ops| :: !s.ops[i].Binding? && !s.ops[i].Bound? && !s.ops[i].Storing?
  {
    hide LocksOk, HasLive;
    forall i | 0 <= i < |s.ops| ensures !s.ops[i].Binding? && !s.ops[i].Bound? && !s.ops[i].Storing? {
      assert BuilderOk(s, s.ops[i]);
    }
    forall l | 0 <= l < |s.listeners| ensures Cancelled(s, l) {
      assert !Cancelled(s, l) ==> Accounted(s, l);
    }
  }

  lemma StartKeepsInv(s: State)
    requires Inv(s) && Enabled(s, Start)
    ensures Inv(Step(s, Start))
  {
    StoppedOwnsNothing(s);
    var t := Step(s, Start);
    hide Owns;
    forall l | 0 <= l < |t.listeners| ensures Cancelled(t, l) {
      assert Cancelled(s, l);
    }
    forall j | 0 <= j < |t.ops| ensures VisitsOk(t, t.ops[j]) && BuilderOk(t, t.ops[j]) {
      assert VisitsOk(s, s.ops[j]) && BuilderOk(s, s.ops[j]);
    }
  }

  lemma ListenerKeepsInv(s: State, t: State)
    requires Inv(s) && Quiet(s, t) && t.ops == s.ops
    ensures Inv(t)
  {
    assert LocksOk(t) && RunsOk(t);
    hide LocksOk, RunsOk, ListenersOk, VisitsOk, BuilderOk;
    QuietKeepsListeners(s, t);
    forall j | 0 <= j < |s.ops| ensures VisitsOk(t, t.ops[j]) && BuilderOk(t, t.ops[j]) {
      QuietKeepsOps(s, t, j);
    }
  }

  lemma KeepInv(s: State, a: Action)
    requires Inv(s) && Enabled(s, a)
    ensures Inv(Step(s, a))
  {
    hide Inv, MoveOp;
    match a
    case Call(op) => CallKeepsInv(s, op);
    case Start => StartKeepsInv(s);
    case Die(l) => ListenerKeepsInv(s, Step(s, a));
    case TaskEnds(l) => ListenerKeepsInv(s, Step(s, a));
    case Move(i, ch) => MoveKeepsInv(s, i, ch);
  }

  lemma {:induction false} RunKeepsInv(states: seq<State>, actions: seq<Action>, n: nat)
    requires Run(states, actions) && n < |states|
    ensures Inv(states[n])
  {
    if n > 0 {
      hide Inv, Init, Step, Enabled;
      RunKeepsInv(states, actions, n - 1);
      KeepInv(states[n - 1], actions[n - 1]);
    }
  }
}
