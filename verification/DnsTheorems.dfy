/** What the listener lifecycle guarantees in every run. */
module DnsTheorems {
  import opened DnsLifecycle
  import opened Options

  // ------------------------------------------------------------ live listeners

  /** Every live listener is stored in its flow's entry or being installed under its flow's
      mutex, and a flow never has two. */
  lemma OneLiveListenerPerFlow(states: seq<State>, actions: seq<Action>, n: nat, l: nat, m: nat)
    requires Run(states, actions) && n < |states|
    requires l < |states[n].listeners| && m < |states[n].listeners|
    requires !Cancelled(states[n], l) && !Cancelled(states[n], m)
    requires states[n].listeners[l].flow == states[n].listeners[m].flow
    ensures Accounted(states[n], l) && l == m
  {
    hide *;
    RunKeepsInv(states, actions, n);
    LiveIsAccounted(states[n], l);
    NotTwo(states[n], l, m);
  }

  lemma LiveIsAccounted(s: State, l: nat)
    requires Inv(s) && l < |s.listeners| && !Cancelled(s, l)
    ensures Accounted(s, l)
  {
    hide LocksOk, RunsOk, VisitsOk, BuilderOk, Accounted, Belongs;
  }

  lemma NotTwo(s: State, l: nat, m: nat)
    requires Inv(s) && l < |s.listeners| && m < |s.listeners| && !Cancelled(s, l) && !Cancelled(s, m)
    requires s.listeners[l].flow == s.listeners[m].flow
    ensures l == m
  {
    LiveIsAccounted(s, l);
    LiveIsAccounted(s, m);
    var f := s.listeners[l].flow;
    hide Inv, HasLive, Cancelled, Accounted;
    if f in s.entries && HasLive(s, f) {
      NoRebuildWhileLive(s, f);
      StoredIfLive(s, l, f);
      StoredIfLive(s, m, f);
    } else {
      var k := InstalledIfNot(s, l, f);
      var j := InstalledIfNot(s, m, f);
      InvLocks(s);
      hide LocksOk;
      SameInstaller(s, f, k, j);
    }
  }

  lemma StoredIfLive(s: State, l: nat, f: FlowId)
    requires l < |s.listeners| && s.listeners[l].flow == f && Accounted(s, l)
    requires forall k | 0 <= k < |s.ops| && (s.ops[k].Bound? || s.ops[k].Storing?) :: s.ops[k].flow != f
    ensures f in s.entries && s.entries[f].runtime == Some(l)
  {
  }

  lemma InstalledIfNot(s: State, l: nat, f: FlowId) returns (k: OpId)
    requires l < |s.listeners| && s.listeners[l].flow == f && Accounted(s, l) && !Cancelled(s, l)
    requires !(f in s.entries && HasLive(s, f))
    ensures Installing(s, l, k)
  {
    k :| Installing(s, l, k);
  }

  lemma InvLocks(s: State)
    requires Inv(s)
    ensures LocksOk(s)
  {
  }

  /** No rebuild of a flow is under way while its stored listener lives. */
  lemma NoRebuildWhileLive(s: State, f: FlowId)
    requires Inv(s) && f in s.entries && HasLive(s, f)
    ensures forall k | 0 <= k < |s.ops| && (s.ops[k].Bound? || s.ops[k].Storing?) :: s.ops[k].flow != f
  {
    hide LocksOk, RunsOk, ListenersOk, Owns;
    forall k | 0 <= k < |s.ops| && (s.ops[k].Bound? || s.ops[k].Storing?) ensures s.ops[k].flow != f {
      assert BuilderOk(s, s.ops[k]);
    }
  }

  lemma SameInstaller(s: State, f: FlowId, k: OpId, j: OpId)
    requires LocksOk(s) && k < |s.ops| && j < |s.ops|
    requires Held(s.ops[k]) == Some(f) && Held(s.ops[j]) == Some(f)
    ensures k == j
  {
  }

  // --------------------------------------------------------------------- stop

  /** No run and no stop at work. */
  ghost predicate Stopped(s: State) {
    s.run == None && forall i | 0 <= i < |s.ops| :: !Stops(s.ops[i])
  }

  /** No entry holds a runtime, no listener lives, no rebuild holds a run. */
  ghost predicate Swept(s: State) {
    && (forall f <- s.entries :: s.entries[f].runtime == None)
    && (forall l | 0 <= l < |s.listeners| :: Cancelled(s, l))
    && (forall i | 0 <= i < |s.ops| :: !s.ops[i].Binding? && !s.ops[i].Bound? && !s.ops[i].Storing?)
  }

  /** Operation `i` returns from a stop in the step from `s` to `t`. */
  ghost predicate StopReturns(s: State, t: State, i: OpId) {
    i < |s.ops| && i < |t.ops| && (s.ops[i].StopCalled? || Stops(s.ops[i])) && t.ops[i].Finished?
  }

  lemma StoppedStays(s: State, a: Action)
    requires Inv(s) && Enabled(s, a) && Stopped(s) && a != Start
    ensures Stopped(Step(s, a))
  {
    hide Inv;
    if a.Move? {
      MoveFrame(s, a.i, a.choice);
    }
  }

  /** When the stop that swept returns, everything is gone, and it stays gone until a start. */
  lemma {:induction false} StopSweepsUntilStart(states: seq<State>, actions: seq<Action>, n: nat, m: nat, i: OpId)
    requires Run(states, actions) && n < m < |states|
    requires actions[n].Move? && actions[n].i == i && i < |states[n].ops| && states[n].ops[i].Sweeping?
    requires StopReturns(states[n], states[n + 1], i)
    requires forall k | n < k < m :: actions[k] != Start
    ensures Stopped(states[m]) && Swept(states[m])
  {
    hide Inv, Init, Stopped, Swept, MoveOp, CanMove;
    RunKeepsInv(states, actions, m);
    RunKeepsInv(states, actions, m - 1);
    if m == n + 1 {
      ReturnStops(states[n], i, actions[n].choice);
    } else {
      StopSweepsUntilStart(states, actions, n, m - 1, i);
      StoppedStays(states[m - 1], actions[m - 1]);
    }
    StoppedIsSwept(states[m]);
  }

  lemma StoppedIsSwept(s: State)
    requires Inv(s) && Stopped(s)
    ensures Swept(s)
  {
    StoppedOwnsNothing(s);
  }

  lemma ReturnStops(s: State, i: OpId, ch: Choice)
    requires Inv(s) && CanMove(s, i, ch) && s.ops[i].Sweeping? && StopReturns(s, MoveOp(s, i, ch), i)
    ensures Stopped(MoveOp(s, i, ch))
  {
    hide LocksOk, ListenersOk, VisitsOk, BuilderOk;
    assert Stops(s.ops[i]);
    assert forall k | 0 <= k < |s.ops| && k != i :: !Stops(s.ops[k]);
  }

  /** Something of flow `f` is left: a stored runtime, a live listener or a rebuild under way. */
  ghost predicate Remains(s: State, f: FlowId) {
    || (f in s.entries && s.entries[f].runtime.Some?)
    || (exists l :: 0 <= l < |s.listeners| && s.listeners[l].flow == f && !Cancelled(s, l))
    || BeingRebuilt(s, f)
  }

  ghost predicate BeingRebuilt(s: State, f: FlowId) {
    exists i :: 0 <= i < |s.ops| && (s.ops[i].Binding? || s.ops[i].Bound? || s.ops[i].Storing?) && s.ops[i].flow == f
  }

  lemma LiveIsStoredOrBuilt(s: State, l: nat)
    requires Inv(s) && l < |s.listeners| && !Cancelled(s, l)
    ensures var f := s.listeners[l].flow;
            (f in s.entries && s.entries[f].runtime.Some?) || BeingRebuilt(s, f)
  {
    LiveIsAccounted(s, l);
    hide Inv;
  }

  /** Some stop at work has still to sweep flow `f`. */
  ghost predicate StillToSweep(s: State, f: FlowId) {
    exists k :: 0 <= k < |s.ops| && Stops(s.ops[k]) && Unswept(s.ops[k], f)
  }

  /** With no run present, whatever is left of a flow waits for the sweep of a stop at work. */
  lemma LeftoversAwaitSweep(s: State, f: FlowId)
    requires Inv(s) && s.run == None && Remains(s, f)
    ensures StillToSweep(s, f)
  {
    hide LocksOk, RunsOk, VisitsOk, Cancelled;
    forall l | 0 <= l < |s.listeners| && s.listeners[l].flow == f && !Cancelled(s, l)
      ensures (f in s.entries && s.entries[f].runtime.Some?) || BeingRebuilt(s, f)
    {
      LiveIsStoredOrBuilt(s, l);
    }
    if f in s.entries && s.entries[f].runtime.Some? {
      assert Belongs(s, s.entries[f].runtime.value, f);
    } else {
      var i :| 0 <= i < |s.ops| && (s.ops[i].Binding? || s.ops[i].Bound? || s.ops[i].Storing?) && s.ops[i].flow == f;
      assert BuilderOk(s, s.ops[i]);
    }
  }

  /** A stop returns either after its sweep, with everything gone, or at once because the run
      was already taken; what is left then lies only in flows another stop has still to sweep,
      so nothing is left when no other stop is at work. */
  lemma HowStopReturns(s: State, i: OpId, ch: Choice)
    requires Inv(s) && CanMove(s, i, ch) && StopReturns(s, MoveOp(s, i, ch), i)
    ensures || (s.ops[i].Sweeping? && Swept(MoveOp(s, i, ch)))
            || (s.ops[i].StopCalled? && s.run == None && MoveOp(s, i, ch) == SetOp(s, i, Finished))
    ensures forall f | Remains(MoveOp(s, i, ch), f) :: StillToSweep(MoveOp(s, i, ch), f)
    ensures s.ops[i].StopCalled? && Stopped(s) ==> Swept(MoveOp(s, i, ch))
  {
    var t := MoveOp(s, i, ch);
    MoveKeepsInv(s, i, ch);
    if s.ops[i].Sweeping? {
      hide Inv, MoveOp, Swept, Remains, StillToSweep;
      ReturnStops(s, i, ch);
      StoppedIsSwept(t);
    } else {
      hide Inv, Remains, StillToSweep;
      EarlyReturn(s, i, ch);
    }
    forall f | Remains(t, f) ensures StillToSweep(t, f) {
      hide Inv, MoveOp, Remains, StillToSweep;
      LeftoversAwaitSweep(t, f);
    }
  }

  lemma EarlyReturn(s: State, i: OpId, ch: Choice)
    requires Inv(s) && CanMove(s, i, ch) && StopReturns(s, MoveOp(s, i, ch), i) && !s.ops[i].Sweeping?
    ensures s.ops[i].StopCalled? && s.run == None && MoveOp(s, i, ch) == SetOp(s, i, Finished)
    ensures Stopped(s) ==> Swept(MoveOp(s, i, ch))
  {
    hide Inv;
    if Stopped(s) {
      StoppedIsSwept(s);
      assert forall l | 0 <= l < |s.listeners| :: Cancelled(MoveOp(s, i, ch), l) == Cancelled(s, l);
    }
  }

  // ----------------------------------------------------------- tracked tasks

  ghost predicate RunFrom(s: State, states: seq<State>, actions: seq<Action>) {
    && |states| == |actions| + 1
    && states[0] == s
    && forall i | 0 <= i < |actions| :: Enabled(states[i], actions[i]) && states[i + 1] == Step(states[i], actions[i])
  }

  ghost predicate NoTasks(s: State, r: RunId) {
    forall l | 0 <= l < |s.listeners| && s.listeners[l].run == r :: s.listeners[l].tasks == 0
  }

  /** No refresh stands between loading run `r` and spawning its listener tasks. */
  ghost predicate NoBinder(s: State, r: RunId) {
    forall i | 0 <= i < |s.ops| && s.ops[i].Binding? :: s.ops[i].run != r
  }

  ghost predicate Quiesced(s: State, r: RunId) {
    s.run != Some(r) && r < s.nextRun && NoTasks(s, r) && NoBinder(s, r)
  }

  lemma QuiescedStays(s: State, a: Action, r: RunId)
    requires Enabled(s, a) && Quiesced(s, r)
    ensures Quiesced(Step(s, a), r)
  {
    if a.Move? {
      MoveFrame(s, a.i, a.choice);
      if Refreshes(s.ops[a.i]) {
        RefreshQuiesced(s, a.i, a.choice, r);
      } else {
        hide CanMove, MoveOp, Grows, RuntimesKept;
        OthersQuiesced(s, a.i, a.choice, r);
      }
    }
  }

  lemma RefreshQuiesced(s: State, i: OpId, ch: Choice, r: RunId)
    requires CanMove(s, i, ch) && Refreshes(s.ops[i]) && Quiesced(s, r)
    ensures Quiesced(MoveRefresh(s, i, ch), r)
  {
    hide HasLive, Cancelled;
  }

  lemma OthersQuiesced(s: State, i: OpId, ch: Choice, r: RunId)
    requires CanMove(s, i, ch) && !Refreshes(s.ops[i]) && Quiesced(s, r)
    ensures Quiesced(MoveOp(s, i, ch), r)
  {
    hide HasLive, Cancelled;
    MoveFrame(s, i, ch);
  }

  lemma {:induction false} QuiescedForever(s: State, states: seq<State>, actions: seq<Action>, r: RunId, n: nat)
    requires RunFrom(s, states, actions) && Quiesced(s, r) && n < |states|
    ensures Quiesced(states[n], r)
  {
    if n > 0 {
      hide Quiesced, Enabled, Step;
      QuiescedForever(s, states, actions, r, n - 1);
      QuiescedStays(states[n - 1], actions[n - 1], r);
    }
  }

  /** The stop waits for the tracked tasks, then sweeps. The wait covers every task the run will
      ever have exactly when no refresh is between loading the run and spawning. */
  lemma WaitIsFinalIffNoBinder(s: State, i: OpId)
    requires Inv(s) && i < |s.ops| && s.ops[i].StopWaited? && NoTasks(s, s.ops[i].run)
    ensures NoBinder(s, s.ops[i].run) <==>
            forall states, actions | RunFrom(s, states, actions) :: NoTasks(states[|actions|], s.ops[i].run)
  {
    var r := s.ops[i].run;
    if NoBinder(s, r) {
      assert Quiesced(s, r) by { hide LocksOk, ListenersOk, VisitsOk, BuilderOk; assert Stops(s.ops[i]); }
      forall states, actions | RunFrom(s, states, actions) ensures NoTasks(states[|actions|], r) {
        hide Inv;
        QuiescedForever(s, states, actions, r, |actions|);
      }
    } else {
      var k :| 0 <= k < |s.ops| && s.ops[k].Binding? && s.ops[k].run == r;
      LateTask(s, k);
    }
  }

  /** A refresh that already loaded the run can still spawn a task nobody waits for. */
  lemma LateTask(s: State, k: OpId)
    requires Inv(s) && k < |s.ops| && s.ops[k].Binding?
    ensures exists states, actions :: RunFrom(s, states, actions) && !NoTasks(states[|actions|], s.ops[k].run)
  {
    var a := Move(k, Binds(1));
    assert BuilderOk(s, s.ops[k]);
    hide Inv, HasLive, Owns;
    var t := Step(s, a);
    assert t.listeners[|s.listeners|].run == s.ops[k].run && t.listeners[|s.listeners|].tasks == 1;
    var states, actions := [s, t], [a];
    assert RunFrom(s, states, actions);
    assert states[|actions|] == t;
  }

  // ------------------------------------------------------- overlapping stops

  ghost predicate Reachable(s: State) {
    exists states, actions :: Run(states, actions) && states[|actions|] == s
  }

  lemma Extend(s: State, a: Action, t: State)
    requires Reachable(s) && Enabled(s, a)
    requires var u := Step(s, a);
             && t.run == u.run && t.dead == u.dead && t.nextRun == u.nextRun && t.mapLock == u.mapLock
             && t.entries == u.entries && t.listeners == u.listeners && t.ops == u.ops
    ensures Reachable(t)
  {
    var states, actions :| Run(states, actions) && states[|actions|] == s;
    hide Enabled, Step, Init;
    var more, acts := states + [Step(s, a)], actions + [a];
    forall i | 0 <= i < |acts| ensures Enabled(more[i], acts[i]) && more[i + 1] == Step(more[i], acts[i]) {
    }
    assert Run(more, acts);
    assert more[|acts|] == Step(s, a);
  }

  /** The server with flow 7 in its map and run 0, if still present, current. */
  ghost function OneFlow(run: Option<RunId>, entry: Entry, listeners: seq<Listener>, ops: seq<Op>): State {
    State(run, {}, 1, None, map[7 := entry], listeners, ops)
  }

  lemma RefreshReachesMap()
    ensures Reachable(State(Some(0), {}, 1, Some(0), map[], [], [RefreshInMap(7)]))
  {
    var s0 := State(Some(0), {}, 1, None, map[], [], []);
    assert Run([s0], []) && [s0][0] == s0;
    hide Reachable, Run;
    var s1 := s0.(ops := [RefreshCalled(7)]);
    Extend(s0, Call(RefreshCalled(7)), s1);
    Extend(s1, Move(0, Go), State(Some(0), {}, 1, Some(0), map[], [], [RefreshInMap(7)]));
  }

  lemma RefreshReachesLock()
    ensures Reachable(OneFlow(Some(0), Entry(Some(0), None), [], [RefreshHolds(7)]))
  {
    RefreshReachesMap();
    hide Reachable;
    var s3 := OneFlow(Some(0), Entry(None, None), [], [RefreshWants(7)]);
    Extend(State(Some(0), {}, 1, Some(0), map[], [], [RefreshInMap(7)]), Move(0, Go), s3);
    Extend(s3, Move(0, Go), OneFlow(Some(0), Entry(Some(0), None), [], [RefreshHolds(7)]));
  }

  /** The late task is real: a refresh about to spawn for run 0 beside a stop that has already
      waited for run 0. */
  lemma LateBinderIsReachable()
    ensures Reachable(State(None, {0}, 1, None, map[7 := Entry(Some(0), None)], [], [Binding(7, 0), StopWaited(0)]))
  {
    RefreshReachesLock();
    hide Reachable;
    var entry := Entry(Some(0), None);
    var s1 := OneFlow(Some(0), entry, [], [Rebuilding(7)]);
    Extend(OneFlow(Some(0), entry, [], [RefreshHolds(7)]), Move(0, Go), s1);
    var s2 := OneFlow(Some(0), entry, [], [Binding(7, 0)]);
    Extend(s1, Move(0, Go), s2);
    var s3 := OneFlow(Some(0), entry, [], [Binding(7, 0), StopCalled]);
    Extend(s2, Call(StopCalled), s3);
    var s4 := OneFlow(None, entry, [], [Binding(7, 0), StopSwapped(0)]);
    Extend(s3, Move(1, Go), s4);
    var s5 := State(None, {0}, 1, None, map[7 := entry], [], [Binding(7, 0), StopCancelled(0)]);
    Extend(s4, Move(1, Go), s5);
    Extend(s5, Move(1, Go), State(None, {0}, 1, None, map[7 := entry], [], [Binding(7, 0), StopWaited(0)]));
  }

  lemma RefreshReachesBound()
    ensures Reachable(OneFlow(Some(0), Entry(Some(0), None), [Listener(7, 0, false, 1)], [Bound(7, 0)]))
  {
    RefreshReachesLock();
    hide Reachable;
    var entry := Entry(Some(0), None);
    var s1 := OneFlow(Some(0), entry, [], [Rebuilding(7)]);
    Extend(OneFlow(Some(0), entry, [], [RefreshHolds(7)]), Move(0, Go), s1);
    var s2 := OneFlow(Some(0), entry, [], [Binding(7, 0)]);
    Extend(s1, Move(0, Go), s2);
    Extend(s2, Move(0, Binds(1)), OneFlow(Some(0), entry, [Listener(7, 0, false, 1)], [Bound(7, 0)]));
  }

  lemma RefreshReachesEnd()
    ensures Reachable(OneFlow(Some(0), Entry(None, Some(0)), [Listener(7, 0, false, 1)], [Finished]))
  {
    RefreshReachesBound();
    hide Reachable;
    var one := [Listener(7, 0, false, 1)];
    var s1 := OneFlow(Some(0), Entry(Some(0), None), one, [Storing(7, 0)]);
    Extend(OneFlow(Some(0), Entry(Some(0), None), one, [Bound(7, 0)]), Move(0, Go), s1);
    Extend(s1, Move(0, Go), OneFlow(Some(0), Entry(None, Some(0)), one, [Finished]));
  }

  /** "After stop returns nothing is served" fails for a second, overlapping stop: here it
      returns while the listener of flow 7 is still live. */
  lemma OverlappingStopReturnsEarly()
    ensures var s := OneFlow(None, Entry(None, Some(0)), [Listener(7, 0, false, 1)], [Finished, StopSwapped(0), StopCalled]);
            && Reachable(s) && CanMove(s, 2, Go) && StopReturns(s, MoveOp(s, 2, Go), 2)
            && HasLiveListener(MoveOp(s, 2, Go))
  {
    RefreshReachesEnd();
    hide Reachable;
    var entry, one := Entry(None, Some(0)), [Listener(7, 0, false, 1)];
    var s1 := OneFlow(Some(0), entry, one, [Finished, StopCalled]);
    Extend(OneFlow(Some(0), entry, one, [Finished]), Call(StopCalled), s1);
    var s2 := OneFlow(Some(0), entry, one, [Finished, StopCalled, StopCalled]);
    Extend(s1, Call(StopCalled), s2);
    var s := OneFlow(None, entry, one, [Finished, StopSwapped(0), StopCalled]);
    Extend(s2, Move(1, Go), s);
    assert !Cancelled(MoveOp(s, 2, Go), 0);
  }

  ghost predicate HasLiveListener(s: State) {
    exists l :: 0 <= l < |s.listeners| && !Cancelled(s, l)
  }

  // ---------------------------------------------------------- deadlock freedom

  /** A step the server itself takes: an operation moves or a cancelled listener's task ends. */
  ghost predicate Internal(a: Action) {
    a.Move? || a.TaskEnds?
  }

  /** The flows an iterating operation still has to visit; any of them may be the next one. */
  ghost function Left(op: Op): set<FlowId> {
    if op.Sweeping? || op.RenewWants? then op.left else {}
  }

  /** An iteration order: which flow the map's iterator yields next. An operation waits for
      that flow, even while others are free. */
  type Order = (State, OpId) -> FlowId

  ghost predicate Orderly(s: State, order: Order) {
    forall i | 0 <= i < |s.ops| && Left(s.ops[i]) != {} :: order(s, i) in Left(s.ops[i])
  }

  ghost predicate Obeys(s: State, a: Action, order: Order) {
    a.Move? && a.choice.Pick? ==> a.choice.flow == order(s, a.i)
  }

  /** Some internal step is enabled that keeps to the iteration order. */
  ghost predicate Unblocked(s: State, order: Order) {
    exists a :: Internal(a) && Enabled(s, a) && Obeys(s, a, order)
  }

  ghost predicate Movable(s: State, i: OpId, order: Order) {
    exists ch :: CanMove(s, i, ch) && Obeys(s, Move(i, ch), order)
  }

  lemma MovableUnblocks(s: State, i: OpId, order: Order)
    requires Movable(s, i, order)
    ensures Unblocked(s, order)
  {
    var ch :| CanMove(s, i, ch) && Obeys(s, Move(i, ch), order);
    assert Enabled(s, Move(i, ch));
  }

  /** Whoever holds a refresh mutex can move: no lock is taken inside that section. */
  lemma FlowHolderMoves(s: State, i: OpId, order: Order)
    requires Inv(s) && i < |s.ops| && Held(s.ops[i]).Some?
    ensures Movable(s, i, order)
  {
    hide RunsOk, ListenersOk;
    assert BuilderOk(s, s.ops[i]);
    var ch := if s.ops[i].Binding? then BindFails else Go;
    assert CanMove(s, i, ch) && Obeys(s, Move(i, ch), order);
  }

  /** The mutex of flow `f` is held by an operation that can move. */
  ghost predicate HolderMoves(s: State, f: FlowId, order: Order) {
    f in s.entries && s.entries[f].lock.Some? && Movable(s, s.entries[f].lock.value, order)
  }

  /** Every flow is free, or its holder can move. */
  lemma FlowIsServed(s: State, f: FlowId, order: Order)
    requires Inv(s) && f in s.entries
    ensures FlowFree(s, f) || HolderMoves(s, f, order)
  {
    if !FlowFree(s, f) {
      hide Movable;
      FlowHolderMoves(s, s.entries[f].lock.value, order);
    }
  }

  /** So is every flow that an iteration still has to visit, in particular the next one. */
  lemma IterationIsServed(s: State, i: OpId, f: FlowId, order: Order)
    requires Inv(s) && i < |s.ops| && f in Left(s.ops[i])
    ensures CanMove(s, i, Pick(f)) || HolderMoves(s, f, order)
  {
    assert VisitsOk(s, s.ops[i]);
    hide LocksOk, RunsOk, ListenersOk, BuilderOk, HolderMoves;
    FlowIsServed(s, f, order);
  }

  /** The holder of the map's mutex can move, or its next flow's holder can. */
  lemma MapHolderMoves(s: State, i: OpId, order: Order)
    requires Inv(s) && Orderly(s, order) && i < |s.ops| && HoldsMap(s.ops[i])
    ensures || Movable(s, i, order)
            || (s.ops[i].Sweeping? && s.ops[i].left != {} && HolderMoves(s, order(s, i), order))
  {
    var op := s.ops[i];
    hide Inv, HolderMoves;
    if op.Sweeping? && op.left != {} {
      var f := order(s, i);
      assert f in Left(op);
      IterationIsServed(s, i, f, order);
      assert Obeys(s, Move(i, Pick(f)), order);
    } else if op.SweepHolds? {
      FlowHolderMoves(s, i, order);
    } else {
      assert CanMove(s, i, Go) && Obeys(s, Move(i, Go), order);
    }
  }

  lemma HolderUnblocks(s: State, f: FlowId, order: Order)
    requires HolderMoves(s, f, order)
    ensures Unblocked(s, order)
  {
    hide Movable, Unblocked;
    MovableUnblocks(s, s.entries[f].lock.value, order);
  }

  lemma StepUnblocks(s: State, i: OpId, ch: Choice, order: Order)
    requires CanMove(s, i, ch) && Obeys(s, Move(i, ch), order)
    ensures Unblocked(s, order)
  {
    assert Enabled(s, Move(i, ch));
  }

  lemma MapHolderUnblocks(s: State, i: OpId, order: Order)
    requires Inv(s) && Orderly(s, order) && i < |s.ops| && HoldsMap(s.ops[i])
    ensures Unblocked(s, order)
  {
    hide Inv, Orderly, Movable, Unblocked, CanMove, HolderMoves;
    MapHolderMoves(s, i, order);
    if Movable(s, i, order) {
      MovableUnblocks(s, i, order);
    } else {
      HolderUnblocks(s, order(s, i), order);
    }
  }

  lemma MapSeekerMoves(s: State, i: OpId, order: Order)
    requires Inv(s) && Orderly(s, order) && i < |s.ops| && (s.mapLock == None ==> CanMove(s, i, Go))
    ensures Unblocked(s, order)
  {
    if s.mapLock == None {
      StepUnblocks(s, i, Go, order);
    } else {
      MapHolderUnblocks(s, s.mapLock.value, order);
    }
  }

  /** The stopped run is cancelled, so a task the stop waits for can end. */
  lemma WaiterMoves(s: State, i: OpId, order: Order)
    requires Inv(s) && i < |s.ops| && s.ops[i].StopCancelled?
    ensures Unblocked(s, order)
  {
    hide LocksOk, ListenersOk, BuilderOk;
    var r := s.ops[i].run;
    if NoTasks(s, r) {
      StepUnblocks(s, i, Go, order);
    } else {
      var l :| 0 <= l < |s.listeners| && s.listeners[l].run == r && s.listeners[l].tasks != 0;
      assert Stops(s.ops[i]);
      assert Enabled(s, TaskEnds(l)) && Obeys(s, TaskEnds(l), order);
    }
  }

  /** Deadlock freedom: whatever operation is unfinished, and in whatever order the iterating
      operations visit their flows, some internal step that keeps to the order is enabled. */
  lemma NoDeadlock(states: seq<State>, actions: seq<Action>, n: nat, i: OpId, order: Order)
    requires Run(states, actions) && n < |states| && Orderly(states[n], order)
    requires i < |states[n].ops| && !states[n].ops[i].Finished?
    ensures Unblocked(states[n], order)
  {
    hide Unblocked, Orderly;
    RunKeepsInv(states, actions, n);
    SomeoneMoves(states[n], i, order);
  }

  lemma SomeoneMoves(s: State, i: OpId, order: Order)
    requires Inv(s) && Orderly(s, order) && i < |s.ops| && !s.ops[i].Finished?
    ensures Unblocked(s, order)
  {
    var op := s.ops[i];
    assert VisitsOk(s, op);
    hide Inv, Unblocked, HasLive, Cancelled, Movable, HolderMoves;
    if Held(op).Some? {
      FlowHolderMoves(s, i, order);
      MovableUnblocks(s, i, order);
    } else if HoldsMap(op) {
      MapHolderUnblocks(s, i, order);
    } else if op.StopCancelled? {
      WaiterMoves(s, i, order);
    } else if op.RefreshWants? || op.ProbeWants? {
      FlowIsServed(s, op.flow, order);
      if FlowFree(s, op.flow) {
        StepUnblocks(s, i, Go, order);
      } else {
        HolderUnblocks(s, op.flow, order);
      }
    } else if op.RenewWants? && op.left != {} {
      var f := order(s, i);
      assert f in Left(op);
      IterationIsServed(s, i, f, order);
      if CanMove(s, i, Pick(f)) {
        StepUnblocks(s, i, Pick(f), order);
      } else {
        HolderUnblocks(s, f, order);
      }
    } else {
      MapSeekerMoves(s, i, order);
    }
  }

  // ------------------------------------------------------------- termination

  ghost function Sum(xs: seq<nat>): nat {
    if xs == [] then 0 else xs[0] + Sum(xs[1..])
  }

  lemma {:induction false} SumUpdate(xs: seq<nat>, i: nat, x: nat)
    requires i < |xs|
    ensures Sum(xs[i := x]) == Sum(xs) - xs[i] + x
  {
    if i == 0 {
      assert xs[0 := x][1..] == xs[1..];
    } else {
      assert xs[i := x][1..] == xs[1..][i - 1 := x];
      SumUpdate(xs[1..], i - 1, x);
    }
  }

  lemma {:induction false} SumAppend(xs: seq<nat>, x: nat)
    ensures Sum(xs + [x]) == Sum(xs) + x
  {
    if xs == [] {
      assert [x][1..] == [];
    } else {
      SumAppend(xs[1..], x);
      assert (xs + [x])[1..] == xs[1..] + [x];
    }
  }

  /** Operations that have yet to fix the set of flows they will visit. */
  ghost function Pending(op: Op): nat {
    if op.StopCalled? || op.StopSwapped? || op.StopCancelled? || op.StopWaited? || op.RenewCalled? || op.RenewInMap?
    then 1 else 0
  }

  /** Steps an operation can still take, listener tasks it may spawn included. */
  ghost function Steps(op: Op): nat {
    match op
    case StopCalled => 5
    case StopSwapped(_) => 4
    case StopCancelled(_) => 3
    case StopWaited(_) => 2
    case Sweeping(_, left) => 2 * |left| + 1
    case SweepHolds(_, left, _) => 2 * |left| + 2
    case RefreshCalled(_) => 12
    case RefreshInMap(_) => 11
    case RefreshWants(_) => 10
    case RefreshHolds(_) => 9
    case Rebuilding(_) => 8
    case Binding(_, _) => 7
    case Bound(_, _) => 3
    case Storing(_, _) => 2
    case Renewing(_) => 1
    case RenewCalled => 2
    case RenewInMap => 1
    case RenewWants(left) => 2 * |left| + 1
    case RenewHolds(left, _) => 2 * |left| + 2
    case ProbeCalled(_) => 4
    case ProbeInMap(_) => 3
    case ProbeWants(_) => 2
    case ProbeHolds(_) => 1
    case StatusCalled => 2
    case StatusInMap => 1
    case Finished => 0
  }

  ghost function Major(s: State): nat {
    Sum(seq(|s.ops|, i requires 0 <= i < |s.ops| => Pending(s.ops[i])))
  }

  ghost function Minor(s: State): nat {
    Sum(seq(|s.ops|, i requires 0 <= i < |s.ops| => Steps(s.ops[i]))) +
    Sum(seq(|s.listeners|, l requires 0 <= l < |s.listeners| => s.listeners[l].tasks))
  }

  ghost predicate Closer(t: State, s: State) {
    Major(t) < Major(s) || (Major(t) == Major(s) && Minor(t) < Minor(s))
  }

  /** One move, seen from the moving operation: fewer pending, or the same and fewer steps. */
  ghost predicate Advances(x: Op, y: Op, spawned: nat) {
    Pending(y) < Pending(x) || (Pending(y) == Pending(x) && Steps(y) + spawned < Steps(x))
  }

  lemma MoveAdvances(s: State, i: OpId, ch: Choice)
    requires CanMove(s, i, ch)
    ensures var t := MoveOp(s, i, ch);
            && Alone(s, t, i)
            && ((t.listeners == s.listeners && Advances(s.ops[i], t.ops[i], 0)) ||
                (exists x :: t.listeners == s.listeners + [x] && Advances(s.ops[i], t.ops[i], x.tasks)))
  {
    MoveFrame(s, i, ch);
    hide Grows, RuntimesKept, MoveStop, MoveRefresh, MoveReader, Advances;
    if s.ops[i].StopCalled? || Stops(s.ops[i]) {
      StopAdvances(s, i, ch);
    } else if Refreshes(s.ops[i]) {
      RefreshAdvances(s, i, ch);
    } else {
      IsReader(s, i, ch);
      ReaderAdvances(s, i, ch);
    }
  }

  lemma StopAdvances(s: State, i: OpId, ch: Choice)
    requires CanMove(s, i, ch) && (s.ops[i].StopCalled? || Stops(s.ops[i]))
    ensures var t := MoveStop(s, i, ch); |t.ops| == |s.ops| && Advances(s.ops[i], t.ops[i], 0)
  {
    hide FlowFree, Steps, Pending, Advances;
    var op := s.ops[i];
    if op.Sweeping? {
      SweepRanks(op.run, op.left, if op.left == {} then 0 else ch.flow);
    } else if op.SweepHolds? {
      SweepRanks(op.run, op.left, 0);
    } else if op.StopCalled? {
      StopRanks(if s.run == None then 0 else s.run.value, {});
    } else {
      StopRanks(op.run, s.entries.Keys);
    }
  }

  lemma StopRanks(r: RunId, all: set<FlowId>)
    ensures Advances(StopCalled, Finished, 0) && Advances(StopCalled, StopSwapped(r), 0)
    ensures Advances(StopSwapped(r), StopCancelled(r), 0) && Advances(StopCancelled(r), StopWaited(r), 0)
    ensures Advances(StopWaited(r), Sweeping(r, all), 0)
  {
  }

  lemma SweepRanks(r: RunId, left: set<FlowId>, f: FlowId)
    ensures Advances(Sweeping(r, {}), Finished, 0)
    ensures forall g :: Advances(SweepHolds(r, left, g), Sweeping(r, left), 0)
    ensures f in left ==> Advances(Sweeping(r, left), SweepHolds(r, left - {f}, f), 0)
  {
    if f in left {
      OneLess(left, f);
    }
  }

  lemma ReaderAdvances(s: State, i: OpId, ch: Choice)
    requires CanMove(s, i, ch) && Reads(s.ops[i])
    ensures var t := MoveReader(s, i, ch); |t.ops| == |s.ops| && Advances(s.ops[i], t.ops[i], 0)
  {
    var op := s.ops[i];
    if op.RenewCalled? || op.RenewInMap? || op.RenewWants? || op.RenewHolds? {
      hide Advances;
      RenewAdvances(s, i, ch);
    } else {
      hide FlowFree;
    }
  }

  lemma RenewAdvances(s: State, i: OpId, ch: Choice)
    requires CanMove(s, i, ch)
    requires s.ops[i].RenewCalled? || s.ops[i].RenewInMap? || s.ops[i].RenewWants? || s.ops[i].RenewHolds?
    ensures var t := MoveReader(s, i, ch); |t.ops| == |s.ops| && Advances(s.ops[i], t.ops[i], 0)
  {
    hide Steps, Pending, Advances, FlowFree;
    var op := s.ops[i];
    if op.RenewWants? && op.left != {} {
      RenewRanks(op.left, ch.flow);
    } else {
      RenewRanks(if op.RenewHolds? then op.left else {}, 0);
      RenewMaps(s.entries.Keys);
    }
  }

  lemma RenewMaps(all: set<FlowId>)
    ensures Advances(RenewInMap, RenewWants(all), 0)
  {
  }

  lemma RenewRanks(left: set<FlowId>, f: FlowId)
    ensures Advances(RenewCalled, RenewInMap, 0) && Advances(RenewWants({}), Finished, 0)
    ensures forall g :: Advances(RenewHolds(left, g), RenewWants(left), 0)
    ensures f in left ==> Advances(RenewWants(left), RenewHolds(left - {f}, f), 0)
  {
    if f in left {
      OneLess(left, f);
    }
  }

  lemma OneLess(left: set<FlowId>, f: FlowId)
    requires f in left
    ensures |left - {f}| == |left| - 1
  {
  }

  lemma RefreshAdvances(s: State, i: OpId, ch: Choice)
    requires CanMove(s, i, ch) && Refreshes(s.ops[i])
    ensures var t := MoveRefresh(s, i, ch);
            && Alone(s, t, i)
            && ((t.listeners == s.listeners && Advances(s.ops[i], t.ops[i], 0)) ||
                (exists x :: t.listeners == s.listeners + [x] && Advances(s.ops[i], t.ops[i], x.tasks)))
  {
    hide HasLive, Cancelled;
    if s.ops[i].Binding? && ch.Binds? {
      var x := Listener(s.ops[i].flow, s.ops[i].run, false, ch.tasks);
      assert MoveRefresh(s, i, ch).listeners == s.listeners + [x];
    }
  }

  lemma SumsMove(s: State, t: State, i: OpId)
    requires Alone(s, t, i)
    ensures Major(t) == Major(s) - Pending(s.ops[i]) + Pending(t.ops[i])
    ensures Sum(seq(|t.ops|, j requires 0 <= j < |t.ops| => Steps(t.ops[j]))) ==
            Sum(seq(|s.ops|, j requires 0 <= j < |s.ops| => Steps(s.ops[j]))) - Steps(s.ops[i]) + Steps(t.ops[i])
  {
    hide Pending, Steps, Sum;
    var ps := seq(|s.ops|, j requires 0 <= j < |s.ops| => Pending(s.ops[j]));
    var ss := seq(|s.ops|, j requires 0 <= j < |s.ops| => Steps(s.ops[j]));
    SumUpdate(ps, i, Pending(t.ops[i]));
    SumUpdate(ss, i, Steps(t.ops[i]));
    assert seq(|t.ops|, j requires 0 <= j < |t.ops| => Pending(t.ops[j])) == ps[i := Pending(t.ops[i])];
    assert seq(|t.ops|, j requires 0 <= j < |t.ops| => Steps(t.ops[j])) == ss[i := Steps(t.ops[i])];
  }

  /** Every internal step brings the server closer to rest. */
  lemma InternalStepsShrink(s: State, a: Action)
    requires Enabled(s, a) && Internal(a)
    ensures Closer(Step(s, a), s)
  {
    var t := Step(s, a);
    var tasks := seq(|s.listeners|, l requires 0 <= l < |s.listeners| => s.listeners[l].tasks);
    if a.Move? {
      hide CanMove, MoveOp, Steps, Pending, Sum;
      MoveAdvances(s, a.i, a.choice);
      SumsMove(s, t, a.i);
      if t.listeners != s.listeners {
        var x :| t.listeners == s.listeners + [x] && Advances(s.ops[a.i], t.ops[a.i], x.tasks);
        SumAppend(tasks, x.tasks);
        assert seq(|t.listeners|, l requires 0 <= l < |t.listeners| => t.listeners[l].tasks) == tasks + [x.tasks];
      }
    } else {
      hide Sum;
      SumUpdate(tasks, a.listener, t.listeners[a.listener].tasks);
      assert seq(|t.listeners|, l requires 0 <= l < |t.listeners| => t.listeners[l].tasks)
             == tasks[a.listener := t.listeners[a.listener].tasks];
    }
  }

  /** The server left alone comes to rest under every schedule: no infinite sequence consists
      of internal steps only. */
  lemma ServerComesToRest(f: nat -> State, g: nat -> Action) returns (n: nat)
    ensures !Internally(f(n), g(n), f(n + 1))
  {
    n := FirstBreak(f, g, 0);
  }

  ghost predicate Internally(s: State, a: Action, t: State) {
    Internal(a) && Enabled(s, a) && t == Step(s, a)
  }

  lemma InternalShrinks(s: State, a: Action, t: State)
    requires Internally(s, a, t)
    ensures Closer(t, s)
  {
    hide Enabled, Step, Closer;
    InternalStepsShrink(s, a);
  }

  lemma FirstBreak(f: nat -> State, g: nat -> Action, i: nat) returns (n: nat)
    ensures !Internally(f(n), g(n), f(n + 1))
    decreases Major(f(i)), Minor(f(i))
  {
    hide Internally, Major, Minor;
    if Internally(f(i), g(i), f(i + 1)) {
      InternalShrinks(f(i), g(i), f(i + 1));
      n := FirstBreak(f, g, i + 1);
    } else {
      n := i;
    }
  }

  ghost predicate Complete(s: State) {
    forall i | 0 <= i < |s.ops| :: s.ops[i].Finished?
  }

  /** Rest is completion: a reachable state without an enabled internal step that keeps to
      the iteration order has every operation finished. */
  lemma RestIsCompletion(states: seq<State>, actions: seq<Action>, n: nat, order: Order)
    requires Run(states, actions) && n < |states| && Orderly(states[n], order) && !Unblocked(states[n], order)
    ensures Complete(states[n])
  {
    hide Run, Unblocked, Orderly;
    forall i | 0 <= i < |states[n].ops| ensures states[n].ops[i].Finished? {
      if !states[n].ops[i].Finished? {
        NoDeadlock(states, actions, n, i, order);
      }
    }
  }

  /** From every reachable state internal steps that keep to the order complete every call. */
  lemma CallsComplete(s: State, order: Order) returns (actions: seq<Action>, t: State)
    requires Inv(s) && forall u: State :: Orderly(u, order)
    ensures Leads(s, actions, t, order) && Complete(t) && |t.ops| == |s.ops|
    decreases Major(s), Minor(s)
  {
    hide Inv, Enabled, Step, Major, Minor, Unblocked, Orderly;
    if Complete(s) {
      actions, t := [], s;
    } else {
      var i :| 0 <= i < |s.ops| && !s.ops[i].Finished?;
      assert Orderly(s, order);
      SomeoneMoves(s, i, order);
      var a := InternalMove(s, order);
      KeepInv(s, a);
      InternalShrinks(s, a, Step(s, a));
      SameOps(s, a);
      var more;
      more, t := CallsComplete(Step(s, a), order);
      actions := [a] + more;
    }
  }

  /** A sequence of internal steps, in order, from one state to another. */
  ghost predicate Leads(s: State, actions: seq<Action>, t: State, order: Order)
    decreases |actions|
  {
    if actions == [] then s == t
    else
      && Internal(actions[0]) && Enabled(s, actions[0]) && Obeys(s, actions[0], order)
      && Leads(Step(s, actions[0]), actions[1..], t, order)
  }

  lemma InternalMove(s: State, order: Order) returns (a: Action)
    requires Unblocked(s, order)
    ensures Internal(a) && Enabled(s, a) && Obeys(s, a, order)
  {
    hide Enabled;
    a :| Internal(a) && Enabled(s, a) && Obeys(s, a, order);
  }

  lemma SameOps(s: State, a: Action)
    requires Internal(a) && Enabled(s, a)
    ensures |Step(s, a).ops| == |s.ops|
  {
    if a.Move? {
      MoveFrame(s, a.i, a.choice);
    }
  }
}
