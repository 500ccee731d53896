/** What a refresh achieves: it revives a dead flow, keeps a live one, and fails to leave the
    flow served only for a reason that can be named. */
module DnsRefresh {
  import opened DnsLifecycle
  import opened DnsTheorems
  import opened Options

  // ------------------------------------------------------ undisturbed refreshes

  /** Operation `i` takes these steps one after the other, with nothing in between. */
  ghost predicate Takes(s: State, i: OpId, choices: seq<Choice>, t: State)
    decreases |choices|
  {
    if choices == [] then t == s
    else CanMove(s, i, choices[0]) && Takes(MoveOp(s, i, choices[0]), i, choices[1..], t)
  }

  lemma TakesOne(s: State, i: OpId, ch: Choice)
    requires CanMove(s, i, ch)
    ensures Takes(s, i, [ch], MoveOp(s, i, ch))
  {
    assert Takes(MoveOp(s, i, ch), i, [], MoveOp(s, i, ch));
    assert [ch][1..] == [];
  }

  lemma {:induction false} TakesConcat(s: State, i: OpId, front: seq<Choice>, t: State, back: seq<Choice>, u: State)
    requires Takes(s, i, front, t) && Takes(t, i, back, u)
    ensures Takes(s, i, front + back, u)
    decreases |front|
  {
    hide CanMove, MoveOp;
    if front == [] {
      assert front + back == back;
    } else {
      TakesConcat(MoveOp(s, i, front[0]), i, front[1..], t, back, u);
      assert (front + back)[1..] == front[1..] + back;
    }
  }

  /** Two moves in a row. */
  lemma TakesTwo(s: State, i: OpId, a: Choice, b: Choice)
    requires CanMove(s, i, a) && CanMove(MoveOp(s, i, a), i, b)
    ensures Takes(s, i, [a, b], MoveOp(MoveOp(s, i, a), i, b))
  {
    hide CanMove, MoveOp;
    TakesOne(s, i, a);
    TakesOne(MoveOp(s, i, a), i, b);
    TakesConcat(s, i, [a], MoveOp(s, i, a), [b], MoveOp(MoveOp(s, i, a), i, b));
    assert [a] + [b] == [a, b];
  }

  lemma DecidesToRebuild(s: State, i: OpId, f: FlowId) returns (t: State)
    requires i < |s.ops| && s.ops[i] == RefreshHolds(f) && f in s.entries && !HasLive(s, f) && s.run.Some?
    ensures Takes(s, i, [Go, Go], t) && t == SetOp(s, i, Binding(f, s.run.value))
  {
    hide HasLive;
    t := SetOp(s, i, Binding(f, s.run.value));
    var mid := SetOp(s, i, Rebuilding(f));
    assert MoveOp(s, i, Go) == mid;
    assert mid.ops[i := Binding(f, s.run.value)] == t.ops;
    assert MoveOp(mid, i, Go) == t;
    TakesTwo(s, i, Go, Go);
  }

  lemma BindsAndStores(s: State, i: OpId, f: FlowId, r: RunId, n: nat) returns (t: State)
    requires i < |s.ops| && s.ops[i] == Binding(f, r) && f in s.entries && r !in s.dead && 1 <= n <= 2
    ensures Takes(s, i, [Binds(n), Go, Go], t)
    ensures t.listeners == s.listeners + [Listener(f, r, false, n)] && t.dead == s.dead && t.run == s.run
    ensures t.entries == s.entries[f := Entry(None, Some(|s.listeners|))] && t.ops == s.ops[i := Finished]
  {
    var l := |s.listeners|;
    var a := MoveOp(s, i, Binds(n));
    var b := MoveOp(a, i, Go);
    assert a.ops[i] == Bound(f, l) && !Cancelled(a, l);
    assert b.ops[i] == Storing(f, l);
    t := MoveOp(b, i, Go);
    assert t.ops == s.ops[i := Finished];
    assert CanMove(s, i, Binds(n)) && CanMove(a, i, Go) && CanMove(b, i, Go);
    hide MoveOp, CanMove, Cancelled;
    TakesOne(s, i, Binds(n));
    TakesTwo(a, i, Go, Go);
    TakesConcat(s, i, [Binds(n)], a, [Go, Go], t);
    assert [Binds(n)] + [Go, Go] == [Binds(n), Go, Go];
  }

  /** A refresh that finds the flow's runtime missing or dead, with a run present, rebuilds it:
      five steps later the flow is served by a new listener of that run. */
  lemma RefreshRevives(s: State, i: OpId, f: FlowId, n: nat) returns (t: State)
    requires Inv(s) && i < |s.ops| && s.ops[i] == RefreshHolds(f) && s.run.Some? && 1 <= n <= 2
    requires f in s.entries && !HasLive(s, f)
    ensures Takes(s, i, [Go, Go, Binds(n), Go, Go], t)
    ensures f in t.entries && HasLive(t, f) && FlowFree(t, f) && i < |t.ops| && t.ops[i] == Finished
    ensures t.listeners == s.listeners + [Listener(f, s.run.value, false, n)]
    ensures forall g | g in s.entries && g != f :: g in t.entries && t.entries[g] == s.entries[g]
  {
    assert s.run.value !in s.dead;
    hide Inv;
    var mid := DecidesToRebuild(s, i, f);
    t := BindsAndStores(mid, i, f, s.run.value, n);
    hide Takes;
    TakesConcat(s, i, [Go, Go], mid, [Binds(n), Go, Go], t);
    assert [Go, Go] + [Binds(n), Go, Go] == [Go, Go, Binds(n), Go, Go];
  }

  /** A refresh of a live flow leaves its listener in place. */
  lemma RefreshKeepsLive(s: State, i: OpId, f: FlowId) returns (t: State)
    requires i < |s.ops| && s.ops[i] == RefreshHolds(f) && f in s.entries && HasLive(s, f)
    ensures Takes(s, i, [Go, Go], t)
    ensures f in t.entries && HasLive(t, f) && FlowFree(t, f) && i < |t.ops| && t.ops[i] == Finished
    ensures t.listeners == s.listeners && t.entries[f].runtime == s.entries[f].runtime
  {
    var mid := MoveOp(s, i, Go);
    assert mid.ops[i] == Renewing(f);
    t := MoveOp(mid, i, Go);
    TakesTwo(s, i, Go, Go);
  }

  /** With the locks free, a refresh call reaches the flow's critical section. */
  lemma RefreshEnters(s: State, f: FlowId) returns (t: State)
    requires s.mapLock == None && (f in s.entries ==> FlowFree(s, f))
    ensures Takes(Step(s, Call(RefreshCalled(f))), |s.ops|, [Go, Go, Go], t)
    ensures t.ops == s.ops + [RefreshHolds(f)] && t.run == s.run && t.dead == s.dead && t.listeners == s.listeners
    ensures f in t.entries && t.mapLock == None
  {
    var i := |s.ops|;
    var a := Step(s, Call(RefreshCalled(f)));
    assert a.ops[i] == RefreshCalled(f);
    var b := MoveOp(a, i, Go);
    assert b.ops[i] == RefreshInMap(f);
    var c := MoveOp(b, i, Go);
    assert c.ops[i] == RefreshWants(f) && FlowFree(c, f);
    t := MoveOp(c, i, Go);
    assert CanMove(a, i, Go) && CanMove(b, i, Go) && CanMove(c, i, Go);
    hide MoveOp, CanMove;
    TakesOne(a, i, Go);
    TakesTwo(b, i, Go, Go);
    TakesConcat(a, i, [Go], b, [Go, Go], t);
    assert [Go] + [Go, Go] == [Go, Go, Go];
  }

  lemma {:induction false} TakesKeepsInv(s: State, i: OpId, choices: seq<Choice>, t: State)
    requires Inv(s) && Takes(s, i, choices, t)
    ensures Inv(t)
    decreases |choices|
  {
    hide Inv, CanMove, MoveOp;
    if choices != [] {
      MoveKeepsInv(s, i, choices[0]);
      TakesKeepsInv(MoveOp(s, i, choices[0]), i, choices[1..], t);
    }
  }

  /** While a run is present, a refresh nobody disturbs leaves its flow served, whatever the
      flow was before: never seen, never bound, dead or live. */
  lemma RefreshServes(s: State, f: FlowId, n: nat) returns (choices: seq<Choice>, t: State)
    requires Inv(s) && s.run.Some? && s.mapLock == None && (f in s.entries ==> FlowFree(s, f)) && 1 <= n <= 2
    ensures Takes(Step(s, Call(RefreshCalled(f))), |s.ops|, choices, t)
    ensures f in t.entries && HasLive(t, f) && |t.ops| == |s.ops| + 1 && t.ops[|s.ops|] == Finished
  {
    var i := |s.ops|;
    var start := Step(s, Call(RefreshCalled(f)));
    CallKeepsInv(s, RefreshCalled(f));
    hide Inv, HasLive, FlowFree;
    var mid := RefreshEnters(s, f);
    hide Takes, Step;
    TakesKeepsInv(start, i, [Go, Go, Go], mid);
    if HasLive(mid, f) {
      t := RefreshKeepsLive(mid, i, f);
      choices := [Go, Go, Go] + [Go, Go];
      TakesConcat(start, i, [Go, Go, Go], mid, [Go, Go], t);
    } else {
      t := RefreshRevives(mid, i, f, n);
      choices := [Go, Go, Go] + [Go, Go, Binds(n), Go, Go];
      TakesConcat(start, i, [Go, Go, Go], mid, [Go, Go, Binds(n), Go, Go], t);
    }
    TakesKeepsCount(start, i, choices, t);
  }

  lemma {:induction false} TakesKeepsCount(s: State, i: OpId, choices: seq<Choice>, t: State)
    requires Takes(s, i, choices, t)
    ensures |t.ops| == |s.ops|
    decreases |choices|
  {
    hide CanMove, MoveOp;
    if choices != [] {
      MoveFrame(s, i, choices[0]);
      TakesKeepsCount(MoveOp(s, i, choices[0]), i, choices[1..], t);
    }
  }

  /** A start brings a run that is not cancelled, so the next undisturbed refresh serves again. */
  lemma StartServesAgain(s: State, f: FlowId, n: nat) returns (choices: seq<Choice>, t: State)
    requires Inv(s) && Enabled(s, Start) && s.mapLock == None && (f in s.entries ==> FlowFree(s, f)) && 1 <= n <= 2
    ensures Step(s, Start).run.Some? && Step(s, Start).run.value !in s.dead
    ensures Takes(Step(Step(s, Start), Call(RefreshCalled(f))), |s.ops|, choices, t) && f in t.entries && HasLive(t, f)
  {
    StartKeepsInv(s);
    hide Takes, HasLive, RunsOk, LocksOk, ListenersOk, VisitsOk, BuilderOk;
    RunNotDead(Step(s, Start));
    choices, t := RefreshServes(Step(s, Start), f, n);
  }

  lemma RunNotDead(s: State)
    requires Inv(s) && s.run.Some?
    ensures s.run.value !in s.dead
  {
  }

  // ------------------------------------------------------- refreshes in any run

  /** Operation `i`, a refresh of `f`, returns in step `n`. */
  ghost predicate RefreshReturns(states: seq<State>, n: nat, i: OpId, f: FlowId) {
    && n + 1 < |states| && i < |states[n].ops| && i < |states[n + 1].ops|
    && Refreshes(states[n].ops[i]) && states[n].ops[i].flow == f && states[n + 1].ops[i].Finished?
  }

  /** The stored listener `l` of flow `f` was live when the refresh looked, at moment `m`. */
  ghost predicate FoundLive(s: State, i: OpId, f: FlowId, l: nat) {
    && i < |s.ops| && s.ops[i] == RefreshHolds(f) && f in s.entries && s.entries[f].runtime == Some(l) && HasLive(s, f)
  }

  /** At this moment the refresh loaded run `r`, and listener `l` did not exist yet. */
  ghost predicate LoadedRun(s: State, i: OpId, f: FlowId, r: RunId, l: nat) {
    i < |s.ops| && s.ops[i] == Rebuilding(f) && s.run == Some(r) && |s.listeners| <= l
  }

  ghost predicate FoundBefore(states: seq<State>, n: nat, i: OpId, f: FlowId, l: nat) {
    exists m :: 0 <= m < n < |states| && FoundLive(states[m], i, f, l)
  }

  ghost predicate LoadedBefore(states: seq<State>, n: nat, i: OpId, f: FlowId, r: RunId, l: nat) {
    exists m :: 0 <= m < n < |states| && LoadedRun(states[m], i, f, r, l)
  }

  /** What a refresh past its decision has behind it. */
  ghost predicate Past(states: seq<State>, n: nat, i: OpId)
    requires n < |states| && i < |states[n].ops|
  {
    var s := states[n];
    match s.ops[i]
    case Renewing(f) =>
      && f in s.entries && s.entries[f].runtime.Some? && s.entries[f].runtime.value < |s.listeners|
      && FoundBefore(states, n, i, f, s.entries[f].runtime.value)
    case Binding(f, r) => LoadedBefore(states, n, i, f, r, |s.listeners|)
    case Bound(f, l) => BuiltBefore(states, n, i, f, l)
    case Storing(f, l) => BuiltBefore(states, n, i, f, l) && SeenLive(states, n, i, f, l)
    case _ => true
  }

  ghost predicate BuiltBefore(states: seq<State>, n: nat, i: OpId, f: FlowId, l: nat) {
    && n < |states| && l < |states[n].listeners| && states[n].listeners[l].flow == f
    && LoadedBefore(states, n, i, f, states[n].listeners[l].run, l)
  }

  /** The refresh looked at its new listener after the bind and found it live. */
  ghost predicate SeenLive(states: seq<State>, n: nat, i: OpId, f: FlowId, l: nat) {
    exists m :: 0 <= m < n < |states| && LooksLive(states[m], i, f, l)
  }

  ghost predicate LooksLive(s: State, i: OpId, f: FlowId, l: nat) {
    i < |s.ops| && s.ops[i] == Bound(f, l) && l < |s.listeners| && !Cancelled(s, l)
  }

  lemma PastLater(states: seq<State>, n: nat, i: OpId, f: FlowId, r: RunId, k: nat, l: nat)
    requires n + 1 < |states|
    ensures FoundBefore(states, n, i, f, l) ==> FoundBefore(states, n + 1, i, f, l)
    ensures SeenLive(states, n, i, f, l) ==> SeenLive(states, n + 1, i, f, l)
    ensures k <= l && LoadedBefore(states, n, i, f, r, k) ==> LoadedBefore(states, n + 1, i, f, r, l)
  {
    hide FoundLive, LooksLive;
    if k <= l && LoadedBefore(states, n, i, f, r, k) {
      var m :| 0 <= m < n && LoadedRun(states[m], i, f, r, k);
      assert LoadedRun(states[m], i, f, r, l);
    }
  }

  /** Nobody else's step touches what a refresh has behind it. */
  lemma PastStands(states: seq<State>, n: nat, i: OpId)
    requires n + 1 < |states| && i < |states[n].ops| && i < |states[n + 1].ops| && Past(states, n, i)
    requires states[n + 1].ops[i] == states[n].ops[i] && Grows(states[n], states[n + 1])
    requires states[n].ops[i].Renewing? && states[n].ops[i].flow in states[n].entries ==>
               states[n + 1].entries[states[n].ops[i].flow].runtime == states[n].entries[states[n].ops[i].flow].runtime
    ensures Past(states, n + 1, i)
  {
    hide FoundBefore, LoadedBefore, SeenLive;
    var s, t, op := states[n], states[n + 1], states[n].ops[i];
    if op.Renewing? {
      PastLater(states, n, i, op.flow, 0, 0, s.entries[op.flow].runtime.value);
    } else if op.Binding? {
      PastLater(states, n, i, op.flow, op.run, |s.listeners|, |t.listeners|);
    } else if op.Bound? || op.Storing? {
      PastLater(states, n, i, op.flow, s.listeners[op.listener].run, op.listener, op.listener);
    }
  }

  lemma PastMoves(states: seq<State>, n: nat, i: OpId, ch: Choice)
    requires n + 1 < |states| && CanMove(states[n], i, ch) && states[n + 1] == MoveOp(states[n], i, ch)
    requires Past(states, n, i)
    ensures Past(states, n + 1, i)
  {
    MoveFrame(states[n], i, ch);
    var s, t := states[n], states[n + 1];
    if Refreshes(s.ops[i]) {
      PastRefreshMoves(states, n, i, ch);
    } else {
      hide Past;
      NotRebuilding(s, i, ch);
      NoPast(states, n + 1, i);
    }
  }

  lemma NoPast(states: seq<State>, n: nat, i: OpId)
    requires n < |states| && i < |states[n].ops|
    requires var op := states[n].ops[i]; !op.Renewing? && !op.Binding? && !op.Bound? && !op.Storing?
    ensures Past(states, n, i)
  {
  }

  lemma NotRebuilding(s: State, i: OpId, ch: Choice)
    requires CanMove(s, i, ch) && !Refreshes(s.ops[i])
    ensures i < |MoveOp(s, i, ch).ops| && !Refreshes(MoveOp(s, i, ch).ops[i])
  {
  }

  lemma PastRefreshMoves(states: seq<State>, n: nat, i: OpId, ch: Choice)
    requires n + 1 < |states| && CanMove(states[n], i, ch) && Refreshes(states[n].ops[i])
    requires states[n + 1] == MoveRefresh(states[n], i, ch) && Past(states, n, i)
    ensures Past(states, n + 1, i)
  {
    hide FoundBefore, LoadedBefore, SeenLive;
    var s, op := states[n], states[n].ops[i];
    match op
    case RefreshHolds(f) =>
      if HasLive(s, f) {
        assert FoundBefore(states, n + 1, i, f, s.entries[f].runtime.value) by { FoundNow(states, n, i, f); }
      }
    case Rebuilding(f) =>
      if s.run.Some? {
        LoadedNow(states, n, i, f);
      }
    case Binding(f, r) => PastLater(states, n, i, f, r, |s.listeners|, |s.listeners|);
    case Bound(f, l) =>
      PastLater(states, n, i, f, s.listeners[l].run, l, l);
      if !Cancelled(s, l) {
        SeenNow(states, n, i, f, l);
      }
    case _ =>
  }

  lemma FoundNow(states: seq<State>, n: nat, i: OpId, f: FlowId)
    requires n + 1 < |states| && i < |states[n].ops| && states[n].ops[i] == RefreshHolds(f)
    requires f in states[n].entries && HasLive(states[n], f)
    ensures FoundBefore(states, n + 1, i, f, states[n].entries[f].runtime.value)
  {
    assert FoundLive(states[n], i, f, states[n].entries[f].runtime.value);
  }

  lemma SeenNow(states: seq<State>, n: nat, i: OpId, f: FlowId, l: nat)
    requires n + 1 < |states| && LooksLive(states[n], i, f, l)
    ensures SeenLive(states, n + 1, i, f, l)
  {
    hide LooksLive;
  }

  lemma LoadedNow(states: seq<State>, n: nat, i: OpId, f: FlowId)
    requires n + 1 < |states| && i < |states[n].ops| && states[n].ops[i] == Rebuilding(f) && states[n].run.Some?
    ensures LoadedBefore(states, n + 1, i, f, states[n].run.value, |states[n].listeners|)
  {
    assert LoadedRun(states[n], i, f, states[n].run.value, |states[n].listeners|);
  }

  /** A stored runtime stands while an operation holds the flow's mutex and does not move. */
  lemma HeldRuntimeStands(s: State, a: Action, i: OpId, f: FlowId)
    requires Inv(s) && Enabled(s, a) && i < |s.ops| && Held(s.ops[i]) == Some(f) && !(a.Move? && a.i == i)
    ensures f in s.entries && f in Step(s, a).entries
    ensures Step(s, a).entries[f].runtime == s.entries[f].runtime
  {
    hide RunsOk, ListenersOk, VisitsOk, BuilderOk, MoveOp, CanMove;
    assert s.entries[f].lock == Some(i);
    if a.Move? {
      hide Held;
      assert a.i < |s.ops| by { Movable(s, a); }
      MoveFrame(s, a.i, a.choice);
      assert Held(s.ops[a.i]) != Some(f);
    }
  }

  lemma Movable(s: State, a: Action)
    requires Enabled(s, a) && a.Move?
    ensures a.i < |s.ops| && CanMove(s, a.i, a.choice)
  {
  }

  /** Every step only adds to the server's memory and moves at most one operation. */
  lemma StepFrame(s: State, a: Action, i: OpId)
    requires Enabled(s, a) && i < |s.ops|
    ensures Grows(s, Step(s, a)) && i < |Step(s, a).ops|
    ensures !(a.Move? && a.i == i) ==> Step(s, a).ops[i] == s.ops[i]
  {
    if a.Move? {
      MoveFrame(s, a.i, a.choice);
    }
  }

  lemma {:induction false} RefreshPast(states: seq<State>, actions: seq<Action>, n: nat, i: OpId)
    requires Run(states, actions) && n < |states| && i < |states[n].ops|
    ensures Past(states, n, i)
  {
    hide Inv, Init, Step, Enabled, Past, Grows, Held;
    if n > 0 {
      var s, a := states[n - 1], actions[n - 1];
      RunKeepsInv(states, actions, n - 1);
      if i < |s.ops| {
        RefreshPast(states, actions, n - 1, i);
        if a.Move? && a.i == i {
          MoveIsStep(s, a);
          PastMoves(states, n - 1, i, a.choice);
        } else {
          StepFrame(s, a, i);
          if s.ops[i].Renewing? {
            RenewingHolds(s.ops[i]);
            HeldRuntimeStands(s, a, i, s.ops[i].flow);
          }
          PastStands(states, n - 1, i);
        }
      } else {
        NewlyCalled(s, a, i);
        NoPast(states, n, i);
      }
    } else {
      NobodyYet(states[0], i);
    }
  }

  lemma MoveIsStep(s: State, a: Action)
    requires Enabled(s, a) && a.Move?
    ensures CanMove(s, a.i, a.choice) && Step(s, a) == MoveOp(s, a.i, a.choice)
  {
  }

  lemma RenewingHolds(op: Op)
    requires op.Renewing?
    ensures Held(op) == Some(op.flow)
  {
  }

  lemma NewlyCalled(s: State, a: Action, i: OpId)
    requires Enabled(s, a) && |s.ops| <= i < |Step(s, a).ops|
    ensures NewCall(Step(s, a).ops[i])
  {
    if a.Move? {
      MoveFrame(s, a.i, a.choice);
    }
  }

  lemma NobodyYet(s: State, i: OpId)
    requires Init(s)
    ensures i >= |s.ops|
  {
  }

  /** In every run a listener about to be stored belongs to the flow and was seen live after its
      bind; one found cancelled there is dropped. */
  lemma OnlyLiveIsStored(states: seq<State>, actions: seq<Action>, n: nat, i: OpId)
    requires Run(states, actions) && n < |states| && i < |states[n].ops| && states[n].ops[i].Storing?
    ensures var op := states[n].ops[i];
            && SeenLive(states, n, i, op.flow, op.listener)
            && op.listener < |states[n].listeners| && states[n].listeners[op.listener].flow == op.flow
  {
    RefreshPast(states, actions, n, i);
    hide SeenLive, Init, Step, Enabled, LoadedBefore;
  }

  /** Why a flow may be unserved when its refresh returns. */
  ghost predicate Excused(states: seq<State>, actions: seq<Action>, n: nat, i: OpId, f: FlowId)
    requires n < |actions| && |states| == |actions| + 1
  {
    || (i < |states[n].ops| && states[n].ops[i] == Rebuilding(f) && states[n].run == None)
    || actions[n] == Move(i, BindFails)
    || (exists l: nat :: FoundBefore(states, n, i, f, l) && l < |states[n].listeners| && Cancelled(states[n], l))
    || (exists l: nat :: BuiltBefore(states, n, i, f, l) && Cancelled(states[n], l))
  }

  /** When a refresh returns in any run, its flow is served, or there was no run to build on, or
      the bind failed, or the listener was cancelled meanwhile: the one it found live, or the
      one it built on the run it had found present. */
  lemma RefreshOutcome(states: seq<State>, actions: seq<Action>, n: nat, i: OpId, f: FlowId)
    requires Run(states, actions) && RefreshReturns(states, n, i, f)
    ensures (f in states[n + 1].entries && HasLive(states[n + 1], f)) || Excused(states, actions, n, i, f)
  {
    RunKeepsInv(states, actions, n);
    RefreshPast(states, actions, n, i);
    hide Inv, Init, Past, Grows;
    ReturnIsMove(states[n], actions[n], i);
    ReturnExcused(states, actions, n, i, f);
  }

  lemma ReturnIsMove(s: State, a: Action, i: OpId)
    requires Enabled(s, a) && i < |s.ops| && i < |Step(s, a).ops| && Refreshes(s.ops[i]) && Step(s, a).ops[i].Finished?
    ensures a.Move? && a.i == i && CanMove(s, i, a.choice) && Step(s, a) == MoveRefresh(s, i, a.choice)
  {
    hide MoveOp;
    StepFrame(s, a, i);
    if a.Move? && a.i == i {
      MovesRefresh(s, i, a.choice);
    }
  }

  lemma MovesRefresh(s: State, i: OpId, ch: Choice)
    requires CanMove(s, i, ch) && Refreshes(s.ops[i])
    ensures MoveOp(s, i, ch) == MoveRefresh(s, i, ch)
  {
  }

  lemma ReturnExcused(states: seq<State>, actions: seq<Action>, n: nat, i: OpId, f: FlowId)
    requires RefreshReturns(states, n, i, f) && Past(states, n, i) && n < |actions| && |states| == |actions| + 1
    requires actions[n].Move? && actions[n].i == i && CanMove(states[n], i, actions[n].choice)
    requires states[n + 1] == MoveRefresh(states[n], i, actions[n].choice)
    ensures (f in states[n + 1].entries && HasLive(states[n + 1], f)) || Excused(states, actions, n, i, f)
  {
    hide FoundBefore, LoadedBefore, SeenLive;
    var s, op := states[n], states[n].ops[i];
    if (op.Bound? || op.Storing?) && Cancelled(s, op.listener) {
      assert BuiltBefore(states, n, i, f, op.listener);
    }
    if op.Renewing? {
      assert FoundBefore(states, n, i, f, s.entries[f].runtime.value);
    }
  }

  // ------------------------------------------------------------------- renewal

  ghost predicate HoldsForRenewal(s: State, i: OpId, f: FlowId) {
    i < |s.ops| && s.ops[i].RenewHolds? && s.ops[i].flow == f
  }

  ghost predicate Renewed(states: seq<State>, m: nat, n: nat, i: OpId, f: FlowId) {
    exists k :: m <= k <= n < |states| && HoldsForRenewal(states[k], i, f)
  }

  /** What a renewal that left the map has still to visit. */
  ghost predicate RenewsOrDid(states: seq<State>, m: nat, n: nat, i: OpId, f: FlowId)
    requires n < |states|
  {
    && i < |states[n].ops|
    && match states[n].ops[i]
       case RenewWants(left) => f in left || Renewed(states, m, n, i, f)
       case RenewHolds(left, _) => f in left || Renewed(states, m, n, i, f)
       case Finished => Renewed(states, m, n, i, f)
       case _ => false
  }

  lemma RenewalMoves(states: seq<State>, m: nat, n: nat, i: OpId, ch: Choice, f: FlowId)
    requires m <= n && n + 1 < |states| && RenewsOrDid(states, m, n, i, f)
    requires CanMove(states[n], i, ch) && states[n + 1] == MoveOp(states[n], i, ch)
    ensures RenewsOrDid(states, m, n + 1, i, f)
  {
    RenewedLater(states, m, n, i, f);
    hide Renewed;
    var t := states[n + 1];
    if HoldsForRenewal(t, i, f) {
      RenewedNow(states, m, n + 1, i, f);
    }
  }

  lemma RenewedLater(states: seq<State>, m: nat, n: nat, i: OpId, f: FlowId)
    requires n + 1 < |states|
    ensures Renewed(states, m, n, i, f) ==> Renewed(states, m, n + 1, i, f)
  {
    hide HoldsForRenewal;
  }

  lemma RenewedNow(states: seq<State>, m: nat, n: nat, i: OpId, f: FlowId)
    requires m <= n < |states| && HoldsForRenewal(states[n], i, f)
    ensures Renewed(states, m, n, i, f)
  {
    hide HoldsForRenewal;
  }

  lemma RenewalStarts(s: State, a: Action, i: OpId)
    requires Enabled(s, a) && i < |s.ops| && s.ops[i].RenewInMap? && i < |Step(s, a).ops| && Step(s, a).ops[i] != s.ops[i]
    ensures Step(s, a).ops[i] == RenewWants(s.entries.Keys)
  {
    hide MoveOp;
    StepFrame(s, a, i);
    RenewalLeavesMap(s, i, a.choice);
  }

  lemma RenewalLeavesMap(s: State, i: OpId, ch: Choice)
    requires CanMove(s, i, ch) && s.ops[i].RenewInMap?
    ensures MoveOp(s, i, ch) == SetOp(s.(mapLock := None), i, RenewWants(s.entries.Keys))
  {
  }

  /** In every run a renewal that has returned held the lock of each flow that was in the map
      when it looked; until then it has done so or has the flow on its list. */
  lemma {:induction false} RenewalVisitsEveryFlow(states: seq<State>, actions: seq<Action>, m: nat, n: nat, i: OpId, f: FlowId)
    requires Run(states, actions) && m < n < |states| && i < |states[m].ops| && states[m].ops[i].RenewInMap?
    requires i < |states[m + 1].ops| && states[m + 1].ops[i] != states[m].ops[i] && f in states[m].entries
    ensures RenewsOrDid(states, m, n, i, f)
    ensures states[n].ops[i].Finished? ==> Renewed(states, m, n, i, f)
  {
    hide Init, Step, Enabled, Renewed, Grows;
    if n == m + 1 {
      RenewalStarts(states[m], actions[m], i);
    } else {
      RenewalVisitsEveryFlow(states, actions, m, n - 1, i, f);
      var s, a := states[n - 1], actions[n - 1];
      if a.Move? && a.i == i {
        MoveIsStep(s, a);
        hide RenewsOrDid;
        RenewalMoves(states, m, n - 1, i, a.choice, f);
        RenewalEnds(states, m, n, i, f);
      } else {
        StepFrame(s, a, i);
        RenewedLater(states, m, n - 1, i, f);
      }
    }
  }

  lemma RenewalEnds(states: seq<State>, m: nat, n: nat, i: OpId, f: FlowId)
    requires n < |states| && RenewsOrDid(states, m, n, i, f)
    ensures i < |states[n].ops| && (states[n].ops[i].Finished? ==> Renewed(states, m, n, i, f))
  {
    hide Renewed;
  }

  // ------------------------------------------------------------- the stop's wait

  /** In every run a stop goes past its wait only when every tracked task of its run has ended,
      and from then on the run has no task ever again unless a refresh was about to spawn one. */
  lemma {:induction false} StopWaitsForTasks(states: seq<State>, actions: seq<Action>, n: nat, m: nat, i: OpId)
    requires Run(states, actions) && n < m < |states| && i < |states[n].ops| && i < |states[n + 1].ops|
    requires states[n].ops[i].StopCancelled? && states[n + 1].ops[i] != states[n].ops[i]
    ensures states[n + 1].ops[i] == StopWaited(states[n].ops[i].run)
    ensures NoTasks(states[n], states[n].ops[i].run)
    ensures NoBinder(states[n], states[n].ops[i].run) ==> NoTasks(states[m], states[n].ops[i].run)
  {
    var r := states[n].ops[i].run;
    RunKeepsInv(states, actions, n);
    hide Inv, Init;
    WaitEnds(states[n], actions[n], i);
    if NoBinder(states[n], r) {
      WaitedIsQuiesced(states[n], i);
      QuiescedInRun(states, actions, n, m, r);
    }
  }

  lemma WaitEnds(s: State, a: Action, i: OpId)
    requires Enabled(s, a) && i < |s.ops| && s.ops[i].StopCancelled? && i < |Step(s, a).ops| && Step(s, a).ops[i] != s.ops[i]
    ensures NoTasks(s, s.ops[i].run) && Step(s, a).ops[i] == StopWaited(s.ops[i].run)
  {
    hide MoveOp;
    StepFrame(s, a, i);
    WaitMoves(s, a.i, a.choice);
  }

  lemma WaitMoves(s: State, i: OpId, ch: Choice)
    requires CanMove(s, i, ch) && s.ops[i].StopCancelled?
    ensures NoTasks(s, s.ops[i].run) && MoveOp(s, i, ch) == SetOp(s, i, StopWaited(s.ops[i].run))
  {
  }

  lemma WaitedIsQuiesced(s: State, i: OpId)
    requires Inv(s) && i < |s.ops| && s.ops[i].StopCancelled? && NoTasks(s, s.ops[i].run) && NoBinder(s, s.ops[i].run)
    ensures Quiesced(s, s.ops[i].run)
  {
    hide LocksOk, ListenersOk, VisitsOk, BuilderOk;
    assert Stops(s.ops[i]);
  }

  lemma {:induction false} QuiescedInRun(states: seq<State>, actions: seq<Action>, n: nat, m: nat, r: RunId)
    requires Run(states, actions) && n <= m < |states| && Quiesced(states[n], r)
    ensures Quiesced(states[m], r)
  {
    hide Quiesced, Enabled, Step, Init;
    if n < m {
      QuiescedInRun(states, actions, n, m - 1, r);
      QuiescedStays(states[m - 1], actions[m - 1], r);
    }
  }
}
