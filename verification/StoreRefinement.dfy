/** A call as the writer runs it, attempt by attempt with rivals in between, is a run of the
    protocol. */
module StoreRefinement {
  import opened Options
  import opened Store
  import opened StoreProtocol
  import opened StoreTheorems

  /** A sequence of enabled steps from one state to another. */
  ghost predicate Follows(s: State, actions: seq<Action>, t: State)
    decreases |actions|
  {
    if actions == [] then s == t
    else Enabled(s, actions[0]) && Follows(Step(s, actions[0]), actions[1..], t)
  }

  lemma {:induction false} FollowsConcat(s: State, front: seq<Action>, t: State, back: seq<Action>, u: State)
    requires Follows(s, front, t) && Follows(t, back, u)
    ensures Follows(s, front + back, u)
    decreases |front|
  {
    hide Enabled, Step;
    if front == [] {
      assert front + back == back;
    } else {
      FollowsConcat(Step(s, front[0]), front[1..], t, back, u);
      assert (front + back)[1..] == front[1..] + back;
    }
  }

  lemma FollowsOne(s: State, a: Action)
    requires Enabled(s, a)
    ensures Follows(s, [a], Step(s, a))
  {
    hide Enabled, Step;
    assert Follows(Step(s, a), [a][1..], Step(s, a));
  }

  /** The database, the log and every other client are as before. */
  ghost predicate OnlyMoved(s: State, t: State, c: ClientId) {
    && t.origin == s.origin && t.table == s.table && t.log == s.log
    && c in s.clients && c in t.clients && t.clients == s.clients[c := t.clients[c]]
    && t.clients[c].call == s.clients[c].call && t.clients[c].retries == s.clients[c].retries
  }

  /** Client `c` has worked through the items whose clocks are `clocks`, alone. */
  ghost predicate Worked(s: State, c: ClientId, call: Call, clocks: seq<nat>) {
    && Attempting(s, c) && s.clients[c].call == call && MayWrite(s, c)
    && |clocks| <= Items(call)
    && Prefix(s.table, call, clocks).Some?
    && var events := Prefix(s.table, call, clocks).value;
       s.clients[c].phase == Running(|s.log|, s.table, ApplyAll(s.table, events), clocks, events, Ready)
  }

  /** The last statements of an item write its event. */
  lemma WriteRuns(s: State, c: ClientId) returns (t: State)
    requires Attempting(s, c) && s.clients[c].phase.stage.Writing? && MayWrite(s, c)
    ensures Follows(s, [Write(c)], t) && OnlyMoved(s, t, c) && t.writer == Some(c)
    ensures var p := s.clients[c].phase;
            t.clients[c] == s.clients[c].(phase := p.(view := Apply(p.view, p.stage.event), events := p.events + [p.stage.event],
                                                      clocks := p.clocks + [p.stage.now], stage := Ready))
  {
    hide Apply;
    t := Step(s, Write(c));
    FollowsOne(s, Write(c));
  }

  /** What stands before the write of an item, with or without the conditional update. */
  ghost predicate BeforeWrite(s: State, c: ClientId, ready: State, clocks: seq<nat>, now: nat, events: seq<Event>, e: Event) {
    && OnlyMoved(s, ready, c) && Attempting(ready, c) && MayWrite(ready, c)
    && ready.clients[c].call == s.clients[c].call
    && var p := ready.clients[c].phase;
       && p.base == |s.log| && p.snapshot == s.table && p.clocks == clocks && p.events == events
       && p.stage == Writing(e, now) && Apply(p.view, e) == Apply(ApplyAll(s.table, events), e)
  }

  /** The item is a checked write over an existing row, which takes the conditional update. */
  ghost predicate Conditional(call: Call, i: nat, view: Table)
    requires i < Items(call)
  {
    call.Upsert? && call.checked && call.configs[i].key in view
  }

  lemma PlainRead(s: State, c: ClientId, call: Call, clocks: seq<nat>, now: nat)
    requires Worked(s, c, call, clocks) && |clocks| < Items(call)
    requires var view := ApplyAll(s.table, Prefix(s.table, call, clocks).value);
             !Conditional(call, |clocks|, view) && ItemOf(view, call, |clocks|, now).Emit?
    ensures Enabled(s, Read(c, now))
    ensures var events := Prefix(s.table, call, clocks).value;
            var e := ItemOf(ApplyAll(s.table, events), call, |clocks|, now).event;
            BeforeWrite(s, c, Step(s, Read(c, now)), clocks, now, events, e)
  {
    hide Prefix, ApplyAll, NextVersion, ItemOf, Apply;
  }

  lemma ConditionalRead(s: State, c: ClientId, call: Call, clocks: seq<nat>, now: nat)
    requires Worked(s, c, call, clocks) && |clocks| < Items(call)
    requires Conditional(call, |clocks|, ApplyAll(s.table, Prefix(s.table, call, clocks).value))
    ensures Enabled(s, Read(c, now))
    ensures var view := ApplyAll(s.table, Prefix(s.table, call, clocks).value);
            var cl := s.clients[c];
            var t := Step(s, Read(c, now));
            && t == Put(s, c, cl.(phase := cl.phase.(stage := Locking(view[call.configs[|clocks|].key], now))))
            && Enabled(t, CompareAndSet(c))
  {
    hide Prefix, ApplyAll, NextVersion, ItemOf;
  }

  lemma ConditionalUpdate(s: State, c: ClientId, call: Call, clocks: seq<nat>, now: nat, read: State)
    requires Worked(s, c, call, clocks) && |clocks| < Items(call)
    requires var view := ApplyAll(s.table, Prefix(s.table, call, clocks).value);
             && Conditional(call, |clocks|, view) && ItemOf(view, call, |clocks|, now).Emit?
             && var cl := s.clients[c];
                read == Put(s, c, cl.(phase := cl.phase.(stage := Locking(view[call.configs[|clocks|].key], now))))
    requires Enabled(read, CompareAndSet(c))
    ensures var events := Prefix(s.table, call, clocks).value;
            var e := ItemOf(ApplyAll(s.table, events), call, |clocks|, now).event;
            BeforeWrite(s, c, Step(read, CompareAndSet(c)), clocks, now, events, e)
  {
    hide Prefix, ApplyAll, NextVersion;
  }

  /** The statements of an item before its write: the read and, for a checked write over an
      existing row, the conditional update. */
  lemma ReadRuns(s: State, c: ClientId, call: Call, clocks: seq<nat>, now: nat) returns (actions: seq<Action>, ready: State)
    requires Worked(s, c, call, clocks) && |clocks| < Items(call)
    requires ItemOf(ApplyAll(s.table, Prefix(s.table, call, clocks).value), call, |clocks|, now).Emit?
    ensures var events := Prefix(s.table, call, clocks).value;
            var e := ItemOf(ApplyAll(s.table, events), call, |clocks|, now).event;
            Follows(s, actions, ready) && BeforeWrite(s, c, ready, clocks, now, events, e)
  {
    var view := ApplyAll(s.table, Prefix(s.table, call, clocks).value);
    hide Prefix, ApplyAll, ItemOf, Follows, Step, Enabled, BeforeWrite, Conditional;
    actions := [Read(c, now)];
    if Conditional(call, |clocks|, view) {
      ConditionalRead(s, c, call, clocks, now);
      var read := Step(s, Read(c, now));
      ConditionalUpdate(s, c, call, clocks, now, read);
      ready := Step(read, CompareAndSet(c));
      FollowsOne(s, Read(c, now));
      FollowsOne(read, CompareAndSet(c));
      FollowsConcat(s, actions, read, [CompareAndSet(c)], ready);
      actions := actions + [CompareAndSet(c)];
    } else {
      PlainRead(s, c, call, clocks, now);
      ready := Step(s, Read(c, now));
      FollowsOne(s, Read(c, now));
    }
  }

  lemma WriteEnds(s: State, c: ClientId, call: Call, clocks: seq<nat>, now: nat, ready: State, t: State, e: Event)
    requires Worked(s, c, call, clocks) && |clocks| < Items(call)
    requires var events := Prefix(s.table, call, clocks).value;
             && ItemOf(ApplyAll(s.table, events), call, |clocks|, now) == Emit(e)
             && BeforeWrite(s, c, ready, clocks, now, events, e)
    requires OnlyMoved(ready, t, c) && t.writer == Some(c)
    requires var p := ready.clients[c].phase;
             t.clients[c] == ready.clients[c].(phase := p.(view := Apply(p.view, e), events := p.events + [e],
                                                           clocks := p.clocks + [now], stage := Ready))
    ensures OnlyMoved(s, t, c) && Worked(t, c, call, clocks + [now])
  {
    PrefixSnoc(s.table, call, clocks, now);
    hide Prefix, ApplyAll, Apply, ItemOf;
  }

  /** An item that publishes an event: read, for a checked write the conditional update, write. */
  lemma EmitRuns(s: State, c: ClientId, call: Call, clocks: seq<nat>, now: nat) returns (actions: seq<Action>, t: State)
    requires Worked(s, c, call, clocks) && |clocks| < Items(call)
    requires ItemOf(ApplyAll(s.table, Prefix(s.table, call, clocks).value), call, |clocks|, now).Emit?
    ensures Follows(s, actions, t) && OnlyMoved(s, t, c) && Worked(t, c, call, clocks + [now])
  {
    var e := ItemOf(ApplyAll(s.table, Prefix(s.table, call, clocks).value), call, |clocks|, now).event;
    var front, ready := ReadRuns(s, c, call, clocks, now);
    hide Step, Enabled, Follows, ItemOf, Apply, Prefix, ApplyAll, Worked, OnlyMoved;
    t := WriteRuns(ready, c);
    WriteEnds(s, c, call, clocks, now, ready, t, e);
    FollowsConcat(s, front, ready, [Write(c)], t);
    actions := front + [Write(c)];
  }

  /** An item with nothing to do: a delete of a missing row. */
  lemma NothingRuns(s: State, c: ClientId, call: Call, clocks: seq<nat>, now: nat) returns (actions: seq<Action>, t: State)
    requires Worked(s, c, call, clocks) && |clocks| < Items(call)
    requires ItemOf(ApplyAll(s.table, Prefix(s.table, call, clocks).value), call, |clocks|, now).Nothing?
    ensures Follows(s, actions, t) && OnlyMoved(s, t, c) && Worked(t, c, call, clocks + [now])
  {
    PrefixSnoc(s.table, call, clocks, now);
    hide Prefix, ApplyAll, NextVersion, Follows;
    NothingReads(s, c, call, clocks, now);
    hide ItemOf;
    FollowsOne(s, Read(c, now));
    actions, t := [Read(c, now)], Step(s, Read(c, now));
    hide Step;
  }

  lemma NothingReads(s: State, c: ClientId, call: Call, clocks: seq<nat>, now: nat)
    requires Worked(s, c, call, clocks) && |clocks| < Items(call)
    requires ItemOf(ApplyAll(s.table, Prefix(s.table, call, clocks).value), call, |clocks|, now).Nothing?
    ensures Enabled(s, Read(c, now))
    ensures var cl := s.clients[c];
            Step(s, Read(c, now)) == Put(s, c, cl.(phase := cl.phase.(clocks := clocks + [now])))
  {
    hide Prefix, ApplyAll, NextVersion, Apply;
  }

  /** An item whose row stands under another version: read, then a conditional update that
      finds nothing to update. */
  lemma ClashRuns(s: State, c: ClientId, call: Call, clocks: seq<nat>, now: nat) returns (actions: seq<Action>, t: State)
    requires Worked(s, c, call, clocks) && |clocks| < Items(call)
    requires ItemOf(ApplyAll(s.table, Prefix(s.table, call, clocks).value), call, |clocks|, now).Clash?
    ensures Follows(s, actions, t) && OnlyMoved(s, t, c) && t.clients[c].phase == Done(Conflict)
  {
    hide Prefix, ApplyAll, NextVersion, Follows;
    var read := Step(s, Read(c, now));
    FollowsOne(s, Read(c, now));
    t := Step(read, CompareAndSet(c));
    FollowsOne(read, CompareAndSet(c));
    FollowsConcat(s, [Read(c, now)], read, [CompareAndSet(c)], t);
    actions := [Read(c, now)] + [CompareAndSet(c)];
  }

  lemma OnlyMovedTwice(s: State, t: State, u: State, c: ClientId)
    requires OnlyMoved(s, t, c) && OnlyMoved(t, u, c)
    ensures OnlyMoved(s, u, c)
  {
  }

  /** The first `n` items one after the other, as long as they succeed. */
  lemma {:induction false} ItemsRun(s: State, c: ClientId, call: Call, clocks: seq<nat>, n: nat)
    returns (actions: seq<Action>, t: State)
    requires Worked(s, c, call, []) && n <= |clocks| <= Items(call) && Prefix(s.table, call, clocks[..n]).Some?
    ensures Follows(s, actions, t) && OnlyMoved(s, t, c) && Worked(t, c, call, clocks[..n])
  {
    if n == 0 {
      actions, t := [], s;
      assert clocks[..0] == [];
    } else {
      var k, now := clocks[..n - 1], clocks[n - 1];
      assert clocks[..n] == k + [now] && clocks[..n][..n - 1] == k;
      PrefixShorter(s.table, call, clocks[..n], n - 1);
      hide Prefix, ApplyAll, Worked, Follows, ItemOf;
      var front, mid := ItemsRun(s, c, call, clocks, n - 1);
      PrefixSnoc(s.table, call, k, now);
      var item := ItemOf(ApplyAll(s.table, Prefix(s.table, call, k).value), call, n - 1, now);
      var back;
      if item.Emit? {
        back, t := EmitRuns(mid, c, call, k, now);
      } else {
        back, t := NothingRuns(mid, c, call, k, now);
      }
      FollowsConcat(s, front, mid, back, t);
      OnlyMovedTwice(s, mid, t, c);
      actions := front + back;
    }
  }

  lemma BeginRuns(s: State, c: ClientId) returns (t: State)
    requires c in s.clients && s.clients[c].phase.Idle? && s.writer == None
    ensures Follows(s, [Begin(c)], t) && OnlyMoved(s, t, c) && Worked(t, c, s.clients[c].call, [])
  {
    t := Step(s, Begin(c));
    FollowsOne(s, Begin(c));
    EmptyRun(s.table, s.clients[c].call);
  }

  /** A call whose serial effect exists can begin on its own and publish exactly that effect. */
  lemma SerialCallCommits(s: State, c: ClientId, clocks: seq<nat>) returns (actions: seq<Action>, t: State)
    requires c in s.clients && s.clients[c].phase.Idle? && s.writer == None
    requires |clocks| == Items(s.clients[c].call) && Effect(s.table, s.clients[c].call, clocks).Some?
    ensures Follows(s, actions, t)
    ensures var events := Effect(s.table, s.clients[c].call, clocks).value;
            && t.table == ApplyAll(s.table, events) && c in t.clients && t.clients[c].phase == Done(Committed(events))
            && t.clients == s.clients[c := t.clients[c]]
  {
    var call := s.clients[c].call;
    assert clocks[..|clocks|] == clocks;
    hide Prefix, Worked, Follows;
    var begun := BeginRuns(s, c);
    var back, mid := ItemsRun(begun, c, call, clocks, |clocks|);
    OnlyMovedTwice(s, begun, mid, c);
    FollowsConcat(s, [Begin(c)], begun, back, mid);
    t := CommitRuns(mid, c, call, clocks);
    FollowsConcat(s, [Begin(c)] + back, mid, [Commit(c)], t);
    actions := [Begin(c)] + back + [Commit(c)];
  }

  lemma CommitRuns(s: State, c: ClientId, call: Call, clocks: seq<nat>) returns (t: State)
    requires Worked(s, c, call, clocks) && |clocks| == Items(call)
    ensures Follows(s, [Commit(c)], t)
    ensures var events := Prefix(s.table, call, clocks).value;
            && t.table == ApplyAll(s.table, events) && c in t.clients && t.clients[c].phase == Done(Committed(events))
            && t.clients == s.clients[c := t.clients[c]]
  {
    hide Prefix;
    t := Step(s, Commit(c));
    FollowsOne(s, Commit(c));
    EmptyRun(s.table, call);
    assert s.clients[c].phase.events == [] ==> ApplyAll(s.table, []) == s.table;
  }

  /** A checked batch that fails at item `n`, and not before, can begin on its own and end in a
      conflict with nothing changed. */
  lemma SerialCallConflicts(s: State, c: ClientId, clocks: seq<nat>, n: nat) returns (actions: seq<Action>, t: State)
    requires c in s.clients && s.clients[c].phase.Idle? && s.writer == None && s.clients[c].call.Upsert?
    requires n < |clocks| <= Items(s.clients[c].call) && Prefix(s.table, s.clients[c].call, clocks[..n]).Some?
    requires Prefix(s.table, s.clients[c].call, clocks[..n + 1]) == None
    ensures Follows(s, actions, t)
    ensures OnlyMoved(s, t, c) && t.clients[c].phase == Done(Conflict)
  {
    var call := s.clients[c].call;
    assert clocks[..n + 1] == clocks[..n] + [clocks[n]];
    PrefixSnoc(s.table, call, clocks[..n], clocks[n]);
    assert ItemOf(ApplyAll(s.table, Prefix(s.table, call, clocks[..n]).value), call, n, clocks[n]).Clash?;
    hide Prefix, Worked, Follows, ItemOf, ApplyAll;
    var begun := BeginRuns(s, c);
    var middle, mid := ItemsRun(begun, c, call, clocks, n);
    OnlyMovedTwice(s, begun, mid, c);
    FollowsConcat(s, [Begin(c)], begun, middle, mid);
    var back;
    back, t := ClashRuns(mid, c, call, clocks[..n], clocks[n]);
    OnlyMovedTwice(s, mid, t, c);
    FollowsConcat(s, [Begin(c)] + middle, mid, back, t);
    actions := [Begin(c)] + middle + back;
  }

  // -------------------------------------------------------------- the retry loop

  /** The state after an attempt of `c` was lost: nothing changed but its retry count. */
  ghost function AfterLoss(s: State, c: ClientId): State
    requires c in s.clients
  {
    var cl := s.clients[c];
    Put(s, c, Client(cl.call, cl.retries + 1, if cl.retries + 1 >= MAX_RETRIES then Done(Exhausted) else Idle))
  }

  /** Client `c` may begin an attempt and lose it after `done` items; with the write lock in
      other hands it gets through none. */
  ghost predicate CanLose(s: State, c: ClientId, clocks: seq<nat>, done: nat) {
    && c in s.clients && s.clients[c].phase.Idle? && !s.clients[c].call.Import? && s.writer != Some(c)
    && done <= |clocks| <= Items(s.clients[c].call)
    && (done > 0 ==> s.writer == None && Prefix(s.table, s.clients[c].call, clocks[..done]).Some?)
  }

  lemma BeginOnly(s: State, c: ClientId) returns (t: State)
    requires c in s.clients && s.clients[c].phase.Idle?
    ensures Follows(s, [Begin(c)], t) && OnlyMoved(s, t, c) && t.writer == s.writer && Attempting(t, c)
  {
    t := Step(s, Begin(c));
    FollowsOne(s, Begin(c));
  }

  lemma BreakRuns(s: State, mid: State, c: ClientId)
    requires OnlyMoved(s, mid, c) && Attempting(mid, c) && !s.clients[c].call.Import?
    requires s.writer != Some(c) && (mid.writer == s.writer || (mid.writer == Some(c) && s.writer == None))
    ensures Follows(mid, [Break(c, true)], AfterLoss(s, c))
  {
    FollowsOne(mid, Break(c, true));
    var t := Step(mid, Break(c, true));
    assert t.clients == AfterLoss(s, c).clients;
    assert t == AfterLoss(s, c);
  }

  /** A lost attempt: begin, some items, a retryable failure. */
  lemma LostAttemptRuns(s: State, c: ClientId, clocks: seq<nat>, done: nat) returns (actions: seq<Action>)
    requires CanLose(s, c, clocks, done)
    ensures Follows(s, actions, AfterLoss(s, c))
  {
    hide Prefix, Worked, Follows, AfterLoss;
    if done == 0 {
      var begun := BeginOnly(s, c);
      BreakRuns(s, begun, c);
      FollowsConcat(s, [Begin(c)], begun, [Break(c, true)], AfterLoss(s, c));
      actions := [Begin(c)] + [Break(c, true)];
    } else {
      var begun := BeginRuns(s, c);
      var middle, mid := ItemsRun(begun, c, s.clients[c].call, clocks, done);
      OnlyMovedTwice(s, begun, mid, c);
      FollowsConcat(s, [Begin(c)], begun, middle, mid);
      WorkedHolds(mid, c, s.clients[c].call, clocks[..done]);
      BreakRuns(s, mid, c);
      FollowsConcat(s, [Begin(c)] + middle, mid, [Break(c, true)], AfterLoss(s, c));
      actions := [Begin(c)] + middle + [Break(c, true)];
    }
  }

  lemma WorkedHolds(s: State, c: ClientId, call: Call, clocks: seq<nat>)
    requires Worked(s, c, call, clocks)
    ensures Attempting(s, c) && (s.writer == None || s.writer == Some(c))
  {
    hide Prefix;
  }

  /** One lost attempt and what the rivals did before the next one. */
  datatype LostTry = LostTry(clocks: seq<nat>, done: nat, rivals: seq<Action>, next: State)

  ghost predicate RivalsOnly(actions: seq<Action>, c: ClientId) {
    forall i | 0 <= i < |actions| :: !Moves(actions[i], c)
  }

  /** From `s` to `last` by lost attempts of `c`, each followed by any steps of its rivals. */
  ghost predicate Retried(s: State, tries: seq<LostTry>, last: State, c: ClientId)
    decreases |tries|
  {
    if tries == [] then s == last
    else
      var t := tries[0];
      && CanLose(s, c, t.clocks, t.done) && s.clients[c].retries + 1 < MAX_RETRIES
      && RivalsOnly(t.rivals, c) && Follows(AfterLoss(s, c), t.rivals, t.next)
      && Retried(t.next, tries[1..], last, c)
  }

  lemma {:induction false} RivalsLeaveClient(s: State, actions: seq<Action>, t: State, c: ClientId)
    requires Follows(s, actions, t) && RivalsOnly(actions, c) && c in s.clients
    ensures c in t.clients && t.clients[c] == s.clients[c]
    decreases |actions|
  {
    hide Step, Enabled;
    if actions != [] {
      assert !Moves(actions[0], c);
      OthersStandStill(s, actions[0], c);
      RivalsLeaveClient(Step(s, actions[0]), actions[1..], t, c);
    }
  }

  /** The lost attempts of a call are a run, and each raises its retry count by one. */
  lemma {:induction false} RetriesRun(s: State, tries: seq<LostTry>, last: State, c: ClientId) returns (actions: seq<Action>)
    requires Retried(s, tries, last, c) && c in s.clients
    ensures Follows(s, actions, last) && c in last.clients
    ensures last.clients[c].call == s.clients[c].call && last.clients[c].retries == s.clients[c].retries + |tries|
    decreases |tries|
  {
    if tries == [] {
      actions := [];
    } else {
      var t := tries[0];
      assert AfterLoss(s, c).clients[c].retries == s.clients[c].retries + 1;
      hide Follows, CanLose;
      RivalsLeaveClient(AfterLoss(s, c), t.rivals, t.next, c);
      var lost := LostAttemptRuns(s, c, t.clocks, t.done);
      FollowsConcat(s, lost, AfterLoss(s, c), t.rivals, t.next);
      var more := RetriesRun(t.next, tries[1..], last, c);
      FollowsConcat(s, lost + t.rivals, t.next, more, last);
      actions := lost + t.rivals + more;
    }
  }

  /** The whole retry loop, ending in a commit: lost attempts with rivals in between, then one
      attempt that publishes the call's effect on what the database holds by then. */
  lemma RetryLoopCommits(s: State, tries: seq<LostTry>, last: State, c: ClientId, clocks: seq<nat>)
    returns (actions: seq<Action>, t: State)
    requires Retried(s, tries, last, c) && c in s.clients && s.clients[c].retries == 0
    requires c in last.clients && last.clients[c].phase.Idle? && last.writer == None
    requires |clocks| == Items(last.clients[c].call) && Effect(last.table, last.clients[c].call, clocks).Some?
    ensures Follows(s, actions, t) && last.clients[c].call == s.clients[c].call && last.clients[c].retries == |tries|
    ensures var events := Effect(last.table, s.clients[c].call, clocks).value;
            t.table == ApplyAll(last.table, events) && c in t.clients && t.clients[c].phase == Done(Committed(events))
  {
    hide Follows, Retried, Prefix;
    var front := RetriesRun(s, tries, last, c);
    var back;
    back, t := SerialCallCommits(last, c, clocks);
    FollowsConcat(s, front, last, back, t);
    actions := front + back;
  }

  /** The retry loop ending in a conflict, with the database as the rivals left it. */
  lemma RetryLoopConflicts(s: State, tries: seq<LostTry>, last: State, c: ClientId, clocks: seq<nat>, n: nat)
    returns (actions: seq<Action>, t: State)
    requires Retried(s, tries, last, c) && c in s.clients && s.clients[c].retries == 0
    requires c in last.clients && last.clients[c].phase.Idle? && last.writer == None && last.clients[c].call.Upsert?
    requires n < |clocks| <= Items(last.clients[c].call) && Prefix(last.table, last.clients[c].call, clocks[..n]).Some?
    requires Prefix(last.table, last.clients[c].call, clocks[..n + 1]) == None
    ensures Follows(s, actions, t) && last.clients[c].call == s.clients[c].call && last.clients[c].retries == |tries|
    ensures t.table == last.table && c in t.clients && t.clients[c].phase == Done(Conflict)
  {
    hide Follows, Retried, Prefix;
    var front := RetriesRun(s, tries, last, c);
    var back;
    back, t := SerialCallConflicts(last, c, clocks, n);
    FollowsConcat(s, front, last, back, t);
    actions := front + back;
  }

  /** The retry loop giving up: eleven lost attempts and a twelfth, the database as the rivals
      left it. */
  lemma RetryLoopExhausts(s: State, tries: seq<LostTry>, last: State, c: ClientId, clocks: seq<nat>, done: nat)
    returns (actions: seq<Action>, t: State)
    requires Retried(s, tries, last, c) && c in s.clients && s.clients[c].retries == 0
    requires |tries| == MAX_RETRIES - 1 && CanLose(last, c, clocks, done)
    ensures Follows(s, actions, t) && t.table == last.table
    ensures c in t.clients && t.clients[c].phase == Done(Exhausted) && t.clients[c].retries == MAX_RETRIES
  {
    hide Follows, Retried, Prefix;
    var front := RetriesRun(s, tries, last, c);
    var back := LostAttemptRuns(last, c, clocks, done);
    t := AfterLoss(last, c);
    FollowsConcat(s, front, last, back, t);
    actions := front + back;
  }

  /** Losing any number of attempts within the budget is possible, even without rivals. */
  lemma {:induction false} AttemptsMayBeLost(s: State, c: ClientId, n: nat) returns (tries: seq<LostTry>, last: State)
    requires CanLose(s, c, [], 0) && s.clients[c].retries + n < MAX_RETRIES
    ensures Retried(s, tries, last, c) && |tries| == n && CanLose(last, c, [], 0)
    decreases n
  {
    if n == 0 {
      tries, last := [], s;
    } else {
      var next := AfterLoss(s, c);
      var more;
      more, last := AttemptsMayBeLost(next, c, n - 1);
      var first := LostTry([], 0, [], next);
      assert Follows(next, [], next);
      tries := [first] + more;
      assert tries[0] == first && tries[1..] == more;
    }
  }
}
