/** The promises of the config store, for every run of the protocol. */
module StoreTheorems {
  import opened Options
  import opened Store
  import opened StoreHistory
  import opened StoreProtocol

  // -------------------------------------------------- serial order and history

  /** Every interleaving is equivalent to running the published calls one after the other. */
  lemma RunsAreSerial(states: seq<State>, actions: seq<Action>, n: nat)
    requires Run(states, actions) && n < |states|
    ensures Serial(states[n].origin, states[n].log)
    ensures states[n].table == Replay(states[n].origin, states[n].log)
  {
    RunKeepsInv(states, actions, n);
  }

  /** All published events in the order they were published. */
  ghost function History(log: seq<Publication>): seq<Event> {
    if log == [] then [] else History(log[..|log| - 1]) + log[|log| - 1].events
  }

  lemma {:induction false} HistoryIsSound(origin: Table, log: seq<Publication>)
    requires WellKeyed(origin) && Serial(origin, log)
    ensures Sound(origin, History(log))
    ensures ApplyAll(origin, History(log)) == Replay(origin, log)
  {
    if log != [] {
      var m := |log| - 1;
      var front, p := log[..m], log[m];
      forall i | 0 <= i < m ensures front[..i] == log[..i] {}
      HistoryIsSound(origin, front);
      hide Prefix;
      PrefixSound(Replay(origin, front), p.call, p.clocks);
      ChainConcat(origin, History(front), p.events);
      ApplyAllConcat(origin, History(front), p.events);
    }
  }

  /** In every run the events on a key form one chain. */
  lemma RunHistoryChain(states: seq<State>, actions: seq<Action>, n: nat, k: Key, i: nat, j: nat)
    requires Run(states, actions) && n < |states|
    requires i < j < |History(states[n].log)|
    requires var es := History(states[n].log);
             && Touches(es[i], k) && Touches(es[j], k) && !es[j].Truncated?
             && forall m | i < m < j :: !Touches(es[m], k)
    ensures Found(History(states[n].log)[j]) == Leaves(History(states[n].log)[i])
  {
    RunKeepsInv(states, actions, n);
    HistoryIsSound(states[n].origin, states[n].log);
    HistoryChain(states[n].origin, History(states[n].log), k, i, j);
  }

  /** In every run versions grow between removals, whatever the clocks show. */
  lemma RunVersionsIncrease(states: seq<State>, actions: seq<Action>, n: nat, k: Key, i: nat, j: nat)
    requires Run(states, actions) && n < |states|
    requires i < j < |History(states[n].log)|
    requires var es := History(states[n].log);
             && es[i].Wrote? && es[i].after.key == k && es[j].Wrote? && es[j].after.key == k
             && Undeleted(es, k, i, j) && es[i].after.version < EXACT_LIMIT
    ensures History(states[n].log)[j].after.version >= History(states[n].log)[i].after.version + 1
  {
    RunKeepsInv(states, actions, n);
    HistoryIsSound(states[n].origin, states[n].log);
    VersionsIncrease(states[n].origin, History(states[n].log), k, i, j);
  }

  /** No lost update in any interleaving: two committed checked writes that echoed the same
      version of a key have a removal of that key between them. */
  lemma RunNoLostUpdate(states: seq<State>, actions: seq<Action>, n: nat, k: Key, v: nat, i: nat, j: nat)
    requires Run(states, actions) && n < |states|
    requires i < j < |History(states[n].log)| && PlusStep(v) > v
    requires CheckedOver(History(states[n].log)[i], k, v) && CheckedOver(History(states[n].log)[j], k, v)
    ensures exists m :: i < m < j && Removes(History(states[n].log)[m], k)
  {
    RunKeepsInv(states, actions, n);
    HistoryIsSound(states[n].origin, states[n].log);
    NoLostUpdate(states[n].origin, History(states[n].log), k, v, i, j);
  }

  // ----------------------------------------------------- versions and clocks

  /** In every run each write of a published upsert is versioned by its own item's clock. */
  lemma RunVersionsFollowTheClock(states: seq<State>, actions: seq<Action>, n: nat, p: nat, i: nat)
    requires Run(states, actions) && n < |states| && p < |states[n].log| && states[n].log[p].call.Upsert?
    requires i < |states[n].log[p].events|
    ensures var pub := states[n].log[p];
            && |pub.events| == |pub.clocks| == |pub.call.configs|
            && ByClock(pub.events[i], pub.clocks[i])
            && Carries(pub.events[i], pub.call.configs[i], pub.call.checked)
            && WasRead(actions[..n], pub.client, pub.clocks[i])
  {
    RunKeepsInv(states, actions, n);
    ClocksWereRead(states, actions, n);
    hide Prefix, Replay, Step, Enabled, Init, ByClock, Carries, WasRead;
    var pub := states[n].log[p];
    BatchByClock(Replay(states[n].origin, states[n].log[..p]), pub.call.configs, pub.call.checked, pub.clocks);
    BatchEvents(Replay(states[n].origin, states[n].log[..p]), pub.call.configs, pub.call.checked, pub.clocks);
  }

  /** The client read this clock value. */
  ghost predicate WasRead(actions: seq<Action>, c: ClientId, now: nat) {
    Read(c, now) in actions
  }

  ghost predicate AllRead(actions: seq<Action>, c: ClientId, clocks: seq<nat>) {
    forall i | 0 <= i < |clocks| :: WasRead(actions, c, clocks[i])
  }

  ghost predicate ClientReads(s: State, actions: seq<Action>, c: ClientId) {
    Attempting(s, c) ==>
      && AllRead(actions, c, s.clients[c].phase.clocks)
      && (!s.clients[c].phase.stage.Ready? ==> WasRead(actions, c, s.clients[c].phase.stage.now))
  }

  ghost predicate LogReads(s: State, actions: seq<Action>) {
    forall p | 0 <= p < |s.log| :: AllRead(actions, s.log[p].client, s.log[p].clocks)
  }

  lemma StillRead(actions: seq<Action>, a: Action, c: ClientId, clocks: seq<nat>)
    requires AllRead(actions, c, clocks)
    ensures AllRead(actions + [a], c, clocks)
  {
    forall i | 0 <= i < |clocks| ensures WasRead(actions + [a], c, clocks[i]) {
      assert WasRead(actions, c, clocks[i]);
    }
  }

  lemma MovedReads(s: State, a: Action, actions: seq<Action>, c: ClientId)
    requires Enabled(s, a) && ClientReads(s, actions, c) && a.c == c
    ensures ClientReads(Step(s, a), actions + [a], c)
  {
    hide Apply, ItemOf, NextVersion;
    assert a in actions + [a];
    if Attempting(s, c) {
      StillRead(actions, a, c, s.clients[c].phase.clocks);
    }
  }

  lemma LogStaysRead(s: State, a: Action, actions: seq<Action>)
    requires Enabled(s, a) && LogReads(s, actions) && (a.Commit? ==> ClientReads(s, actions, a.c))
    ensures LogReads(Step(s, a), actions + [a])
  {
    hide Apply, ItemOf, NextVersion, AllRead;
    forall p | 0 <= p < |s.log| ensures AllRead(actions + [a], s.log[p].client, s.log[p].clocks) {
      StillRead(actions, a, s.log[p].client, s.log[p].clocks);
    }
    if a.Commit? {
      StillRead(actions, a, a.c, s.clients[a.c].phase.clocks);
    }
  }

  /** Every clock in the log was read by the publishing client. */
  lemma {:induction false} ClocksWereRead(states: seq<State>, actions: seq<Action>, n: nat)
    requires Run(states, actions) && n < |states|
    ensures LogReads(states[n], actions[..n])
    ensures forall c: ClientId :: ClientReads(states[n], actions[..n], c)
  {
    hide Step, Enabled, AllRead, WasRead;
    if n > 0 {
      ClocksWereRead(states, actions, n - 1);
      var s, a := states[n - 1], actions[n - 1];
      assert actions[..n - 1] + [a] == actions[..n];
      LogStaysRead(s, a, actions[..n - 1]);
      forall c: ClientId ensures ClientReads(states[n], actions[..n], c) {
        if a.c == c {
          MovedReads(s, a, actions[..n - 1], c);
        } else {
          OthersStandStill(s, a, c);
          StandingReads(s, actions[..n - 1], a, c);
        }
      }
    }
  }

  lemma StandingReads(s: State, actions: seq<Action>, a: Action, c: ClientId)
    requires ClientReads(s, actions, c)
    ensures ClientReads(s, actions + [a], c)
  {
    if Attempting(s, c) {
      StillRead(actions, a, c, s.clients[c].phase.clocks);
    }
  }

  // ------------------------------------------------------------- validated rows

  /** The rows a client's validators passed, in order. */
  ghost function Validated(actions: seq<Action>, c: ClientId): seq<Row> {
    if actions == [] then []
    else
      var last := actions[|actions| - 1];
      Validated(actions[..|actions| - 1], c) + if last.Validate? && last.c == c then [last.row] else []
  }

  ghost predicate Vetted(s: State, c: ClientId, rows: seq<Row>) {
    if c !in s.clients then rows == []
    else
      var cl := s.clients[c];
      if cl.phase.Validating? then
        cl.call.Upsert? && cl.call.checked && |rows| == cl.phase.passed < |cl.call.configs| && cl.call.configs[..|rows|] == rows
      else cl.call.Upsert? && cl.call.checked && cl.phase != Done(Rejected) ==> cl.call.configs == rows
  }

  lemma VettedStep(s: State, a: Action, c: ClientId, rows: seq<Row>)
    requires Enabled(s, a) && Vetted(s, c, rows)
    ensures Vetted(Step(s, a), c, rows + if a.Validate? && a.c == c then [a.row] else [])
  {
    hide ItemOf, Apply, NextVersion;
    assert rows + [] == rows;
    if a.c != c {
      OthersStandStill(s, a, c);
    } else if a.Validate? {
      var cl := s.clients[c];
      var more := rows + [a.row];
      assert cl.call.configs[|rows| := a.row][..|more|] == more;
    }
  }

  lemma {:induction false} RunVets(states: seq<State>, actions: seq<Action>, n: nat, c: ClientId)
    requires Run(states, actions) && n < |states|
    ensures Vetted(states[n], c, Validated(actions[..n], c))
  {
    hide Step, Enabled, Vetted;
    if n == 0 {
      NobodyVetted(states[0], c);
      assert actions[..0] == [];
    } else {
      RunVets(states, actions, n - 1, c);
      assert actions[..n][..n - 1] == actions[..n - 1];
      VettedStep(states[n - 1], actions[n - 1], c, Validated(actions[..n - 1], c));
    }
  }

  lemma NobodyVetted(s: State, c: ClientId)
    requires Init(s)
    ensures Vetted(s, c, [])
  {
  }

  /** Whoever published has committed, with the published call. */
  lemma PublisherIsDone(s: State, p: nat)
    requires Inv(s) && p < |s.log|
    ensures s.log[p].client in s.clients
    ensures var cl := s.clients[s.log[p].client];
            cl.call == s.log[p].call && cl.phase.Done? && cl.phase.outcome.Committed?
  {
    hide Serial, Replay, AttemptOk, LockOk;
    assert ClientOk(s, s.log[p].client);
  }

  lemma RunLength(states: seq<State>, actions: seq<Action>)
    requires Run(states, actions)
    ensures |states| == |actions| + 1
  {
  }

  lemma VettedCall(s: State, c: ClientId, rows: seq<Row>)
    requires c in s.clients && Vetted(s, c, rows) && s.clients[c].phase.Done? && s.clients[c].phase.outcome.Committed?
    ensures s.clients[c].call.Upsert? && s.clients[c].call.checked ==> s.clients[c].call.configs == rows
  {
  }

  /** In every run a committed checked batch wrote exactly the rows its validators passed,
      rewritten where they rewrote them, one after the other. */
  lemma RunWritesValidatedRows(states: seq<State>, actions: seq<Action>, n: nat, p: nat, i: nat)
    requires Run(states, actions) && n < |states| && p < |states[n].log|
    requires states[n].log[p].call.Upsert? && states[n].log[p].call.checked && i < |states[n].log[p].events|
    ensures var rows := Validated(actions[..n], states[n].log[p].client);
            |states[n].log[p].events| == |rows| && Carries(states[n].log[p].events[i], rows[i], true)
  {
    hide *;
    var c := states[n].log[p].client;
    RunLength(states, actions);
    RunVersionsFollowTheClock(states, actions, n, p, i);
    RunVets(states, actions, n, c);
    RunKeepsInv(states, actions, n);
    PublisherIsDone(states[n], p);
    VettedCall(states[n], c, Validated(actions[..n], c));
  }

  // ------------------------------------------------------------ stale clients

  /** In every run a checked write over a row replaced exactly the version its client echoed,
      and the row it reports is the one that stood there. */
  lemma RunChecksTheEcho(states: seq<State>, actions: seq<Action>, n: nat, j: nat)
    requires Run(states, actions) && n < |states| && j < |History(states[n].log)|
    requires var e := History(states[n].log)[j]; e.Wrote? && e.checked && e.before.Some?
    ensures var es := History(states[n].log);
            && es[j].before == Lookup(ApplyAll(states[n].origin, es[..j]), es[j].after.key)
            && es[j].before.value.version == es[j].echoed
  {
    RunKeepsInv(states, actions, n);
    HistoryIsSound(states[n].origin, states[n].log);
    ChainAt(states[n].origin, History(states[n].log), j);
  }

  /** The database at any moment is the history so far, applied to the origin; later histories
      extend earlier ones. */
  lemma {:induction false} HistoryGrows(states: seq<State>, actions: seq<Action>, m: nat, n: nat)
    requires Run(states, actions) && m <= n < |states|
    ensures states[n].origin == states[m].origin
    ensures |History(states[m].log)| <= |History(states[n].log)|
    ensures History(states[n].log)[..|History(states[m].log)|] == History(states[m].log)
  {
    hide Step, Enabled, Init, History;
    if m < n {
      HistoryGrows(states, actions, m, n - 1);
      StepExtendsHistory(states[n - 1], actions[n - 1]);
    }
  }

  lemma StepExtendsHistory(s: State, a: Action)
    requires Enabled(s, a)
    ensures Step(s, a).origin == s.origin
    ensures History(s.log) <= History(Step(s, a).log)
  {
    hide History, Apply, ItemOf, NextVersion;
    StepExtendsLog(s, a);
    var log := Step(s, a).log;
    hide Step, Enabled;
    if log != s.log {
      HistoryLast(log);
    }
  }

  lemma StepExtendsLog(s: State, a: Action)
    requires Enabled(s, a)
    ensures Step(s, a).origin == s.origin
    ensures var log := Step(s, a).log;
            log == s.log || (|log| == |s.log| + 1 && log[..|log| - 1] == s.log)
  {
    hide Apply, ItemOf, NextVersion;
  }

  lemma HistoryLast(log: seq<Publication>)
    requires log != []
    ensures History(log) == History(log[..|log| - 1]) + log[|log| - 1].events
  {
  }

  /** What happened to a key between two moments of a run. */
  ghost predicate TouchedBetween(s: State, t: State, k: Key)
    requires |History(s.log)| <= |History(t.log)|
  {
    TouchedIn(History(t.log), k, |History(s.log)|, |History(t.log)|)
  }

  ghost predicate RemovedBetween(s: State, t: State, k: Key)
    requires |History(s.log)| <= |History(t.log)|
  {
    RemovedIn(History(t.log), k, |History(s.log)|, |History(t.log)|)
  }

  ghost predicate RaisedBetween(s: State, t: State, k: Key, v: nat)
    requires |History(s.log)| <= |History(t.log)|
  {
    RaisedIn(History(t.log), k, v, |History(s.log)|, |History(t.log)|)
  }

  /** The history at both moments, as the lemmas about histories need it. */
  lemma TwoMoments(states: seq<State>, actions: seq<Action>, m: nat, n: nat)
    requires Run(states, actions) && m <= n < |states|
    ensures var es := History(states[n].log);
            && Chain(states[n].origin, es) && ApplyAll(states[n].origin, es) == states[n].table
            && |History(states[m].log)| <= |es|
            && ApplyAll(states[n].origin, es[..|History(states[m].log)|]) == states[m].table
  {
    RunKeepsInv(states, actions, m);
    RunKeepsInv(states, actions, n);
    HistoryIsSound(states[m].origin, states[m].log);
    HistoryIsSound(states[n].origin, states[n].log);
    HistoryGrows(states, actions, m, n);
    hide Serial, Replay, LockOk, ClientOk, Chain, History, ApplyAll;
  }

  /** The promise to stale clients, in every run. A client read the row at moment `m` and tries
      a checked write at moment `n`. If the key was not removed in between, it conflicts if and
      only if some write, blind or checked, has raised the version since; where `+ 1.0` can
      raise it, if and only if anybody touched the key. If the key was removed, it conflicts if
      and only if the key is there again under another version. */
  lemma RunStaleClient(states: seq<State>, actions: seq<Action>, m: nat, n: nat, config: Row, now: nat)
    requires Run(states, actions) && m <= n < |states|
    requires config.key in states[m].table && states[m].table[config.key].version == config.version
    ensures |History(states[m].log)| <= |History(states[n].log)|
    ensures var refused := UpsertRow(states[n].table, config, true, now).Clash?;
            && (refused <==>
                  if RemovedBetween(states[m], states[n], config.key)
                  then config.key in states[n].table && states[n].table[config.key].version != config.version
                  else RaisedBetween(states[m], states[n], config.key, config.version))
            && (PlusStep(config.version) > config.version && !RemovedBetween(states[m], states[n], config.key) ==>
                  (refused <==> TouchedBetween(states[m], states[n], config.key)))
  {
    hide Run, Chain, History, ApplyAll, UpsertRow, PlusStep, RaisedIn, RemovedIn, TouchedIn;
    TwoMoments(states, actions, m, n);
    StaleClient(states[n].origin, History(states[n].log), config, |History(states[m].log)|, now);
  }

  /** After a removal, in every run: when the last touch of the key removed it, the write
      inserts. When the key was written at event `i` and not removed since, a client that
      echoes less is refused for good, and one that echoes that very version is refused once a
      later write raises it. So a stale client passes only over a key that is gone, or was
      re-created at or below the version it echoes. */
  lemma RunStaleAfterRemoval(states: seq<State>, actions: seq<Action>, n: nat, config: Row, i: nat, now: nat)
    requires Run(states, actions) && n < |states| && i < |History(states[n].log)|
    requires Touches(History(states[n].log)[i], config.key)
    ensures var es := History(states[n].log);
            var outcome := UpsertRow(states[n].table, config, true, now);
            && (Removes(es[i], config.key) && !TouchedIn(es, config.key, i + 1, |es|) ==>
                  outcome == Emit(Wrote(None, config.(version := now), config.version, true)))
            && (es[i].Wrote? && es[i].after.version > config.version && !RemovedIn(es, config.key, i + 1, |es|) ==>
                  outcome.Clash?)
            && (es[i].Wrote? && es[i].after.version == config.version && !RemovedIn(es, config.key, i + 1, |es|) ==>
                  (outcome.Clash? <==> RaisedIn(es, config.key, config.version, i + 1, |es|)))
  {
    hide Run, Chain, History, ApplyAll, UpsertRow, RaisedIn, RemovedIn, TouchedIn;
    TwoMoments(states, actions, n, n);
    StaleAfterRemoval(states[n].origin, History(states[n].log), config, i, now);
  }

  /** No stale checked write commits in any run: one that echoes the version read at moment
      `m`, after that version was raised, has a removal of the key in between. Where `+ 1.0`
      can raise the version, any touch raises it. */
  lemma RunNoStaleWrite(states: seq<State>, actions: seq<Action>, m: nat, n: nat, k: Key, j: nat)
    requires Run(states, actions) && m <= n < |states| && k in states[m].table
    requires |History(states[m].log)| <= j < |History(states[n].log)|
    requires var es := History(states[n].log);
             && es[j].Wrote? && es[j].checked && es[j].after.key == k
             && es[j].echoed == states[m].table[k].version
             && (|| RaisedIn(es, k, es[j].echoed, |History(states[m].log)|, j)
                 || (PlusStep(es[j].echoed) > es[j].echoed && TouchedIn(es, k, |History(states[m].log)|, j)))
    ensures RemovedIn(History(states[n].log), k, |History(states[m].log)|, j)
  {
    hide Run, Chain, History, ApplyAll, PlusStep, RaisedIn, RemovedIn, TouchedIn;
    TwoMoments(states, actions, m, n);
    NoStaleWrite(states[n].origin, History(states[n].log), k, |History(states[m].log)|, j);
  }

  // ------------------------------------------------------------ all or nothing

  /** A call has published its whole effect exactly once, or nothing at all. */
  ghost predicate WholeOrNothing(s: State, c: ClientId)
    requires c in s.clients
  {
    var cl := s.clients[c];
    if cl.phase.Done? && cl.phase.outcome.Committed? && cl.phase.outcome.events != [] then
      exists i :: 0 <= i < |s.log| && WholeAt(s, c, cl.phase.outcome.events, i)
    else
      Silent(s.log, c)
  }

  /** Publication `i` is `c`'s only one and is the complete serial effect of its call. */
  ghost predicate WholeAt(s: State, c: ClientId, events: seq<Event>, i: nat)
    requires c in s.clients && i < |s.log|
  {
    && s.log[i].client == c && s.log[i].call == s.clients[c].call && s.log[i].events == events
    && |s.log[i].clocks| == Items(s.log[i].call)
    && Effect(Replay(s.origin, s.log[..i]), s.log[i].call, s.log[i].clocks) == Some(events)
    && forall j | 0 <= j < |s.log| && s.log[j].client == c :: j == i
  }

  lemma AllOrNothing(states: seq<State>, actions: seq<Action>, n: nat, c: ClientId)
    requires Run(states, actions) && n < |states| && c in states[n].clients
    ensures WholeOrNothing(states[n], c)
  {
    RunKeepsInv(states, actions, n);
    var s := states[n];
    assert ClientOk(s, c);
    var cl := s.clients[c];
    if cl.phase.Done? && cl.phase.outcome.Committed? && cl.phase.outcome.events != [] {
      var events := cl.phase.outcome.events;
      var i :| 0 <= i < |s.log| && s.log[i].client == c;
      assert WholeAt(s, c, events, i);
    }
  }

  /** A published checked batch never named one existing key twice with one version. */
  lemma NoDoubleEchoCommits(states: seq<State>, actions: seq<Action>, n: nat, i: nat, a: nat, b: nat)
    requires Run(states, actions) && n < |states| && i < |states[n].log|
    requires states[n].log[i].call.Upsert? && states[n].log[i].call.checked
    requires var configs := states[n].log[i].call.configs;
             && a < b < |configs| && configs[a].key == configs[b].key
             && configs[a].version == configs[b].version && PlusStep(configs[a].version) > configs[a].version
    ensures states[n].log[i].call.configs[a].key !in Replay(states[n].origin, states[n].log[..i])
  {
    RunKeepsInv(states, actions, n);
    var s := states[n];
    var p := s.log[i];
    var before := Replay(s.origin, s.log[..i]);
    HistoryIsSound(s.origin, s.log[..i]) by {
      forall j | 0 <= j < i ensures s.log[..i][..j] == s.log[..j] {}
    }
    hide Replay, LockOk, ClientOk, PlusStep, Prefix, History;
    if p.call.configs[a].key in before {
      DoubleEcho(before, p.call.configs, p.clocks, a, b);
    }
  }

  /** An import either fails on a repeated key or leaves exactly its rows, whatever was there. */
  lemma {:induction false} ImportReplacesEverything(t: Table, rows: seq<Row>, clocks: seq<nat>)
    requires 1 <= |clocks| <= 1 + |rows|
    ensures var es := Prefix(t, Import(rows), clocks);
            && (es.Some? <==> DistinctKeys(rows[..|clocks| - 1]))
            && (es.Some? ==> HoldsExactly(ApplyAll(t, es.value), rows[..|clocks| - 1]))
  {
    hide Prefix, ApplyAll, DistinctKeys, HoldsExactly;
    var call := Import(rows);
    var m := |clocks| - 1;
    assert clocks[..m] + [clocks[m]] == clocks;
    if m == 0 {
      ImportTruncates(t, rows, clocks[0]);
    } else {
      ImportReplacesEverything(t, rows, clocks[..m]);
      assert rows[..m - 1] + [rows[m - 1]] == rows[..m];
      if Prefix(t, call, clocks[..m]).Some? {
        var done := Prefix(t, call, clocks[..m]).value;
        PrefixSnoc(t, call, clocks[..m], clocks[m]);
        DistinctOneMore(ApplyAll(t, done), rows[..m - 1], rows[m - 1]);
        if rows[m - 1].key !in ApplyAll(t, done) {
          HoldsOneMore(ApplyAll(t, done), rows[..m - 1], rows[m - 1]);
        }
      } else {
        FailureStays(t, call, clocks);
        RepeatStays(rows, m);
      }
    }
  }

  lemma ImportTruncates(t: Table, rows: seq<Row>, now: nat)
    ensures Prefix(t, Import(rows), [now]) == Some([Truncated])
    ensures ApplyAll(t, [Truncated]) == map[]
    ensures DistinctKeys(rows[..0]) && HoldsExactly(map[], rows[..0])
  {
    PrefixSnoc(t, Import(rows), [], now);
  }

  lemma FailureStays(t: Table, call: Call, clocks: seq<nat>)
    requires 1 <= |clocks| <= Items(call) && Prefix(t, call, clocks[..|clocks| - 1]) == None
    ensures Prefix(t, call, clocks) == None
  {
  }

  lemma RepeatStays(rows: seq<Row>, m: nat)
    requires 1 <= m <= |rows| && !DistinctKeys(rows[..m - 1])
    ensures !DistinctKeys(rows[..m])
  {
    var i, j :| 0 <= i < j < m - 1 && rows[..m - 1][i].key == rows[..m - 1][j].key;
    assert rows[..m][i].key == rows[..m][j].key;
  }

  // -------------------------------------------------- attempts and termination

  /** Statements an attempt still has in front of it, commit included. */
  ghost function Remaining(cl: Client): int
    requires cl.phase.Running?
  {
    3 * (Items(cl.call) - |cl.phase.clocks|) +
    match cl.phase.stage
    case Ready => 1
    case Locking(_, _) => 0
    case Writing(_, _) => -1
  }

  ghost predicate Moves(a: Action, c: ClientId) {
    a.c == c && !a.Arrive?
  }

  /** The ways a client can move on. */
  ghost predicate Advances(x: Client, y: Client) {
    && Items(y.call) == Items(x.call)
    && match x.phase
       case Validating(passed) =>
         y.phase.Done? || (y.retries == x.retries && (y.phase.Idle? || y.phase == Validating(passed + 1)))
       case Idle =>
         y.phase.Done? || (y.retries == x.retries && y.phase.Running? && y.phase.clocks == [] && y.phase.stage.Ready?)
       case Running(_, _, _, _, _, _) =>
         || y.phase.Done?
         || (y.retries == x.retries && y.phase.Running? && Remaining(y) < Remaining(x))
         || (y.retries == x.retries + 1 && y.phase.Idle?)
       case Done(_) => false
  }

  lemma StepAdvances(s: State, a: Action, c: ClientId)
    requires Enabled(s, a) && Moves(a, c)
    ensures c in s.clients && c in Step(s, a).clients
    ensures Advances(s.clients[c], Step(s, a).clients[c])
    ensures a == Begin(c) <==> s.clients[c].phase.Idle? && Step(s, a).clients[c].phase.Running?
  {
    hide ItemOf, Apply, NextVersion;
  }

  lemma OthersStandStill(s: State, a: Action, c: ClientId)
    requires Enabled(s, a) && !Moves(a, c)
    ensures c in s.clients ==> c in Step(s, a).clients && Step(s, a).clients[c] == s.clients[c]
    ensures c !in s.clients && c in Step(s, a).clients ==>
              a.Arrive? && Step(s, a).clients[c] == Client(a.call, 0, StartPhase(a.call))
  {
    hide ItemOf, Apply, NextVersion;
  }

  /** How many transactions a client has begun. */
  ghost function Begins(actions: seq<Action>, c: ClientId): nat {
    if actions == [] then 0
    else Begins(actions[..|actions| - 1], c) + (if actions[|actions| - 1] == Begin(c) then 1 else 0)
  }

  ghost predicate AttemptsCounted(s: State, c: ClientId, begins: nat) {
    if c !in s.clients then begins == 0
    else match s.clients[c].phase
      case Validating(_) => begins == s.clients[c].retries
      case Idle => begins == s.clients[c].retries
      case Running(_, _, _, _, _, _) => begins == s.clients[c].retries + 1
      case Done(_) => begins <= MAX_RETRIES
  }

  lemma CountStep(s: State, a: Action, c: ClientId, begins: nat)
    requires Enabled(s, a) && AttemptsCounted(s, c, begins)
    requires c in s.clients ==> ClientOk(s, c)
    ensures AttemptsCounted(Step(s, a), c, begins + if a == Begin(c) then 1 else 0)
  {
    hide Step, Enabled, AttemptOk, Silent, PublishedOnce;
    if Moves(a, c) {
      StepAdvances(s, a, c);
    } else {
      OthersStandStill(s, a, c);
    }
  }

  lemma NobodyCounted(s: State, c: ClientId)
    requires Init(s)
    ensures AttemptsCounted(s, c, Begins([], c))
  {
  }

  lemma {:induction false} CountAttempts(states: seq<State>, actions: seq<Action>, n: nat, c: ClientId)
    requires Run(states, actions) && n < |states|
    ensures AttemptsCounted(states[n], c, Begins(actions[..n], c))
  {
    hide ClientOk, AttemptsCounted, Step, Enabled, Init;
    if n == 0 {
      NobodyCounted(states[0], c);
      assert actions[..0] == [];
    } else {
      CountAttempts(states, actions, n - 1, c);
      RunKeepsInv(states, actions, n - 1);
      assert actions[..n][..n - 1] == actions[..n - 1];
      CountStep(states[n - 1], actions[n - 1], c, Begins(actions[..n - 1], c));
    }
  }

  /** No call ever begins more than twelve transactions. */
  lemma BoundedAttempts(states: seq<State>, actions: seq<Action>, n: nat, c: ClientId)
    requires Run(states, actions) && n < |states|
    ensures Begins(actions[..n], c) <= MAX_RETRIES
  {
    CountAttempts(states, actions, n, c);
    RunKeepsInv(states, actions, n);
    assert c in states[n].clients ==> ClientOk(states[n], c);
  }

  /** How a call ends: by its own step, with the outcome that step stands for. A fatal error
      ends it at once, and so does any error of an import or of a begin; a lost race ends it
      only after the last of the twelve attempts and otherwise starts the next one. */
  lemma HowCallsEnd(s: State, a: Action, c: ClientId)
    requires Enabled(s, a) && c in s.clients && !s.clients[c].phase.Done?
    ensures c in Step(s, a).clients
    ensures var x, y := s.clients[c], Step(s, a).clients[c];
            && (y.phase.Done? ==> a.c == c)
            && (y.phase == Done(Failed) ==> (a.Break? && (!a.retryable || x.call.Import? || x.phase.Idle?)) || a.Read?)
            && (y.phase == Done(Exhausted) <==>
                  a == Break(c, true) && x.phase.Running? && !x.call.Import? && x.retries + 1 >= MAX_RETRIES)
            && (y.phase == Done(Rejected) <==> a == Reject(c))
            && (y.phase.Done? && y.phase.outcome.Committed? <==> a == Commit(c))
            && (a == Break(c, false) ==> y.phase == Done(Failed))
            && (a == Break(c, true) && x.phase.Running? && !x.call.Import? && x.retries + 1 < MAX_RETRIES ==>
                  y == Client(x.call, x.retries + 1, Idle))
  {
    hide ItemOf, Apply, NextVersion;
    if a.c != c {
      OthersStandStill(s, a, c);
    }
  }

  /** A read fails a call only for an import that names a key twice. */
  lemma OnlyImportsRepeat(s: State, c: ClientId, now: nat)
    requires Enabled(s, Read(c, now)) && Step(s, Read(c, now)).clients[c].phase == Done(Failed)
    ensures var cl := s.clients[c];
            && cl.call.Import? && 0 < |cl.phase.clocks| <= |cl.call.rows|
            && cl.call.rows[|cl.phase.clocks| - 1].key in cl.phase.view
  {
    hide Apply, NextVersion;
  }

  /** How many races a client has lost, and how many fatal errors it met. */
  ghost function Breaks(actions: seq<Action>, c: ClientId, retryable: bool): nat {
    if actions == [] then 0
    else Breaks(actions[..|actions| - 1], c, retryable) + (if actions[|actions| - 1] == Break(c, retryable) then 1 else 0)
  }

  ghost predicate RacesCounted(s: State, c: ClientId, lost: nat, fatal: nat) {
    if c !in s.clients then lost == fatal == 0
    else if s.clients[c].phase.Done? then s.clients[c].phase.outcome.Exhausted? ==> lost == s.clients[c].retries && fatal == 0
    else lost == s.clients[c].retries && fatal == 0
  }

  lemma RaceStep(s: State, a: Action, c: ClientId, lost: nat, fatal: nat)
    requires Enabled(s, a) && RacesCounted(s, c, lost, fatal)
    ensures RacesCounted(Step(s, a), c, lost + (if a == Break(c, true) then 1 else 0), fatal + (if a == Break(c, false) then 1 else 0))
  {
    hide ItemOf, Apply, NextVersion;
    if a.c != c {
      OthersStandStill(s, a, c);
    }
  }

  lemma NoRaces(s: State, c: ClientId)
    requires Init(s)
    ensures RacesCounted(s, c, Breaks([], c, true), Breaks([], c, false))
  {
  }

  lemma {:induction false} CountRaces(states: seq<State>, actions: seq<Action>, n: nat, c: ClientId)
    requires Run(states, actions) && n < |states|
    ensures RacesCounted(states[n], c, Breaks(actions[..n], c, true), Breaks(actions[..n], c, false))
  {
    hide Step, Enabled, Init, RacesCounted;
    if n == 0 {
      NoRaces(states[0], c);
      assert actions[..0] == [];
    } else {
      CountRaces(states, actions, n - 1, c);
      assert actions[..n][..n - 1] == actions[..n - 1];
      RaceStep(states[n - 1], actions[n - 1], c, Breaks(actions[..n - 1], c, true), Breaks(actions[..n - 1], c, false));
    }
  }

  /** In every run an exhausted call lost exactly twelve races and met no fatal error. */
  lemma ExhaustedLostTwelveRaces(states: seq<State>, actions: seq<Action>, n: nat, c: ClientId)
    requires Run(states, actions) && n < |states| && c in states[n].clients && states[n].clients[c].phase == Done(Exhausted)
    ensures Breaks(actions[..n], c, true) == 12 && Breaks(actions[..n], c, false) == 0
  {
    hide Step, Enabled, Init, Breaks;
    CountRaces(states, actions, n, c);
    RunKeepsInv(states, actions, n);
    assert ClientOk(states[n], c);
  }

  ghost function Budget(attempts: int, size: nat): int {
    attempts * size
  }

  lemma BudgetStep(attempts: int, size: nat)
    ensures Budget(attempts, size) == Budget(attempts - 1, size) + size
    ensures attempts >= 0 ==> Budget(attempts, size) >= 0
  {
  }

  /** An upper bound on the steps a call can still take. */
  ghost function Fuel(cl: Client): int {
    var size := 3 * Items(cl.call) + 3;
    match cl.phase
    case Validating(passed) => Budget(MAX_RETRIES, size) + Items(cl.call) - passed
    case Idle => Budget(MAX_RETRIES - cl.retries, size)
    case Running(_, _, _, _, _, _) => Budget(MAX_RETRIES - cl.retries - 1, size) + Remaining(cl) + 1
    case Done(_) => 0
  }

  lemma FuelIsNatural(s: State, c: ClientId)
    requires c in s.clients && ClientOk(s, c)
    ensures Fuel(s.clients[c]) >= 0 && (!s.clients[c].phase.Done? ==> Fuel(s.clients[c]) > 0)
    ensures s.clients[c].phase.Running? ==> Remaining(s.clients[c]) >= 1
    ensures s.clients[c].phase.Validating? ==> s.clients[c].retries == 0 && s.clients[c].phase.passed < Items(s.clients[c].call)
  {
    hide Replay, Prefix, ApplyAll, Apply, Silent, PublishedOnce, Budget;
    var cl := s.clients[c];
    BudgetStep(MAX_RETRIES - cl.retries, 3 * Items(cl.call) + 3);
    BudgetStep(MAX_RETRIES - cl.retries - 1, 3 * Items(cl.call) + 3);
    BudgetStep(MAX_RETRIES, 3 * Items(cl.call) + 3);
  }

  lemma AdvancesBurnFuel(s: State, c: ClientId, y: Client)
    requires c in s.clients && ClientOk(s, c) && Advances(s.clients[c], y)
    ensures Fuel(y) < Fuel(s.clients[c])
  {
    FuelIsNatural(s, c);
    hide ClientOk, Budget;
    var x := s.clients[c];
    BudgetStep(MAX_RETRIES - x.retries, 3 * Items(x.call) + 3);
  }

  /** Every step a call takes brings it closer to its end; nobody else's step touches it. */
  lemma StepsBurnFuel(s: State, a: Action, c: ClientId)
    requires Inv(s) && Enabled(s, a) && c in s.clients
    ensures c in Step(s, a).clients
    ensures Moves(a, c) ==> Fuel(Step(s, a).clients[c]) < Fuel(s.clients[c])
    ensures !Moves(a, c) ==> Step(s, a).clients[c] == s.clients[c]
  {
    hide Serial, Replay, ClientOk, Fuel, Advances, Step, Enabled;
    if Moves(a, c) {
      StepAdvances(s, a, c);
      AdvancesBurnFuel(s, c, Step(s, a).clients[c]);
    } else {
      OthersStandStill(s, a, c);
    }
  }

  /** Steps client `c` takes in `actions`, its arrival not counted. */
  ghost function StepsOf(actions: seq<Action>, c: ClientId): nat {
    if actions == [] then 0
    else StepsOf(actions[..|actions| - 1], c) + (if Moves(actions[|actions| - 1], c) then 1 else 0)
  }

  /** Every call ends: in any run, a client that arrived at step `m` takes at most the
      number of steps its arrival fuel allows. */
  lemma {:induction false} CallsTerminate(states: seq<State>, actions: seq<Action>, m: nat, n: nat, c: ClientId)
    requires Run(states, actions) && m <= n < |states| && c in states[m].clients
    ensures c in states[n].clients
    ensures 0 <= Fuel(states[n].clients[c])
    ensures StepsOf(actions[m..n], c) + Fuel(states[n].clients[c]) <= Fuel(states[m].clients[c])
  {
    hide ClientOk, Step, Enabled, Fuel, Serial, LockOk, Replay, Init;
    RunKeepsInv(states, actions, n);
    if m == n {
      FuelIsNatural(states[n], c);
    } else {
      CallsTerminate(states, actions, m, n - 1, c);
      RunKeepsInv(states, actions, n - 1);
      StepsBurnFuel(states[n - 1], actions[n - 1], c);
      FuelIsNatural(states[n], c);
      assert actions[m..n][..n - 1 - m] == actions[m..n - 1];
    }
  }

  // -------------------------------------------------------- conflicts and locks

  /** The action that carries an attempt forward when nothing fails. */
  ghost function NextAction(s: State, c: ClientId, now: nat): Action
    requires Attempting(s, c)
  {
    if Finished(s.clients[c]) then Commit(c)
    else match s.clients[c].phase.stage
      case Ready => Read(c, now)
      case Locking(_, _) => CompareAndSet(c)
      case Writing(_, _) => Write(c)
  }

  lemma NextActionIsEnabled(s: State, c: ClientId, now: nat)
    requires Attempting(s, c) && MayWrite(s, c) && AttemptOk(s, c)
    ensures Enabled(s, NextAction(s, c, now))
  {
    hide Prefix, ApplyAll, ItemOf, Replay, Apply;
  }

  /** Whoever may write is never held up by a rival. */
  lemma WinnerIsNotBlocked(states: seq<State>, actions: seq<Action>, n: nat, c: ClientId, now: nat)
    requires Run(states, actions) && n < |states|
    requires Attempting(states[n], c) && MayWrite(states[n], c)
    ensures Enabled(states[n], NextAction(states[n], c, now))
  {
    RunKeepsInv(states, actions, n);
    hide AttemptOk, Serial, Replay, Enabled, NextAction, Init, Step;
    assert ClientOk(states[n], c);
    NextActionIsEnabled(states[n], c, now);
  }

  /** Mutual exclusion in every run: of two open transactions at most one has written, and
      while one has, the database is still its snapshot. */
  lemma OneUncommittedWriter(states: seq<State>, actions: seq<Action>, n: nat, c: ClientId, d: ClientId)
    requires Run(states, actions) && n < |states| && Attempting(states[n], c) && Attempting(states[n], d)
    requires states[n].clients[c].phase.events != [] && states[n].clients[d].phase.events != []
    ensures c == d && states[n].clients[c].phase.snapshot == states[n].table
  {
    RunKeepsInv(states, actions, n);
    hide Prefix, ApplyAll, Replay, Serial, Silent, ItemOf, Step, Init;
    var s := states[n];
    assert ClientOk(s, c) && ClientOk(s, d);
    assert s.log[..|s.log|] == s.log;
  }

  lemma OnlyItsOwnStepConflicts(s: State, a: Action, c: ClientId)
    requires Enabled(s, a) && Attempting(s, c) && c in Step(s, a).clients
    requires Step(s, a).clients[c].phase == Done(Conflict)
    ensures a == CompareAndSet(c)
  {
    hide Apply, NextVersion, ItemOf;
  }

  lemma OnlyTheConditionalUpdateConflicts(s: State, a: Action, c: ClientId)
    requires Enabled(s, a) && Attempting(s, c) && c in Step(s, a).clients
    requires Step(s, a).clients[c].phase == Done(Conflict)
    ensures a == CompareAndSet(c)
    ensures var cl := s.clients[c];
            var config := cl.call.configs[|cl.phase.clocks|];
            config.key in cl.phase.view ==> cl.phase.view[config.key].version != config.version
  {
    OnlyItsOwnStepConflicts(s, a, c);
    hide Apply, NextVersion;
  }

  /** A conflict is never spurious: at that moment the database, with the batch's own earlier
      writes on top, holds the row under another version. Blind writes never conflict. */
  lemma ConflictIsReal(states: seq<State>, actions: seq<Action>, n: nat, c: ClientId)
    requires Run(states, actions) && n < |actions| && Attempting(states[n], c) && c in states[n + 1].clients
    requires states[n + 1].clients[c].phase == Done(Conflict)
    ensures var cl := states[n].clients[c];
            && cl.call.Upsert? && cl.call.checked && |cl.phase.clocks| < |cl.call.configs|
            && var config := cl.call.configs[|cl.phase.clocks|];
               var now := ApplyAll(states[n].table, cl.phase.events);
               config.key in now && now[config.key].version != config.version
  {
    RunKeepsInv(states, actions, n);
    var s := states[n];
    hide Prefix, ApplyAll, Replay, Serial, Silent, PublishedOnce, ItemOf, Step, Init;
    assert ClientOk(s, c);
    assert s.log[..|s.log|] == s.log;
    OnlyTheConditionalUpdateConflicts(s, actions[n], c);
  }
}
