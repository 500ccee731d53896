/** Many clients on one database: the step machine of concurrent calls.

    A call runs in attempts. An attempt takes a snapshot, works on its own view statement by
    statement, and publishes at commit. The environment decides which statement fails and how;
    it promises one thing, SQLite's write-ahead-log rule: a write succeeds only while no other
    transaction holds the write lock and nothing was published since the snapshot. */
module StoreProtocol {
  import opened Options
  import opened Store

  type ClientId = nat

  /** Where an attempt stands inside its current item. */
  datatype Stage =
    | Ready
    | Locking(stored: Row, now: nat)
    | Writing(event: Event, now: nat)

  datatype Phase =
    | Validating(passed: nat)
    | Idle
    | Running(base: nat, snapshot: Table, view: Table, clocks: seq<nat>, events: seq<Event>, stage: Stage)
    | Done(outcome: Outcome)

  datatype Client = Client(call: Call, retries: nat, phase: Phase)

  /** One published transaction, with the clock values its items read. */
  datatype Publication = Publication(client: ClientId, call: Call, clocks: seq<nat>, events: seq<Event>)

  datatype State = State(
    origin: Table,
    table: Table,
    log: seq<Publication>,
    writer: Option<ClientId>,
    clients: map<ClientId, Client>)

  ghost predicate Init(s: State) {
    WellKeyed(s.origin) && s.table == s.origin && s.log == [] && s.writer == None && s.clients == map[]
  }

  datatype Action =
    | Arrive(c: ClientId, call: Call)
    | Validate(c: ClientId, row: Row)
    | Reject(c: ClientId)
    | Begin(c: ClientId)
    | Read(c: ClientId, now: nat)
    | CompareAndSet(c: ClientId)
    | Write(c: ClientId)
    | Commit(c: ClientId)
    | Break(c: ClientId, retryable: bool)

  // --------------------------------------------------------------- the steps

  predicate Attempting(s: State, c: ClientId) {
    c in s.clients && s.clients[c].phase.Running?
  }

  predicate Finished(cl: Client)
    requires cl.phase.Running?
  {
    cl.phase.stage.Ready? && |cl.phase.clocks| == Items(cl.call)
  }

  /** The rule of the write lock. */
  predicate MayWrite(s: State, c: ClientId)
    requires Attempting(s, c)
  {
    (s.writer == None || s.writer == Some(c)) && s.clients[c].phase.base == |s.log|
  }

  predicate Enabled(s: State, a: Action) {
    match a
    case Arrive(c, _) => c !in s.clients
    case Validate(c, _) => c in s.clients && s.clients[c].phase.Validating?
                           && s.clients[c].call.Upsert? && s.clients[c].phase.passed < |s.clients[c].call.configs|
    case Reject(c) => c in s.clients && s.clients[c].phase.Validating?
    case Begin(c) => c in s.clients && s.clients[c].phase.Idle?
    case Read(c, _) => Attempting(s, c) && s.clients[c].phase.stage.Ready?
                       && |s.clients[c].phase.clocks| < Items(s.clients[c].call)
    case CompareAndSet(c) => Attempting(s, c) && s.clients[c].phase.stage.Locking? && MayWrite(s, c)
                             && s.clients[c].call.Upsert?
                             && |s.clients[c].phase.clocks| < |s.clients[c].call.configs|
    case Write(c) => Attempting(s, c) && s.clients[c].phase.stage.Writing? && MayWrite(s, c)
    case Commit(c) => Attempting(s, c) && Finished(s.clients[c])
                      && (s.clients[c].phase.events != [] ==> MayWrite(s, c))
    case Break(c, _) => c in s.clients && (s.clients[c].phase.Idle? || s.clients[c].phase.Running?)
  }

  function Put(s: State, c: ClientId, cl: Client): State {
    s.(clients := s.clients[c := cl])
  }

  function Release(s: State, c: ClientId): State {
    if s.writer == Some(c) then s.(writer := None) else s
  }

  /** The transaction is over; the call ends with `outcome`. */
  function Finish(s: State, c: ClientId, outcome: Outcome): State
    requires c in s.clients
  {
    Put(Release(s, c), c, s.clients[c].(phase := Done(outcome)))
  }

  /** Validation runs before any transaction; only checked writes have it. */
  function StartPhase(call: Call): Phase {
    if call.Upsert? && call.checked && call.configs != [] then Validating(0) else Idle
  }

  /** One item passed validation, possibly rewritten by the cross-domain check. */
  function StepValidate(s: State, c: ClientId, row: Row): State
    requires Enabled(s, Validate(c, row))
  {
    var cl := s.clients[c];
    var i := cl.phase.passed;
    var call := cl.call.(configs := cl.call.configs[i := row]);
    Put(s, c, Client(call, cl.retries, if i + 1 == |call.configs| then Idle else Validating(i + 1)))
  }

  /** The first statement of an item reads the row in the transaction's view; an import item
      starts directly with its write, which a repeated key fails. */
  function StepRead(s: State, c: ClientId, now: nat): State
    requires Enabled(s, Read(c, now))
  {
    var cl := s.clients[c];
    var p := cl.phase;
    var i := |p.clocks|;
    if cl.call.Upsert? && cl.call.checked && cl.call.configs[i].key in p.view then
      Put(s, c, cl.(phase := p.(stage := Locking(p.view[cl.call.configs[i].key], now))))
    else
      match ItemOf(p.view, cl.call, i, now)
      case Emit(e) => Put(s, c, cl.(phase := p.(stage := Writing(e, now))))
      case Nothing => Put(s, c, cl.(phase := p.(clocks := p.clocks + [now])))
      case _ => Finish(s, c, Failed)
  }

  /** The conditional update: it takes the lock, and no row affected means a conflict. */
  function StepCompareAndSet(s: State, c: ClientId): State
    requires Enabled(s, CompareAndSet(c))
  {
    var cl := s.clients[c];
    var p := cl.phase;
    var config := cl.call.configs[|p.clocks|];
    var key := config.key;
    if key in p.view && p.view[key].version == config.version then
      var version := NextVersion(p.stage.stored.version, p.stage.now);
      var event := Wrote(Some(p.stage.stored), config.(version := version), config.version, true);
      Put(s.(writer := Some(c)), c,
          cl.(phase := p.(view := p.view[key := p.view[key].(version := version)],
                          stage := Writing(event, p.stage.now))))
    else
      Finish(s, c, Conflict)
  }

  function StepWrite(s: State, c: ClientId): State
    requires Enabled(s, Write(c))
  {
    var cl := s.clients[c];
    var p := cl.phase;
    Put(s.(writer := Some(c)), c,
        cl.(phase := p.(view := Apply(p.view, p.stage.event),
                        events := p.events + [p.stage.event],
                        clocks := p.clocks + [p.stage.now],
                        stage := Ready)))
  }

  /** A transaction that wrote publishes its view; one that only read publishes nothing. */
  function StepCommit(s: State, c: ClientId): State
    requires Enabled(s, Commit(c))
  {
    var cl := s.clients[c];
    var p := cl.phase;
    var ended := Finish(s, c, Committed(p.events));
    if p.events == [] then ended
    else ended.(table := p.view, log := s.log + [Publication(c, cl.call, p.clocks, p.events)])
  }

  /** A failing statement, begin or commit. Imports and failed begins are never retried. */
  function StepBreak(s: State, c: ClientId, retryable: bool): State
    requires Enabled(s, Break(c, retryable))
  {
    var cl := s.clients[c];
    if !retryable || cl.call.Import? || cl.phase.Idle? then Finish(s, c, Failed)
    else if cl.retries + 1 >= MAX_RETRIES then
      Put(Release(s, c), c, Client(cl.call, cl.retries + 1, Done(Exhausted)))
    else
      Put(Release(s, c), c, Client(cl.call, cl.retries + 1, Idle))
  }

  function Step(s: State, a: Action): State
    requires Enabled(s, a)
  {
    match a
    case Arrive(c, call) => Put(s, c, Client(call, 0, StartPhase(call)))
    case Validate(c, row) => StepValidate(s, c, row)
    case Reject(c) => Finish(s, c, Rejected)
    case Begin(c) => Put(s, c, s.clients[c].(phase := Running(|s.log|, s.table, s.table, [], [], Ready)))
    case Read(c, now) => StepRead(s, c, now)
    case CompareAndSet(c) => StepCompareAndSet(s, c)
    case Write(c) => StepWrite(s, c)
    case Commit(c) => StepCommit(s, c)
    case Break(c, retryable) => StepBreak(s, c, retryable)
  }

  /** A run: any interleaving of any number of calls. */
  ghost predicate Run(states: seq<State>, actions: seq<Action>) {
    && |states| == |actions| + 1
    && Init(states[0])
    && forall i | 0 <= i < |actions| :: Enabled(states[i], actions[i]) && states[i + 1] == Step(states[i], actions[i])
  }

  // ----------------------------------------------------------- the invariant

  /** The database after the first publications of the log. */
  function Replay(origin: Table, log: seq<Publication>): Table {
    if log == [] then origin
    else ApplyAll(Replay(origin, log[..|log| - 1]), log[|log| - 1].events)
  }

  /** Each publication is exactly what its call does, alone, to the database before it. */
  ghost predicate Serial(origin: Table, log: seq<Publication>) {
    forall i | 0 <= i < |log| ::
      && |log[i].clocks| == Items(log[i].call)
      && Effect(Replay(origin, log[..i]), log[i].call, log[i].clocks) == Some(log[i].events)
  }

  ghost predicate Silent(log: seq<Publication>, c: ClientId) {
    forall i | 0 <= i < |log| :: log[i].client != c
  }

  ghost predicate PublishedOnce(log: seq<Publication>, c: ClientId, call: Call, events: seq<Event>) {
    && (exists i :: 0 <= i < |log| && log[i].client == c)
    && (forall i | 0 <= i < |log| && log[i].client == c :: log[i].call == call && log[i].events == events)
    && (forall i, j | 0 <= i < j < |log| :: log[i].client != c || log[j].client != c)
  }

  /** The attempt's own bookkeeping agrees with the serial meaning on its snapshot. */
  ghost predicate AttemptOk(s: State, c: ClientId)
    requires Attempting(s, c)
  {
    var cl := s.clients[c];
    var p := cl.phase;
    && p.base <= |s.log|
    && p.snapshot == Replay(s.origin, s.log[..p.base])
    && |p.clocks| <= Items(cl.call)
    && Prefix(p.snapshot, cl.call, p.clocks) == Some(p.events)
    && (p.events != [] ==> s.writer == Some(c))
    && StageOk(s, c, ApplyAll(p.snapshot, p.events))
  }

  ghost predicate StageOk(s: State, c: ClientId, done: Table)
    requires Attempting(s, c)
  {
    var cl := s.clients[c];
    var p := cl.phase;
    match p.stage
    case Ready => p.view == done
    case Locking(stored, now) =>
      && p.view == done
      && cl.call.Upsert? && cl.call.checked && |p.clocks| < |cl.call.configs|
      && Lookup(done, cl.call.configs[|p.clocks|].key) == Some(stored)
    case Writing(event, now) =>
      && |p.clocks| < Items(cl.call)
      && ItemOf(done, cl.call, |p.clocks|, now) == Emit(event)
      && Apply(p.view, event) == Apply(done, event)
  }

  ghost predicate ClientOk(s: State, c: ClientId)
    requires c in s.clients
  {
    var cl := s.clients[c];
    match cl.phase
    case Validating(passed) =>
      cl.retries == 0 && cl.call.Upsert? && passed < |cl.call.configs| && Silent(s.log, c)
    case Idle =>
      cl.retries < MAX_RETRIES && Silent(s.log, c)
    case Running(_, _, _, _, _, _) =>
      cl.retries < MAX_RETRIES && Silent(s.log, c) && AttemptOk(s, c)
    case Done(Committed(events)) =>
      && cl.retries < MAX_RETRIES
      && if events == [] then Silent(s.log, c) else PublishedOnce(s.log, c, cl.call, events)
    case Done(outcome) =>
      && cl.retries <= MAX_RETRIES
      && (outcome.Exhausted? ==> cl.retries == MAX_RETRIES)
      && (outcome.Conflict? ==> cl.call.Upsert? && cl.call.checked)
      && Silent(s.log, c)
  }

  ghost predicate LockOk(s: State) {
    s.writer.Some? ==> Attempting(s, s.writer.value) && s.clients[s.writer.value].phase.base == |s.log|
  }

  ghost predicate Inv(s: State) {
    && WellKeyed(s.origin)
    && s.table == Replay(s.origin, s.log)
    && Serial(s.origin, s.log)
    && LockOk(s)
    && (forall c <- s.clients :: ClientOk(s, c))
    && (forall i | 0 <= i < |s.log| :: s.log[i].client in s.clients)
  }

  // ------------------------------------------------------------ preservation

  /** A step that publishes nothing and leaves the other clients alone. */
  ghost predicate Private(s: State, t: State, c: ClientId) {
    && t.origin == s.origin && t.table == s.table && t.log == s.log
    && c in t.clients
    && t.clients.Keys == s.clients.Keys + {c}
    && (forall d <- s.clients :: d != c ==> t.clients[d] == s.clients[d])
    && (t.writer == s.writer || (s.writer == None && t.writer == Some(c)) || (s.writer == Some(c) && t.writer == None))
  }

  lemma PrivateKeepsInv(s: State, t: State, c: ClientId)
    requires Inv(s) && Private(s, t, c) && LockOk(t) && ClientOk(t, c)
    ensures Inv(t)
  {
    forall d | d in t.clients ensures ClientOk(t, d) {
      if d != c {
        assert ClientOk(s, d);
      }
    }
  }

  lemma NeverPublished(s: State, c: ClientId)
    requires Inv(s) && c !in s.clients
    ensures Silent(s.log, c)
  {
  }

  lemma KeepArrive(s: State, c: ClientId, call: Call)
    requires Inv(s) && Enabled(s, Arrive(c, call))
    ensures Inv(Step(s, Arrive(c, call)))
  {
    NeverPublished(s, c);
    PrivateKeepsInv(s, Step(s, Arrive(c, call)), c);
  }

  lemma KeepValidate(s: State, c: ClientId, row: Row)
    requires Inv(s) && Enabled(s, Validate(c, row))
    ensures Inv(Step(s, Validate(c, row)))
  {
    assert ClientOk(s, c);
    PrivateKeepsInv(s, StepValidate(s, c, row), c);
  }

  /** Ending a call without publishing. */
  lemma KeepFinish(s: State, c: ClientId, outcome: Outcome)
    requires Inv(s) && c in s.clients && !s.clients[c].phase.Done? && !outcome.Exhausted?
    requires outcome.Committed? ==> outcome.events == []
    requires outcome.Conflict? ==> s.clients[c].call.Upsert? && s.clients[c].call.checked
    ensures Inv(Finish(s, c, outcome))
  {
    hide Prefix, ApplyAll, Apply, ItemOf, Replay, Serial, PublishedOnce, StageOk;
    assert ClientOk(s, c);
    PrivateKeepsInv(s, Finish(s, c, outcome), c);
  }

  lemma KeepBegin(s: State, c: ClientId)
    requires Inv(s) && Enabled(s, Begin(c))
    ensures Inv(Step(s, Begin(c)))
  {
    assert ClientOk(s, c);
    var t := Step(s, Begin(c));
    assert s.log[..|s.log|] == s.log;
    PrivateKeepsInv(s, t, c);
  }

  /** An attempt that changed only its stage or its list of clocks. */
  lemma KeepStage(s: State, c: ClientId, stage: Stage, clocks: seq<nat>)
    requires Inv(s) && Attempting(s, c) && |clocks| <= Items(s.clients[c].call)
    requires var p := s.clients[c].phase;
             Prefix(p.snapshot, s.clients[c].call, clocks) == Some(p.events)
    requires var cl := s.clients[c];
             var t := Put(s, c, cl.(phase := cl.phase.(stage := stage, clocks := clocks)));
             StageOk(t, c, ApplyAll(cl.phase.snapshot, cl.phase.events))
    ensures var cl := s.clients[c];
            Inv(Put(s, c, cl.(phase := cl.phase.(stage := stage, clocks := clocks))))
  {
    hide Prefix, ApplyAll, Replay, Serial, Silent, PublishedOnce, StageOk;
    assert ClientOk(s, c);
    var cl := s.clients[c];
    PrivateKeepsInv(s, Put(s, c, cl.(phase := cl.phase.(stage := stage, clocks := clocks))), c);
  }

  lemma ReadyView(s: State, c: ClientId)
    requires Inv(s) && Attempting(s, c) && s.clients[c].phase.stage.Ready?
    ensures var cl := s.clients[c];
            && |cl.phase.clocks| <= Items(cl.call)
            && Prefix(cl.phase.snapshot, cl.call, cl.phase.clocks) == Some(cl.phase.events)
            && cl.phase.view == ApplyAll(cl.phase.snapshot, cl.phase.events)
  {
    hide Prefix, ApplyAll, Replay, Serial, Silent, PublishedOnce;
    assert ClientOk(s, c);
  }

  lemma KeepRead(s: State, c: ClientId, now: nat)
    requires Inv(s) && Enabled(s, Read(c, now))
    ensures Inv(Step(s, Read(c, now)))
  {
    ReadyView(s, c);
    hide Prefix, ApplyAll, Inv, ItemOf, Apply;
    var cl := s.clients[c];
    var p := cl.phase;
    if cl.call.Upsert? && cl.call.checked && cl.call.configs[|p.clocks|].key in p.view {
      KeepStage(s, c, Locking(p.view[cl.call.configs[|p.clocks|].key], now), p.clocks);
    } else {
      var item := ItemOf(p.view, cl.call, |p.clocks|, now);
      if item.Emit? {
        KeepStage(s, c, Writing(item.event, now), p.clocks);
      } else if item.Nothing? {
        PrefixSnoc(p.snapshot, cl.call, p.clocks, now);
        KeepStage(s, c, Ready, p.clocks + [now]);
      } else {
        KeepFinish(s, c, Failed);
      }
    }
  }

  lemma KeepCompareAndSet(s: State, c: ClientId)
    requires Inv(s) && Enabled(s, CompareAndSet(c))
    ensures Inv(Step(s, CompareAndSet(c)))
  {
    hide Prefix, ApplyAll, Replay, Serial, Silent, PublishedOnce, NextVersion;
    assert ClientOk(s, c);
    var p := s.clients[c].phase;
    var config := s.clients[c].call.configs[|p.clocks|];
    if config.key in p.view && p.view[config.key].version == config.version {
      PrivateKeepsInv(s, StepCompareAndSet(s, c), c);
    } else {
      KeepFinish(s, c, Conflict);
    }
  }

  lemma KeepWrite(s: State, c: ClientId)
    requires Inv(s) && Enabled(s, Write(c))
    ensures Inv(Step(s, Write(c)))
  {
    hide Prefix, ApplyAll, Replay, Serial, Silent, PublishedOnce, ItemOf, Apply;
    assert ClientOk(s, c);
    var cl := s.clients[c];
    PrefixSnoc(cl.phase.snapshot, cl.call, cl.phase.clocks, cl.phase.stage.now);
    PrivateKeepsInv(s, StepWrite(s, c), c);
  }

  lemma KeepBreak(s: State, c: ClientId, retryable: bool)
    requires Inv(s) && Enabled(s, Break(c, retryable))
    ensures Inv(Step(s, Break(c, retryable)))
  {
    hide AttemptOk, Replay, Serial, Silent, PublishedOnce;
    assert ClientOk(s, c);
    var cl := s.clients[c];
    if !retryable || cl.call.Import? || cl.phase.Idle? {
      KeepFinish(s, c, Failed);
    } else {
      PrivateKeepsInv(s, StepBreak(s, c, retryable), c);
    }
  }

  /** Publishing: the snapshot is still the database, so the publication is serial. */
  lemma KeepCommit(s: State, c: ClientId)
    requires Inv(s) && Enabled(s, Commit(c))
    ensures Inv(Step(s, Commit(c)))
  {
    hide Prefix, ApplyAll, ItemOf, Serial, Replay;
    assert ClientOk(s, c);
    var p := s.clients[c].phase;
    if p.events == [] {
      KeepFinish(s, c, Committed([]));
    } else {
      var t := StepCommit(s, c);
      assert s.log[..|s.log|] == s.log;
      SerialSnoc(s.origin, s.log, t.log[|s.log|]);
      assert t.log[|s.log|].client == c;
      forall d | d in t.clients ensures ClientOk(t, d) {
        if d != c {
          KeepOthers(s, t, c, d);
        }
      }
    }
  }

  lemma SerialSnoc(origin: Table, log: seq<Publication>, p: Publication)
    requires Serial(origin, log) && |p.clocks| == Items(p.call)
    requires Effect(Replay(origin, log), p.call, p.clocks) == Some(p.events)
    ensures Serial(origin, log + [p])
    ensures Replay(origin, log + [p]) == ApplyAll(Replay(origin, log), p.events)
  {
    hide Prefix, ApplyAll, ItemOf;
    var all := log + [p];
    assert all[..|log|] == log;
    forall i | 0 <= i < |log| ensures all[..i] == log[..i] {}
  }

  /** A publication leaves every other client's bookkeeping intact. */
  lemma KeepOthers(s: State, t: State, c: ClientId, d: ClientId)
    requires c != d && d in s.clients && ClientOk(s, d) && d in t.clients && t.clients[d] == s.clients[d]
    requires s.writer != Some(d) && t.origin == s.origin
    requires |t.log| == |s.log| + 1 && t.log[..|s.log|] == s.log && t.log[|s.log|].client == c
    ensures ClientOk(t, d)
  {
    hide Prefix, ApplyAll, ItemOf, Replay;
    assert forall i | 0 <= i < |s.log| :: t.log[i] == s.log[i];
    if Attempting(s, d) {
      var base := s.clients[d].phase.base;
      assert t.log[..base] == s.log[..base];
    }
  }

  lemma KeepInv(s: State, a: Action)
    requires Inv(s) && Enabled(s, a)
    ensures Inv(Step(s, a))
  {
    match a
    case Arrive(c, call) => KeepArrive(s, c, call);
    case Validate(c, row) => KeepValidate(s, c, row);
    case Reject(c) => KeepFinish(s, c, Rejected);
    case Begin(c) => KeepBegin(s, c);
    case Read(c, now) => KeepRead(s, c, now);
    case CompareAndSet(c) => KeepCompareAndSet(s, c);
    case Write(c) => KeepWrite(s, c);
    case Commit(c) => KeepCommit(s, c);
    case Break(c, retryable) => KeepBreak(s, c, retryable);
  }

  lemma {:induction false} RunKeepsInv(states: seq<State>, actions: seq<Action>, n: nat)
    requires Run(states, actions) && n < |states|
    ensures Inv(states[n])
  {
    if n > 0 {
      RunKeepsInv(states, actions, n - 1);
      KeepInv(states[n - 1], actions[n - 1]);
    }
  }
}
