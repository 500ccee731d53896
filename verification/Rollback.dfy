/** Planning a schema rollback: release boundaries, targets and the migrations to undo. */
module Rollback {
  import opened Options

  datatype Boundary = Boundary(version: string, terminal: string)

  datatype Problem = NoBoundaries | DuplicateVersion | DuplicateTerminal | MissingMigration | OutOfOrder

  datatype Result<+T> = Ok(value: T) | Err(problem: Problem)

  datatype State = State(release: Option<Boundary>, head: string, headIndex: nat, pending: seq<string>)

  datatype Target = Target(version: string, terminal: string, steps: nat, currentRelease: bool)

  datatype Plan = Plan(targetHead: string, steps: nat, undo: seq<string>)

  function IndexOf(migrations: seq<string>, name: string): (r: Option<nat>)
    ensures r.Some? ==> r.value < |migrations| && migrations[r.value] == name && name !in migrations[..r.value]
    ensures r.None? ==> name !in migrations
  {
    if migrations == [] then None
    else if migrations[0] == name then Some(0)
    else match IndexOf(migrations[1..], name)
      case None => None
      case Some(i) =>
        assert migrations[..i + 1] == [migrations[0]] + migrations[1..][..i];
        Some(i + 1)
  }

  function At(migrations: seq<string>, b: Boundary): nat
    requires b.terminal in migrations
  {
    IndexOf(migrations, b.terminal).value
  }

  // -------------------------------------------------------------- validation

  ghost predicate Known(migrations: seq<string>, bs: seq<Boundary>) {
    forall i :: 0 <= i < |bs| ==> bs[i].terminal in migrations
  }

  ghost predicate Ordered(migrations: seq<string>, bs: seq<Boundary>)
    requires Known(migrations, bs)
  {
    forall i, j :: 0 <= i < j < |bs| ==> At(migrations, bs[i]) < At(migrations, bs[j])
  }

  ghost predicate DistinctVersions(bs: seq<Boundary>) {
    forall i, j :: 0 <= i < j < |bs| ==> bs[i].version != bs[j].version
  }

  ghost predicate DistinctTerminals(bs: seq<Boundary>) {
    forall i, j :: 0 <= i < j < |bs| ==> bs[i].terminal != bs[j].terminal
  }

  ghost predicate Sound(migrations: seq<string>, bs: seq<Boundary>) {
    DistinctVersions(bs) && DistinctTerminals(bs) && Known(migrations, bs) && Ordered(migrations, bs)
  }

  /** Whether a reported problem is really there. */
  ghost predicate Present(problem: Problem, migrations: seq<string>, bs: seq<Boundary>) {
    match problem
    case NoBoundaries => bs == []
    case DuplicateVersion => !DistinctVersions(bs)
    case DuplicateTerminal => !DistinctTerminals(bs)
    case MissingMigration => !Known(migrations, bs)
    case OutOfOrder =>
      exists i, j :: 0 <= i < j < |bs| && bs[i].terminal in migrations && bs[j].terminal in migrations
        && At(migrations, bs[i]) >= At(migrations, bs[j])
  }

  ghost function Versions(bs: seq<Boundary>): set<string> {
    set k | 0 <= k < |bs| :: bs[k].version
  }

  ghost function Terminals(bs: seq<Boundary>): set<string> {
    set k | 0 <= k < |bs| :: bs[k].terminal
  }

  lemma OneMore(bs: seq<Boundary>, i: nat)
    requires i < |bs|
    ensures Versions(bs[..i + 1]) == Versions(bs[..i]) + {bs[i].version}
    ensures Terminals(bs[..i + 1]) == Terminals(bs[..i]) + {bs[i].terminal}
  {
    var front, longer := bs[..i], bs[..i + 1];
    assert longer[i] == bs[i] && forall k :: 0 <= k < i ==> longer[k] == front[k];
  }

  lemma Repeated(bs: seq<Boundary>, i: nat)
    requires i < |bs|
    ensures bs[i].version in Versions(bs[..i]) ==> !DistinctVersions(bs)
    ensures bs[i].terminal in Terminals(bs[..i]) ==> !DistinctTerminals(bs)
  {
  }

  lemma Descends(migrations: seq<string>, bs: seq<Boundary>, i: nat)
    requires 0 < i < |bs| && bs[i - 1].terminal in migrations && bs[i].terminal in migrations
    requires At(migrations, bs[i - 1]) >= At(migrations, bs[i])
    ensures Present(OutOfOrder, migrations, bs) && !Sound(migrations, bs)
  {
  }

  method ValidateReleaseBoundaries(migrations: seq<string>, bs: seq<Boundary>) returns (r: Result<()>)
    ensures r.Ok? <==> bs != [] && Sound(migrations, bs)
    ensures r.Err? ==> Present(r.problem, migrations, bs)
  {
    if bs == [] {
      return Err(NoBoundaries);
    }
    var versions, terminals: set<string> := {}, {};
    var previous: Option<nat> := None;
    assert Sound(migrations, bs[..0]);
    hide DistinctVersions, DistinctTerminals, Ordered;
    for i := 0 to |bs|
      invariant versions == Versions(bs[..i]) && terminals == Terminals(bs[..i])
      invariant Sound(migrations, bs[..i])
      invariant if i == 0 then previous.None? else previous == IndexOf(migrations, bs[i - 1].terminal)
    {
      var b := bs[i];
      Repeated(bs, i);
      OneMore(bs, i);
      if b.version in versions {
        return Err(DuplicateVersion);
      }
      versions := versions + {b.version};
      if b.terminal in terminals {
        return Err(DuplicateTerminal);
      }
      terminals := terminals + {b.terminal};
      var index := IndexOf(migrations, b.terminal);
      if index.None? {
        assert !Known(migrations, bs);
        return Err(MissingMigration);
      }
      assert i > 0 ==> bs[i - 1] == bs[..i][i - 1];
      if previous.Some? && index.value <= previous.value {
        Descends(migrations, bs, i);
        return Err(OutOfOrder);
      }
      assert forall k :: 0 <= k < i ==> bs[k] == bs[..i][k];
      ExtendSound(migrations, bs, i);
      previous := index;
    }
    assert bs[..|bs|] == bs;
    r := Ok(());
  }

  lemma {:induction false} ExtendSound(migrations: seq<string>, bs: seq<Boundary>, i: nat)
    requires i < |bs| && Sound(migrations, bs[..i]) && bs[i].terminal in migrations
    requires forall k :: 0 <= k < i ==> bs[k].version != bs[i].version && bs[k].terminal != bs[i].terminal
    requires i > 0 ==> bs[i - 1].terminal in migrations && At(migrations, bs[i - 1]) < At(migrations, bs[i])
    ensures Sound(migrations, bs[..i + 1])
  {
    var front, longer := bs[..i], bs[..i + 1];
    assert forall k :: 0 <= k < i ==> longer[k] == front[k] && longer[k] == bs[k];
    assert longer[i] == bs[i];
    forall j, k | 0 <= j < k < |longer|
      ensures At(migrations, longer[j]) < At(migrations, longer[k])
    {
      if k == i && j < i - 1 {
        assert At(migrations, front[j]) < At(migrations, front[i - 1]);
      }
    }
  }

  // ------------------------------------------------------------ current state

  function NewestAtMost(head: nat, migrations: seq<string>, bs: seq<Boundary>): Result<Option<Boundary>> {
    if bs == [] then Ok(None)
    else match IndexOf(migrations, bs[|bs| - 1].terminal)
      case None => Err(MissingMigration)
      case Some(index) => if index <= head then Ok(Some(bs[|bs| - 1])) else NewestAtMost(head, migrations, bs[..|bs| - 1])
  }

  function WithVersion(bs: seq<Boundary>, version: string): Option<Boundary> {
    if bs == [] then None else if bs[0].version == version then Some(bs[0]) else WithVersion(bs[1..], version)
  }

  function CurrentRelease(head: nat, migrations: seq<string>, bs: seq<Boundary>, version: string): Result<Option<Boundary>> {
    match WithVersion(bs, version)
    case None => NewestAtMost(head, migrations, bs)
    case Some(b) =>
      match IndexOf(migrations, b.terminal)
      case None => Err(MissingMigration)
      case Some(index) => if index <= head then Ok(Some(b)) else NewestAtMost(head, migrations, bs)
  }

  function ResolveCurrentState(head: string, migrations: seq<string>, bs: seq<Boundary>, version: string): Result<State> {
    match IndexOf(migrations, head)
    case None => Err(MissingMigration)
    case Some(headIndex) =>
      match CurrentRelease(headIndex, migrations, bs, version)
      case Err(p) => Err(p)
      case Ok(None) => Ok(State(None, head, headIndex, []))
      case Ok(Some(b)) =>
        match IndexOf(migrations, b.terminal)
        case None => Err(MissingMigration)
        case Some(index) =>
          Ok(State(Some(b), head, headIndex, if headIndex > index then migrations[index + 1..headIndex + 1] else []))
  }

  // -------------------------------------------------------- targets and plans

  predicate UndoesUnreleased(state: State, b: Boundary) {
    state.release.Some? && state.release.value.version == b.version && state.pending != []
  }

  /** Targets from the newest boundary down. */
  function Targets(state: State, migrations: seq<string>, bs: seq<Boundary>): Result<seq<Target>> {
    if bs == [] then Ok([])
    else
      var front, b := bs[..|bs| - 1], bs[|bs| - 1];
      match IndexOf(migrations, b.terminal)
      case None => Err(MissingMigration)
      case Some(index) =>
        if index >= state.headIndex then Targets(state, migrations, front)
        else
          var current := UndoesUnreleased(state, b);
          var target := Target(b.version, b.terminal, state.headIndex - index, current);
          if !current then Ok([target])
          else match Targets(state, migrations, front)
            case Err(p) => Err(p)
            case Ok(more) => Ok([target] + more)
  }

  ghost function Prefixed(targets: seq<Target>, rest: Result<seq<Target>>): Result<seq<Target>> {
    if rest.Err? then rest else Ok(targets + rest.value)
  }

  lemma PrefixedLaws(a: seq<Target>, b: seq<Target>, rest: Result<seq<Target>>)
    ensures Prefixed([], rest) == rest && Prefixed(a, Ok([])) == Ok(a)
    ensures Prefixed(a, Prefixed(b, rest)) == Prefixed(a + b, rest)
  {
    if rest.Ok? {
      assert [] + rest.value == rest.value && a + (b + rest.value) == a + b + rest.value;
    }
    assert a + [] == a;
  }

  method BuildRollbackTargets(state: State, migrations: seq<string>, bs: seq<Boundary>) returns (r: Result<seq<Target>>)
    ensures r == Targets(state, migrations, bs)
  {
    var targets: seq<Target> := [];
    assert bs[..|bs|] == bs;
    PrefixedLaws([], [], Targets(state, migrations, bs));
    for i := |bs| downto 0
      invariant Targets(state, migrations, bs) == Prefixed(targets, Targets(state, migrations, bs[..i]))
    {
      var b := bs[i];
      assert bs[..i + 1][..i] == bs[..i];
      var index := IndexOf(migrations, b.terminal);
      if index.None? {
        return Err(MissingMigration);
      }
      if index.value >= state.headIndex {
        continue;
      }
      var current := UndoesUnreleased(state, b);
      var target := Target(b.version, b.terminal, state.headIndex - index.value, current);
      PrefixedLaws(targets, [target], Targets(state, migrations, bs[..i]));
      targets := targets + [target];
      if !current {
        return Ok(targets);
      }
    }
    PrefixedLaws(targets, [], Ok([]));
    r := Ok(targets);
  }

  function Reversed(s: seq<string>): (r: seq<string>)
    ensures |r| == |s|
  {
    if s == [] then [] else Reversed(s[1..]) + [s[0]]
  }

  function BuildRollbackPlan(state: State, target: Target, migrations: seq<string>): Result<Plan>
    requires state.headIndex < |migrations|
  {
    match IndexOf(migrations, target.terminal)
    case None => Err(MissingMigration)
    case Some(index) =>
      if index >= state.headIndex then Err(OutOfOrder)
      else Ok(Plan(target.terminal, target.steps, Reversed(migrations[index + 1..state.headIndex + 1])))
  }

  // ------------------------------------------------------------------ results

  /** Undoing the last applied migration `steps` times: what is left, and what ran. */
  ghost function Undo(applied: seq<string>, steps: nat): (seq<string>, seq<string>)
    requires steps <= |applied|
  {
    if steps == 0 then (applied, [])
    else
      var (left, ran) := Undo(applied[..|applied| - 1], steps - 1);
      (left, [applied[|applied| - 1]] + ran)
  }

  lemma {:induction false} ReversedSnoc(s: seq<string>, x: string)
    ensures Reversed(s + [x]) == [x] + Reversed(s)
  {
    if s == [] {
      assert s + [x] == [x];
      assert Reversed([x][1..]) == [];
    } else {
      ReversedSnoc(s[1..], x);
      assert (s + [x])[1..] == s[1..] + [x];
    }
  }

  lemma {:induction false} UndoIs(applied: seq<string>, steps: nat)
    requires steps <= |applied|
    ensures Undo(applied, steps) == (applied[..|applied| - steps], Reversed(applied[|applied| - steps..]))
  {
    if steps == 0 {
      assert applied[..|applied|] == applied;
    } else {
      var n := |applied|;
      var front, tail := applied[..n - 1], applied[n - steps..];
      UndoIs(front, steps - 1);
      assert front[..n - steps] == applied[..n - steps];
      assert tail == front[n - steps..] + [applied[n - 1]];
      ReversedSnoc(front[n - steps..], applied[n - 1]);
    }
  }

  /** What is true of every offered target. */
  ghost predicate Offered(t: Target, state: State, migrations: seq<string>, bs: seq<Boundary>) {
    && t.terminal in migrations && IndexOf(migrations, t.terminal).value < state.headIndex
    && t.steps == state.headIndex - IndexOf(migrations, t.terminal).value
    && Boundary(t.version, t.terminal) in bs
  }

  lemma SoundFront(migrations: seq<string>, bs: seq<Boundary>, n: nat)
    requires Sound(migrations, bs) && n <= |bs|
    ensures Sound(migrations, bs[..n])
  {
    assert forall k :: 0 <= k < n ==> bs[..n][k] == bs[k];
  }

  /** With sound boundaries planning always succeeds, and each target is a registered boundary
      strictly older than the head, `steps` migrations below it. */
  lemma {:induction false} TargetsAreOlder(state: State, migrations: seq<string>, bs: seq<Boundary>)
    requires Sound(migrations, bs)
    ensures Targets(state, migrations, bs).Ok?
    ensures forall t <- Targets(state, migrations, bs).value :: Offered(t, state, migrations, bs)
  {
    if bs != [] {
      var front := bs[..|bs| - 1];
      SoundFront(migrations, bs, |bs| - 1);
      TargetsAreOlder(state, migrations, front);
      assert forall b <- front :: b in bs;
      var b := bs[|bs| - 1];
      assert Boundary(b.version, b.terminal) == b;
    }
  }

  lemma {:induction false} NoneCurrent(state: State, migrations: seq<string>, bs: seq<Boundary>)
    requires Sound(migrations, bs) && forall b <- bs :: !UndoesUnreleased(state, b)
    ensures Targets(state, migrations, bs).Ok? && |Targets(state, migrations, bs).value| <= 1
  {
    if bs != [] {
      SoundFront(migrations, bs, |bs| - 1);
      assert forall b <- bs[..|bs| - 1] :: b in bs;
      assert bs[|bs| - 1] in bs;
      NoneCurrent(state, migrations, bs[..|bs| - 1]);
    }
  }

  lemma OthersAreNotCurrent(state: State, bs: seq<Boundary>)
    requires DistinctVersions(bs) && bs != [] && UndoesUnreleased(state, bs[|bs| - 1])
    ensures forall b <- bs[..|bs| - 1] :: !UndoesUnreleased(state, b)
  {
    forall b | b in bs[..|bs| - 1]
      ensures !UndoesUnreleased(state, b)
    {
      var i :| 0 <= i < |bs| - 1 && bs[i] == b;
      assert bs[i].version != bs[|bs| - 1].version;
    }
  }

  /** At most two targets; when there are two the second needs strictly more steps. */
  lemma {:induction false} AtMostTwo(state: State, migrations: seq<string>, bs: seq<Boundary>)
    requires Sound(migrations, bs)
    ensures Targets(state, migrations, bs).Ok?
    ensures var ts := Targets(state, migrations, bs).value;
            |ts| <= 2 && (|ts| == 2 ==> ts[0].steps < ts[1].steps && ts[0].currentRelease && !ts[1].currentRelease)
  {
    TargetsAreOlder(state, migrations, bs);
    if bs != [] {
      var front, b := bs[..|bs| - 1], bs[|bs| - 1];
      SoundFront(migrations, bs, |bs| - 1);
      AtMostTwo(state, migrations, front);
      if At(migrations, b) < state.headIndex && UndoesUnreleased(state, b) {
        OthersAreNotCurrent(state, bs);
        NoneCurrent(state, migrations, front);
        SecondIsDeeper(state, migrations, bs);
      }
    }
  }

  /** If any boundary is older than the head, the newest such boundary is offered first. */
  lemma {:induction false} NewestComesFirst(state: State, migrations: seq<string>, bs: seq<Boundary>, i: nat)
    requires Sound(migrations, bs) && i < |bs| && At(migrations, bs[i]) < state.headIndex
    ensures Targets(state, migrations, bs).Ok? && Targets(state, migrations, bs).value != []
    ensures Targets(state, migrations, bs).value[0].steps <= state.headIndex - At(migrations, bs[i])
  {
    TargetsAreOlder(state, migrations, bs);
    var last := |bs| - 1;
    SoundFront(migrations, bs, last);
    if At(migrations, bs[last]) >= state.headIndex {
      assert i < last && bs[..last][i] == bs[i];
      NewestComesFirst(state, migrations, bs[..last], i);
    } else {
      assert i < last ==> At(migrations, bs[i]) < At(migrations, bs[last]);
    }
  }

  /** The target that rolls back to boundary `b`. */
  ghost function TargetTo(state: State, migrations: seq<string>, b: Boundary, current: bool): Target
    requires b.terminal in migrations && At(migrations, b) <= state.headIndex
  {
    Target(b.version, b.terminal, state.headIndex - At(migrations, b), current)
  }

  /** Boundary `i` is the newest one below the head. */
  ghost predicate NewestBelow(state: State, migrations: seq<string>, bs: seq<Boundary>, i: nat)
    requires Known(migrations, bs)
  {
    && i < |bs| && At(migrations, bs[i]) < state.headIndex
    && forall j | i < j < |bs| :: At(migrations, bs[j]) >= state.headIndex
  }

  lemma {:induction false} TargetsSkip(state: State, migrations: seq<string>, bs: seq<Boundary>)
    requires bs != [] && bs[|bs| - 1].terminal in migrations && At(migrations, bs[|bs| - 1]) >= state.headIndex
    ensures Targets(state, migrations, bs) == Targets(state, migrations, bs[..|bs| - 1])
  {
  }

  lemma {:induction false} TargetsTake(state: State, migrations: seq<string>, bs: seq<Boundary>)
    requires bs != [] && bs[|bs| - 1].terminal in migrations && At(migrations, bs[|bs| - 1]) < state.headIndex
    ensures var b := bs[|bs| - 1];
            var target := TargetTo(state, migrations, b, UndoesUnreleased(state, b));
            Targets(state, migrations, bs) ==
            if UndoesUnreleased(state, b) then Prefixed([target], Targets(state, migrations, bs[..|bs| - 1])) else Ok([target])
  {
  }

  lemma NoBoundariesLeft(state: State, migrations: seq<string>)
    ensures Targets(state, migrations, []) == Ok([])
  {
  }

  /** The offered targets, exactly: the newest boundary below the head, and the one before it
      precisely when there is one and migrations are pending on the newest as current release. */
  lemma {:induction false} TargetsExactly(state: State, migrations: seq<string>, bs: seq<Boundary>, i: nat)
    requires Sound(migrations, bs) && NewestBelow(state, migrations, bs, i)
    ensures i > 0 ==> At(migrations, bs[i - 1]) < At(migrations, bs[i])
    ensures var current := state.release.Some? && state.release.value.version == bs[i].version && state.pending != [];
            Targets(state, migrations, bs) ==
            Ok([TargetTo(state, migrations, bs[i], current)]
               + if current && i > 0 then [TargetTo(state, migrations, bs[i - 1], false)] else [])
  {
    hide At, Targets, DistinctTerminals, DistinctVersions, TargetTo;
    var last := |bs| - 1;
    var front, b := bs[..last], bs[last];
    SoundFront(migrations, bs, last);
    assert forall k | 0 <= k < last :: front[k] == bs[k];
    if i < last {
      TargetsSkip(state, migrations, bs);
      TargetsExactly(state, migrations, front, i);
    } else {
      TargetsTake(state, migrations, bs);
      PrefixedLaws([TargetTo(state, migrations, b, UndoesUnreleased(state, b))], [], Ok([]));
      if i == 0 {
        NoBoundariesLeft(state, migrations);
        assert front == [];
      } else if UndoesUnreleased(state, b) {
        TargetsExactly(state, migrations, front, i - 1);
        VersionsDiffer(bs, i - 1, i);
        var second := TargetTo(state, migrations, bs[i - 1], false);
        assert [second] + [] == [second];
      }
    }
  }

  lemma VersionsDiffer(bs: seq<Boundary>, i: nat, j: nat)
    requires DistinctVersions(bs) && i < j < |bs|
    ensures bs[i].version != bs[j].version
  {
  }

  /** Nothing is offered exactly when no boundary is below the head. */
  lemma {:induction false} NoTargets(state: State, migrations: seq<string>, bs: seq<Boundary>)
    requires Sound(migrations, bs)
    ensures Targets(state, migrations, bs) == Ok([]) <==> forall i | 0 <= i < |bs| :: At(migrations, bs[i]) >= state.headIndex
  {
    if bs != [] {
      var last := |bs| - 1;
      SoundFront(migrations, bs, last);
      forall k | 0 <= k < last ensures bs[..last][k] == bs[k] {}
      NoTargets(state, migrations, bs[..last]);
      if At(migrations, bs[last]) < state.headIndex {
        TargetsExactly(state, migrations, bs, last);
        assert |Targets(state, migrations, bs).value| >= 1;
      } else {
        assert Targets(state, migrations, bs) == Targets(state, migrations, bs[..last]);
      }
    }
  }

  lemma SecondIsDeeper(state: State, migrations: seq<string>, bs: seq<Boundary>)
    requires Sound(migrations, bs) && bs != [] && forall b <- bs[..|bs| - 1] :: !UndoesUnreleased(state, b)
    ensures Targets(state, migrations, bs[..|bs| - 1]).Ok?
    ensures forall t <- Targets(state, migrations, bs[..|bs| - 1]).value ::
              t.steps > state.headIndex - At(migrations, bs[|bs| - 1]) && !t.currentRelease
  {
    var front := bs[..|bs| - 1];
    SoundFront(migrations, bs, |bs| - 1);
    TargetsAreOlder(state, migrations, front);
    CurrentFlagIsTrue(state, migrations, front);
    forall t | t in Targets(state, migrations, front).value
      ensures t.steps > state.headIndex - At(migrations, bs[|bs| - 1])
    {
      assert Offered(t, state, migrations, front);
      var i :| 0 <= i < |front| && front[i] == Boundary(t.version, t.terminal);
      assert bs[i] == front[i] && At(migrations, bs[i]) < At(migrations, bs[|bs| - 1]);
    }
  }

  lemma {:induction false} CurrentFlagIsTrue(state: State, migrations: seq<string>, bs: seq<Boundary>)
    requires Targets(state, migrations, bs).Ok?
    ensures forall t <- Targets(state, migrations, bs).value ::
              t.currentRelease <==> UndoesUnreleased(state, Boundary(t.version, t.terminal))
  {
    if bs != [] {
      var b := bs[|bs| - 1];
      assert Boundary(b.version, b.terminal) == b;
      if IndexOf(migrations, b.terminal).value >= state.headIndex || UndoesUnreleased(state, b) {
        CurrentFlagIsTrue(state, migrations, bs[..|bs| - 1]);
      }
    }
  }

  /** A plan made for an offered target undoes exactly its list, in order, and leaves the
      target's migration as the head. */
  lemma {:induction false} PlanReachesTarget(state: State, migrations: seq<string>, bs: seq<Boundary>, t: Target)
    requires Sound(migrations, bs) && state.headIndex < |migrations|
    requires Targets(state, migrations, bs).Ok? && t in Targets(state, migrations, bs).value
    ensures BuildRollbackPlan(state, t, migrations).Ok?
    ensures var plan := BuildRollbackPlan(state, t, migrations).value;
            var applied := migrations[..state.headIndex + 1];
            && 0 < plan.steps < |applied| && |plan.undo| == plan.steps
            && Undo(applied, plan.steps) == (migrations[..IndexOf(migrations, t.terminal).value + 1], plan.undo)
            && migrations[IndexOf(migrations, t.terminal).value] == plan.targetHead
  {
    TargetsAreOlder(state, migrations, bs);
    hide *;
    assert Offered(t, state, migrations, bs);
    OfferedIs(state, migrations, bs, t);
    var index := IndexOf(migrations, t.terminal).value;
    PlanIs(state, t, migrations, index);
    UndoFromHead(migrations, state.headIndex, index);
  }

  lemma {:induction false} PlanIs(state: State, t: Target, migrations: seq<string>, index: nat)
    requires IndexOf(migrations, t.terminal) == Some(index) && index < state.headIndex < |migrations|
    ensures BuildRollbackPlan(state, t, migrations).Ok?
    ensures var plan := BuildRollbackPlan(state, t, migrations).value;
            && plan.targetHead == t.terminal && plan.steps == t.steps
            && plan.undo == Reversed(migrations[index + 1..state.headIndex + 1])
  {
  }

  lemma {:induction false} OfferedIs(state: State, migrations: seq<string>, bs: seq<Boundary>, t: Target)
    requires Offered(t, state, migrations, bs)
    ensures var index := IndexOf(migrations, t.terminal);
            index.Some? && index.value < state.headIndex && t.steps == state.headIndex - index.value
  {
  }

  lemma {:induction false} UndoFromHead(migrations: seq<string>, head: nat, index: nat)
    requires index < head < |migrations|
    ensures Undo(migrations[..head + 1], head - index)
            == (migrations[..index + 1], Reversed(migrations[index + 1..head + 1]))
  {
    hide Undo, Reversed;
    var applied, steps := migrations[..head + 1], head - index;
    UndoIs(applied, steps);
    assert applied[..|applied| - steps] == migrations[..index + 1];
    assert applied[|applied| - steps..] == migrations[index + 1..head + 1];
  }

  /** The boundary that counts as the current release: that of the running version when it is
      at or below the head, else the newest at or below the head. */
  ghost predicate IsRelease(r: Boundary, head: nat, migrations: seq<string>, bs: seq<Boundary>, version: string)
    requires Known(migrations, bs)
  {
    && r in bs && r.terminal in migrations && At(migrations, r) <= head
    && if exists i :: 0 <= i < |bs| && bs[i].version == version && At(migrations, bs[i]) <= head
       then r.version == version
       else forall i | 0 <= i < |bs| && At(migrations, bs[i]) <= head :: At(migrations, bs[i]) <= At(migrations, r)
  }

  /** The resolved state points at its head; its release is the running version's boundary, or
      else the newest, at or below the head; pending is what was applied since. There is no
      release exactly when every boundary is above the head. */
  lemma {:induction false} StateIsFaithful(head: string, migrations: seq<string>, bs: seq<Boundary>, version: string)
    requires Sound(migrations, bs)
    ensures ResolveCurrentState(head, migrations, bs, version).Ok? <==> head in migrations
    ensures head in migrations ==>
              var s := ResolveCurrentState(head, migrations, bs, version).value;
              && s.headIndex < |migrations| && migrations[s.headIndex] == head
              && (s.release.None? ==> s.pending == [] && forall i | 0 <= i < |bs| :: At(migrations, bs[i]) > s.headIndex)
              && (s.release.Some? ==>
                   && IsRelease(s.release.value, s.headIndex, migrations, bs, version)
                   && s.pending == migrations[At(migrations, s.release.value) + 1..s.headIndex + 1])
  {
    var index := IndexOf(migrations, head);
    if index.Some? {
      ReleaseIsRight(index.value, migrations, bs, version);
      hide *;
      var release := CurrentRelease(index.value, migrations, bs, version).value;
      if release.Some? {
        ReleaseIsKnown(release.value, index.value, migrations, bs, version);
      }
      StateIs(head, migrations, bs, version, index.value, release);
    }
  }

  lemma ReleaseIsKnown(r: Boundary, head: nat, migrations: seq<string>, bs: seq<Boundary>, version: string)
    requires Known(migrations, bs) && IsRelease(r, head, migrations, bs, version)
    ensures r.terminal in migrations && At(migrations, r) <= head
  {
  }

  lemma {:induction false} StateIs(head: string, migrations: seq<string>, bs: seq<Boundary>, version: string, index: nat, release: Option<Boundary>)
    requires IndexOf(migrations, head) == Some(index) && CurrentRelease(index, migrations, bs, version) == Ok(release)
    requires release.Some? ==> release.value.terminal in migrations && At(migrations, release.value) <= index
    ensures ResolveCurrentState(head, migrations, bs, version).Ok?
    ensures var s := ResolveCurrentState(head, migrations, bs, version).value;
            && s.release == release && s.head == head && s.headIndex == index
            && s.pending == if release.None? then [] else migrations[At(migrations, release.value) + 1..index + 1]
  {
    hide CurrentRelease;
    if release.Some? {
      var at := At(migrations, release.value);
      assert at == index ==> migrations[at + 1..index + 1] == [];
    }
  }

  lemma NewestSkips(head: nat, migrations: seq<string>, bs: seq<Boundary>)
    requires Known(migrations, bs) && bs != [] && At(migrations, bs[|bs| - 1]) > head
    ensures NewestAtMost(head, migrations, bs) == NewestAtMost(head, migrations, bs[..|bs| - 1])
  {
  }

  lemma {:induction false} NewestIsRight(head: nat, migrations: seq<string>, bs: seq<Boundary>)
    requires Known(migrations, bs) && Ordered(migrations, bs)
    ensures NewestAtMost(head, migrations, bs).Ok?
    ensures var r := NewestAtMost(head, migrations, bs).value;
            && (r.Some? ==>
                 && r.value in bs && r.value.terminal in migrations && At(migrations, r.value) <= head
                 && forall i | 0 <= i < |bs| && At(migrations, bs[i]) <= head :: At(migrations, bs[i]) <= At(migrations, r.value))
            && (r.None? ==> forall i | 0 <= i < |bs| :: At(migrations, bs[i]) > head)
  {
    if bs != [] {
      var last := |bs| - 1;
      var front := bs[..last];
      hide IndexOf;
      assert forall i | 0 <= i < last :: front[i] == bs[i];
      NewestIsRight(head, migrations, front);
      if At(migrations, bs[last]) <= head {
        assert forall i | 0 <= i < last :: At(migrations, bs[i]) < At(migrations, bs[last]);
      } else {
        hide Ordered, At;
        NewestSkips(head, migrations, bs);
      }
    }
  }

  lemma {:induction false} WithVersionFinds(bs: seq<Boundary>, version: string)
    ensures var r := WithVersion(bs, version);
            && (r.Some? ==> r.value in bs && r.value.version == version)
            && (r.None? ==> forall i | 0 <= i < |bs| :: bs[i].version != version)
  {
    if bs != [] {
      WithVersionFinds(bs[1..], version);
      assert forall i | 0 < i < |bs| :: bs[i] == bs[1..][i - 1];
    }
  }

  lemma OnlyOneHasVersion(bs: seq<Boundary>, r: Boundary, version: string)
    requires DistinctVersions(bs) && r in bs && r.version == version
    ensures forall i | 0 <= i < |bs| && bs[i].version == version :: bs[i] == r
  {
    var j :| 0 <= j < |bs| && bs[j] == r;
    forall i | 0 <= i < |bs| && bs[i].version == version ensures i == j {
    }
  }

  lemma {:induction false} ReleaseIsRight(head: nat, migrations: seq<string>, bs: seq<Boundary>, version: string)
    requires Sound(migrations, bs)
    ensures CurrentRelease(head, migrations, bs, version).Ok?
    ensures var r := CurrentRelease(head, migrations, bs, version).value;
            && (r.Some? ==> IsRelease(r.value, head, migrations, bs, version))
            && (r.None? ==> forall i | 0 <= i < |bs| :: At(migrations, bs[i]) > head)
  {
    NewestIsRight(head, migrations, bs);
    WithVersionFinds(bs, version);
    var named := WithVersion(bs, version);
    if named.Some? {
      OnlyOneHasVersion(bs, named.value, version);
    }
    hide NewestAtMost, WithVersion, Ordered, DistinctVersions, DistinctTerminals;
  }
}
