/** The worker pool of the skeleton build: one shared counter hands out the jobs. */
module WorkQueue {
  import opened BuildCache

  /** A worker is about to claim, is building a job, or has left its loop. */
  datatype Worker = Claiming | Building(job: nat) | Stopped

  datatype Pool = Pool(
    jobs: nat,
    next: nat,
    workers: seq<Worker>,
    finished: seq<nat>,
    built: nat,
    cached: nat,
    errors: nat)

  datatype Action = Claim(w: nat) | Finish(w: nat, outcome: Outcome)

  ghost function Start(jobs: nat, workerCount: nat): Pool {
    var n := if workerCount < jobs then workerCount else jobs;
    Pool(jobs, 0, seq(n, _ => Claiming), [], 0, 0, 0)
  }

  ghost predicate Enabled(p: Pool, a: Action) {
    a.w < |p.workers| && if a.Claim? then p.workers[a.w].Claiming? else p.workers[a.w].Building?
  }

  ghost function Next(p: Pool, a: Action): Pool
    requires Enabled(p, a)
  {
    match a
    case Claim(w) =>
      p.(next := p.next + 1, workers := p.workers[w := if p.next < p.jobs then Building(p.next) else Stopped])
    case Finish(w, outcome) =>
      Tally(p, outcome).(finished := p.finished + [p.workers[w].job], workers := p.workers[w := Claiming])
  }

  ghost function Tally(p: Pool, outcome: Outcome): Pool {
    match outcome
    case Built => p.(built := p.built + 1)
    case Cached => p.(cached := p.cached + 1)
    case Failed => p.(errors := p.errors + 1)
  }

  ghost predicate Valid(p: Pool, run: seq<Action>)
    decreases |run|
  {
    run == [] || (Enabled(p, run[0]) && Valid(Next(p, run[0]), run[1..]))
  }

  ghost function After(p: Pool, run: seq<Action>): Pool
    requires Valid(p, run)
    decreases |run|
  {
    if run == [] then p else After(Next(p, run[0]), run[1..])
  }

  // -------------------------------------------------------------- invariant

  ghost function Min(a: nat, b: nat): nat {
    if a < b then a else b
  }

  /** How often job `i` was finished. */
  ghost function Times(finished: seq<nat>, i: nat): nat {
    if finished == [] then 0
    else Times(finished[..|finished| - 1], i) + if finished[|finished| - 1] == i then 1 else 0
  }

  /** How many workers are building job `i` right now. */
  ghost function Hands(workers: seq<Worker>, i: nat): nat {
    if workers == [] then 0
    else Hands(workers[..|workers| - 1], i) + Holds(workers[|workers| - 1], i)
  }

  ghost function Holds(worker: Worker, i: nat): nat {
    if worker == Building(i) then 1 else 0
  }

  /** How many workers are building, and the steps all workers still owe. */
  ghost function Busy(workers: seq<Worker>): nat {
    if workers == [] then 0 else Busy(workers[..|workers| - 1]) + Works(workers[|workers| - 1])
  }

  ghost function Works(worker: Worker): nat {
    if worker.Building? then 1 else 0
  }

  ghost function Owed(workers: seq<Worker>): nat {
    if workers == [] then 0 else Owed(workers[..|workers| - 1]) + Debt(workers[|workers| - 1])
  }

  ghost function Debt(worker: Worker): nat {
    match worker
    case Claiming => 1
    case Building(_) => 2
    case Stopped => 0
  }

  ghost function Remaining(p: Pool): nat {
    2 * (p.jobs - Min(p.next, p.jobs)) + Owed(p.workers)
  }

  ghost predicate Once(p: Pool, i: nat) {
    Times(p.finished, i) + Hands(p.workers, i) == if i < Min(p.next, p.jobs) then 1 else 0
  }

  ghost predicate Booked(p: Pool) {
    && |p.finished| + Busy(p.workers) == Min(p.next, p.jobs)
    && p.built + p.cached + p.errors == |p.finished|
  }

  ghost predicate Staffed(p: Pool) {
    && (p.jobs > 0 ==> |p.workers| > 0)
    && (forall w :: 0 <= w < |p.workers| && p.workers[w].Stopped? ==> p.next >= p.jobs)
  }

  ghost predicate Inv(p: Pool) {
    && (forall i: nat :: Once(p, i)) && Booked(p) && Staffed(p)
  }

  lemma {:induction false} HandsUpdate(workers: seq<Worker>, w: nat, to: Worker, i: nat)
    requires w < |workers|
    ensures Hands(workers[w := to], i) == Hands(workers, i) - Holds(workers[w], i) + Holds(to, i)
  {
    hide Holds;
    var last := |workers| - 1;
    var changed := workers[w := to];
    if w < last {
      HandsUpdate(workers[..last], w, to, i);
      assert changed[..last] == workers[..last][w := to];
    } else {
      assert changed[..last] == workers[..last];
    }
  }

  lemma {:induction false} SumsUpdate(workers: seq<Worker>, w: nat, to: Worker)
    requires w < |workers|
    ensures Busy(workers[w := to]) == Busy(workers) - Works(workers[w]) + Works(to)
    ensures Owed(workers[w := to]) == Owed(workers) - Debt(workers[w]) + Debt(to)
  {
    hide Works, Debt;
    var last := |workers| - 1;
    var changed := workers[w := to];
    if w < last {
      SumsUpdate(workers[..last], w, to);
      assert changed[..last] == workers[..last][w := to];
    } else {
      assert changed[..last] == workers[..last];
    }
  }

  lemma {:induction false} IdlePool(n: nat, i: nat)
    ensures var workers := seq(n, _ => Claiming);
            Hands(workers, i) == 0 && Busy(workers) == 0 && Owed(workers) == n
  {
    if n > 0 {
      var workers := seq(n, _ => Claiming);
      assert workers[..n - 1] == seq(n - 1, _ => Claiming);
      IdlePool(n - 1, i);
    }
  }

  lemma StartIsValid(jobs: nat, workerCount: nat)
    requires workerCount > 0
    ensures Inv(Start(jobs, workerCount))
    ensures Remaining(Start(jobs, workerCount)) == 2 * jobs + Min(workerCount, jobs)
    ensures |Start(jobs, workerCount).workers| == Min(workerCount, jobs)
  {
    forall i: nat
      ensures Once(Start(jobs, workerCount), i)
    {
      IdlePool(Min(workerCount, jobs), i);
    }
    IdlePool(Min(workerCount, jobs), 0);
  }

  lemma StepKeepsOnce(p: Pool, a: Action, i: nat)
    requires Once(p, i) && Enabled(p, a)
    ensures Once(Next(p, a), i)
  {
    hide Hands;
    var q := Next(p, a);
    HandsUpdate(p.workers, a.w, q.workers[a.w], i);
    if a.Finish? {
      assert q.finished[..|p.finished|] == p.finished;
    }
  }

  lemma StepKeepsBooks(p: Pool, a: Action)
    requires Booked(p) && Enabled(p, a)
    ensures Booked(Next(p, a)) && Remaining(Next(p, a)) == Remaining(p) - 1
  {
    hide Busy, Owed;
    SumsUpdate(p.workers, a.w, Next(p, a).workers[a.w]);
  }

  /** Every step keeps the books and pays exactly one unit of what remains. */
  lemma StepKeepsInv(p: Pool, a: Action)
    requires Inv(p) && Enabled(p, a)
    ensures Inv(Next(p, a)) && Remaining(Next(p, a)) == Remaining(p) - 1
  {
    assert Staffed(Next(p, a));
    hide Once, Booked, Staffed, Remaining, Next, Enabled;
    StepKeepsBooks(p, a);
    forall i: nat
      ensures Once(Next(p, a), i)
    {
      StepKeepsOnce(p, a, i);
    }
  }

  lemma {:induction false} RunKeepsInv(p: Pool, run: seq<Action>)
    requires Inv(p) && Valid(p, run)
    ensures Inv(After(p, run)) && After(p, run).jobs == p.jobs && |After(p, run).workers| == |p.workers|
    ensures Remaining(After(p, run)) == Remaining(p) - |run|
    decreases |run|
  {
    hide Inv, Remaining;
    if run != [] {
      StepKeepsInv(p, run[0]);
      assert Next(p, run[0]).jobs == p.jobs && |Next(p, run[0]).workers| == |p.workers|;
      RunKeepsInv(Next(p, run[0]), run[1..]);
    }
  }

  // ---------------------------------------------------------------- results

  ghost predicate AllStopped(p: Pool) {
    forall w :: 0 <= w < |p.workers| ==> p.workers[w].Stopped?
  }

  lemma {:induction false} NothingOwed(workers: seq<Worker>, i: nat)
    ensures Owed(workers) == 0 <==> forall w :: 0 <= w < |workers| ==> workers[w].Stopped?
    ensures Owed(workers) == 0 ==> Busy(workers) == 0 && Hands(workers, i) == 0
  {
    if workers != [] {
      var front, last := workers[..|workers| - 1], workers[|workers| - 1];
      NothingOwed(front, i);
      assert forall w :: 0 <= w < |front| ==> front[w] == workers[w];
    }
  }

  /** The state every run from the start reaches. */
  lemma Reached(jobs: nat, workerCount: nat, run: seq<Action>) returns (end: Pool)
    requires workerCount > 0 && Valid(Start(jobs, workerCount), run)
    ensures end == After(Start(jobs, workerCount), run) && Inv(end)
    ensures end.jobs == jobs && |end.workers| == Min(workerCount, jobs)
    ensures Remaining(end) == 2 * jobs + Min(workerCount, jobs) - |run|
  {
    hide *;
    StartIsValid(jobs, workerCount);
    RunKeepsInv(Start(jobs, workerCount), run);
    end := After(Start(jobs, workerCount), run);
    assert Start(jobs, workerCount).jobs == jobs by {
      StartJobs(jobs, workerCount);
    }
  }

  lemma StartJobs(jobs: nat, workerCount: nat)
    ensures Start(jobs, workerCount).jobs == jobs
  {
  }

  lemma StoppedHasClaimedAll(p: Pool, i: nat)
    requires Inv(p) && AllStopped(p)
    ensures p.next >= p.jobs && Busy(p.workers) == 0 && Hands(p.workers, i) == 0 && Owed(p.workers) == 0
  {
    hide Once, Booked, Busy, Hands, Owed;
    NothingOwed(p.workers, i);
    assert |p.workers| > 0 ==> p.workers[0].Stopped?;
  }

  /** How many jobs finished with this outcome. */
  ghost function Finishes(run: seq<Action>, outcome: Outcome): nat {
    if run == [] then 0
    else (if run[0].Finish? && run[0].outcome == outcome then 1 else 0) + Finishes(run[1..], outcome)
  }

  /** Each counter counts the jobs that finished with its own outcome. */
  lemma {:induction false} CountersTell(p: Pool, run: seq<Action>)
    requires Valid(p, run)
    ensures var end := After(p, run);
            && end.built == p.built + Finishes(run, Built)
            && end.cached == p.cached + Finishes(run, Cached)
            && end.errors == p.errors + Finishes(run, Failed)
    decreases |run|
  {
    if run != [] {
      CountersTell(Next(p, run[0]), run[1..]);
    }
  }

  /** Whatever the interleaving, when the pool has stopped each job was built exactly once
      and every job is counted as built, cached or failed. */
  lemma EachJobOnce(jobs: nat, workerCount: nat, run: seq<Action>, i: nat)
    requires workerCount > 0 && Valid(Start(jobs, workerCount), run)
    requires AllStopped(After(Start(jobs, workerCount), run))
    ensures var end := After(Start(jobs, workerCount), run);
            && Times(end.finished, i) == (if i < jobs then 1 else 0)
            && end.built + end.cached + end.errors == jobs
            && end.built == Finishes(run, Built) && end.cached == Finishes(run, Cached) && end.errors == Finishes(run, Failed)
  {
    CountersTell(Start(jobs, workerCount), run);
    hide Valid, After, Times, Hands, Busy, Finishes;
    var end := Reached(jobs, workerCount, run);
    hide Start;
    StoppedHasClaimedAll(end, i);
    assert Once(end, i);
  }

  /** At no time is one job in two hands, or in hand again once finished. */
  lemma NeverTwice(jobs: nat, workerCount: nat, run: seq<Action>, i: nat)
    requires workerCount > 0 && Valid(Start(jobs, workerCount), run)
    ensures var end := After(Start(jobs, workerCount), run);
            Times(end.finished, i) + Hands(end.workers, i) <= (if i < jobs then 1 else 0)
  {
    hide Valid, After, Start, Times, Hands, Busy;
    var end := Reached(jobs, workerCount, run);
    assert Once(end, i);
  }

  /** No run is longer than two steps a job and one a worker; exactly the runs of that
      length have stopped every worker, and any shorter run can go on. */
  lemma PoolStops(jobs: nat, workerCount: nat, run: seq<Action>)
    requires workerCount > 0 && Valid(Start(jobs, workerCount), run)
    ensures |run| <= 2 * jobs + Min(workerCount, jobs)
    ensures AllStopped(After(Start(jobs, workerCount), run)) <==> |run| == 2 * jobs + Min(workerCount, jobs)
    ensures !AllStopped(After(Start(jobs, workerCount), run)) ==>
              exists a :: Enabled(After(Start(jobs, workerCount), run), a)
  {
    hide Valid, After, Start, Inv, Owed;
    var end := Reached(jobs, workerCount, run);
    NothingOwed(end.workers, 0);
    if AllStopped(end) {
      StoppedHasClaimedAll(end, 0);
    } else {
      var w :| 0 <= w < |end.workers| && !end.workers[w].Stopped?;
      assert Enabled(end, if end.workers[w].Claiming? then Claim(w) else Finish(w, Built));
    }
  }
}
