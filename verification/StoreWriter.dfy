/** The writer as the code runs it: one call, statement by statement, in a retry loop.

    The rest of the world is a script of attempts. Each entry says what the database holds
    when that attempt begins (rivals may have published anything since the last one) and which
    statement fails with which result code. A rival that publishes during an attempt shows up
    as a failing statement, since a stale snapshot can no longer write. */
module StoreWriter {
  import opened Options
  import opened Store

  datatype Fault = Fine | Error(code: Option<string>)

  predicate IsRetryable(f: Fault) {
    f.Error? && f.code.Some? && (f.code.value == "1555" || f.code.value == "5" || f.code.value == "517")
  }

  /** What happens to the statements of one item: find, conditional update, update or insert. */
  datatype ItemFaults = ItemFaults(find: Fault, lock: Fault, save: Fault)

  datatype Attempt = Attempt(rivals: Table, begin: Fault, clocks: seq<nat>, faults: seq<ItemFaults>, commit: Fault)

  datatype UpsertErr = Conflict | Retry | Database

  datatype Result<T> = Ok(value: T) | Err(error: UpsertErr)

  function Classify(f: Fault): UpsertErr {
    if IsRetryable(f) then Retry else Database
  }

  /** Primary-key races and a busy or stale write lock are retried; a missing code and every
      other one, such as the business-key conflict 2067, is not. */
  lemma WhichCodesRetry(code: Option<string>)
    ensures IsRetryable(Error(code)) <==> code in {Some("5"), Some("517"), Some("1555")}
    ensures !IsRetryable(Error(Some("2067"))) && !IsRetryable(Error(None)) && !IsRetryable(Fine)
  {
  }

  /** Some fault of the item explains this error. */
  predicate Explains(f: ItemFaults, error: UpsertErr) {
    || (f.find.Error? && error == Classify(f.find))
    || (f.lock.Error? && error == Classify(f.lock))
    || (f.save.Error? && error == Classify(f.save))
  }

  /** The error of the first failing statement of one upsert, if any fails: the read, then over
      an existing row of a checked write the conditional update, then the save. */
  function UpsertError(view: Table, config: Row, checked: bool, f: ItemFaults): Option<UpsertErr> {
    var conditional := checked && config.key in view;
    if f.find.Error? then Some(Classify(f.find))
    else if conditional && f.lock.Error? then Some(Classify(f.lock))
    else if conditional && view[config.key].version != config.version then Some(UpsertErr.Conflict)
    else if f.save.Error? then Some(Classify(f.save))
    else None
  }

  function DeleteError(view: Table, key: Key, f: ItemFaults): Option<UpsertErr> {
    if f.find.Error? then Some(Classify(f.find))
    else if key in view && f.save.Error? then Some(Classify(f.save))
    else None
  }

  function ItemError(view: Table, call: Call, i: nat, f: ItemFaults): Option<UpsertErr>
    requires i < Items(call) && !call.Import?
  {
    match call
    case Upsert(configs, checked) => UpsertError(view, configs[i], checked, f)
    case Delete(key) => DeleteError(view, key, f)
  }

  /** The error that stops the first `n` items of a call run on `t`, if one does. */
  ghost function BodyError(t: Table, call: Call, clocks: seq<nat>, faults: seq<ItemFaults>, n: nat): Option<UpsertErr>
    requires n <= Items(call) == |clocks| == |faults| && !call.Import?
  {
    if n == 0 then None
    else if BodyError(t, call, clocks, faults, n - 1).Some? then BodyError(t, call, clocks, faults, n - 1)
    else match Prefix(t, call, clocks[..n - 1])
      case None => Some(UpsertErr.Conflict)
      case Some(events) => ItemError(ApplyAll(t, events), call, n - 1, faults[n - 1])
  }

  /** The error an attempt ends with, None for a commit. A failing begin is never retried. */
  ghost function AttemptError(call: Call, a: Attempt): Option<UpsertErr>
    requires |a.clocks| == |a.faults| == Items(call) && !call.Import?
  {
    if a.begin.Error? then Some(Database)
    else if BodyError(a.rivals, call, a.clocks, a.faults, Items(call)).Some?
    then BodyError(a.rivals, call, a.clocks, a.faults, Items(call))
    else if a.commit.Error? then Some(Classify(a.commit))
    else None
  }

  /** How a call ends when its last attempt ends with `error`. */
  ghost predicate Ends(r: Outcome, error: Option<UpsertErr>) {
    match error
    case None => r.Committed?
    case Some(Conflict) => r.Conflict?
    case Some(Retry) => r.Exhausted?
    case Some(Database) => r.Failed?
  }

  lemma ItemErrorIsExplained(view: Table, call: Call, i: nat, f: ItemFaults, now: nat)
    requires i < Items(call) && !call.Import?
    ensures var e := ItemError(view, call, i, f);
            && (e == Some(UpsertErr.Conflict) ==> ItemOf(view, call, i, now) == Clash)
            && (e.Some? && e.value != UpsertErr.Conflict ==> Explains(f, e.value))
            && (e.None? ==> !ItemOf(view, call, i, now).Clash? && !ItemOf(view, call, i, now).Duplicate?)
            && (f == ItemFaults(Fine, Fine, Fine) ==> (e.Some? <==> ItemOf(view, call, i, now) == Clash))
  {
  }

  /** What stops a body: a conflict only where the call has none, any other error by a fault;
      without an error the items succeed, and without faults only a conflict can stop them. */
  lemma {:induction false} BodyErrorIsExplained(t: Table, call: Call, clocks: seq<nat>, faults: seq<ItemFaults>, n: nat)
    requires n <= Items(call) == |clocks| == |faults| && !call.Import?
    ensures var e := BodyError(t, call, clocks, faults, n);
            && (e.None? ==> Prefix(t, call, clocks[..n]).Some?)
            && (e == Some(UpsertErr.Conflict) ==> Prefix(t, call, clocks[..n]) == None)
            && (e.Some? && e.value != UpsertErr.Conflict ==> exists i :: 0 <= i < n && Explains(faults[i], e.value))
            && ((forall i | 0 <= i < n :: faults[i] == ItemFaults(Fine, Fine, Fine)) ==>
                  e == if Prefix(t, call, clocks[..n]).Some? then None else Some(UpsertErr.Conflict))
  {
    hide Prefix, ApplyAll, ItemError, ItemOf, Explains;
    if n == 0 {
      EmptyRun(t, call);
      assert clocks[..0] == [];
    } else {
      BodyErrorIsExplained(t, call, clocks, faults, n - 1);
      assert clocks[..n - 1] == clocks[..n][..n - 1];
      if Prefix(t, call, clocks[..n - 1]).Some? {
        var view := ApplyAll(t, Prefix(t, call, clocks[..n - 1]).value);
        ItemErrorIsExplained(view, call, n - 1, faults[n - 1], clocks[n - 1]);
        PrefixSnoc(t, call, clocks[..n - 1], clocks[n - 1]);
        assert clocks[..n - 1] + [clocks[n - 1]] == clocks[..n];
      } else {
        FailureSpreads(t, call, clocks[..n], n - 1);
      }
    }
  }

  ghost predicate Faultless(a: Attempt) {
    && a.begin.Fine? && a.commit.Fine?
    && forall i | 0 <= i < |a.faults| :: a.faults[i] == ItemFaults(Fine, Fine, Fine)
  }

  /** Why an attempt fails for good, and what becomes of an attempt without faults. */
  lemma AttemptErrorIsExplained(call: Call, a: Attempt)
    requires |a.clocks| == |a.faults| == Items(call) && !call.Import?
    ensures AttemptError(call, a) == Some(Database) ==>
              || a.begin.Error?
              || (a.commit.Error? && !IsRetryable(a.commit))
              || exists i :: 0 <= i < |a.faults| && Explains(a.faults[i], Database)
    ensures AttemptError(call, a) == Some(Retry) ==> a.begin.Fine? && LostRace(a)
    ensures AttemptError(call, a) == Some(UpsertErr.Conflict) ==> call.Upsert? && Effect(a.rivals, call, a.clocks) == None
    ensures AttemptError(call, a).None? ==> Effect(a.rivals, call, a.clocks).Some?
    ensures Faultless(a) ==>
              AttemptError(call, a) == if Effect(a.rivals, call, a.clocks).Some? then None else Some(UpsertErr.Conflict)
  {
    BodyErrorIsExplained(a.rivals, call, a.clocks, a.faults, Items(call));
    assert a.clocks[..Items(call)] == a.clocks;
    DeletesDoNotConflict(a.rivals, call, a.clocks);
    hide Prefix, BodyError;
  }

  lemma DeletesDoNotConflict(t: Table, call: Call, clocks: seq<nat>)
    requires |clocks| == Items(call)
    ensures call.Delete? ==> Effect(t, call, clocks).Some?
  {
    hide Effect;
    if call.Delete? {
      DeleteRemovesTheKey(t, call.key, clocks[0]);
      assert clocks == [clocks[0]];
    }
  }

  /** An open transaction: the rows it sees, its own writes included. */
  class Transaction {
    var view: Table

    constructor (snapshot: Table)
      ensures view == snapshot
    {
      view := snapshot;
    }

    method UpsertInner(config: Row, checked: bool, now: nat, f: ItemFaults) returns (r: Result<Event>)
      modifies this
      ensures r.Ok? ==> UpsertRow(old(view), config, checked, now) == Emit(r.value)
                        && view == Apply(old(view), r.value)
      ensures r == Err(UpsertErr.Conflict) ==> UpsertRow(old(view), config, checked, now) == Clash
      ensures r.Err? && r.error != UpsertErr.Conflict ==> Explains(f, r.error)
      ensures r.Err? <==> UpsertError(old(view), config, checked, f).Some?
      ensures r.Err? ==> UpsertError(old(view), config, checked, f) == Some(r.error)
    {
      if f.find.Error? {
        return Err(Classify(f.find));
      }
      var stored := Lookup(view, config.key);
      var version := if stored.Some? then NextVersion(stored.value.version, now) else now;
      var refreshed := config.(version := version);
      if stored.Some? && checked {
        if f.lock.Error? {
          return Err(Classify(f.lock));
        }
        if view[config.key].version != config.version {
          return Err(UpsertErr.Conflict);
        }
        view := view[config.key := view[config.key].(version := version)];
      }
      if f.save.Error? {
        return Err(Classify(f.save));
      }
      view := view[config.key := refreshed];
      r := Ok(Wrote(stored, refreshed, config.version, checked));
    }

    method UpsertManyInner(configs: seq<Row>, checked: bool, clocks: seq<nat>, faults: seq<ItemFaults>)
      returns (r: Result<seq<Event>>)
      requires |clocks| == |faults| == |configs|
      modifies this
      ensures r.Ok? ==> Effect(old(view), Upsert(configs, checked), clocks) == Some(r.value)
                        && view == ApplyAll(old(view), r.value)
      ensures var e := BodyError(old(view), Upsert(configs, checked), clocks, faults, |configs|);
              (r.Err? <==> e.Some?) && (r.Err? ==> e == Some(r.error))
    {
      hide Prefix, ApplyAll, UpsertError;
      var call := Upsert(configs, checked);
      var changes: seq<Event> := [];
      EmptyRun(view, call);
      for i := 0 to |configs|
        invariant Prefix(old(view), call, clocks[..i]) == Some(changes)
        invariant view == ApplyAll(old(view), changes)
        invariant BodyError(old(view), call, clocks, faults, i).None?
      {
        assert clocks[..i] + [clocks[i]] == clocks[..i + 1];
        PrefixSnoc(old(view), call, clocks[..i], clocks[i]);
        var change := UpsertInner(configs[i], checked, clocks[i], faults[i]);
        assert BodyError(old(view), call, clocks, faults, i + 1) == UpsertError(ApplyAll(old(view), changes), configs[i], checked, faults[i]);
        if change.Err? {
          FirstErrorStays(old(view), call, clocks, faults, i + 1, |configs|);
          return Err(change.error);
        }
        changes := changes + [change.value];
      }
      assert clocks[..|configs|] == clocks;
      r := Ok(changes);
    }

    /** Read and delete; the deleted row is the event's content. */
    method DeleteInner(key: Key, clocks: seq<nat>, f: ItemFaults) returns (r: Result<seq<Event>>)
      requires |clocks| == 1
      modifies this
      ensures r.Ok? ==> Effect(old(view), Delete(key), clocks) == Some(r.value)
                        && view == ApplyAll(old(view), r.value)
      ensures r.Err? <==> DeleteError(old(view), key, f).Some?
      ensures r.Err? ==> DeleteError(old(view), key, f) == Some(r.error)
    {
      hide Prefix, ApplyAll;
      EmptyRun(view, Delete(key));
      PrefixSnoc(view, Delete(key), [], clocks[0]);
      assert [] + clocks == clocks == [clocks[0]];
      if f.find.Error? {
        return Err(Classify(f.find));
      }
      if key in view {
        if f.save.Error? {
          return Err(Classify(f.save));
        }
        var gone := view[key];
        ghost var was := view;
        view := view - {gone.key};
        DeleteIsOneItem(was, key, clocks[0]);
        r := Ok([Erased(gone)]);
      } else {
        r := Ok([]);
      }
    }
  }

  lemma {:induction false} FirstErrorStays(t: Table, call: Call, clocks: seq<nat>, faults: seq<ItemFaults>, m: nat, n: nat)
    requires m <= n <= Items(call) == |clocks| == |faults| && !call.Import?
    requires BodyError(t, call, clocks, faults, m).Some?
    ensures BodyError(t, call, clocks, faults, n) == BodyError(t, call, clocks, faults, m)
  {
    if m < n {
      FirstErrorStays(t, call, clocks, faults, m, n - 1);
    }
  }

  lemma DeleteIsOneItem(t: Table, key: Key, now: nat)
    requires key in t
    ensures Prefix(t, Delete(key), [now]) == Some([Erased(t[key])])
    ensures ApplyAll(t, [Erased(t[key])]) == t - {t[key].key}
  {
    PrefixSnoc(t, Delete(key), [], now);
  }

  lemma {:induction false} FailureSpreads(t: Table, call: Call, clocks: seq<nat>, i: nat)
    requires i <= |clocks| <= Items(call) && Prefix(t, call, clocks[..i]) == None
    ensures Prefix(t, call, clocks) == None
  {
    if Prefix(t, call, clocks).Some? {
      PrefixShorter(t, call, clocks, i);
    }
  }

  /** Verdicts of the three validators on one configuration: content, zone, and the cross-domain
      check, which may hand back a rewritten configuration. */
  datatype Verdict = Verdict(content: bool, zone: bool, cross: Option<Row>)

  predicate Passes(v: Verdict) {
    v.content && v.zone && v.cross.Some?
  }

  /** The script answers for this call: clocks and faults for each of its items. */
  ghost predicate Scripted(world: nat -> Attempt, call: Call) {
    forall i: nat :: |world(i).clocks| == |world(i).faults| == Items(call)
  }

  /** The attempt ran into a retryable error, in its body or at commit. */
  predicate LostRace(a: Attempt) {
    || IsRetryable(a.commit)
    || exists i | 0 <= i < |a.faults| :: Explains(a.faults[i], Retry)
  }

  lemma DeleteBody(t: Table, call: Call, clocks: seq<nat>, faults: seq<ItemFaults>)
    requires call.Delete? && |clocks| == |faults| == 1
    ensures BodyError(t, call, clocks, faults, 1) == DeleteError(t, call.key, faults[0])
  {
    EmptyRun(t, call);
    assert clocks[..0] == [];
    assert BodyError(t, call, clocks, faults, 0) == None;
  }

  /** Progress: while races are lost the loop goes on, and it ends with the first attempt that
      loses none. If attempts before `n` lost races and attempt `n` has no fault, the call ends
      there: with the call's effect, or with a conflict where it has none. */
  lemma LoopEndsAtFirstWin(call: Call, world: nat -> Attempt, r: Outcome, attempts: nat, n: nat)
    requires !call.Import? && Scripted(world, call) && 1 <= attempts <= MAX_RETRIES && n < MAX_RETRIES
    requires forall i | 0 <= i < attempts - 1 :: AttemptError(call, world(i)) == Some(Retry)
    requires Ends(r, AttemptError(call, world(attempts - 1))) && (r.Exhausted? ==> attempts == MAX_RETRIES)
    requires (forall i | 0 <= i < n :: AttemptError(call, world(i)) == Some(Retry)) && Faultless(world(n))
    ensures attempts == n + 1
    ensures if Effect(world(n).rivals, call, world(n).clocks).Some? then r.Committed? else r.Conflict?
  {
    hide AttemptError, Prefix;
    AttemptErrorIsExplained(call, world(n));
  }

  class StoreWriter {
    /** The committed rows. */
    var table: Table

    constructor (rows: Table)
      ensures table == rows
    {
      table := rows;
    }

    /** The retry loop around an upsert batch or a delete. `attempts` counts transactions begun.
        Every attempt but the last lost a race; the last one decides the outcome. */
    method Execute(call: Call, world: nat -> Attempt) returns (r: Outcome, attempts: nat)
      requires !call.Import? && Scripted(world, call)
      modifies this
      ensures 1 <= attempts <= MAX_RETRIES && !r.Rejected?
      ensures forall i | 0 <= i < attempts - 1 :: AttemptError(call, world(i)) == Some(Retry)
      ensures Ends(r, AttemptError(call, world(attempts - 1)))
      ensures r.Exhausted? ==> attempts == MAX_RETRIES
      ensures r.Committed? ==>
                && Effect(world(attempts - 1).rivals, call, world(attempts - 1).clocks) == Some(r.events)
                && table == ApplyAll(world(attempts - 1).rivals, r.events)
      ensures !r.Committed? ==> table == world(attempts - 1).rivals
    {
      var retries: nat := 0;
      attempts := 0;
      while true
        invariant attempts == retries < MAX_RETRIES
        invariant forall i | 0 <= i < attempts :: AttemptError(call, world(i)) == Some(Retry)
        decreases MAX_RETRIES - retries
      {
        var now := world(retries);
        table := now.rivals;
        attempts := attempts + 1;
        if now.begin.Error? {
          return Failed, attempts;
        }
        var txn := new Transaction(table);
        var result;
        if call.Upsert? {
          result := txn.UpsertManyInner(call.configs, call.checked, now.clocks, now.faults);
        } else {
          result := txn.DeleteInner(call.key, now.clocks, now.faults[0]);
          DeleteBody(now.rivals, call, now.clocks, now.faults);
        }
        if result.Ok? {
          if now.commit.Fine? {
            table := txn.view;
            return Committed(result.value), attempts;
          }
          if !IsRetryable(now.commit) {
            return Failed, attempts;
          }
        } else if result.error == UpsertErr.Conflict {
          return Outcome.Conflict, attempts;
        } else if result.error == Database {
          return Failed, attempts;
        }
        retries := retries + 1;
        if retries == MAX_RETRIES {
          return Exhausted, attempts;
        }
      }
    }

    /** The checked batch of a repository: validators first, in order, then the writer.
        A refusal begins no transaction and changes nothing. */
    method CheckedUpsertMany(configs: seq<Row>, verdicts: seq<Verdict>, world: nat -> Attempt)
      returns (r: Outcome, attempts: nat, accepted: seq<Row>)
      requires |verdicts| == |configs| && Scripted(world, Upsert(configs, true))
      modifies this
      ensures r.Rejected? <==> exists i :: 0 <= i < |verdicts| && !Passes(verdicts[i])
      ensures r.Rejected? ==> attempts == 0 && table == old(table)
      ensures !r.Rejected? ==>
                && |accepted| == |configs|
                && forall i | 0 <= i < |configs| :: verdicts[i].cross == Some(accepted[i])
      ensures !r.Rejected? ==>
                && 1 <= attempts <= MAX_RETRIES
                && (forall i | 0 <= i < attempts - 1 :: AttemptError(Upsert(accepted, true), world(i)) == Some(Retry))
                && Ends(r, AttemptError(Upsert(accepted, true), world(attempts - 1)))
                && (r.Exhausted? ==> attempts == MAX_RETRIES)
      ensures r.Committed? ==>
                && Effect(world(attempts - 1).rivals, Upsert(accepted, true), world(attempts - 1).clocks) == Some(r.events)
                && table == ApplyAll(world(attempts - 1).rivals, r.events)
      ensures !r.Committed? && !r.Rejected? ==> table == world(attempts - 1).rivals
    {
      accepted := [];
      for i := 0 to |configs|
        invariant |accepted| == i && table == old(table)
        invariant forall j | 0 <= j < i :: Passes(verdicts[j]) && verdicts[j].cross == Some(accepted[j])
      {
        if !verdicts[i].content || !verdicts[i].zone || verdicts[i].cross.None? {
          assert !Passes(verdicts[i]);
          return Rejected, 0, accepted;
        }
        accepted := accepted + [verdicts[i].cross.value];
      }
      r, attempts := Execute(Upsert(accepted, true), world);
    }

    /** Import of an initial configuration: one transaction, no retry. `hook` is what the
        caller's before-commit closure returned. */
    method TruncateAndFit(rows: seq<Row>, fault: seq<Fault>, hook: bool, begin: Fault, commit: Fault) returns (ok: bool)
      requires |fault| == 1 + |rows|
      modifies this
      ensures ok <==>
              && begin.Fine? && commit.Fine? && hook && (forall i | 0 <= i < |fault| :: fault[i].Fine?)
              && DistinctKeys(rows)
      ensures ok ==> HoldsExactly(table, rows)
      ensures !ok ==> table == old(table)
    {
      if begin.Error? || fault[0].Error? {
        return false;
      }
      var view: Table := map[];
      for i := 0 to |rows|
        invariant table == old(table)
        invariant forall j | 0 <= j <= i :: fault[j].Fine?
        invariant HoldsExactly(view, rows[..i]) && DistinctKeys(rows[..i])
      {
        assert rows[..i] + [rows[i]] == rows[..i + 1];
        DistinctOneMore(view, rows[..i], rows[i]);
        if fault[i + 1].Error? || rows[i].key in view {
          assert rows[..i + 1] <= rows;
          return false;
        }
        HoldsOneMore(view, rows[..i], rows[i]);
        view := view[rows[i].key := rows[i]];
      }
      assert rows[..|rows|] == rows;
      if !hook || commit.Error? {
        return false;
      }
      table := view;
      ok := true;
    }
  }
}
