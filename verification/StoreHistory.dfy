/** What a truthful history guarantees: one chain per key, growing versions, no lost update. */
module StoreHistory {
  import opened Options
  import opened Store

  ghost predicate Touches(e: Event, k: Key) {
    match e
    case Wrote(_, after, _, _) => after.key == k
    case Erased(gone) => gone.key == k
    case Truncated => true
  }

  ghost predicate Removes(e: Event, k: Key) {
    Touches(e, k) && !e.Wrote?
  }

  /** The row an event leaves under a key it touches. */
  ghost function Leaves(e: Event): Option<Row> {
    if e.Wrote? then Some(e.after) else None
  }

  /** The row an event says it found; a truncation reports none. */
  ghost function Found(e: Event): Option<Row>
    requires !e.Truncated?
  {
    if e.Wrote? then e.before else Some(e.gone)
  }

  /** The history holds no removal of `k` strictly between positions `i` and `j`. */
  ghost predicate Undeleted(es: seq<Event>, k: Key, i: nat, j: nat)
    requires i <= j <= |es|
  {
    forall m | i < m < j :: !Removes(es[m], k)
  }

  lemma ApplyAllStep(t: Table, es: seq<Event>, i: nat)
    requires i < |es|
    ensures ApplyAll(t, es[..i + 1]) == Apply(ApplyAll(t, es[..i]), es[i])
  {
    assert es[..i + 1][..i] == es[..i];
  }

  lemma {:induction false} LastTouchDecides(t: Table, es: seq<Event>, k: Key, i: nat, j: nat)
    requires i < j <= |es| && Touches(es[i], k)
    requires forall m | i < m < j :: !Touches(es[m], k)
    ensures Lookup(ApplyAll(t, es[..j]), k) == Leaves(es[i])
  {
    ApplyAllStep(t, es, j - 1);
    if i + 1 < j {
      LastTouchDecides(t, es, k, i, j - 1);
    }
  }

  /** One chain per key: what an event found is what the previous event on that key left. */
  lemma HistoryChain(t: Table, es: seq<Event>, k: Key, i: nat, j: nat)
    requires Chain(t, es) && i < j < |es|
    requires Touches(es[i], k) && Touches(es[j], k) && !es[j].Truncated?
    requires forall m | i < m < j :: !Touches(es[m], k)
    ensures Found(es[j]) == Leaves(es[i])
  {
    ChainAt(t, es, j);
    LastTouchDecides(t, es, k, i, j);
  }

  /** The first event on a key found what the database held at the start. */
  lemma {:induction false} HistoryStart(t: Table, es: seq<Event>, k: Key, j: nat)
    requires Chain(t, es) && j < |es| && Touches(es[j], k) && !es[j].Truncated?
    requires forall m | 0 <= m < j :: !Touches(es[m], k)
    ensures Found(es[j]) == Lookup(t, k)
  {
    ChainAt(t, es, j);
    Untouched(t, es, k, j);
  }

  lemma {:induction false} Untouched(t: Table, es: seq<Event>, k: Key, j: nat)
    requires j <= |es| && forall m | 0 <= m < j :: !Touches(es[m], k)
    ensures Lookup(ApplyAll(t, es[..j]), k) == Lookup(t, k)
  {
    if j > 0 {
      Untouched(t, es, k, j - 1);
      ApplyAllStep(t, es, j - 1);
    }
  }

  /** Without a removal, a row stays and its version never falls below what `i` gave it. */
  lemma {:induction false} VersionsNeverFall(t: Table, es: seq<Event>, k: Key, i: nat, j: nat)
    requires Chain(t, es) && i < j <= |es| && es[i].Wrote? && es[i].after.key == k
    requires Undeleted(es, k, i, j)
    ensures k in ApplyAll(t, es[..j])
    ensures ApplyAll(t, es[..j])[k].version >= es[i].after.version
  {
    ApplyAllStep(t, es, j - 1);
    if i + 1 < j {
      VersionsNeverFall(t, es, k, i, j - 1);
      ChainAt(t, es, j - 1);
    }
  }

  /** Between removals every later write of a key carries a version above every earlier one,
      as far as versions are exact. */
  lemma VersionsIncrease(t: Table, es: seq<Event>, k: Key, i: nat, j: nat)
    requires Chain(t, es) && i < j < |es|
    requires es[i].Wrote? && es[i].after.key == k && es[j].Wrote? && es[j].after.key == k
    requires Undeleted(es, k, i, j)
    ensures es[j].before.Some? && es[j].before.value.version >= es[i].after.version
    ensures es[j].after.version >= es[i].after.version
    ensures es[i].after.version < EXACT_LIMIT ==> es[j].after.version >= es[i].after.version + 1
  {
    VersionsNeverFall(t, es, k, i, j);
    ChainAt(t, es, j);
  }

  /** A checked write of `k` that replaced an existing row, echoing version `v`. */
  ghost predicate CheckedOver(e: Event, k: Key, v: nat) {
    e.Wrote? && e.checked && e.echoed == v && e.after.key == k && e.before.Some?
  }

  /** No lost update: of all checked writers that echo one version of an undeleted row at
      most one commits. The echoed version must be one that `+ 1.0` can raise. */
  lemma NoLostUpdate(t: Table, es: seq<Event>, k: Key, v: nat, i: nat, j: nat)
    requires Chain(t, es) && i < j < |es|
    requires CheckedOver(es[i], k, v) && CheckedOver(es[j], k, v)
    requires PlusStep(v) > v
    ensures exists m :: i < m < j && Removes(es[m], k)
  {
    if Undeleted(es, k, i, j) {
      ChainAt(t, es, i);
      ChainAt(t, es, j);
      VersionsNeverFall(t, es, k, i, j);
      assert false;
    }
  }

  /** The condition on the version is exact: a second checked write echoing the same version
      goes through precisely when the float sum cannot raise it and the clock is not ahead. */
  lemma SecondEcho(t: Table, first: Row, second: Row, now: nat, later: nat)
    requires first.key == second.key && first.version == second.version
    requires first.key in t && t[first.key].version == first.version
    ensures var won := UpsertRow(t, first, true, now);
            && won.Emit?
            && (UpsertRow(Apply(t, won.event), second, true, later).Emit?
                <==> now <= first.version && PlusStep(first.version) == first.version)
  {
  }

  /** A stored version is stuck exactly from 2^53 on (where its neighbour is not even). */
  lemma StuckVersions(v: nat)
    ensures (exists now :: NextVersion(v, now) == v) <==> PlusStep(v) == v
    ensures PlusStep(EXACT_LIMIT) == EXACT_LIMIT && PlusStep(EXACT_LIMIT + 2) == EXACT_LIMIT + 4
  {
    if PlusStep(v) == v {
      assert NextVersion(v, v) == v;
    }
  }

  /** Versions from 2^53 on are stored by a write exactly when the clock is there already or
      the replaced version is at most one step below. */
  lemma ReachesLimit(t: Table, config: Row, checked: bool, now: nat)
    requires UpsertRow(t, config, checked, now).Emit?
    ensures UpsertRow(t, config, checked, now).event.after.version >= EXACT_LIMIT
            <==> now >= EXACT_LIMIT || (config.key in t && t[config.key].version >= EXACT_LIMIT - 1)
  {
  }

  /** Both ways to a stuck version: a clock at 2^53, and one step up from 2^53 - 1. */
  lemma StuckByClockOrStep(k: Key)
    ensures var t: Table := map[k := Row(k, EXACT_LIMIT - 1, "a")];
            && UpsertRow(map[], Row(k, 0, "b"), false, EXACT_LIMIT).event.after.version == EXACT_LIMIT
            && UpsertRow(t, Row(k, EXACT_LIMIT - 1, "b"), true, 0).Emit?
            && UpsertRow(t, Row(k, EXACT_LIMIT - 1, "b"), true, 0).event.after.version == EXACT_LIMIT
  {
  }

  // ------------------------------------------------------------ stale clients

  /** After the first `i` events the key is stored under version `v`: what a client reads then. */
  ghost predicate ReadAt(t: Table, es: seq<Event>, k: Key, v: nat, i: nat)
    requires i <= |es|
  {
    var now := ApplyAll(t, es[..i]);
    k in now && now[k].version == v
  }

  /** Some event from `i` on and before `j` removed the key. */
  ghost predicate RemovedIn(es: seq<Event>, k: Key, i: nat, j: nat)
    requires i <= j <= |es|
  {
    exists m :: i <= m < j && Removes(es[m], k)
  }

  /** Some event from `i` on and before `j` touched the key. */
  ghost predicate TouchedIn(es: seq<Event>, k: Key, i: nat, j: nat)
    requires i <= j <= |es|
  {
    exists m :: i <= m < j && Touches(es[m], k)
  }

  /** Some write from `i` on and before `j` gave the key a version above `v`. */
  ghost predicate RaisedIn(es: seq<Event>, k: Key, v: nat, i: nat, j: nat)
    requires i <= j <= |es|
  {
    exists m :: i <= m < j && es[m].Wrote? && es[m].after.key == k && es[m].after.version > v
  }

  /** Without a removal the key stays, under the version read until a write raises it, and
      above it from then on. */
  lemma {:induction false} SupersededIsHigher(t: Table, es: seq<Event>, k: Key, v: nat, i: nat, j: nat)
    requires Chain(t, es) && i <= j <= |es| && ReadAt(t, es, k, v, i) && !RemovedIn(es, k, i, j)
    ensures k in ApplyAll(t, es[..j])
    ensures var found := ApplyAll(t, es[..j])[k].version;
            if RaisedIn(es, k, v, i, j) then found > v else found == v
  {
    if i < j {
      SupersededIsHigher(t, es, k, v, i, j - 1);
      ApplyAllStep(t, es, j - 1);
      ChainAt(t, es, j - 1);
      assert !Removes(es[j - 1], k);
      hide ApplyAll, Chain, PlusStep, RaisedIn;
      RaisedOneMore(es, k, v, i, j - 1);
    }
  }

  lemma RaisedOneMore(es: seq<Event>, k: Key, v: nat, i: nat, j: nat)
    requires i <= j < |es|
    ensures RaisedIn(es, k, v, i, j + 1) <==>
              RaisedIn(es, k, v, i, j) || (es[j].Wrote? && es[j].after.key == k && es[j].after.version > v)
  {
  }

  /** Without a removal, and where `+ 1.0` can raise the version read, every touch raises it. */
  lemma TouchRaises(t: Table, es: seq<Event>, k: Key, v: nat, i: nat, j: nat)
    requires Chain(t, es) && i <= j <= |es| && ReadAt(t, es, k, v, i) && !RemovedIn(es, k, i, j)
    requires PlusStep(v) > v
    ensures RaisedIn(es, k, v, i, j) <==> TouchedIn(es, k, i, j)
  {
    if TouchedIn(es, k, i, j) {
      var m :| i <= m < j && Touches(es[m], k);
      assert !Removes(es[m], k);
      SupersededIsHigher(t, es, k, v, i, m);
      ChainAt(t, es, m);
      hide ApplyAll, Chain, PlusStep;
      PlusStepRises(ApplyAll(t, es[..m])[k].version, v);
    }
  }

  lemma PlusStepRises(w: nat, v: nat)
    requires w >= v && PlusStep(v) > v
    ensures PlusStep(w) > v
  {
  }

  /** What becomes of a client that read version `v` after `i` events. Without a removal since,
      it is refused if and only if some write, blind or checked, has raised the version; where
      `+ 1.0` can raise it, if and only if the key was touched at all. After a removal it is
      refused if and only if the key is there again under another version. */
  lemma StaleClient(t: Table, es: seq<Event>, config: Row, i: nat, now: nat)
    requires Chain(t, es) && i <= |es| && ReadAt(t, es, config.key, config.version, i)
    ensures var after := ApplyAll(t, es);
            UpsertRow(after, config, true, now).Clash? <==>
              if RemovedIn(es, config.key, i, |es|)
              then config.key in after && after[config.key].version != config.version
              else RaisedIn(es, config.key, config.version, i, |es|)
    ensures PlusStep(config.version) > config.version && !RemovedIn(es, config.key, i, |es|) ==>
              (UpsertRow(ApplyAll(t, es), config, true, now).Clash? <==> TouchedIn(es, config.key, i, |es|))
  {
    assert es[..|es|] == es;
    if !RemovedIn(es, config.key, i, |es|) {
      SupersededIsHigher(t, es, config.key, config.version, i, |es|);
      if PlusStep(config.version) > config.version {
        TouchRaises(t, es, config.key, config.version, i, |es|);
      }
    }
  }

  /** A stale echo passes over an undeleted row once the version is stuck. */
  lemma StuckRowAcceptsStaleEcho(k: Key)
    ensures var t: Table := map[k := Row(k, EXACT_LIMIT, "a")];
            var es := [Wrote(Some(Row(k, EXACT_LIMIT, "a")), Row(k, EXACT_LIMIT, "b"), 0, false)];
            && Chain(t, es) && UpsertRow(t, Row(k, 0, "b"), false, 9) == Emit(es[0])
            && UpsertRow(ApplyAll(t, es), Row(k, EXACT_LIMIT, "stale"), true, 9).Emit?
  {
    var t: Table := map[k := Row(k, EXACT_LIMIT, "a")];
    var es := [Wrote(Some(Row(k, EXACT_LIMIT, "a")), Row(k, EXACT_LIMIT, "b"), 0, false)];
    assert ApplyAll(t, es[..0]) == t && Chain(t, es[..0]);
  }

  /** What a client meets after event `i` on its key, whatever it read before. When that event
      removed the key and nothing touched it since, the write inserts. When it wrote the key
      and nothing removed it since, a client that echoes less is refused for good, and one
      that echoes exactly what was written is refused once a later write raises it. */
  lemma StaleAfterRemoval(t: Table, es: seq<Event>, config: Row, i: nat, now: nat)
    requires Chain(t, es) && i < |es| && Touches(es[i], config.key)
    ensures Removes(es[i], config.key) && !TouchedIn(es, config.key, i + 1, |es|) ==>
              UpsertRow(ApplyAll(t, es), config, true, now)
              == Emit(Wrote(None, config.(version := now), config.version, true))
    ensures es[i].Wrote? && es[i].after.version > config.version && !RemovedIn(es, config.key, i + 1, |es|) ==>
              UpsertRow(ApplyAll(t, es), config, true, now).Clash?
    ensures es[i].Wrote? && es[i].after.version == config.version && !RemovedIn(es, config.key, i + 1, |es|) ==>
              (UpsertRow(ApplyAll(t, es), config, true, now).Clash?
               <==> RaisedIn(es, config.key, config.version, i + 1, |es|))
  {
    assert es[..|es|] == es;
    if Removes(es[i], config.key) && !TouchedIn(es, config.key, i + 1, |es|) {
      LastTouchDecides(t, es, config.key, i, |es|);
    }
    if es[i].Wrote? && !RemovedIn(es, config.key, i + 1, |es|) {
      VersionsNeverFall(t, es, config.key, i, |es|);
      ApplyAllStep(t, es, i);
      assert ReadAt(t, es, config.key, es[i].after.version, i + 1);
      SupersededIsHigher(t, es, config.key, es[i].after.version, i + 1, |es|);
    }
  }

  /** No stale checked write is ever part of a history: one that echoes a version which was
      raised, by a blind or a checked write, has a removal of the key in between. Where
      `+ 1.0` can raise the version, any touch raises it. */
  lemma NoStaleWrite(t: Table, es: seq<Event>, k: Key, i: nat, j: nat)
    requires Chain(t, es) && i <= j < |es| && es[j].Wrote? && es[j].checked && es[j].after.key == k
    requires ReadAt(t, es, k, es[j].echoed, i)
    requires RaisedIn(es, k, es[j].echoed, i, j) || (PlusStep(es[j].echoed) > es[j].echoed && TouchedIn(es, k, i, j))
    ensures RemovedIn(es, k, i, j)
  {
    if !RemovedIn(es, k, i, j) {
      if PlusStep(es[j].echoed) > es[j].echoed {
        TouchRaises(t, es, k, es[j].echoed, i, j);
      }
      SupersededIsHigher(t, es, k, es[j].echoed, i, j);
      ChainAt(t, es, j);
      assert false;
    }
  }

  /** The documented "a stale client always gets a conflict" fails after a delete. */
  lemma DeletedRowAcceptsStaleEcho(k: Key)
    ensures var t: Table := map[k := Row(k, 7, "a")];
            UpsertRow(Apply(t, Erased(t[k])), Row(k, 7, "stale"), true, 9)
            == Emit(Wrote(None, Row(k, 9, "stale"), 7, true))
  {
  }

  /** Delete and re-create under a rolled-back clock lets a stale echo through. */
  lemma RecreatedRowAcceptsStaleEcho(k: Key)
    ensures var t: Table := map[k := Row(k, 7, "a")];
            var es := [Erased(Row(k, 7, "a")), Wrote(None, Row(k, 7, "b"), 0, false)];
            && Chain(t, es)
            && UpsertRow(ApplyAll(t, es), Row(k, 7, "stale"), true, 9).Emit?
  {
    var t: Table := map[k := Row(k, 7, "a")];
    var e, w := Erased(Row(k, 7, "a")), Wrote(None, Row(k, 7, "b"), 0, false);
    assert [e, w][..1] == [e] && [e][..0] == [];
    assert ApplyAll(t, []) == t;
    assert ApplyAll(t, [e]) == Apply(t, e);
    assert ApplyAll(t, [e, w]) == Apply(Apply(t, e), w);
    assert Chain(t, []) && Chain(t, [e]);
  }

  /** A blind write never depends on the version its client sent. */
  lemma BlindIgnoresEcho(t: Table, config: Row, other: nat, now: nat)
    ensures var a := UpsertRow(t, config, false, now);
            var b := UpsertRow(t, config.(version := other), false, now);
            a.Emit? && b.Emit? && Apply(t, a.event) == Apply(t, b.event)
  {
  }

  /** A checked batch that names one existing key twice with one version never succeeds. */
  lemma DoubleEcho(t: Table, configs: seq<Row>, clocks: seq<nat>, i: nat, j: nat)
    requires WellKeyed(t) && |clocks| == |configs| && i < j < |configs|
    requires configs[i].key == configs[j].key && configs[i].version == configs[j].version
    requires configs[i].key in t && PlusStep(configs[i].version) > configs[i].version
    ensures Effect(t, Upsert(configs, true), clocks) == None
  {
    var call := Upsert(configs, true);
    if Effect(t, call, clocks).Some? {
      var es := Effect(t, call, clocks).value;
      BatchEvents(t, configs, true, clocks);
      PrefixSound(t, call, clocks);
      KeyStays(t, es, configs[i].key, i);
      KeyStays(t, es, configs[i].key, j);
      ChainAt(t, es, i);
      ChainAt(t, es, j);
      NoLostUpdate(t, es, configs[i].key, configs[i].version, i, j);
      assert false;
    }
  }

  /** Writes alone never make a key disappear. */
  lemma {:induction false} KeyStays(t: Table, es: seq<Event>, k: Key, i: nat)
    requires k in t && i <= |es| && forall m | 0 <= m < |es| :: es[m].Wrote?
    ensures k in ApplyAll(t, es[..i])
  {
    if i > 0 {
      KeyStays(t, es, k, i - 1);
      ApplyAllStep(t, es, i - 1);
    }
  }
}
