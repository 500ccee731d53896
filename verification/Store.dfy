/** Rows, versions and the effect of one call on the database.

    Everything here is the serial meaning of the calls: what a call would do to a
    database nobody else touches. `StoreWriter` shows that the retry loop computes it,
    and `StoreProtocol` that every interleaving of clients is equivalent to it. */
module Store {
  import opened Options

  /** A primary key together with the table it belongs to: one map is the whole database. */
  datatype Key = Key(table: nat, id: string)

  /** `version` is the `update_at` column, in whole milliseconds. */
  datatype Row = Row(key: Key, version: nat, data: string)

  type Table = map<Key, Row>

  ghost predicate WellKeyed(t: Table) {
    forall k <- t :: t[k].key == k
  }

  function Lookup(t: Table, k: Key): Option<Row> {
    if k in t then Some(t[k]) else None
  }

  // ---------------------------------------------------------------- versions

  /** Attempts a call may begin before it gives up. */
  const MAX_RETRIES: nat := 12

  /** Integers up to here are exact in a 64-bit float; above, they are spaced by 2 and more. */
  const EXACT_LIMIT: nat := 0x20_0000_0000_0000

  /** `v + 1.0` in 64-bit floating point with round-half-to-even, for a whole `v`. */
  function PlusStep(v: nat): (r: nat)
    ensures v <= r
    ensures r > v <==> v < EXACT_LIMIT || (v < 2 * EXACT_LIMIT && v / 2 % 2 == 1)
  {
    if v < EXACT_LIMIT then v + 1
    else if v < 2 * EXACT_LIMIT && v / 2 % 2 == 1 then v / 2 * 2 + 2
    else v
  }

  /** The version a write gives a row that had version `stored`, when the clock shows `now`:
      the larger of the clock and the stepped version. */
  function NextVersion(stored: nat, now: nat): (v: nat)
    ensures now <= v && PlusStep(stored) <= v && (v == now || v == PlusStep(stored))
  {
    if now < PlusStep(stored) then PlusStep(stored) else now
  }

  // ------------------------------------------------------------------ events

  /** What one statement group published: a write with the row it replaced, a delete with
      the row it removed, or the truncation of every table that opens an import. */
  datatype Event =
    | Wrote(before: Option<Row>, after: Row, echoed: nat, checked: bool)
    | Erased(gone: Row)
    | Truncated

  function Apply(t: Table, e: Event): Table {
    match e
    case Wrote(_, after, _, _) => t[after.key := after]
    case Erased(gone) => t - {gone.key}
    case Truncated => map[]
  }

  function ApplyAll(t: Table, es: seq<Event>): Table {
    if es == [] then t else Apply(ApplyAll(t, es[..|es| - 1]), es[|es| - 1])
  }

  /** The event tells the truth about the row it replaced or removed. */
  ghost predicate Fits(t: Table, e: Event) {
    match e
    case Wrote(before, after, _, _) => before == Lookup(t, after.key)
    case Erased(gone) => Lookup(t, gone.key) == Some(gone)
    case Truncated => true
  }

  /** The version policy: a replaced row gets a version from `NextVersion`, and a checked
      write replaces exactly the version its client echoed. */
  ghost predicate Honest(e: Event) {
    e.Wrote? && e.before.Some? ==>
      && e.after.version >= PlusStep(e.before.value.version)
      && (e.checked ==> e.before.value.version == e.echoed)
  }

  /** Every event of the history is truthful and honest at its place. */
  ghost predicate Chain(t: Table, es: seq<Event>) {
    es == [] ||
    (Chain(t, es[..|es| - 1]) && Fits(ApplyAll(t, es[..|es| - 1]), es[|es| - 1]) && Honest(es[|es| - 1]))
  }

  lemma {:induction false} ApplyAllConcat(t: Table, es: seq<Event>, fs: seq<Event>)
    ensures ApplyAll(t, es + fs) == ApplyAll(ApplyAll(t, es), fs)
  {
    if fs == [] {
      assert es + fs == es;
    } else {
      ApplyAllConcat(t, es, fs[..|fs| - 1]);
      assert (es + fs)[..|es + fs| - 1] == es + fs[..|fs| - 1];
    }
  }

  lemma {:induction false} ChainConcat(t: Table, es: seq<Event>, fs: seq<Event>)
    requires Chain(t, es) && Chain(ApplyAll(t, es), fs)
    ensures Chain(t, es + fs)
  {
    if fs == [] {
      assert es + fs == es;
    } else {
      ChainConcat(t, es, fs[..|fs| - 1]);
      ApplyAllConcat(t, es, fs[..|fs| - 1]);
      assert (es + fs)[..|es + fs| - 1] == es + fs[..|fs| - 1];
    }
  }

  lemma {:induction false} ChainAt(t: Table, es: seq<Event>, i: nat)
    requires Chain(t, es) && i < |es|
    ensures Fits(ApplyAll(t, es[..i]), es[i]) && Honest(es[i])
  {
    var n := |es| - 1;
    if i < n {
      ChainAt(t, es[..n], i);
      assert es[..n][..i] == es[..i];
    }
  }

  // ------------------------------------------------------------------- calls

  /** `Upsert` stands for upsert, checked_upsert and their batch forms; `Import` for the
      truncate-and-fit of an initial configuration. */
  datatype Call =
    | Upsert(configs: seq<Row>, checked: bool)
    | Delete(key: Key)
    | Import(rows: seq<Row>)

  /** Number of items a call works through, one after the other. */
  function Items(call: Call): nat {
    match call
    case Upsert(configs, _) => |configs|
    case Delete(_) => 1
    case Import(rows) => 1 + |rows|
  }

  /** How a call ends. */
  datatype Outcome = Committed(events: seq<Event>) | Conflict | Exhausted | Failed | Rejected

  /** What one item does to the rows its transaction sees. */
  datatype ItemEffect = Emit(event: Event) | Nothing | Clash | Duplicate

  function UpsertRow(t: Table, config: Row, checked: bool, now: nat): ItemEffect {
    match Lookup(t, config.key)
    case Some(stored) =>
      if checked && stored.version != config.version then Clash
      else Emit(Wrote(Some(stored), config.(version := NextVersion(stored.version, now)), config.version, checked))
    case None =>
      Emit(Wrote(None, config.(version := now), config.version, checked))
  }

  function ItemOf(t: Table, call: Call, i: nat, now: nat): ItemEffect
    requires i < Items(call)
  {
    match call
    case Upsert(configs, checked) => UpsertRow(t, configs[i], checked, now)
    case Delete(key) => if key in t then Emit(Erased(t[key])) else Nothing
    case Import(rows) =>
      if i == 0 then Emit(Truncated)
      else if rows[i - 1].key in t then Duplicate
      else Emit(Wrote(None, rows[i - 1], rows[i - 1].version, false))
  }

  /** The events of the first `|clocks|` items run on `t`, or None when one of them fails. */
  function Prefix(t: Table, call: Call, clocks: seq<nat>): Option<seq<Event>>
    requires |clocks| <= Items(call)
  {
    if clocks == [] then Some([])
    else
      var k := |clocks| - 1;
      match Prefix(t, call, clocks[..k])
      case None => None
      case Some(done) =>
        match ItemOf(ApplyAll(t, done), call, k, clocks[k])
        case Emit(e) => Some(done + [e])
        case Nothing => Some(done)
        case Clash => None
        case Duplicate => None
  }

  /** The serial meaning of a call: its events on `t`, given the clock read for each item. */
  function Effect(t: Table, call: Call, clocks: seq<nat>): Option<seq<Event>>
    requires |clocks| == Items(call)
  {
    Prefix(t, call, clocks)
  }

  lemma EmptyRun(t: Table, call: Call)
    ensures Prefix(t, call, []) == Some([]) && ApplyAll(t, []) == t
  {
  }

  /** Extending a successful prefix by one successful item. */
  lemma PrefixSnoc(t: Table, call: Call, clocks: seq<nat>, now: nat)
    requires |clocks| < Items(call) && Prefix(t, call, clocks).Some?
    ensures var done := Prefix(t, call, clocks).value;
            var item := ItemOf(ApplyAll(t, done), call, |clocks|, now);
            && (item.Emit? ==> Prefix(t, call, clocks + [now]) == Some(done + [item.event])
                               && ApplyAll(t, done + [item.event]) == Apply(ApplyAll(t, done), item.event))
            && (item.Nothing? ==> Prefix(t, call, clocks + [now]) == Some(done))
            && (item.Clash? || item.Duplicate? ==> Prefix(t, call, clocks + [now]) == None)
  {
    assert (clocks + [now])[..|clocks|] == clocks;
    var done := Prefix(t, call, clocks).value;
    forall e: Event ensures (done + [e])[..|done|] == done {}
  }

  /** A prefix of a successful run is a successful run. */
  lemma {:induction false} PrefixShorter(t: Table, call: Call, clocks: seq<nat>, k: nat)
    requires k <= |clocks| <= Items(call) && Prefix(t, call, clocks).Some?
    ensures Prefix(t, call, clocks[..k]).Some?
    ensures Prefix(t, call, clocks[..k]).value <= Prefix(t, call, clocks).value
  {
    if k < |clocks| {
      PrefixShorter(t, call, clocks[..|clocks| - 1], k);
      assert clocks[..|clocks| - 1][..k] == clocks[..k];
    } else {
      assert clocks[..k] == clocks;
    }
  }

  /** One item's event is truthful, honest and keeps rows under their own keys. */
  lemma ItemFits(t: Table, call: Call, i: nat, now: nat)
    requires WellKeyed(t) && i < Items(call) && ItemOf(t, call, i, now).Emit?
    ensures var e := ItemOf(t, call, i, now).event;
            Fits(t, e) && Honest(e) && WellKeyed(Apply(t, e))
  {
  }

  /** A history that can be continued: truthful so far, rows under their own keys. */
  ghost predicate Sound(t: Table, es: seq<Event>) {
    Chain(t, es) && WellKeyed(ApplyAll(t, es))
  }

  lemma EmptySound(t: Table)
    requires WellKeyed(t)
    ensures Sound(t, [])
  {
  }

  lemma SoundItem(t: Table, done: seq<Event>, call: Call, k: nat, now: nat)
    requires Sound(t, done) && k < Items(call) && ItemOf(ApplyAll(t, done), call, k, now).Emit?
    ensures Sound(t, done + [ItemOf(ApplyAll(t, done), call, k, now).event])
  {
    var e := ItemOf(ApplyAll(t, done), call, k, now).event;
    ItemFits(ApplyAll(t, done), call, k, now);
    assert (done + [e])[..|done|] == done;
  }

  /** Whatever a call publishes continues the history truthfully. */
  lemma {:induction false} PrefixSound(t: Table, call: Call, clocks: seq<nat>)
    requires WellKeyed(t) && |clocks| <= Items(call) && Prefix(t, call, clocks).Some?
    ensures Sound(t, Prefix(t, call, clocks).value)
  {
    hide *;
    if clocks == [] {
      EmptyRun(t, call);
      EmptySound(t);
    } else {
      var k := |clocks| - 1;
      PrefixShorter(t, call, clocks, k);
      PrefixSound(t, call, clocks[..k]);
      var done := Prefix(t, call, clocks[..k]).value;
      PrefixSnoc(t, call, clocks[..k], clocks[k]);
      assert clocks[..k] + [clocks[k]] == clocks;
      if ItemOf(ApplyAll(t, done), call, k, clocks[k]).Emit? {
        SoundItem(t, done, call, k, clocks[k]);
      }
    }
  }

  /** The write carries exactly this configuration's key and content, and its echoed version. */
  ghost predicate Carries(e: Event, config: Row, checked: bool) {
    && e.Wrote? && e.after == config.(version := e.after.version)
    && e.echoed == config.version && e.checked == checked
  }

  lemma ItemCarries(t: Table, configs: seq<Row>, checked: bool, i: nat, now: nat)
    requires i < |configs|
    ensures var item := ItemOf(t, Upsert(configs, checked), i, now);
            if item.Emit? then Carries(item.event, configs[i], checked) else item.Clash?
  {
  }

  /** An upsert batch publishes exactly one write per configuration, in order. */
  lemma {:induction false} BatchEvents(t: Table, configs: seq<Row>, checked: bool, clocks: seq<nat>)
    requires |clocks| <= |configs| && Prefix(t, Upsert(configs, checked), clocks).Some?
    ensures var es := Prefix(t, Upsert(configs, checked), clocks).value;
            |es| == |clocks| && forall i | 0 <= i < |es| :: Carries(es[i], configs[i], checked)
  {
    hide Prefix, ApplyAll, ItemOf, Carries;
    if clocks == [] {
      EmptyRun(t, Upsert(configs, checked));
    } else {
      var call, k := Upsert(configs, checked), |clocks| - 1;
      PrefixShorter(t, call, clocks, k);
      BatchEvents(t, configs, checked, clocks[..k]);
      PrefixSnoc(t, call, clocks[..k], clocks[k]);
      assert clocks[..k] + [clocks[k]] == clocks;
      ItemCarries(ApplyAll(t, Prefix(t, call, clocks[..k]).value), configs, checked, k, clocks[k]);
    }
  }

  /** What the clock does to a written version: a new row gets it; a replaced row gets no less,
      and more only where the stepped old version is already past it. */
  ghost predicate ByClock(e: Event, now: nat) {
    && e.Wrote? && e.after.version >= now
    && (e.before.None? ==> e.after.version == now)
    && (e.before.Some? ==>
          && e.after.version >= PlusStep(e.before.value.version)
          && (e.after.version > now ==> e.after.version == PlusStep(e.before.value.version)))
  }

  lemma ItemByClock(t: Table, configs: seq<Row>, checked: bool, i: nat, now: nat)
    requires i < |configs|
    ensures var item := ItemOf(t, Upsert(configs, checked), i, now);
            if item.Emit? then ByClock(item.event, now) else item.Clash?
  {
    hide PlusStep;
  }

  /** Each write of an upsert batch is versioned by the clock its own item read. */
  lemma {:induction false} BatchByClock(t: Table, configs: seq<Row>, checked: bool, clocks: seq<nat>)
    requires |clocks| <= |configs| && Prefix(t, Upsert(configs, checked), clocks).Some?
    ensures var es := Prefix(t, Upsert(configs, checked), clocks).value;
            |es| == |clocks| && forall i | 0 <= i < |es| :: ByClock(es[i], clocks[i])
  {
    hide Prefix, ApplyAll, ItemOf, ByClock;
    if clocks == [] {
      EmptyRun(t, Upsert(configs, checked));
    } else {
      var call, k := Upsert(configs, checked), |clocks| - 1;
      PrefixShorter(t, call, clocks, k);
      BatchByClock(t, configs, checked, clocks[..k]);
      PrefixSnoc(t, call, clocks[..k], clocks[k]);
      assert clocks[..k] + [clocks[k]] == clocks;
      ItemByClock(ApplyAll(t, Prefix(t, call, clocks[..k]).value), configs, checked, k, clocks[k]);
    }
  }

  /** A delete always succeeds: it removes the key and nothing else, publishes the removed row,
      and with no such row it publishes nothing and leaves the database alone. */
  lemma DeleteRemovesTheKey(t: Table, key: Key, now: nat)
    ensures var r := Effect(t, Delete(key), [now]);
            && r == Some(if key in t then [Erased(t[key])] else [])
            && (WellKeyed(t) ==> ApplyAll(t, r.value) == t - {key})
            && (key !in t ==> ApplyAll(t, r.value) == t)
  {
    EmptyRun(t, Delete(key));
    PrefixSnoc(t, Delete(key), [], now);
    assert [] + [now] == [now] && key in t ==> [] + [Erased(t[key])] == [Erased(t[key])];
    hide Prefix, ApplyAll;
    if key !in t {
      assert t - {key} == t;
    }
  }

  // ---------------------------------------------------------------- imports

  ghost predicate DistinctKeys(rows: seq<Row>) {
    forall i, j | 0 <= i < j < |rows| :: rows[i].key != rows[j].key
  }

  /** The database holds exactly these rows. */
  ghost predicate HoldsExactly(t: Table, rows: seq<Row>) {
    && (forall i | 0 <= i < |rows| :: Lookup(t, rows[i].key) == Some(rows[i]))
    && (forall k | k in t :: t[k] in rows && t[k].key == k)
  }

  lemma HoldsOneMore(t: Table, rows: seq<Row>, row: Row)
    requires HoldsExactly(t, rows) && row.key !in t
    ensures HoldsExactly(t[row.key := row], rows + [row])
  {
    forall i | 0 <= i < |rows| ensures rows[i].key in t {
      assert Lookup(t, rows[i].key) == Some(rows[i]);
    }
    assert forall r :: r in rows ==> r in rows + [row];
    assert (rows + [row])[|rows|] == row;
  }

  lemma DistinctOneMore(t: Table, rows: seq<Row>, row: Row)
    requires HoldsExactly(t, rows) && DistinctKeys(rows)
    ensures DistinctKeys(rows + [row]) <==> row.key !in t
  {
    if row.key in t {
      var i :| 0 <= i < |rows| && rows[i] == t[row.key];
      assert (rows + [row])[i].key == (rows + [row])[|rows|].key;
    } else {
      forall i | 0 <= i < |rows| ensures rows[i].key != row.key {
        assert Lookup(t, rows[i].key) == Some(rows[i]);
      }
    }
  }
}
