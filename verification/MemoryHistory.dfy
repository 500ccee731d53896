/** Snapshots of the counters, the ring that keeps them, and the series shown from it. */
module MemoryHistory {
  import opened AccountingHeap
  import opened Allocator
  import opened Options

  // ---------------------------------------------------------------- snapshots

  datatype SlotCounters = SlotCounters(allocatedBytes: nat, freedBytes: nat, liveBytes: nat, allocEvents: nat, freeEvents: nat)

  const ZERO := SlotCounters(0, 0, 0, 0, 0)

  function SaturatingSub(a: nat, b: nat): nat {
    if a < b then 0 else a - b
  }

  function CaptureSlot(c: Counters): SlotCounters {
    SlotCounters(c.allocatedBytes, c.freedBytes, SaturatingSub(c.allocatedBytes, c.freedBytes), c.allocEvents, c.freeEvents)
  }

  function SumAllocated(stats: seq<SlotCounters>): nat {
    if stats == [] then 0 else SumAllocated(stats[..|stats| - 1]) + stats[|stats| - 1].allocatedBytes
  }

  function SumFreed(stats: seq<SlotCounters>): nat {
    if stats == [] then 0 else SumFreed(stats[..|stats| - 1]) + stats[|stats| - 1].freedBytes
  }

  /** The sums are 128 bits wide, so only the difference can exceed a 64-bit word. */
  function GlobalLiveBytes(stats: seq<SlotCounters>): nat {
    Smaller(SaturatingSub(SumAllocated(stats), SumFreed(stats)), U64 - 1)
  }

  datatype Compact = Compact(stats: seq<SlotCounters>, totalLive: nat)

  /** The registry scan: every slot captured, and the total computed from the sums. */
  method CaptureCompact(slots: seq<Counters>) returns (r: Compact)
    requires |slots| == SLOTS
    ensures |r.stats| == SLOTS && forall s | 0 <= s < SLOTS :: r.stats[s] == CaptureSlot(slots[s])
    ensures r.totalLive == GlobalLiveBytes(r.stats)
  {
    var stats := seq(SLOTS, _ => ZERO);
    for i := 0 to SLOTS
      invariant |stats| == SLOTS && forall s | 0 <= s < i :: stats[s] == CaptureSlot(slots[s])
    {
      stats := stats[i := CaptureSlot(slots[i])];
    }
    r := Compact(stats, GlobalLiveBytes(stats));
  }

  ghost predicate SameWraps(total: Counters) {
    total.allocatedBytes / U64 == total.freedBytes / U64
  }

  /** How far the captured difference of a slot is from its live bytes: what strays charged to
      it minus what they credited to it, less a full word for every wrap the freed counter has
      not followed. */
  ghost function Drift(total: Counters, astray: seq<Block>, s: nat): int {
    LiveBytes(astray, s) - LiveBytes(Recorded(astray), s)
    - U64 * (total.allocatedBytes / U64 - total.freedBytes / U64)
  }

  lemma Unwrap(x: nat)
    ensures x == U64 * (x / U64) + x % U64
  {
  }

  lemma Captured(slots: seq<Counters>, totals: seq<Counters>, live: seq<Block>, astray: seq<Block>, s: nat)
    requires Accounts(slots, totals, live, astray) && s < SLOTS
    ensures Explained(totals[s], live, astray, s)
    ensures var c := CaptureSlot(slots[s]);
            && c.allocatedBytes == totals[s].allocatedBytes % U64 && c.freedBytes == totals[s].freedBytes % U64
            && c.allocEvents == totals[s].allocEvents % U64 && c.freeEvents == totals[s].freeEvents % U64
            && c.liveBytes == SaturatingSub(c.allocatedBytes, c.freedBytes)
            && c.allocatedBytes - c.freedBytes == LiveBytes(live, s) + Drift(totals[s], astray, s)
  {
    hide LiveBytes, LiveCount, Recorded;
    assert slots[s] == Wrapped(totals[s]) && Explained(totals[s], live, astray, s);
    Unwrap(totals[s].allocatedBytes);
    Unwrap(totals[s].freedBytes);
  }

  lemma NoStrays(s: nat)
    ensures LiveBytes([], s) == 0 && LiveBytes(Recorded([]), s) == 0
    ensures LiveCount([], s) == 0 && LiveCount(Recorded([]), s) == 0
  {
    assert Recorded([]) == [];
  }

  /** With no strays and no wrapped counter, the events of a slot differ by its live blocks. */
  lemma EventsShown(slots: seq<Counters>, totals: seq<Counters>, live: seq<Block>, s: nat)
    requires Accounts(slots, totals, live, []) && s < SLOTS && totals[s].allocEvents < U64
    ensures CaptureSlot(slots[s]).allocEvents - CaptureSlot(slots[s]).freeEvents == LiveCount(live, s)
  {
    Captured(slots, totals, live, [], s);
    NoStrays(s);
    hide LiveBytes, LiveCount, Recorded;
    EventsFit(totals[s].allocEvents, totals[s].freeEvents, LiveCount(live, s));
  }

  lemma EventsFit(a: nat, f: nat, n: nat)
    requires a == f + n && a < U64
    ensures a % U64 - f % U64 == n
  {
  }

  /** A slot's shown live bytes are those of its live blocks if and only if the slot has not
      drifted, or has drifted below zero with nothing live. With nothing astray that is: if and
      only if both byte counters have wrapped equally often, so always before the first wrap. */
  lemma LiveBytesShown(slots: seq<Counters>, totals: seq<Counters>, live: seq<Block>, astray: seq<Block>, s: nat)
    requires Accounts(slots, totals, live, astray) && s < SLOTS
    ensures var drift := Drift(totals[s], astray, s);
            CaptureSlot(slots[s]).liveBytes == LiveBytes(live, s)
            <==> drift == 0 || (drift < 0 && LiveBytes(live, s) == 0)
    ensures astray == [] && LiveBytes(live, s) < U64 ==>
              (CaptureSlot(slots[s]).liveBytes == LiveBytes(live, s) <==> SameWraps(totals[s]))
    ensures astray == [] && totals[s].allocatedBytes < U64 ==> CaptureSlot(slots[s]).liveBytes == LiveBytes(live, s)
  {
    hide LiveBytes, LiveCount, Recorded, Explained, CaptureSlot;
    Captured(slots, totals, live, astray, s);
    if astray == [] {
      NoStrays(s);
      NoWrapYet(totals[s], live, s);
    }
  }

  lemma NoWrapYet(total: Counters, live: seq<Block>, s: nat)
    requires Explained(total, live, [], s)
    ensures total.freedBytes / U64 <= total.allocatedBytes / U64
    ensures LiveBytes(live, s) == 0 || total.allocatedBytes < U64 ==> SameWraps(total)
  {
    NoStrays(s);
    hide LiveBytes, LiveCount, Recorded;
    WrapsMonotone(total.freedBytes, total.allocatedBytes);
  }

  lemma WrapsMonotone(x: nat, y: nat)
    requires x <= y
    ensures x / U64 <= y / U64
  {
  }

  ghost function AllBytes(live: seq<Block>): nat {
    if live == [] then 0 else AllBytes(live[..|live| - 1]) + live[|live| - 1].size
  }

  /** Live bytes of the first `n` slots together. */
  ghost function SlotsTotal(live: seq<Block>, n: nat): nat {
    if n == 0 then 0 else SlotsTotal(live, n - 1) + LiveBytes(live, n - 1)
  }

  /** Every block is counted in exactly one slot. */
  lemma {:induction false} SlotsPartition(live: seq<Block>)
    ensures SlotsTotal(live, SLOTS) == AllBytes(live)
  {
    if live == [] {
      EmptySlots(SLOTS);
    } else {
      SlotsPartition(live[..|live| - 1]);
      OneMoreBlock(live, SLOTS);
    }
  }

  lemma {:induction false} EmptySlots(n: nat)
    ensures SlotsTotal([], n) == 0
  {
    if n > 0 {
      EmptySlots(n - 1);
    }
  }

  lemma {:induction false} OneMoreBlock(live: seq<Block>, n: nat)
    requires live != []
    ensures var m := |live| - 1;
            SlotsTotal(live, n) == SlotsTotal(live[..m], n) + (if Slot(live[m].tag) < n then live[m].size else 0)
  {
    if n > 0 {
      OneMoreBlock(live, n - 1);
    }
  }

  /** A freed counter that has not wrapped while its partner has: the slot then shows 0
      instead of its 5 live bytes. */
  lemma WrappedSlotShowsNothing()
    ensures var b := Block(64, 5, 8, 3, 0);
            var totals := seq(SLOTS, s => if s == 3 then Counters(U64, U64 - 5, 1, 0) else Counters(0, 0, 0, 0));
            var slots := seq(SLOTS, s => if s == 3 then Counters(0, U64 - 5, 1, 0) else Counters(0, 0, 0, 0));
            && CountersOk(slots, totals, [b])
            && LiveBytes([b], 3) == 5 && CaptureSlot(slots[3]).liveBytes == 0
  {
    var b := Block(64, 5, 8, 3, 0);
    assert [b][..0] == [];
    forall s: nat ensures LiveBytes([b], s) == (if s == 3 then 5 else 0) && LiveCount([b], s) == if s == 3 then 1 else 0 {
      NothingLive(s);
    }
  }

  /** A freed block of 5 bytes and tag 2^32: its slot keeps showing 5 bytes with nothing live
      and nothing wrapped. */
  lemma StraySlotShowsFreedBytes()
    ensures var b := Block(64, 5, 8, U32, 0);
            var totals := seq(SLOTS, s requires 0 <= s => StrayTotal(s));
            && Accounts(totals, totals, [], [b])
            && LiveBytes([], UNATTRIBUTED) == 0 && CaptureSlot(totals[UNATTRIBUTED]).liveBytes == 5
  {
    var b := Block(64, 5, 8, U32, 0);
    WhichTagsKeepTheirSlot(U32);
    assert Recorded([b]) == [b.(tag := 0)];
    NothingLive(UNATTRIBUTED);
    hide LiveBytes, LiveCount, Recorded, Slot;
    forall s | 0 <= s < SLOTS ensures Explained(StrayTotal(s), [], [b], s) {
      NothingLive(s);
      OneBlock(b, s);
      OneBlock(b.(tag := 0), s);
      StraySlots();
    }
  }

  ghost function StrayTotal(s: nat): Counters {
    if s == UNATTRIBUTED then Counters(5, 0, 1, 0) else if s == 0 then Counters(0, 5, 0, 1) else Counters(0, 0, 0, 0)
  }

  lemma StraySlots()
    ensures Slot(U32) == UNATTRIBUTED && Slot(0) == 0
  {
  }

  lemma OneBlock(b: Block, s: nat)
    ensures LiveBytes([b], s) == (if Slot(b.tag) == s then b.size else 0)
    ensures LiveCount([b], s) == (if Slot(b.tag) == s then 1 else 0)
  {
    assert [b][..0] == [];
    NothingLive(s);
  }

  /** How much oftener the allocated counters of the first `n` slots wrapped than the freed ones. */
  ghost function Lost(totals: seq<Counters>, n: nat): int
    requires n <= |totals|
  {
    if n == 0 then 0
    else Lost(totals, n - 1) + totals[n - 1].allocatedBytes / U64 - totals[n - 1].freedBytes / U64
  }

  /** What the captured sums differ by: the live bytes and the strays' charges, less the
      strays' credits and a full word for every lost wrap. */
  lemma {:induction false} SumsFollowBooks(stats: seq<SlotCounters>, totals: seq<Counters>, live: seq<Block>, astray: seq<Block>, n: nat)
    requires n <= |stats| == |totals|
    requires forall s | 0 <= s < |stats| ::
               stats[s].allocatedBytes - stats[s].freedBytes == LiveBytes(live, s) + Drift(totals[s], astray, s)
    ensures SumAllocated(stats[..n]) - SumFreed(stats[..n])
            == SlotsTotal(live, n) + SlotsTotal(astray, n) - SlotsTotal(Recorded(astray), n) - U64 * Lost(totals, n)
  {
    hide LiveBytes, LiveCount, Recorded;
    if n > 0 {
      SumsFollowBooks(stats, totals, live, astray, n - 1);
      assert stats[..n][..n - 1] == stats[..n - 1];
    }
  }

  /** Over all slots the strays cancel out: they keep their sizes. */
  lemma {:induction false} RecordedKeepsBytes(blocks: seq<Block>)
    ensures AllBytes(Recorded(blocks)) == AllBytes(blocks)
  {
    if blocks != [] {
      RecordedKeepsBytes(blocks[..|blocks| - 1]);
      assert Recorded(blocks)[..|blocks| - 1] == Recorded(blocks[..|blocks| - 1]);
    }
  }

  lemma SumsDiffer(slots: seq<Counters>, totals: seq<Counters>, live: seq<Block>, astray: seq<Block>, stats: seq<SlotCounters>)
    requires Accounts(slots, totals, live, astray)
    requires |stats| == SLOTS && forall s | 0 <= s < SLOTS :: stats[s] == CaptureSlot(slots[s])
    ensures SumAllocated(stats) - SumFreed(stats) == AllBytes(live) - U64 * Lost(totals, SLOTS)
  {
    hide CaptureSlot, SumAllocated, SumFreed, SlotsTotal, AllBytes, Lost, LiveBytes, LiveCount, Drift, Recorded;
    forall s | 0 <= s < SLOTS
      ensures stats[s].allocatedBytes - stats[s].freedBytes == LiveBytes(live, s) + Drift(totals[s], astray, s)
    {
      Captured(slots, totals, live, astray, s);
    }
    SumsFollowBooks(stats, totals, live, astray, SLOTS);
    assert stats[..SLOTS] == stats;
    SlotsPartition(live);
    SlotsPartition(astray);
    SlotsPartition(Recorded(astray));
    RecordedKeepsBytes(astray);
  }

  /** Where the clamped total equals the live bytes: no wrap lost, or a clamp that happens to
      hit, at 0 or at the largest word. */
  lemma ClampedTotal(all: nat, lost: int, up: nat, down: nat)
    requires up - down == all - U64 * lost
    ensures Smaller(SaturatingSub(up, down), U64 - 1) == all
            <==> (lost == 0 && all < U64) || (lost > 0 && all == 0) || (lost < 0 && all == U64 - 1)
  {
    if lost > 0 {
      assert U64 * lost >= U64;
    } else if lost < 0 {
      assert U64 * lost + U64 <= 0;
    }
  }

  /** With nothing astray no slot gains wraps; none is lost exactly when each slot wrapped
      equally; and a lost wrap means live bytes. */
  lemma {:induction false} LostWraps(totals: seq<Counters>, live: seq<Block>, n: nat)
    requires n <= |totals| && forall s | 0 <= s < |totals| :: Explained(totals[s], live, [], s)
    ensures Lost(totals, n) >= 0
    ensures Lost(totals, n) > 0 ==> SlotsTotal(live, n) > 0
    ensures Lost(totals, n) == 0 <==> forall s | 0 <= s < n :: SameWraps(totals[s])
  {
    hide LiveBytes, LiveCount, Explained;
    if n > 0 {
      LostWraps(totals, live, n - 1);
      assert Explained(totals[n - 1], live, [], n - 1);
      NoWrapYet(totals[n - 1], live, n - 1);
    }
  }

  /** The reported total is the memory of all live blocks if and only if over all slots the
      allocated counters wrapped as often as the freed ones and the memory fits a word, or the
      clamp happens to hit. Strays do not matter. With nothing astray that is: if and only if
      in every slot both byte counters wrapped equally often, so always before the first wrap. */
  lemma TotalShown(slots: seq<Counters>, totals: seq<Counters>, live: seq<Block>, astray: seq<Block>, stats: seq<SlotCounters>)
    requires Accounts(slots, totals, live, astray)
    requires |stats| == SLOTS && forall s | 0 <= s < SLOTS :: stats[s] == CaptureSlot(slots[s])
    ensures var lost, all := Lost(totals, SLOTS), AllBytes(live);
            GlobalLiveBytes(stats) == all
            <==> (lost == 0 && all < U64) || (lost > 0 && all == 0) || (lost < 0 && all == U64 - 1)
    ensures astray == [] && AllBytes(live) < U64 ==>
              (GlobalLiveBytes(stats) == AllBytes(live) <==> forall s | 0 <= s < SLOTS :: SameWraps(totals[s]))
    ensures astray == [] && AllBytes(live) < U64 && (forall s | 0 <= s < SLOTS :: totals[s].allocatedBytes < U64) ==>
              GlobalLiveBytes(stats) == AllBytes(live)
  {
    hide CaptureSlot, SumAllocated, SumFreed, SlotsTotal, AllBytes, Lost, LiveBytes, LiveCount, Explained, Recorded;
    SumsDiffer(slots, totals, live, astray, stats);
    ClampedTotal(AllBytes(live), Lost(totals, SLOTS), SumAllocated(stats), SumFreed(stats));
    if astray == [] {
      forall s | 0 <= s < SLOTS ensures totals[s].allocatedBytes < U64 ==> SameWraps(totals[s]) {
        assert Explained(totals[s], live, [], s);
        NoWrapYet(totals[s], live, s);
      }
      LostWraps(totals, live, SLOTS);
      SlotsPartition(live);
    }
  }

  // ----------------------------------------------------------------- the ring

  datatype Snapshot = Snapshot(timestamp: nat, meta: nat, stats: seq<SlotCounters>)

  ghost predicate Shaped(samples: seq<Snapshot>) {
    forall i | 0 <= i < |samples| :: |samples[i].stats| == SLOTS
  }

  const SUBSYSTEMS: seq<string> := [
    "dns", "gateway", "firewall", "nat", "route", "metric", "geo", "docker", "wifi", "wan", "lan", "pppoe", "cert",
    "webserver", "event", "ebpf", "time", "dump", "pty", "service", "netlink", "flow", "arp", "sys", "pppd", "unattributed"]

  lemma SubsystemCount()
    ensures |SUBSYSTEMS| == SLOTS
  {
  }

  function Label(s: nat): string
    requires s < SLOTS
  {
    SubsystemCount();
    SUBSYSTEMS[s]
  }

  /** The slot a reader finds under a label. */
  ghost function SlotNamed(name: string): nat {
    if name == "dns" then 0 else if name == "gateway" then 1 else if name == "firewall" then 2
    else if name == "nat" then 3 else if name == "route" then 4 else if name == "metric" then 5
    else if name == "geo" then 6 else if name == "docker" then 7 else if name == "wifi" then 8
    else if name == "wan" then 9 else if name == "lan" then 10 else if name == "pppoe" then 11
    else if name == "cert" then 12 else if name == "webserver" then 13 else if name == "event" then 14
    else if name == "ebpf" then 15 else if name == "time" then 16 else if name == "dump" then 17
    else if name == "pty" then 18 else if name == "service" then 19 else if name == "netlink" then 20
    else if name == "flow" then 21 else if name == "arp" then 22 else if name == "sys" then 23
    else if name == "pppd" then 24 else 25
  }

  /** No two slots share a label. */
  lemma LabelsTellSlots(s: nat)
    requires s < SLOTS
    ensures SlotNamed(Label(s)) == s
  {
    if s < 13 {
      FirstLabels(s);
    } else if s < 20 {
      MiddleLabels(s);
    } else {
      LastLabels(s);
    }
  }

  lemma FirstLabels(s: nat)
    requires s < 13
    ensures SlotNamed(Label(s)) == s
  {
    assert SUBSYSTEMS[..13] == ["dns", "gateway", "firewall", "nat", "route", "metric", "geo", "docker", "wifi", "wan", "lan", "pppoe", "cert"];
  }

  lemma MiddleLabels(s: nat)
    requires 13 <= s < 20
    ensures SlotNamed(Label(s)) == s
  {
    assert SUBSYSTEMS[13..20] == ["webserver", "event", "ebpf", "time", "dump", "pty", "service"];
  }

  lemma LastLabels(s: nat)
    requires 20 <= s < SLOTS
    ensures SlotNamed(Label(s)) == s
  {
    assert SUBSYSTEMS[20..] == ["netlink", "flow", "arp", "sys", "pppd", "unattributed"];
  }

  datatype Series = Series(subsystem: string, points: seq<SlotCounters>)

  datatype Response = Response(timestamps: seq<nat>, metas: seq<nat>, series: seq<Series>)

  /** The last `n` elements, or all when there are fewer. */
  ghost function Last<T>(xs: seq<T>, n: nat): seq<T> {
    if n >= |xs| then xs else xs[|xs| - n..]
  }

  lemma LastOfLast<T>(xs: seq<T>, capacity: nat, limit: nat)
    ensures Last(Last(xs, capacity), limit) == Last(xs, if limit > capacity then capacity else limit)
  {
  }

  /** The column of one slot over a window. */
  function Column(samples: seq<Snapshot>, slot: nat): (c: seq<SlotCounters>)
    requires slot < SLOTS && Shaped(samples)
    ensures |c| == |samples| && forall i | 0 <= i < |samples| :: c[i] == samples[i].stats[slot]
  {
    seq(|samples|, i requires 0 <= i < |samples| => samples[i].stats[slot])
  }

  ghost predicate ZeroThroughout(samples: seq<Snapshot>, slot: nat)
    requires slot < SLOTS && Shaped(samples)
  {
    forall i | 0 <= i < |samples| :: samples[i].stats[slot] == ZERO
  }

  ghost predicate Shown(samples: seq<Snapshot>, subsystem: Option<string>, s: nat)
    requires s < SLOTS && Shaped(samples)
  {
    !ZeroThroughout(samples, s) && (subsystem.None? || Label(s) == subsystem.value)
  }

  /** The series of the shown slots below `n`, in slot order. */
  ghost function Projected(samples: seq<Snapshot>, subsystem: Option<string>, n: nat): seq<Series>
    requires n <= SLOTS && Shaped(samples)
  {
    if n == 0 then []
    else
      Projected(samples, subsystem, n - 1)
      + if Shown(samples, subsystem, n - 1) then [Series(Label(n - 1), Column(samples, n - 1))] else []
  }

  /** Marks the slots that are not zero throughout. */
  method FindUsed(samples: seq<Snapshot>) returns (used: seq<bool>)
    requires Shaped(samples)
    ensures |used| == SLOTS && forall s | 0 <= s < SLOTS :: used[s] <==> !ZeroThroughout(samples, s)
  {
    used := seq(SLOTS, _ => false);
    for i := 0 to |samples|
      invariant |used| == SLOTS
      invariant forall s | 0 <= s < SLOTS :: used[s] <==> exists j :: 0 <= j < i && samples[j].stats[s] != ZERO
    {
      ghost var before := used;
      for slot := 0 to SLOTS
        invariant |used| == SLOTS
        invariant forall s | 0 <= s < SLOTS :: used[s] <==> before[s] || (s < slot && samples[i].stats[s] != ZERO)
      {
        if samples[i].stats[slot] != ZERO {
          used := used[slot := true];
        }
      }
    }
  }

  /** What a response shows of a window. */
  ghost predicate ShowsWindow(r: Response, samples: seq<Snapshot>, subsystem: Option<string>) {
    && |r.timestamps| == |r.metas| == |samples|
    && Shaped(samples)
    && (forall i | 0 <= i < |samples| :: r.timestamps[i] == samples[i].timestamp && r.metas[i] == samples[i].meta)
    && r.series == Projected(samples, subsystem, SLOTS)
  }

  /** The projection of a window: one series per shown slot. */
  method BuildSeries(samples: seq<Snapshot>, subsystem: Option<string>) returns (r: Response)
    requires Shaped(samples)
    ensures ShowsWindow(r, samples, subsystem)
  {
    var used := FindUsed(samples);
    hide ZeroThroughout, Label;
    var series: seq<Series> := [];
    for slot := 0 to SLOTS
      invariant series == Projected(samples, subsystem, slot)
    {
      if used[slot] && (subsystem.None? || Label(slot) == subsystem.value) {
        series := series + [Series(Label(slot), Column(samples, slot))];
      }
    }
    r := Response(seq(|samples|, i requires 0 <= i < |samples| => samples[i].timestamp),
                  seq(|samples|, i requires 0 <= i < |samples| => samples[i].meta), series);
  }

  class MemoryHistory {
    var inner: seq<Snapshot>
    const capacity: nat
    /** Everything ever pushed. */
    ghost var log: seq<Snapshot>

    ghost predicate Valid()
      reads this
    {
      capacity >= 1 && inner == Last(log, capacity) && Shaped(inner)
    }

    constructor (capacity: nat)
      ensures Valid() && log == []
      ensures this.capacity == if capacity < 1 then 1 else capacity
    {
      this.capacity := if capacity < 1 then 1 else capacity;
      inner := [];
      log := [];
    }

    method Push(snapshot: Snapshot)
      requires Valid() && |snapshot.stats| == SLOTS
      modifies this
      ensures Valid() && log == old(log) + [snapshot]
    {
      if |inner| == capacity {
        inner := inner[1..];
      }
      inner := inner + [snapshot];
      log := log + [snapshot];
    }

    /** The most recent snapshots (all of them for limit 0), projected. */
    method RecentSeries(limit: nat, subsystem: Option<string>) returns (r: Response)
      requires Valid()
      ensures ShowsWindow(r, Last(log, if limit == 0 || limit > capacity then capacity else limit), subsystem)
    {
      hide ShowsWindow;
      LastOfLast(log, capacity, limit);
      var samples := if limit == 0 || limit >= |inner| then inner else inner[|inner| - limit..];
      r := BuildSeries(samples, subsystem);
    }
  }

  /** The counters a reader recovers for slot `s` of sample `i` from a list of series: the
      point under that slot's label, or zero where no series carries it. */
  ghost function Rebuilt(series: seq<Series>, s: nat, i: nat): SlotCounters {
    if series == [] then ZERO
    else
      var last := series[|series| - 1];
      if SlotNamed(last.subsystem) == s && i < |last.points| then last.points[i]
      else Rebuilt(series[..|series| - 1], s, i)
  }

  lemma RebuiltSnoc(series: seq<Series>, x: Series, s: nat, i: nat)
    ensures Rebuilt(series + [x], s, i) ==
            if SlotNamed(x.subsystem) == s && i < |x.points| then x.points[i] else Rebuilt(series, s, i)
  {
    hide SlotNamed;
    assert (series + [x])[..|series|] == series;
  }

  lemma ProjectedStep(samples: seq<Snapshot>, subsystem: Option<string>, n: nat)
    requires n < SLOTS && Shaped(samples)
    ensures Projected(samples, subsystem, n + 1) ==
            if Shown(samples, subsystem, n)
            then Projected(samples, subsystem, n) + [Series(Label(n), Column(samples, n))]
            else Projected(samples, subsystem, n)
  {
    hide Shown, Label, Column;
    assert Projected(samples, subsystem, n) + [] == Projected(samples, subsystem, n);
  }

  lemma ShownOrZero(samples: seq<Snapshot>, s: nat, i: nat)
    requires Shaped(samples) && s < SLOTS && i < |samples|
    ensures Shown(samples, None, s) || samples[i].stats[s] == ZERO
  {
    hide Label;
  }

  lemma NothingRebuilt(samples: seq<Snapshot>, s: nat, i: nat)
    requires Shaped(samples)
    ensures Rebuilt(Projected(samples, None, 0), s, i) == ZERO
  {
  }

  lemma {:induction false} ProjectionRebuilds(samples: seq<Snapshot>, n: nat, s: nat, i: nat)
    requires n <= SLOTS && s < SLOTS && i < |samples| && Shaped(samples)
    ensures Rebuilt(Projected(samples, None, n), s, i) == if s < n then samples[i].stats[s] else ZERO
  {
    hide SlotNamed, Label, Shown, Projected, Rebuilt;
    if n == 0 {
      NothingRebuilt(samples, s, i);
    } else {
      ProjectionRebuilds(samples, n - 1, s, i);
      ProjectedStep(samples, None, n - 1);
      LabelsTellSlots(n - 1);
      ShownOrZero(samples, n - 1, i);
      RebuiltSnoc(Projected(samples, None, n - 1), Series(Label(n - 1), Column(samples, n - 1)), s, i);
    }
  }

  /** Nothing is lost: without a filter, every counter of every shown snapshot can be rebuilt
      from the response alone. */
  lemma SeriesRebuilds(r: Response, window: seq<Snapshot>, s: nat, i: nat)
    requires ShowsWindow(r, window, None) && s < SLOTS && i < |window|
    ensures Rebuilt(r.series, s, i) == window[i].stats[s]
  {
    ProjectionRebuilds(window, SLOTS, s, i);
  }

  /** A slot has a series if and only if it is used and passes the filter. */
  lemma {:induction false} ShownExactly(samples: seq<Snapshot>, subsystem: Option<string>, n: nat, s: nat)
    requires n <= SLOTS && s < SLOTS && Shaped(samples)
    ensures Labelled(Projected(samples, subsystem, n), s) <==> s < n && Shown(samples, subsystem, s)
  {
    hide SlotNamed, Label, Shown, Projected, Labelled, Column, Shaped;
    if n == 0 {
      NothingProjected(samples, subsystem, s);
    } else {
      ShownExactly(samples, subsystem, n - 1, s);
      ProjectedStep(samples, subsystem, n - 1);
      LabelsTellSlots(n - 1);
      LabelledSnoc(Projected(samples, subsystem, n - 1), Series(Label(n - 1), Column(samples, n - 1)), s);
    }
  }

  lemma NothingProjected(samples: seq<Snapshot>, subsystem: Option<string>, s: nat)
    requires Shaped(samples)
    ensures !Labelled(Projected(samples, subsystem, 0), s)
  {
  }

  ghost predicate Labelled(series: seq<Series>, s: nat) {
    exists x <- series :: SlotNamed(x.subsystem) == s
  }

  lemma LabelledSnoc(series: seq<Series>, x: Series, s: nat)
    ensures Labelled(series + [x], s) <==> Labelled(series, s) || SlotNamed(x.subsystem) == s
  {
    hide SlotNamed;
    assert x in series + [x];
    assert forall y <- series :: y in series + [x];
  }
}
