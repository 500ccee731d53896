/** The allocator object: memory, system grants and counters, changed in place. */
module AccountingHeap {
  import opened Allocator
  import opened Bits
  import opened Options

  /** Blocks of the live list lie in different grants. */
  ghost predicate DistinctBases(live: seq<Block>) {
    forall i, j | 0 <= i < j < |live| :: live[i].base != live[j].base
  }

  ghost predicate HeapOk(mem: seq<Byte>, sys: map<nat, Grant>, live: seq<Block>) {
    && |mem| <= U64
    && SystemOk(sys, |mem|)
    && DistinctBases(live)
    && forall i | 0 <= i < |live| :: BlockOk(mem, sys, live[i])
  }

  /** The books of one slot: totals ever charged and credited, exact integers. */
  ghost predicate BooksBalance(total: Counters, live: seq<Block>, slot: nat) {
    && total.allocatedBytes == total.freedBytes + LiveBytes(live, slot)
    && total.allocEvents == total.freeEvents + LiveCount(live, slot)
  }

  /** A 64-bit counter that has counted up to `total`, wrapping on overflow. */
  ghost function Wrapped(total: Counters): Counters {
    Counters(total.allocatedBytes % U64, total.freedBytes % U64, total.allocEvents % U64, total.freeEvents % U64)
  }

  ghost predicate CountersOk(slots: seq<Counters>, totals: seq<Counters>, live: seq<Block>) {
    && |slots| == |totals| == SLOTS
    && forall s | 0 <= s < SLOTS :: slots[s] == Wrapped(totals[s]) && BooksBalance(totals[s], live, s)
  }

  /** The blocks as their headers name them, with 32 bits of the tag. */
  ghost function Recorded(blocks: seq<Block>): (r: seq<Block>)
    ensures |r| == |blocks| && forall i | 0 <= i < |r| :: r[i] == blocks[i].(tag := blocks[i].tag % U32)
  {
    seq(|blocks|, i requires 0 <= i < |blocks| => blocks[i].(tag := blocks[i].tag % U32))
  }

  /** The law for every tag. `astray` lists the freed blocks whose tag lost its slot: they were
      charged to one slot and credited to another. */
  ghost predicate Explained(total: Counters, live: seq<Block>, astray: seq<Block>, slot: nat) {
    && total.allocatedBytes + LiveBytes(Recorded(astray), slot)
       == total.freedBytes + LiveBytes(live, slot) + LiveBytes(astray, slot)
    && total.allocEvents + LiveCount(Recorded(astray), slot)
       == total.freeEvents + LiveCount(live, slot) + LiveCount(astray, slot)
  }

  ghost predicate Accounts(slots: seq<Counters>, totals: seq<Counters>, live: seq<Block>, astray: seq<Block>) {
    && |slots| == |totals| == SLOTS
    && (forall s | 0 <= s < SLOTS :: slots[s] == Wrapped(totals[s]) && Explained(totals[s], live, astray, s))
    && (forall i | 0 <= i < |astray| :: !KeepsSlot(astray[i].tag))
  }

  function Charge(c: Counters, bytes: nat): Counters {
    c.(allocatedBytes := c.allocatedBytes + bytes, allocEvents := c.allocEvents + 1)
  }

  function Credit(c: Counters, bytes: nat): Counters {
    c.(freedBytes := c.freedBytes + bytes, freeEvents := c.freeEvents + 1)
  }

  /** `fetch_add` on the slot's atomics, allocation side. */
  function RecordAlloc(slots: seq<Counters>, tag: nat, bytes: nat): seq<Counters>
    requires |slots| == SLOTS
  {
    var c := slots[Slot(tag)];
    slots[Slot(tag) := c.(allocatedBytes := (c.allocatedBytes + bytes) % U64, allocEvents := (c.allocEvents + 1) % U64)]
  }

  function RecordFree(slots: seq<Counters>, tag: nat, bytes: nat): seq<Counters>
    requires |slots| == SLOTS
  {
    var c := slots[Slot(tag)];
    slots[Slot(tag) := c.(freedBytes := (c.freedBytes + bytes) % U64, freeEvents := (c.freeEvents + 1) % U64)]
  }

  /** One wrapping addition on a 64-bit counter. */
  lemma WrapAdd(x: nat, y: nat)
    ensures (x % U64 + y) % U64 == (x + y) % U64
  {
  }

  lemma LiveSnoc(live: seq<Block>, b: Block, slot: nat)
    ensures LiveBytes(live + [b], slot) == LiveBytes(live, slot) + (if Slot(b.tag) == slot then b.size else 0)
    ensures LiveCount(live + [b], slot) == LiveCount(live, slot) + (if Slot(b.tag) == slot then 1 else 0)
  {
    assert (live + [b])[..|live|] == live;
  }

  /** Charging a new block keeps the books, whatever its tag. */
  lemma ChargeKeepsBooks(slots: seq<Counters>, totals: seq<Counters>, live: seq<Block>, astray: seq<Block>, b: Block)
    requires Accounts(slots, totals, live, astray)
    ensures Accounts(RecordAlloc(slots, b.tag, b.size),
                     totals[Slot(b.tag) := Charge(totals[Slot(b.tag)], b.size)], live + [b], astray)
  {
    hide LiveBytes, LiveCount, Recorded;
    var t := totals[Slot(b.tag)];
    WrapAdd(t.allocatedBytes, b.size);
    WrapAdd(t.allocEvents, 1);
    var next := totals[Slot(b.tag) := Charge(t, b.size)];
    forall s | 0 <= s < SLOTS ensures Explained(next[s], live + [b], astray, s) {
      LiveSnoc(live, b, s);
      assert Explained(totals[s], live, astray, s);
    }
  }

  /** The blocks gone astray after block `b` was freed. */
  ghost function Strayed(astray: seq<Block>, b: Block): seq<Block> {
    if KeepsSlot(b.tag) then astray else astray + [b]
  }

  lemma StrayedSums(astray: seq<Block>, b: Block, slot: nat)
    ensures var after, tag := Strayed(astray, b), b.tag % U32;
            && LiveBytes(after, slot) - LiveBytes(Recorded(after), slot)
               == LiveBytes(astray, slot) - LiveBytes(Recorded(astray), slot)
                  + (if Slot(b.tag) == slot then b.size else 0) - (if Slot(tag) == slot then b.size else 0)
            && LiveCount(after, slot) - LiveCount(Recorded(after), slot)
               == LiveCount(astray, slot) - LiveCount(Recorded(astray), slot)
                  + (if Slot(b.tag) == slot then 1 else 0) - (if Slot(tag) == slot then 1 else 0)
  {
    hide LiveBytes, LiveCount;
    if !KeepsSlot(b.tag) {
      LiveSnoc(astray, b, slot);
      LiveSnoc(Recorded(astray), b.(tag := b.tag % U32), slot);
      assert Recorded(astray + [b]) == Recorded(astray) + [b.(tag := b.tag % U32)];
    }
  }

  /** Crediting a freed block to the slot its header names keeps the books. */
  lemma CreditKeepsBooks(slots: seq<Counters>, totals: seq<Counters>, live: seq<Block>, astray: seq<Block>, k: nat)
    requires Accounts(slots, totals, live, astray) && k < |live|
    ensures var b, tag := live[k], live[k].tag % U32;
            Accounts(RecordFree(slots, tag, b.size),
                     totals[Slot(tag) := Credit(totals[Slot(tag)], b.size)], Without(live, k), Strayed(astray, b))
  {
    hide LiveBytes, LiveCount, Without, Recorded;
    var b, tag := live[k], live[k].tag % U32;
    var t := totals[Slot(tag)];
    WrapAdd(t.freedBytes, b.size);
    WrapAdd(t.freeEvents, 1);
    var next := totals[Slot(tag) := Credit(t, b.size)];
    forall s | 0 <= s < SLOTS ensures Explained(next[s], Without(live, k), Strayed(astray, b), s) {
      CreditExplains(totals[s], live, astray, k, s);
    }
  }

  lemma CreditExplains(total: Counters, live: seq<Block>, astray: seq<Block>, k: nat, s: nat)
    requires k < |live| && Explained(total, live, astray, s)
    ensures Explained(if Slot(live[k].tag % U32) == s then Credit(total, live[k].size) else total,
                      Without(live, k), Strayed(astray, live[k]), s)
  {
    hide LiveBytes, LiveCount, Without, Recorded, Strayed, Slot;
    LiveWithout(live, k, s);
    StrayedSums(astray, live[k], s);
  }

  /** Conservation, slot by slot, holds if and only if no block went astray. */
  lemma BalancedIffNothingAstray(slots: seq<Counters>, totals: seq<Counters>, live: seq<Block>, astray: seq<Block>)
    requires Accounts(slots, totals, live, astray)
    ensures CountersOk(slots, totals, live) <==> astray == []
  {
    hide LiveBytes, LiveCount, Wrapped;
    if astray == [] {
      assert Recorded(astray) == [];
      forall s | 0 <= s < SLOTS ensures BooksBalance(totals[s], live, s) {
        NothingLive(s);
        assert Explained(totals[s], live, astray, s);
      }
    } else {
      StraysAreUnattributed(astray);
      assert Explained(totals[UNATTRIBUTED], live, astray, UNATTRIBUTED);
      assert !BooksBalance(totals[UNATTRIBUTED], live, UNATTRIBUTED);
    }
  }

  lemma NothingLive(slot: nat)
    ensures LiveBytes([], slot) == 0 && LiveCount([], slot) == 0
  {
  }

  /** Every stray was charged to the last slot and credited to another. */
  lemma {:induction false} StraysAreUnattributed(astray: seq<Block>)
    requires forall i | 0 <= i < |astray| :: !KeepsSlot(astray[i].tag)
    ensures LiveCount(astray, UNATTRIBUTED) == |astray| && LiveCount(Recorded(astray), UNATTRIBUTED) == 0
  {
    if astray != [] {
      var front, b := astray[..|astray| - 1], astray[|astray| - 1];
      StraysAreUnattributed(front);
      assert Recorded(astray)[..|astray| - 1] == Recorded(front);
      assert !KeepsSlot(b.tag);
      WhichTagsKeepTheirSlot(b.tag);
    }
  }

  /** Two live blocks never share a byte, headers included. */
  lemma BlocksApart(mem: seq<Byte>, sys: map<nat, Grant>, live: seq<Block>, i: nat, j: nat)
    requires HeapOk(mem, sys, live) && i < |live| && j < |live| && i != j
    ensures Apart(live[i].data - HEADER_SIZE, HEADER_SIZE + live[i].size, live[j].data - HEADER_SIZE, HEADER_SIZE + live[j].size)
  {
    hide DataAddr, Encode, HeaderOf, PowerOfTwo;
    assert BlockOk(mem, sys, live[i]) && BlockOk(mem, sys, live[j]);
    assert live[i].base != live[j].base;
  }

  /** The block's data reads the same in both memories. */
  ghost predicate DataKept(mem: seq<Byte>, after: seq<Byte>, b: Block) {
    && b.data + b.size <= |mem| && b.data + b.size <= |after|
    && after[b.data..b.data + b.size] == mem[b.data..b.data + b.size]
  }

  ghost predicate SameData(mem: seq<Byte>, after: seq<Byte>, live: seq<Block>) {
    forall j | 0 <= j < |live| :: DataKept(mem, after, live[j])
  }

  lemma WriteElsewhere(mem: seq<Byte>, sys: map<nat, Grant>, c: Block, at: nat, bytes: seq<Byte>)
    requires BlockOk(mem, sys, c) && at + |bytes| <= |mem|
    requires at + |bytes| <= c.data - HEADER_SIZE || c.data <= at
    ensures BlockOk(Splice(mem, at, bytes), sys, c)
    ensures Apart(at, |bytes|, c.data, c.size) ==> DataKept(mem, Splice(mem, at, bytes), c)
  {
    hide DataAddr, Encode, HeaderOf, PowerOfTwo, Splice;
    SpliceElsewhere(mem, at, bytes, c.data - HEADER_SIZE, c.data);
    if Apart(at, |bytes|, c.data, c.size) {
      SpliceElsewhere(mem, at, bytes, c.data, c.data + c.size);
    }
  }

  /** Memory changed inside the data of block `k` only. */
  lemma DataWriteKeepsHeap(mem: seq<Byte>, sys: map<nat, Grant>, live: seq<Block>, k: nat, at: nat, bytes: seq<Byte>)
    requires HeapOk(mem, sys, live) && k < |live|
    requires live[k].data <= at && at + |bytes| <= live[k].data + live[k].size
    ensures at + |bytes| <= |mem| && HeapOk(Splice(mem, at, bytes), sys, live)
    ensures SameData(mem, Splice(mem, at, bytes), Without(live, k))
  {
    assert BlockOk(mem, sys, live[k]);
    assert at + |bytes| <= |mem|;
    hide BlockOk, DataKept;
    forall j | 0 <= j < |live|
      ensures BlockOk(Splice(mem, at, bytes), sys, live[j])
      ensures j != k ==> DataKept(mem, Splice(mem, at, bytes), live[j])
    {
      if j != k {
        BlocksApart(mem, sys, live, j, k);
      }
      WriteElsewhere(mem, sys, live[j], at, bytes);
    }
  }

  lemma GrantKeepsSystem(sys: map<nat, Grant>, room: nat, base: nat, g: Grant)
    requires SystemOk(sys, room) && MayGrant(sys, room, base, g.size, g.align)
    ensures SystemOk(sys[base := g], room)
  {
  }

  /** A fresh grant and a write inside it leave every existing block intact. */
  lemma OldBlockSurvives(mem: seq<Byte>, sys: map<nat, Grant>, c: Block, base: nat, g: Grant, at: nat, bytes: seq<Byte>)
    requires BlockOk(mem, sys, c) && MayGrant(sys, |mem|, base, g.size, g.align)
    requires base <= at && at + |bytes| <= base + g.size
    ensures c.base != base && BlockOk(Splice(mem, at, bytes), sys[base := g], c)
    ensures DataKept(mem, Splice(mem, at, bytes), c)
  {
    hide DataAddr, Encode, HeaderOf, PowerOfTwo, Splice;
    assert Apart(c.base, sys[c.base].size, base, g.size);
    SpliceElsewhere(mem, at, bytes, c.data, c.data + c.size);
    SpliceElsewhere(mem, at, bytes, c.data - HEADER_SIZE, c.data);
  }

  lemma NewBlockOk(mem: seq<Byte>, sys: map<nat, Grant>, b: Block)
    requires |mem| <= U64 && ValidLayout(b.size, b.align) && ValidLayout(BaseSize(b.size, b.align), BaseAlign(b.align))
    requires MayGrant(sys, |mem|, b.base, BaseSize(b.size, b.align), BaseAlign(b.align))
    requires 0 < b.align <= U64 && b.data == DataAddr(b.base, b.align)
    ensures b.base <= b.data - HEADER_SIZE && b.data + b.size <= b.base + BaseSize(b.size, b.align) <= |mem|
    ensures BlockOk(Splice(mem, b.data - HEADER_SIZE, Encode(HeaderOf(b))), sys[b.base := GrantOf(b)], b)
  {
    Placement(b.base, b.size, b.align);
    hide DataAddr, Encode, HeaderOf, PowerOfTwo, Splice;
    SpliceHere(mem, b.data - HEADER_SIZE, Encode(HeaderOf(b)));
  }

  /** Writing the header of a new block into a fresh grant keeps all others intact. */
  lemma NewBlockKeepsHeap(mem: seq<Byte>, sys: map<nat, Grant>, live: seq<Block>, b: Block)
    requires HeapOk(mem, sys, live)
    requires ValidLayout(b.size, b.align) && ValidLayout(BaseSize(b.size, b.align), BaseAlign(b.align))
    requires MayGrant(sys, |mem|, b.base, BaseSize(b.size, b.align), BaseAlign(b.align))
    requires 0 < b.align <= U64 && b.data == DataAddr(b.base, b.align)
    ensures b.base <= b.data - HEADER_SIZE && b.data <= |mem|
    ensures HeapOk(Splice(mem, b.data - HEADER_SIZE, Encode(HeaderOf(b))), sys[b.base := GrantOf(b)], live + [b])
    ensures SameData(mem, Splice(mem, b.data - HEADER_SIZE, Encode(HeaderOf(b))), live)
  {
    hide BlockOk, SystemOk, MayGrant, DataAddr, Encode, HeaderOf, PowerOfTwo, Splice, ValidLayout, DataKept;
    NewBlockOk(mem, sys, b);
    var header := Encode(HeaderOf(b));
    var at, g := b.data - HEADER_SIZE, GrantOf(b);
    var after := Splice(mem, at, header);
    GrantKeepsSystem(sys, |mem|, b.base, g);
    forall j | 0 <= j < |live|
      ensures BlockOk(after, sys[b.base := g], live[j]) && live[j].base != b.base && DataKept(mem, after, live[j])
    {
      OldBlockSurvives(mem, sys, live[j], b.base, g, at, header);
    }
  }

  lemma SpliceHere(mem: seq<Byte>, at: nat, bytes: seq<Byte>)
    requires at + |bytes| <= |mem|
    ensures Splice(mem, at, bytes)[at..at + |bytes|] == bytes
  {
  }

  /** Returning a grant removes one block and disturbs no other. */
  lemma FreeKeepsHeap(mem: seq<Byte>, sys: map<nat, Grant>, live: seq<Block>, k: nat)
    requires HeapOk(mem, sys, live) && k < |live|
    ensures HeapOk(mem, sys - {live[k].base}, Without(live, k))
  {
    hide DataAddr, Encode, HeaderOf, PowerOfTwo;
    var rest, grants := Without(live, k), sys - {live[k].base};
    forall j | 0 <= j < |rest| ensures BlockOk(mem, grants, rest[j]) {
      var i := if j < k then j else j + 1;
      assert rest[j] == live[i] && BlockOk(mem, sys, live[i]) && live[i].base != live[k].base;
    }
  }

  /** What the header of a live block tells the deallocator. */
  lemma ReadHeader(mem: seq<Byte>, sys: map<nat, Grant>, live: seq<Block>, k: nat)
    requires HeapOk(mem, sys, live) && k < |live|
    ensures HEADER_SIZE <= live[k].data <= |mem| && live[k].base in sys
    ensures var b := live[k];
            var h := Decode(mem[b.data - HEADER_SIZE..b.data]);
            && h.magic == MAGIC && h.origSize == b.size && h.owner == b.tag % U32
            && (ValidLayout(h.baseSize, h.baseAlign) <==> b.align < U32)
            && (b.align < U32 ==> h.baseOffset <= b.data && b.data - h.baseOffset == b.base
                                  && Grant(h.baseSize, h.baseAlign) == sys[b.base])
  {
    assert BlockOk(mem, sys, live[k]);
    RecoveryIffSmallAlign(mem, sys, live[k]);
    hide DataAddr, Encode, Decode, HeaderOf, PowerOfTwo;
  }

  lemma GrantFits(mem: seq<Byte>, sys: map<nat, Grant>, live: seq<Block>, base: nat, size: nat, align: nat)
    requires HeapOk(mem, sys, live) && MayGrant(sys, |mem|, base, BaseSize(size, align), BaseAlign(align))
    ensures base + BaseSize(size, align) <= |mem| <= U64 && base % BaseAlign(align) == 0
  {
  }

  lemma SlotsCounted(slots: seq<Counters>, totals: seq<Counters>, live: seq<Block>, astray: seq<Block>)
    requires Accounts(slots, totals, live, astray)
    ensures |slots| == |totals| == SLOTS
  {
  }

  class CountingAllocator {
    var mem: seq<Byte>
    /** Grants the system allocator considers outstanding. */
    var sys: map<nat, Grant>
    var slots: seq<Counters>
    /** The current thread's owner tag. */
    var tag: nat
    /** Blocks the program holds, oldest first. */
    ghost var live: seq<Block>
    /** What the counters would show without wrapping. */
    ghost var totals: seq<Counters>
    /** Freed blocks that were credited to another slot than the one charged. */
    ghost var astray: seq<Block>

    ghost predicate Valid()
      reads this
    {
      HeapOk(mem, sys, live) && Accounts(slots, totals, live, astray)
    }

    constructor (room: nat)
      requires room <= U64
      ensures Valid() && |mem| == room && live == [] && astray == [] && sys == map[] && tag == UNATTRIBUTED
    {
      mem := seq(room, _ => 0);
      sys := map[];
      slots := seq(SLOTS, _ => Counters(0, 0, 0, 0));
      tag := UNATTRIBUTED;
      live := [];
      totals := seq(SLOTS, _ => Counters(0, 0, 0, 0));
      astray := [];
    }

    /** Allocation. `grant` is the system allocator's answer to the base layout. */
    method Alloc(size: nat, align: nat, grant: Option<nat>) returns (data: Option<nat>)
      requires Valid() && ValidLayout(size, align)
      requires grant.Some? ==> MayGrant(sys, |mem|, grant.value, BaseSize(size, align), BaseAlign(align))
      modifies this
      ensures Valid() && tag == old(tag) && |mem| == |old(mem)| && astray == old(astray)
      ensures data.Some? <==> grant.Some? && ValidLayout(BaseSize(size, align), BaseAlign(align))
      ensures data.None? ==> mem == old(mem) && sys == old(sys) && slots == old(slots) && live == old(live) && totals == old(totals)
      ensures data.Some? ==>
                && live == old(live) + [Block(data.value, size, align, tag, grant.value)]
                && sys == old(sys)[grant.value := Grant(BaseSize(size, align), BaseAlign(align))]
                && slots == RecordAlloc(old(slots), tag, size)
                && data.value % align == 0
                && SameData(old(mem), mem, old(live))
    {
      hide HeapOk, Accounts, Encode, PowerOfTwo, RecordAlloc, Charge, Slot, MayGrant, Splice, And, Complement;
      var baseSize, baseAlign := BaseSize(size, align), BaseAlign(align);
      if !ValidLayout(baseSize, baseAlign) || grant.None? {
        return None;
      }
      var base := grant.value;
      GrantFits(mem, sys, live, base, size, align);
      Placement(base, size, align);
      SlotsCounted(slots, totals, live, astray);
      var at := DataAddr(base, align);
      var header := Header(MAGIC, tag % U32, baseSize % U64, baseAlign % U32, (at - base) % U32, size % U64);
      ghost var block := Block(at, size, align, tag, base);
      assert header == HeaderOf(block);
      NewBlockKeepsHeap(mem, sys, live, block);
      ChargeKeepsBooks(slots, totals, live, astray, block);
      hide DataAddr;
      mem := Splice(mem, at - HEADER_SIZE, Encode(header));
      sys := sys[base := Grant(baseSize, baseAlign)];
      slots := RecordAlloc(slots, tag, size);
      totals := totals[Slot(tag) := Charge(totals[Slot(tag)], size)];
      live := live + [block];
      data := Some(at);
    }

    /** Release of block `k`. `handed` is what goes back to the system allocator. */
    method Dealloc(ptr: nat, ghost k: nat) returns (handed: Option<(nat, Grant)>)
      requires Valid() && k < |live| && live[k].data == ptr
      modifies this
      ensures Valid() && tag == old(tag) && mem == old(mem)
      ensures handed.Some? <==> old(live)[k].align < U32
      ensures handed.Some? ==>
                && old(live)[k].base in old(sys)
                && handed.value == (old(live)[k].base, old(sys)[old(live)[k].base])
                && sys == old(sys) - {old(live)[k].base}
                && live == Without(old(live), k)
                && slots == RecordFree(old(slots), old(live)[k].tag % U32, old(live)[k].size)
                && astray == Strayed(old(astray), old(live)[k])
      ensures handed.None? ==>
                && sys == old(sys) && slots == old(slots) && live == old(live)
                && totals == old(totals) && astray == old(astray)
    {
      hide HeapOk, Accounts, Decode, Without, ValidLayout, RecordFree, Credit, Slot, FromLe, Strayed;
      ReadHeader(mem, sys, live, k);
      var header := Decode(mem[ptr - HEADER_SIZE..ptr]);
      if !ValidLayout(header.baseSize, header.baseAlign) {
        return None;
      }
      var base := ptr - header.baseOffset;
      FreeKeepsHeap(mem, sys, live, k);
      CreditKeepsBooks(slots, totals, live, astray, k);
      SlotsCounted(slots, totals, live, astray);
      slots := RecordFree(slots, header.owner, header.origSize);
      totals := totals[Slot(header.owner) := Credit(totals[Slot(header.owner)], header.origSize)];
      astray := Strayed(astray, live[k]);
      sys := sys - {base};
      live := Without(live, k);
      handed := Some((base, Grant(header.baseSize, header.baseAlign)));
    }

    /** The program writes into its own block. */
    method Write(ghost k: nat, at: nat, bytes: seq<Byte>)
      requires Valid() && k < |live|
      requires live[k].data <= at && at + |bytes| <= live[k].data + live[k].size
      modifies this`mem
      ensures Valid() && |mem| == |old(mem)|
      ensures at + |bytes| <= |mem| && mem == Splice(old(mem), at, bytes)
      ensures SameData(old(mem), mem, Without(live, k))
    {
      DataWriteKeepsHeap(mem, sys, live, k, at, bytes);
      hide HeapOk, Accounts;
      mem := Splice(mem, at, bytes);
    }

    /** Reallocation keeps the owner and the first bytes; a refusal changes nothing. */
    method Realloc(ptr: nat, align: nat, newSize: nat, grant: Option<nat>, ghost k: nat) returns (data: Option<nat>)
      requires Valid() && k < |live| && live[k].data == ptr && live[k].align == align
      requires grant.Some? ==> MayGrant(sys, |mem|, grant.value, BaseSize(newSize, align), BaseAlign(align))
      modifies this
      ensures Valid() && tag == old(tag) && |mem| == |old(mem)|
      ensures data.Some? <==> grant.Some? && ValidLayout(newSize, align) && ValidLayout(BaseSize(newSize, align), BaseAlign(align))
      ensures data.None? ==>
                && mem == old(mem) && sys == old(sys) && slots == old(slots) && live == old(live)
                && totals == old(totals) && astray == old(astray)
      ensures data.Some? ==>
                var b := old(live)[k];
                var moved := Block(data.value, newSize, align, b.tag % U32, grant.value);
                var charged := RecordAlloc(old(slots), moved.tag, newSize);
                && live == (if align < U32 then Without(old(live), k) else old(live)) + [moved]
                && (Slot(moved.tag) == Slot(b.tag) <==> KeepsSlot(b.tag))
                && slots == (if align < U32 then RecordFree(charged, b.tag % U32, b.size) else charged)
                && astray == (if align < U32 then Strayed(old(astray), b) else old(astray))
                && SameData(old(mem), mem, Without(old(live), k))
      ensures data.Some? ==> CopiedFrom(old(mem), mem, ptr, data.value, Smaller(old(live)[k].size, newSize))
    {
      hide HeapOk, Accounts, Decode, Without, RecordFree, RecordAlloc, Slot, FromLe, PowerOfTwo, MayGrant, Splice, Strayed;
      ReadHeader(mem, sys, live, k);
      var header := Decode(mem[ptr - HEADER_SIZE..ptr]);
      if !ValidLayout(newSize, align) {
        return None;
      }
      var caller := tag;
      tag := header.owner;
      OwnerKeepsSlot(live[k].tag);
      ghost var before, held := mem, live;
      data := Alloc(newSize, align, grant);
      tag := caller;
      if data.None? {
        return None;
      }
      ghost var between := mem;
      var copy := Smaller(header.origSize, newSize);
      ghost var moved := Block(data.value, newSize, align, header.owner, grant.value);
      assert live == held + [moved];
      LiveInRange(mem, sys, live, k);
      LiveInRange(mem, sys, live, |held|);
      Write(|held|, data.value, mem[ptr..ptr + copy]);
      WithoutLast(held, moved);
      Survives(before, between, mem, held, k);
      CopyArrived(before, between, mem, held[k], data.value, copy);
      var handed := Dealloc(ptr, k);
      WithoutSnoc(held, moved, k);
    }
  }

  function Smaller(a: nat, b: nat): nat {
    if a < b then a else b
  }

  /** The first `n` bytes at `to` are those that were at `from`. */
  ghost predicate CopiedFrom(mem: seq<Byte>, after: seq<Byte>, from: nat, to: nat, n: nat) {
    from + n <= |mem| && to + n <= |after| && after[to..to + n] == mem[from..from + n]
  }

  /** A block of alignment 2^32 whose header cannot be turned back into a layout. */
  lemma WideAlignmentIsLost() returns (mem: seq<Byte>, sys: map<nat, Grant>, b: Block)
    ensures BlockOk(mem, sys, b) && b.align == U32
    ensures var h := Decode(mem[b.data - HEADER_SIZE..b.data]); h.baseAlign == 0 && !ValidLayout(h.baseSize, h.baseAlign)
  {
    WordPowers();
    PowersArePowers(32);
    hide PowerOfTwo, Pow2, Encode, Decode, Splice, DataAddr, HeaderOf;
    b := Block(DataAddr(0, U32), 1, U32, 0, 0);
    var zeros: seq<Byte> := seq(BaseSize(1, U32), _ => 0);
    NewBlockOk(zeros, map[], b);
    mem := Splice(zeros, b.data - HEADER_SIZE, Encode(HeaderOf(b)));
    sys := map[][0 := GrantOf(b)];
    RecoveryIffSmallAlign(mem, sys, b);
    HeaderIsReadable(b);
    WideAlignmentField(b);
  }

  lemma WideAlignmentField(b: Block)
    requires b.align == U32
    ensures HeaderOf(b).baseAlign == 0
  {
  }

  lemma OwnerKeepsSlot(tag: nat)
    ensures KeepsSlot(tag % U32) && (tag % U32) % U32 == tag % U32
  {
  }

  lemma LiveInRange(mem: seq<Byte>, sys: map<nat, Grant>, live: seq<Block>, k: nat)
    requires HeapOk(mem, sys, live) && k < |live|
    ensures live[k].data + live[k].size <= |mem|
  {
    assert BlockOk(mem, sys, live[k]);
    hide DataAddr, Encode, HeaderOf, PowerOfTwo;
  }

  lemma WithoutLast(live: seq<Block>, b: Block)
    ensures Without(live + [b], |live|) == live
  {
  }

  lemma WithoutSnoc(live: seq<Block>, b: Block, k: nat)
    requires k < |live|
    ensures Without(live + [b], k) == Without(live, k) + [b]
  {
  }

  /** Two memory changes that each spare the old blocks spare them together. */
  lemma Survives(mem: seq<Byte>, between: seq<Byte>, after: seq<Byte>, live: seq<Block>, k: nat)
    requires k < |live| && SameData(mem, between, live) && SameData(between, after, live)
    ensures SameData(mem, after, Without(live, k))
  {
    forall j | 0 <= j < |Without(live, k)| ensures DataKept(mem, after, Without(live, k)[j]) {
      var i := if j < k then j else j + 1;
      assert Without(live, k)[j] == live[i] && DataKept(mem, between, live[i]) && DataKept(between, after, live[i]);
    }
  }

  lemma CopyArrived(mem: seq<Byte>, between: seq<Byte>, after: seq<Byte>, b: Block, to: nat, n: nat)
    requires DataKept(mem, between, b) && n <= b.size && to + n <= |between|
    requires after == Splice(between, to, between[b.data..b.data + n])
    ensures CopiedFrom(mem, after, b.data, to, n)
  {
    assert between[b.data..b.data + n] == between[b.data..b.data + b.size][..n];
    assert mem[b.data..b.data + n] == mem[b.data..b.data + b.size][..n];
    SpliceHere(between, to, between[b.data..b.data + n]);
  }
}
