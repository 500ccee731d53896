/** The accounting allocator: a 32-byte header before every block, counters per subsystem.

    Memory is a sequence of bytes indexed by address. The system allocator below is an oracle
    that grants a base address or refuses; it promises alignment, room and disjointness. */
module Allocator {
  import opened Bits

  const HEADER_SIZE: nat := 32
  const HEADER_ALIGN: nat := 8
  const MAGIC: nat := 0x4C44_4D45
  const WORD: nat := 64
  const U32: nat := 0x1_0000_0000
  const U64: nat := 0x1_0000_0000_0000_0000
  const ISIZE_LIMIT: nat := 0x8000_0000_0000_0000

  /** Number of subsystem slots; the last one takes everything unattributed. */
  const SLOTS: nat := 26
  const UNATTRIBUTED: nat := 25

  // ------------------------------------------------------------------ layouts

  predicate PowerOfTwo(a: nat) {
    a == 1 || (a > 0 && a % 2 == 0 && PowerOfTwo(a / 2))
  }

  lemma {:induction false} Exponent(a: nat) returns (k: nat)
    requires PowerOfTwo(a)
    ensures a == Pow2(k)
  {
    if a == 1 {
      k := 0;
    } else {
      var j := Exponent(a / 2);
      k := j + 1;
    }
  }

  /** What `Layout::from_size_align` accepts. */
  predicate ValidLayout(size: nat, align: nat) {
    PowerOfTwo(align) && size + align <= ISIZE_LIMIT
  }

  lemma WordPowers()
    ensures Pow2(WORD) == U64 && Pow2(63) == ISIZE_LIMIT && Pow2(32) == U32 && Pow2(5) == 32 && Pow2(3) == 8
  {
    assert Pow2(8) == 256;
    assert Pow2(16) == 0x1_0000;
    assert Pow2(24) == 0x100_0000;
    assert Pow2(32) == 0x1_0000_0000;
    assert Pow2(40) == 0x100_0000_0000;
    assert Pow2(48) == 0x1_0000_0000_0000;
    assert Pow2(56) == 0x100_0000_0000_0000;
    assert Pow2(63) == 0x8000_0000_0000_0000;
  }

  function BaseAlign(align: nat): nat {
    if align < HEADER_ALIGN then HEADER_ALIGN else align
  }

  function BaseSize(size: nat, align: nat): nat {
    size + HEADER_SIZE + align
  }

  /** The data address: the first multiple of `align` that leaves room for the header. */
  function DataAddr(base: nat, align: nat): nat
    requires 0 < align <= U64
  {
    WordPowers();
    And(base + HEADER_SIZE + align - 1, Complement(WORD, align - 1))
  }

  /** Where the data lands: an exact offset, aligned, header and data inside the base block,
      and no addition leaves the 64-bit word. */
  lemma Placement(base: nat, size: nat, align: nat)
    requires ValidLayout(size, align) && base + BaseSize(size, align) <= U64
    requires base % BaseAlign(align) == 0
    ensures 0 < align <= U64
    ensures DataAddr(base, align) == base + (if align < HEADER_SIZE then HEADER_SIZE else align)
    ensures DataAddr(base, align) % align == 0
    ensures base <= DataAddr(base, align) - HEADER_SIZE
    ensures DataAddr(base, align) + size <= base + BaseSize(size, align)
    ensures BaseSize(size, align) < U64 && base + HEADER_SIZE + align - 1 < U64
  {
    WordPowers();
    var k := Exponent(align);
    if k > WORD {
      Pow2Monotone(WORD, k);
    }
    MaskRoundsDown(WORD, k, base + HEADER_SIZE + align - 1);
    if align < HEADER_SIZE {
      SmallAlign(base, k);
    } else {
      LargeAlign(base, k);
    }
  }

  /** Below 32 the header size is itself a multiple of the alignment. */
  lemma SmallAlign(base: nat, k: nat)
    requires Pow2(k) < HEADER_SIZE && base % BaseAlign(Pow2(k)) == 0
    ensures var x := base + HEADER_SIZE + Pow2(k) - 1;
            x - x % Pow2(k) == base + HEADER_SIZE && (base + HEADER_SIZE) % Pow2(k) == 0
  {
    WordPowers();
    if k >= 5 {
      Pow2Monotone(5, k);
    }
    if k <= 3 {
      EightIsEnough(base, k);
    } else {
      assert Pow2(4) == 16;
      RemainderUnique(base + 32, 16, base / 16 + 2, 0);
      RemainderUnique(base + 32 + 15, 16, base / 16 + 2, 15);
    }
  }

  lemma EightIsEnough(base: nat, k: nat)
    requires k <= 3 && base % 8 == 0
    ensures var a := Pow2(k); (base + 32) % a == 0 && (base + 32 + a - 1) % a == a - 1
  {
    var a, b := Pow2(k), Pow2(3 - k);
    assert a * b == 8 by {
      assert Pow2(0) == 1 && Pow2(1) == 2 && Pow2(2) == 4 && Pow2(3) == 8;
      assert k == 0 || k == 1 || k == 2 || k == 3;
    }
    var q := base / 8 + 4;
    assert base + 32 == 8 * q == a * (b * q) by {
      assert 8 * q == (a * b) * q;
    }
    RemainderUnique(base + 32, a, b * q, 0);
    RemainderUnique(base + 32 + a - 1, a, b * q, a - 1);
  }

  /** From 32 on the base is a multiple of the alignment and the data starts one step above. */
  lemma LargeAlign(base: nat, k: nat)
    requires Pow2(k) >= HEADER_SIZE && base % Pow2(k) == 0
    ensures var x := base + HEADER_SIZE + Pow2(k) - 1;
            x - x % Pow2(k) == base + Pow2(k) && (base + Pow2(k)) % Pow2(k) == 0
  {
    var a := Pow2(k);
    var q := base / a;
    assert base == a * q;
    assert base + a == a * (q + 1);
    RemainderUnique(base + HEADER_SIZE + a - 1, a, q + 1, HEADER_SIZE - 1);
    RemainderUnique(base + a, a, q + 1, 0);
  }

  // ------------------------------------------------------------------- header

  datatype Header = Header(magic: nat, owner: nat, baseSize: nat, baseAlign: nat, baseOffset: nat, origSize: nat)

  predicate Representable(h: Header) {
    h.magic < U32 && h.owner < U32 && h.baseSize < U64 && h.baseAlign < U32 && h.baseOffset < U32 && h.origSize < U64
  }

  /** The header as it lies in memory; a value too wide for its field keeps only its low bytes. */
  function Encode(h: Header): (s: seq<Byte>)
    ensures |s| == HEADER_SIZE
  {
    ToLe(h.magic, 4) + ToLe(h.owner, 4) + ToLe(h.baseSize, 8) + ToLe(h.baseAlign, 4) + ToLe(h.baseOffset, 4) + ToLe(h.origSize, 8)
  }

  function Decode(s: seq<Byte>): Header
    requires |s| == HEADER_SIZE
  {
    Header(FromLe(s[..4]), FromLe(s[4..8]), FromLe(s[8..16]), FromLe(s[16..20]), FromLe(s[20..24]), FromLe(s[24..]))
  }

  lemma HeaderRoundTrip(h: Header)
    requires Representable(h)
    ensures Decode(Encode(h)) == h
  {
    FieldWidths();
    var s := Encode(h);
    assert s[..4] == ToLe(h.magic, 4);
    assert s[4..8] == ToLe(h.owner, 4);
    assert s[8..16] == ToLe(h.baseSize, 8);
    assert s[16..20] == ToLe(h.baseAlign, 4);
    assert s[20..24] == ToLe(h.baseOffset, 4);
    assert s[24..] == ToLe(h.origSize, 8);
    hide ToLe, FromLe;
    LeRoundTrip(h.magic, 4);
    LeRoundTrip(h.owner, 4);
    LeRoundTrip(h.baseSize, 8);
    LeRoundTrip(h.baseAlign, 4);
    LeRoundTrip(h.baseOffset, 4);
    LeRoundTrip(h.origSize, 8);
  }

  // ------------------------------------------------------------------- memory

  /** Memory with `bytes` written at address `at`. */
  function Splice(mem: seq<Byte>, at: nat, bytes: seq<Byte>): (r: seq<Byte>)
    requires at + |bytes| <= |mem|
    ensures |r| == |mem|
    ensures forall a | 0 <= a < |mem| :: r[a] == if at <= a < at + |bytes| then bytes[a - at] else mem[a]
  {
    mem[..at] + bytes + mem[at + |bytes|..]
  }

  /** A write leaves every range alone that it does not meet. */
  lemma SpliceElsewhere(mem: seq<Byte>, at: nat, bytes: seq<Byte>, lo: nat, hi: nat)
    requires at + |bytes| <= |mem| && lo <= hi <= |mem| && (hi <= at || at + |bytes| <= lo)
    ensures Splice(mem, at, bytes)[lo..hi] == mem[lo..hi]
  {
  }

  // ----------------------------------------------------------------- counters

  datatype Counters = Counters(allocatedBytes: nat, freedBytes: nat, allocEvents: nat, freeEvents: nat)

  /** Out-of-range tags fall back to the unattributed slot. */
  function Slot(tag: nat): (s: nat)
    ensures s < SLOTS
  {
    if tag < UNATTRIBUTED then tag else UNATTRIBUTED
  }

  /** The header keeps 32 bits of the tag; the slot survives exactly when those bits still
      name it. */
  predicate KeepsSlot(tag: nat) {
    Slot(tag % U32) == Slot(tag)
  }

  lemma WhichTagsKeepTheirSlot(tag: nat)
    ensures KeepsSlot(tag) <==> tag < U32 || tag % U32 >= UNATTRIBUTED
    ensures !KeepsSlot(U32) && Slot(U32) == UNATTRIBUTED && Slot(U32 % U32) == 0
  {
  }

  /** A live block, as the program sees it: data address, requested layout, owner, base block. */
  datatype Block = Block(data: nat, size: nat, align: nat, tag: nat, base: nat)

  ghost function LiveBytes(live: seq<Block>, slot: nat): nat {
    if live == [] then 0
    else LiveBytes(live[..|live| - 1], slot) + (if Slot(live[|live| - 1].tag) == slot then live[|live| - 1].size else 0)
  }

  ghost function LiveCount(live: seq<Block>, slot: nat): nat {
    if live == [] then 0
    else LiveCount(live[..|live| - 1], slot) + (if Slot(live[|live| - 1].tag) == slot then 1 else 0)
  }

  function Without<T>(xs: seq<T>, k: nat): seq<T>
    requires k < |xs|
  {
    xs[..k] + xs[k + 1..]
  }

  lemma {:induction false} LiveWithout(live: seq<Block>, k: nat, slot: nat)
    requires k < |live|
    ensures LiveBytes(Without(live, k), slot) == LiveBytes(live, slot) - (if Slot(live[k].tag) == slot then live[k].size else 0)
    ensures LiveCount(Without(live, k), slot) == LiveCount(live, slot) - (if Slot(live[k].tag) == slot then 1 else 0)
  {
    var n := |live| - 1;
    if k == n {
      assert Without(live, k) == live[..n];
    } else {
      LiveWithout(live[..n], k, slot);
      assert Without(live, k)[..n - 1] == Without(live[..n], k);
    }
  }

  // ---------------------------------------------------------------- the heap

  /** What the system allocator handed out at a base address. */
  datatype Grant = Grant(size: nat, align: nat)

  ghost predicate Apart(p: nat, n: nat, q: nat, m: nat) {
    p + n <= q || q + m <= p
  }

  ghost predicate SystemOk(sys: map<nat, Grant>, room: nat) {
    && (forall p <- sys :: p + sys[p].size <= room)
    && (forall p, q | p in sys && q in sys && p != q :: Apart(p, sys[p].size, q, sys[q].size))
  }

  /** The system allocator's promise for a new block. */
  ghost predicate MayGrant(sys: map<nat, Grant>, room: nat, base: nat, size: nat, align: nat) {
    && base !in sys && base + size <= room && align > 0 && base % align == 0
    && forall p <- sys :: Apart(p, sys[p].size, base, size)
  }

  ghost function GrantOf(b: Block): Grant {
    Grant(BaseSize(b.size, b.align), BaseAlign(b.align))
  }

  /** The header `alloc` writes, each field cut to its width. */
  ghost function HeaderOf(b: Block): Header {
    Header(MAGIC, b.tag % U32, BaseSize(b.size, b.align) % U64, BaseAlign(b.align) % U32,
           if b.data >= b.base then (b.data - b.base) % U32 else 0, b.size % U64)
  }

  /** A live block sits inside its grant, behind an intact header. */
  ghost predicate BlockOk(mem: seq<Byte>, sys: map<nat, Grant>, b: Block) {
    && ValidLayout(b.size, b.align) && ValidLayout(BaseSize(b.size, b.align), BaseAlign(b.align))
    && b.base in sys && sys[b.base] == GrantOf(b)
    && b.base % BaseAlign(b.align) == 0 && b.base + BaseSize(b.size, b.align) <= |mem| <= U64
    && 0 < b.align <= U64 && b.data == DataAddr(b.base, b.align)
    && b.base <= b.data - HEADER_SIZE && b.data + b.size <= b.base + BaseSize(b.size, b.align)
    && mem[b.data - HEADER_SIZE..b.data] == Encode(HeaderOf(b))
  }

  lemma HeaderIsReadable(b: Block)
    ensures Decode(Encode(HeaderOf(b))) == HeaderOf(b)
  {
    HeaderRoundTrip(HeaderOf(b));
  }

  /** Recovery is exact precisely below 2^32: there the header gives back base address, size
      and alignment; from 2^32 on the stored alignment is 0, which no layout accepts. */
  lemma RecoveryIffSmallAlign(mem: seq<Byte>, sys: map<nat, Grant>, b: Block)
    requires BlockOk(mem, sys, b)
    ensures var h := Decode(mem[b.data - HEADER_SIZE..b.data]);
            && h.magic == MAGIC && h.origSize == b.size && h.owner == b.tag % U32
            && (ValidLayout(h.baseSize, h.baseAlign) <==> b.align < U32)
            && (b.align < U32 ==> b.data - h.baseOffset == b.base && Grant(h.baseSize, h.baseAlign) == sys[b.base])
  {
    hide DataAddr, Encode, Decode, HeaderOf, PowerOfTwo, ValidLayout;
    HeaderIsReadable(b);
    FieldsFit(b);
    WhichLayoutsSurvive(b);
  }

  /** The layout as the header holds it is valid exactly below alignment 2^32. */
  lemma WhichLayoutsSurvive(b: Block)
    requires ValidLayout(b.size, b.align) && ValidLayout(BaseSize(b.size, b.align), BaseAlign(b.align))
    ensures b.align >= U32 ==> !ValidLayout(BaseSize(b.size, b.align), b.align % U32)
  {
    hide PowerOfTwo;
    if b.align >= U32 {
      BigPowers(b.align);
    }
  }

  /** No field of the header truncates, except alignment and offset from 2^32 on. */
  lemma FieldsFit(b: Block)
    requires ValidLayout(b.size, b.align) && b.base + BaseSize(b.size, b.align) <= U64
    requires b.base % BaseAlign(b.align) == 0 && 0 < b.align <= U64 && b.data == DataAddr(b.base, b.align)
    ensures var h := HeaderOf(b);
            && h.magic == MAGIC && h.owner == b.tag % U32 && h.baseSize == BaseSize(b.size, b.align) && h.origSize == b.size
            && (b.align < U32 ==> h.baseAlign == BaseAlign(b.align) && h.baseOffset == b.data - b.base)
            && (b.align >= U32 ==> h.baseAlign == b.align % U32)
  {
    Placement(b.base, b.size, b.align);
    hide DataAddr, PowerOfTwo;
    Fits(b.size, U64);
    Fits(BaseSize(b.size, b.align), U64);
    if b.align < U32 {
      Fits(BaseAlign(b.align), U32);
      Fits(b.data - b.base, U32);
    }
  }

  lemma Fits(x: nat, m: nat)
    requires x < m
    ensures x % m == x
  {
  }

  lemma {:induction false} PowersArePowers(k: nat)
    ensures PowerOfTwo(Pow2(k))
  {
    if k > 0 {
      PowersArePowers(k - 1);
      assert Pow2(k) / 2 == Pow2(k - 1);
    }
  }

  lemma BigPowers(a: nat)
    requires PowerOfTwo(a) && a >= U32
    ensures a % U32 == 0 && !PowerOfTwo(a % U32)
  {
    WordPowers();
    var k := Exponent(a);
    if k < 32 {
      Pow2Monotone(k, 31);
    }
    MultipleOfPower(k, 32);
  }

  lemma {:induction false} MultipleOfPower(k: nat, j: nat)
    requires j <= k
    ensures Pow2(k) % Pow2(j) == 0
  {
    if j == k {
      RemainderUnique(Pow2(k), Pow2(j), 1, 0);
    } else {
      MultipleOfPower(k - 1, j);
      var q := Pow2(k - 1) / Pow2(j);
      assert Pow2(k - 1) == Pow2(j) * q;
      assert Pow2(k) == Pow2(j) * (2 * q);
      RemainderUnique(Pow2(k), Pow2(j), 2 * q, 0);
    }
  }
}
