/** The skeleton build cache: its key, the key's digest, and the cached-hash test. */
module BuildCache {
  import opened Bits
  import opened Options
  import opened Text

  type Bytes = seq<Byte>

  const FNV_OFFSET: Word := 0xcbf29ce484222325
  const FNV_PRIME := 0x100000001b3

  const WORD := 0x1_0000_0000_0000_0000

  /** A 64-bit word; multiplication wraps. */
  type Word = x: nat | x < 0x1_0000_0000_0000_0000

  // --------------------------------------------------------------- the digest

  function Xor(x: nat, y: nat): nat {
    if x == 0 && y == 0 then 0 else 2 * Xor(x / 2, y / 2) + (if x % 2 == y % 2 then 0 else 1)
  }

  function Step(h: Word, b: Byte): Word {
    Xor(h, b) * FNV_PRIME % WORD
  }

  function Digest(s: Bytes): Word {
    if s == [] then FNV_OFFSET else Step(Digest(s[..|s| - 1]), s[|s| - 1])
  }

  lemma {:induction false} XorCancels(x: nat, y: nat)
    ensures Xor(Xor(x, y), y) == x
  {
    if x != 0 || y != 0 {
      var z := Xor(x, y);
      assert z / 2 == Xor(x / 2, y / 2) && z % 2 == if x % 2 == y % 2 then 0 else 1;
      XorCancels(x / 2, y / 2);
    }
  }

  lemma {:induction false} XorCommutes(x: nat, y: nat)
    ensures Xor(x, y) == Xor(y, x)
  {
    if x != 0 || y != 0 {
      XorCommutes(x / 2, y / 2);
    }
  }

  lemma {:induction false} XorFits(x: nat, y: nat, w: nat)
    requires x < Pow2(w) && y < Pow2(w)
    ensures Xor(x, y) < Pow2(w)
  {
    if w > 0 {
      XorFits(x / 2, y / 2, w - 1);
    }
  }

  lemma WordPower()
    ensures Pow2(64) == WORD
  {
    assert Pow2(8) == 0x100;
    assert Pow2(16) == 0x1_0000;
    assert Pow2(24) == 0x100_0000;
    assert Pow2(32) == 0x1_0000_0000;
    assert Pow2(40) == 0x100_0000_0000;
    assert Pow2(48) == 0x1_0000_0000_0000;
    assert Pow2(56) == 0x100_0000_0000_0000;
  }

  const INVERSE := 0xce965057aff6957b

  /** The prime is odd, so multiplying by it modulo 2^64 can be undone. */
  lemma PrimeIsInvertible(x: Word)
    ensures x * FNV_PRIME % WORD * INVERSE % WORD == x
    ensures x * INVERSE % WORD * FNV_PRIME % WORD == x
  {
    var c := FNV_PRIME * INVERSE / WORD;
    assert FNV_PRIME * INVERSE == c * WORD + 1;
    var q, r := x * FNV_PRIME / WORD, x * FNV_PRIME % WORD;
    assert r * INVERSE == WORD * (x * c - q * INVERSE) + x;
    RemainderUnique(r * INVERSE, WORD, x * c - q * INVERSE, x);
    var p, s := x * INVERSE / WORD, x * INVERSE % WORD;
    assert s * FNV_PRIME == WORD * (x * c - p * FNV_PRIME) + x;
    RemainderUnique(s * FNV_PRIME, WORD, x * c - p * FNV_PRIME, x);
  }

  /** The state before a step, from the state after it. */
  ghost function StepBack(k: Word, b: Byte): nat {
    Xor(k * INVERSE % WORD, b)
  }

  /** For each byte a step is a bijection on 64-bit states. */
  lemma StepIsBijective(h: Word, b: Byte)
    ensures StepBack(Step(h, b), b) == h
    ensures StepBack(h, b) < WORD && Step(StepBack(h, b), b) == h
  {
    hide Xor;
    WordPower();
    hide Pow2;
    XorFits(h, b, 64);
    PrimeIsInvertible(Xor(h, b));
    XorCancels(h, b);
    var k := h * INVERSE % WORD;
    XorFits(k, b, 64);
    XorCancels(k, b);
    PrimeIsInvertible(h);
  }

  /** From one state, different bytes lead to different states. */
  lemma StepTellsBytes(h: Word, a: Byte, b: Byte)
    requires Step(h, a) == Step(h, b)
    ensures a == b
  {
    hide Xor;
    WordPower();
    hide Pow2;
    XorFits(h, a, 64);
    XorFits(h, b, 64);
    PrimeIsInvertible(Xor(h, a));
    PrimeIsInvertible(Xor(h, b));
    XorCommutes(h, a);
    XorCommutes(h, b);
    XorCancels(a, h);
    XorCancels(b, h);
  }

  /** A common tail neither makes nor hides a collision. */
  lemma {:induction false} TailKeepsCollisions(s: Bytes, t: Bytes, tail: Bytes)
    ensures Digest(s + tail) == Digest(t + tail) <==> Digest(s) == Digest(t)
  {
    hide Step;
    if tail == [] {
      assert s + tail == s && t + tail == t;
    } else {
      var front, b := tail[..|tail| - 1], tail[|tail| - 1];
      TailKeepsCollisions(s, t, front);
      assert (s + tail)[..|s + tail| - 1] == s + front;
      assert (t + tail)[..|t + tail| - 1] == t + front;
      StepIsBijective(Digest(s + front), b);
      StepIsBijective(Digest(t + front), b);
    }
  }

  /** Changing one byte always changes the digest. */
  lemma OneByteChangesDigest(s: Bytes, i: nat, b: Byte)
    requires i < |s| && s[i] != b
    ensures Digest(s[i := b]) != Digest(s)
  {
    var head, tail := s[..i], s[i + 1..];
    assert s == (head + [s[i]]) + tail;
    assert s[i := b] == (head + [b]) + tail;
    TailKeepsCollisions(head + [s[i]], head + [b], tail);
    assert (head + [s[i]])[..i] == head && (head + [b])[..i] == head;
    hide Step;
    if Step(Digest(head), s[i]) == Step(Digest(head), b) {
      StepTellsBytes(Digest(head), s[i], b);
    }
  }

  // ------------------------------------------------------------------ the key

  ghost predicate Fits(fields: seq<Bytes>) {
    forall f <- fields :: |f| < WORD
  }

  function Framed(field: Bytes): Bytes {
    ToLe(|field|, 8) + field
  }

  function Encoded(fields: seq<Bytes>): Bytes {
    if fields == [] then [] else Encoded(fields[..|fields| - 1]) + Framed(fields[|fields| - 1])
  }

  class KeyBuilder {
    var buffer: Bytes

    constructor ()
      ensures buffer == Encoded([])
    {
      buffer := [];
    }

    method Field(bytes: Bytes)
      modifies this
      ensures buffer == old(buffer) + Framed(bytes)
      ensures forall fields :: old(buffer) == Encoded(fields) ==> buffer == Encoded(fields + [bytes])
    {
      buffer := buffer + ToLe(|bytes|, 8);
      buffer := buffer + bytes;
      assert buffer == old(buffer) + Framed(bytes);
      forall fields | old(buffer) == Encoded(fields)
        ensures buffer == Encoded(fields + [bytes])
      {
        assert (fields + [bytes])[..|fields|] == fields;
      }
    }

    method Finish() returns (h: Word)
      ensures h == Digest(buffer)
    {
      hide Step;
      h := FNV_OFFSET;
      for i := 0 to |buffer|
        invariant h == Digest(buffer[..i])
      {
        assert buffer[..i + 1][..i] == buffer[..i];
        h := Step(h, buffer[i]);
      }
      assert buffer[..|buffer|] == buffer;
    }
  }

  lemma {:induction false} EncodedConcat(fields: seq<Bytes>, more: seq<Bytes>)
    ensures Encoded(fields + more) == Encoded(fields) + Encoded(more)
  {
    hide Framed;
    if more == [] {
      assert fields + more == fields;
    } else {
      var front, last := more[..|more| - 1], more[|more| - 1];
      EncodedConcat(fields, front);
      var all := fields + more;
      assert all[..|all| - 1] == fields + front && all[|all| - 1] == last;
      assert Encoded(fields) + Encoded(front) + Framed(last) == Encoded(fields) + (Encoded(front) + Framed(last));
    }
  }

  lemma EncodedOne(field: Bytes)
    ensures Encoded([field]) == Framed(field)
  {
    assert Encoded([field][..0]) == [];
  }

  lemma EncodedFirst(fields: seq<Bytes>)
    requires fields != []
    ensures Encoded(fields) == Framed(fields[0]) + Encoded(fields[1..])
  {
    assert fields == [fields[0]] + fields[1..];
    EncodedConcat([fields[0]], fields[1..]);
    EncodedOne(fields[0]);
  }

  lemma FramedDecides(f: Bytes, g: Bytes, rest: Bytes, other: Bytes)
    requires |f| < WORD && |g| < WORD && Framed(f) + rest == Framed(g) + other
    ensures f == g && rest == other
  {
    var whole := Framed(f) + rest;
    assert ToLe(|f|, 8) == whole[..8] == ToLe(|g|, 8);
    FieldWidths();
    LeRoundTrip(|f|, 8);
    LeRoundTrip(|g|, 8);
    assert f == whole[8..8 + |f|] == g;
    assert rest == whole[8 + |f|..] == other;
  }

  /** The length-prefixed buffer determines the list of fields. */
  lemma {:induction false} EncodingIsInjective(fields: seq<Bytes>, others: seq<Bytes>)
    requires Fits(fields) && Fits(others) && Encoded(fields) == Encoded(others)
    ensures fields == others
    decreases |fields|
  {
    hide Encoded, Framed;
    if fields == [] || others == [] {
      NonemptyEncoding(fields);
      NonemptyEncoding(others);
    } else {
      EncodedFirst(fields);
      EncodedFirst(others);
      FramedDecides(fields[0], others[0], Encoded(fields[1..]), Encoded(others[1..]));
      EncodingIsInjective(fields[1..], others[1..]);
      assert fields == [fields[0]] + fields[1..] == [others[0]] + others[1..] == others;
    }
  }

  lemma NonemptyEncoding(fields: seq<Bytes>)
    ensures Encoded(fields) == [] <==> fields == []
  {
  }

  // -------------------------------------------------------- one job, one edit

  const UNREADABLE: Bytes := [60, 117, 110, 114, 101, 97, 100, 97, 98, 108, 101, 62]

  /** The two fields of a job's key: the environment key and the source's bytes. */
  function JobFields(envKey: Word, source: Option<Bytes>): seq<Bytes> {
    [ToLe(envKey, 8), if source.Some? then source.value else UNREADABLE]
  }

  function JobDigest(envKey: Word, source: Option<Bytes>): Word {
    Digest(Encoded(JobFields(envKey, source)))
  }

  method JobKey(envKey: Word, source: Option<Bytes>) returns (key: Word)
    ensures key == JobDigest(envKey, source)
  {
    hide Digest, Encoded;
    var builder := new KeyBuilder();
    builder.Field(ToLe(envKey, 8));
    ghost var first := [] + [ToLe(envKey, 8)];
    assert builder.buffer == Encoded(first);
    var contents := if source.Some? then source.value else UNREADABLE;
    builder.Field(contents);
    assert builder.buffer == Encoded(first + [contents]);
    assert first + [contents] == JobFields(envKey, source);
    key := builder.Finish();
  }

  /** The key buffer of a job tells the environment key and the source, except that a missing
      source looks like the placeholder text. */
  lemma JobFieldsTell(envKey: Word, source: Option<Bytes>, other: Word, text: Option<Bytes>)
    requires Fits(JobFields(envKey, source)) && Fits(JobFields(other, text))
    requires Encoded(JobFields(envKey, source)) == Encoded(JobFields(other, text))
    ensures envKey == other
    ensures source == text || {source, text} == {None, Some(UNREADABLE)}
  {
    hide Encoded;
    var fields, others := JobFields(envKey, source), JobFields(other, text);
    EncodingIsInjective(fields, others);
    assert fields[0] == others[0] && fields[1] == others[1];
    WordBytes(envKey);
    WordBytes(other);
  }

  lemma WordBytes(x: Word)
    ensures FromLe(ToLe(x, 8)) == x
  {
    FieldWidths();
    LeRoundTrip(x, 8);
  }

  lemma {:induction false} XorZero(x: nat)
    ensures Xor(x, 0) == x
  {
    if x != 0 {
      XorZero(x / 2);
    }
  }

  lemma XorHalf(x: nat, y: nat)
    requires x > 0
    ensures Xor(x, y) == 2 * Xor(x / 2, y / 2) + (if x % 2 == y % 2 then 0 else 1)
  {
  }

  lemma KnownXor()
    ensures Xor(0xcbf29ce484222325, 97) == 0xcbf29ce484222344
  {
    hide Xor;
    XorHalf(0xcbf29ce484222325, 97);
    XorHalf(0x65f94e7242111192, 48);
    XorHalf(0x32fca739210888c9, 24);
    XorHalf(0x197e539c90844464, 12);
    XorHalf(0xcbf29ce48422232, 6);
    XorHalf(0x65f94e724211119, 3);
    XorHalf(0x32fca739210888c, 1);
    XorZero(0x197e539c9084446);
  }

  /** The published test vector of FNV-1a for the one-letter input `a`. */
  lemma KnownDigest()
    ensures Digest([97]) == 0xaf63dc4c8601ec8c
  {
    hide Xor;
    assert [97][..0] == [];
    assert Digest([]) == FNV_OFFSET;
    KnownXor();
  }

  lemma JobBuffer(envKey: Word, source: Bytes)
    ensures Encoded(JobFields(envKey, Some(source))) == Framed(ToLe(envKey, 8)) + (ToLe(|source|, 8) + source)
  {
    hide Framed;
    var fields := JobFields(envKey, Some(source));
    assert fields[..|fields| - 1] == [fields[0]] && fields[|fields| - 1] == source;
    EncodedOne(fields[0]);
    FramedIs(source);
  }

  lemma FramedIs(field: Bytes)
    ensures Framed(field) == ToLe(|field|, 8) + field
  {
  }

  /** Under one environment key, editing one byte of a source changes the job's key. */
  lemma EditChangesKey(envKey: Word, source: Bytes, i: nat, b: Byte)
    requires i < |source| && source[i] != b
    ensures JobDigest(envKey, Some(source[i := b])) != JobDigest(envKey, Some(source))
  {
    hide Digest, Framed, ToLe;
    var edited := source[i := b];
    JobBuffer(envKey, source);
    JobBuffer(envKey, edited);
    var head := Framed(ToLe(envKey, 8)) + ToLe(|source|, 8);
    var before := head + source;
    assert Encoded(JobFields(envKey, Some(source))) == before;
    assert Encoded(JobFields(envKey, Some(edited))) == head + edited == before[|head| + i := b];
    OneByteChangesDigest(before, |head| + i, b);
  }

  // ------------------------------------------------------ the cached-hash test

  function HexDigit(d: nat): char
    requires d < 16
  {
    "0123456789abcdef"[d]
  }

  function Hex(n: nat, width: nat): (s: string)
    ensures |s| == width
  {
    if width == 0 then "" else Hex(n / 16, width - 1) + [HexDigit(n % 16)]
  }

  /** The key as 16 lower-case hexadecimal digits. */
  function KeyText(key: Word): string {
    Hex(key, 16)
  }

  ghost function Pow16(k: nat): (p: nat)
    ensures p > 0
  {
    if k == 0 then 1 else 16 * Pow16(k - 1)
  }

  lemma {:induction false} HexIsInjective(m: nat, n: nat, width: nat)
    requires m < Pow16(width) && n < Pow16(width) && Hex(m, width) == Hex(n, width)
    ensures m == n
  {
    if width > 0 {
      HexLast(m, width);
      HexLast(n, width);
      PowerBelow(m, width);
      PowerBelow(n, width);
      DigitIsInjective(m % 16, n % 16);
      hide Hex, HexDigit, Pow16;
      HexIsInjective(m / 16, n / 16, width - 1);
    }
  }

  lemma HexLast(n: nat, width: nat)
    requires width > 0
    ensures Hex(n, width)[..width - 1] == Hex(n / 16, width - 1) && Hex(n, width)[width - 1] == HexDigit(n % 16)
  {
  }

  lemma PowerBelow(n: nat, width: nat)
    requires width > 0 && n < Pow16(width)
    ensures n / 16 < Pow16(width - 1)
  {
  }

  lemma DigitIsInjective(d: nat, e: nat)
    requires d < 16 && e < 16
    ensures HexDigit(d) == HexDigit(e) ==> d == e
  {
  }

  lemma Sixteen()
    ensures Pow16(16) == WORD
  {
    assert Pow16(4) == 0x1_0000;
    assert Pow16(8) == 0x1_0000_0000;
    assert Pow16(12) == 0x1_0000_0000_0000;
  }

  lemma KeyTextIsInjective(k: Word, l: Word)
    requires KeyText(k) == KeyText(l)
    ensures k == l
  {
    Sixteen();
    HexIsInjective(k, l, 16);
  }

  /** The number a hexadecimal text stands for. */
  ghost function HexValue(s: string): nat {
    if s == "" then 0 else 16 * HexValue(s[..|s| - 1]) + DigitValue(s[|s| - 1])
  }

  ghost function DigitValue(c: char): nat {
    if '0' <= c <= '9' then c as nat - '0' as nat
    else if 'a' <= c <= 'f' then c as nat - 'a' as nat + 10
    else 0
  }

  lemma DigitReadsBack(d: nat)
    requires d < 16
    ensures DigitValue(HexDigit(d)) == d
  {
  }

  lemma {:induction false} HexReadsBack(n: nat, width: nat)
    requires n < Pow16(width)
    ensures HexValue(Hex(n, width)) == n
  {
    if width > 0 {
      HexLast(n, width);
      PowerBelow(n, width);
      DigitReadsBack(n % 16);
      hide Hex, HexDigit, Pow16, DigitValue;
      HexReadsBack(n / 16, width - 1);
    }
  }

  /** The hash file's text is the key in lower-case hexadecimal, 16 digits. */
  lemma KeyTextReadsBack(key: Word)
    ensures |KeyText(key)| == 16 && HexValue(KeyText(key)) == key
  {
    Sixteen();
    HexReadsBack(key, 16);
  }

  lemma {:induction false} HexIsDark(n: nat, width: nat)
    ensures forall c <- Hex(n, width) :: !White(c)
  {
    if width > 0 {
      HexIsDark(n / 16, width - 1);
    }
  }

  lemma TrimKeepsKey(key: Word)
    ensures Trim(KeyText(key)) == KeyText(key)
  {
    var s := KeyText(key);
    HexIsDark(key, 16);
    assert s[0] in s && s[15] in s;
    TrimKeeps(s);
  }

  /** What a skeleton was generated from. */
  datatype Input = Input(envKey: Word, source: Option<Bytes>)

  function InputKey(input: Input): Word {
    JobDigest(input.envKey, input.source)
  }

  /** What the build directory holds for one job: the skeleton, known by its input, and the
      text of the hash file. */
  datatype Cache = Cache(skeleton: Option<Input>, hash: Option<string>)

  datatype Outcome = Built | Cached | Failed

  predicate Fresh(cache: Cache, key: Word) {
    cache.skeleton.Some? && cache.hash.Some? && Trim(cache.hash.value) == KeyText(key)
  }

  /** `generated` and `stored` say whether clang and the hash write succeed. */
  function BuildOne(cache: Cache, input: Input, generated: bool, stored: bool): (Cache, Outcome) {
    var key := InputKey(input);
    if Fresh(cache, key) then (cache, Cached)
    else if !generated then (cache, Failed)
    else if !stored then (cache.(skeleton := Some(input)), Failed)
    else (Cache(Some(input), Some(KeyText(key))), Built)
  }

  /** What each outcome means: cached leaves everything as it was; failed is reported exactly
      when the job was not fresh and clang or the hash write failed, and a failing clang leaves
      everything as it was; built leaves this input's skeleton and a hash that is fresh for it. */
  lemma OutcomeTells(cache: Cache, input: Input, generated: bool, stored: bool)
    ensures var (after, outcome) := BuildOne(cache, input, generated, stored);
            && (outcome == Cached <==> Fresh(cache, InputKey(input)))
            && (outcome == Failed <==> !Fresh(cache, InputKey(input)) && !(generated && stored))
            && (outcome == Cached || !generated ==> after == cache)
            && (outcome == Built ==> after.skeleton == Some(input) && Fresh(after, InputKey(input)))
  {
    hide KeyText, InputKey, Trim;
    TrimKeepsKey(InputKey(input));
  }

  /** After a successful build the same source is not built again, and any one-byte edit is. */
  lemma CacheFollowsSource(cache: Cache, envKey: Word, source: Bytes, i: nat, b: Byte)
    requires i < |source| && source[i] != b
    ensures var (after, outcome) := BuildOne(cache, Input(envKey, Some(source)), true, true);
            && BuildOne(after, Input(envKey, Some(source)), true, true) == (after, Cached)
            && BuildOne(after, Input(envKey, Some(source[i := b])), true, true).1 == Built
  {
    hide JobDigest;
    var k, l := JobDigest(envKey, Some(source)), JobDigest(envKey, Some(source[i := b]));
    EditChangesKey(envKey, source, i, b);
    TrimKeepsKey(k);
    if KeyText(k) == KeyText(l) {
      KeyTextIsInjective(k, l);
    }
    hide KeyText;
  }

  // ------------------------------------------------------- many builds of one job

  datatype Attempt = Attempt(input: Input, generated: bool, stored: bool)

  ghost function After(cache: Cache, attempts: seq<Attempt>): Cache {
    if attempts == [] then cache
    else
      var last := attempts[|attempts| - 1];
      BuildOne(After(cache, attempts[..|attempts| - 1]), last.input, last.generated, last.stored).0
  }

  /** Whatever key the hash file names is the key of what the skeleton was made from. */
  ghost predicate Truthful(cache: Cache) {
    cache.skeleton.Some? && cache.hash.Some? ==>
      forall key: Word :: Trim(cache.hash.value) == KeyText(key) ==> key == InputKey(cache.skeleton.value)
  }

  /** The one way to lose the truth: clang writes a new skeleton, the hash write fails, and the
      hash file keeps naming another key. */
  ghost predicate LeavesOldHash(cache: Cache, a: Attempt) {
    && !Fresh(cache, InputKey(a.input)) && a.generated && !a.stored
    && cache.hash.Some? && exists key: Word :: key != InputKey(a.input) && Trim(cache.hash.value) == KeyText(key)
  }

  lemma NamesOneKey(text: string, k: Word, l: Word)
    requires Trim(text) == KeyText(k) && Trim(text) == KeyText(l)
    ensures k == l
  {
    KeyTextIsInjective(k, l);
  }

  /** From a truthful cache, one attempt leads to a truthful cache if and only if it does not
      leave an old hash behind. */
  lemma TruthKeptIffHashFollows(cache: Cache, a: Attempt)
    requires Truthful(cache)
    ensures Truthful(BuildOne(cache, a.input, a.generated, a.stored).0) <==> !LeavesOldHash(cache, a)
  {
    hide KeyText, InputKey, Trim;
    var key := InputKey(a.input);
    StoredKeyReadsBack(key);
    if !Fresh(cache, key) && a.generated && a.stored {
      forall k: Word | Trim(KeyText(key)) == KeyText(k) ensures k == key {
        NamesOneKey(KeyText(key), k, key);
      }
    }
  }

  lemma StoredKeyReadsBack(key: Word)
    ensures Trim(KeyText(key)) == KeyText(key)
  {
    TrimKeepsKey(key);
  }

  /** No attempt of the run left an old hash behind. */
  ghost predicate HashesFollow(attempts: seq<Attempt>) {
    attempts == [] ||
    (HashesFollow(attempts[..|attempts| - 1])
     && !LeavesOldHash(After(Cache(None, None), attempts[..|attempts| - 1]), attempts[|attempts| - 1]))
  }

  lemma {:induction false} RunsStayTruthful(attempts: seq<Attempt>)
    requires HashesFollow(attempts)
    ensures Truthful(After(Cache(None, None), attempts))
  {
    hide BuildOne, LeavesOldHash;
    if attempts != [] {
      var front, last := attempts[..|attempts| - 1], attempts[|attempts| - 1];
      RunsStayTruthful(front);
      TruthKeptIffHashFollows(After(Cache(None, None), front), last);
    }
  }

  /** Over every sequence of builds, edits and failures in which no old hash was left behind, a
      cached answer serves a skeleton made from an input with the same key: from this very
      input, or from one whose key buffer collides with it. */
  lemma CachedIsRight(attempts: seq<Attempt>, input: Input)
    requires HashesFollow(attempts) && BuildOne(After(Cache(None, None), attempts), input, true, true).1 == Cached
    ensures var made := After(Cache(None, None), attempts).skeleton;
            made.Some? && InputKey(made.value) == InputKey(input)
  {
    hide KeyText, InputKey, Trim, HashesFollow, After;
    RunsStayTruthful(attempts);
  }

  /** The failing run: build A, edit one byte, regenerate while the hash write fails, undo the
      edit. A is then served from the cache with the edited source's skeleton. */
  lemma FailedHashServesWrongSkeleton(envKey: Word, source: Bytes, i: nat, b: Byte)
    requires i < |source| && source[i] != b
    ensures var a, edited := Input(envKey, Some(source)), Input(envKey, Some(source[i := b]));
            var cache := After(Cache(None, None), [Attempt(a, true, true), Attempt(edited, true, false)]);
            && BuildOne(cache, a, true, true).1 == Cached
            && cache.skeleton == Some(edited) && InputKey(edited) != InputKey(a)
  {
    hide JobDigest;
    var a, edited := Input(envKey, Some(source)), Input(envKey, Some(source[i := b]));
    var k, l := InputKey(a), InputKey(edited);
    EditChangesKey(envKey, source, i, b);
    TrimKeepsKey(k);
    if KeyText(k) == KeyText(l) {
      KeyTextIsInjective(k, l);
    }
    hide KeyText, Trim;
    var one, two := Attempt(a, true, true), Attempt(edited, true, false);
    var both := [one, two];
    assert both[..1] == [one] && both[..1][..0] == both[..0];
    assert After(Cache(None, None), both[..0]) == Cache(None, None);
    assert After(Cache(None, None), both[..1]) == Cache(Some(a), Some(KeyText(k)));
    assert After(Cache(None, None), both) == Cache(Some(edited), Some(KeyText(k)));
  }
}
