/** Powers of two, masks and little-endian fields. */
module Bits {
  type Byte = x: int | 0 <= x < 256

  function Pow2(k: nat): (p: nat)
    ensures p > 0
  {
    if k == 0 then 1 else 2 * Pow2(k - 1)
  }

  /** Bitwise and of two naturals. */
  function And(x: nat, y: nat): nat {
    if x == 0 || y == 0 then 0
    else 2 * And(x / 2, y / 2) + (if x % 2 == 1 && y % 2 == 1 then 1 else 0)
  }

  /** Bitwise complement in a word of `w` bits. */
  function Complement(w: nat, x: nat): nat
    requires x < Pow2(w)
  {
    Pow2(w) - 1 - x
  }

  lemma {:induction false} AllOnes(w: nat, x: nat)
    requires x < Pow2(w)
    ensures And(x, Pow2(w) - 1) == x
  {
    if w > 0 && x > 0 {
      AllOnes(w - 1, x / 2);
    }
  }

  lemma {:induction false} Pow2Monotone(j: nat, k: nat)
    requires j <= k
    ensures Pow2(j) <= Pow2(k)
  {
    if j < k {
      Pow2Monotone(j, k - 1);
    }
  }

  /** Masking with the complement of `2^k - 1` rounds down to a multiple of `2^k`. */
  lemma {:induction false} MaskRoundsDown(w: nat, k: nat, x: nat)
    requires k <= w && x < Pow2(w)
    ensures Pow2(k) - 1 < Pow2(w)
    ensures And(x, Complement(w, Pow2(k) - 1)) == x - x % Pow2(k)
  {
    Pow2Monotone(k, w);
    if k == 0 {
      AllOnes(w, x);
    } else {
      var low, mask := Pow2(k - 1), Complement(w, Pow2(k) - 1);
      MaskRoundsDown(w - 1, k - 1, x / 2);
      assert mask == 2 * Complement(w - 1, low - 1);
      HalfRemainder(x, low);
      AndEven(x, Complement(w - 1, low - 1));
    }
  }

  lemma AndEven(x: nat, half: nat)
    ensures And(x, 2 * half) == 2 * And(x / 2, half)
  {
    assert 2 * half / 2 == half && 2 * half % 2 == 0;
    if x == 1 {
      assert And(0, half) == 0;
    }
  }

  lemma HalfRemainder(x: nat, p: nat)
    requires p > 0
    ensures x % (2 * p) == 2 * (x / 2 % p) + x % 2
  {
    var q, r := x / 2 / p, x / 2 % p;
    assert x == (2 * p) * q + (2 * r + x % 2) by {
      assert x / 2 == p * q + r;
    }
    RemainderUnique(x, 2 * p, q, 2 * r + x % 2);
  }

  lemma RemainderUnique(x: nat, m: nat, q: nat, r: nat)
    requires m > 0 && r < m && x == m * q + r
    ensures x % m == r && x / m == q
  {
    var d: int := x / m - q;
    assert x == m * (x / m) + x % m;
    assert m * d == r - x % m;
    MultipleIsFar(m, d);
  }

  lemma MultipleIsFar(m: int, d: int)
    requires m > 0
    ensures d >= 1 ==> m * d >= m
    ensures d <= -1 ==> m * d <= -m
  {
  }

  /** The low `k` bytes of `n`, least significant first. */
  function ToLe(n: nat, k: nat): (s: seq<Byte>)
    ensures |s| == k
  {
    if k == 0 then [] else [n % 256] + ToLe(n / 256, k - 1)
  }

  function FromLe(s: seq<Byte>): nat {
    if s == [] then 0 else s[0] + 256 * FromLe(s[1..])
  }

  function Pow256(k: nat): (p: nat)
    ensures p > 0
  {
    if k == 0 then 1 else 256 * Pow256(k - 1)
  }

  lemma {:induction false} LeRoundTrip(n: nat, k: nat)
    requires n < Pow256(k)
    ensures FromLe(ToLe(n, k)) == n
  {
    if k > 0 {
      LeRoundTrip(n / 256, k - 1);
      assert ToLe(n, k)[1..] == ToLe(n / 256, k - 1);
    }
  }

  lemma FieldWidths()
    ensures Pow256(4) == 0x1_0000_0000 && Pow256(8) == 0x1_0000_0000_0000_0000
  {
    assert Pow256(2) == 0x1_0000;
    assert Pow256(6) == 0x1_0000_0000_0000;
  }

  /** Two bytes, most significant first. */
  function U16(hi: Byte, lo: Byte): (n: nat)
    ensures n < 0x1_0000
  {
    hi * 256 + lo
  }

  function Put16(n: nat): (s: seq<Byte>)
    requires n < 0x1_0000
    ensures |s| == 2 && U16(s[0], s[1]) == n
  {
    [n / 256, n % 256]
  }
}
