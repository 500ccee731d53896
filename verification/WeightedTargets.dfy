/** Weighted choice of an upstream target, with the wrapping 32-bit arithmetic of a release build;
    a debug build panics where a sum would wrap. */
module WeightedTargets {
  const WRAP := 0x1_0000_0000

  type Weight = w: nat | w < 0x1_0000_0000

  function Sum(weights: seq<nat>): nat {
    if weights == [] then 0 else Sum(weights[..|weights| - 1]) + weights[|weights| - 1]
  }

  /** The first target whose running total, as a 32-bit word, exceeds `pick`; else the last. */
  function Walk(weights: seq<Weight>, pick: nat, i: nat): (k: nat)
    requires i < |weights|
    ensures i <= k < |weights|
    decreases |weights| - i
  {
    if pick < Sum(weights[..i + 1]) % WRAP || i == |weights| - 1 then i else Walk(weights, pick, i + 1)
  }

  function Selected(weights: seq<Weight>, seed: nat): nat
    requires weights != []
  {
    var total := Sum(weights) % WRAP;
    if total == 0 then 0 else Walk(weights, seed % WRAP % total, 0)
  }

  lemma {:induction false} WrappedSum(weights: seq<Weight>, i: nat)
    requires i < |weights|
    ensures Sum(weights[..i + 1]) == Sum(weights[..i]) + weights[i]
  {
    assert weights[..i + 1][..i] == weights[..i];
  }

  /** One wrapping addition on the running total. */
  lemma RunningTotal(weights: seq<Weight>, i: nat)
    requires i < |weights|
    ensures (Sum(weights[..i]) % WRAP + weights[i]) % WRAP == Sum(weights[..i + 1]) % WRAP
  {
    WrappedSum(weights, i);
  }

  method WeightedSelect(weights: seq<Weight>, seed: nat) returns (k: nat)
    requires weights != []
    ensures k == Selected(weights, seed)
  {
    var total := 0;
    for i := 0 to |weights|
      invariant total == Sum(weights[..i]) % WRAP
    {
      RunningTotal(weights, i);
      total := (total + weights[i]) % WRAP;
    }
    assert weights[..|weights|] == weights;
    if total == 0 {
      return 0;
    }
    k := Accumulate(weights, seed % WRAP % total);
  }

  method Accumulate(weights: seq<Weight>, pick: nat) returns (k: nat)
    requires weights != []
    ensures k == Walk(weights, pick, 0)
  {
    var acc := 0;
    assert Sum(weights[..0]) == 0;
    hide Sum;
    for i := 0 to |weights|
      invariant acc == Sum(weights[..i]) % WRAP
      invariant i < |weights| ==> Walk(weights, pick, i) == Walk(weights, pick, 0)
      invariant i == |weights| ==> Walk(weights, pick, 0) == |weights| - 1
    {
      RunningTotal(weights, i);
      acc := (acc + weights[i]) % WRAP;
      if pick < acc {
        return i;
      }
    }
    k := |weights| - 1;
  }

  // ------------------------------------------------------------ who is chosen

  lemma {:induction false} SumMonotone(weights: seq<Weight>, i: nat, j: nat)
    requires i <= j <= |weights|
    ensures Sum(weights[..i]) <= Sum(weights[..j])
  {
    if i < j {
      SumMonotone(weights, i, j - 1);
      WrappedSum(weights, j - 1);
    }
  }

  lemma {:induction false} WalkFinds(weights: seq<Weight>, pick: nat, i: nat, k: nat)
    requires Sum(weights) < WRAP && i <= k < |weights|
    requires Sum(weights[..k]) <= pick < Sum(weights[..k + 1])
    ensures Walk(weights, pick, i) == k
    decreases k - i
  {
    SumMonotone(weights, i + 1, |weights|);
    SumMonotone(weights, k + 1, |weights|);
    assert weights[..|weights|] == weights;
    if i < k {
      SumMonotone(weights, i + 1, k);
      WalkFinds(weights, pick, i + 1, k);
    }
  }

  lemma {:induction false} SlotExists(weights: seq<Weight>, pick: nat, n: nat) returns (k: nat)
    requires n <= |weights| && pick < Sum(weights[..n])
    ensures k < n && Sum(weights[..k]) <= pick < Sum(weights[..k + 1])
  {
    WrappedSum(weights, n - 1);
    if pick < Sum(weights[..n - 1]) {
      k := SlotExists(weights, pick, n - 1);
    } else {
      k := n - 1;
    }
  }

  lemma PickOwner(weights: seq<Weight>, pick: nat, k: nat)
    requires pick < Sum(weights) < WRAP && k < |weights|
    ensures Walk(weights, pick, 0) == k <==> Sum(weights[..k]) <= pick < Sum(weights[..k + 1])
  {
    assert weights[..|weights|] == weights;
    hide Sum, Walk;
    var slot := SlotExists(weights, pick, |weights|);
    WalkFinds(weights, pick, 0, slot);
    if slot < k {
      SumMonotone(weights, slot + 1, k);
    } else if k < slot {
      SumMonotone(weights, k + 1, slot);
    }
  }

  lemma PickBelow(seed: nat, total: nat)
    requires total > 0
    ensures seed % WRAP % total < total
  {
  }

  /** Without wrap-around, target `k` owns exactly the residues between two running totals,
      so a zero-weight target is never chosen and the final fallback is never needed. */
  lemma OwnsItsResidues(weights: seq<Weight>, seed: nat, k: nat)
    requires 0 < Sum(weights) < WRAP && k < |weights|
    ensures var pick := seed % WRAP % Sum(weights);
            Selected(weights, seed) == k <==> Sum(weights[..k]) <= pick < Sum(weights[..k + 1])
    ensures weights[k] == 0 ==> Selected(weights, seed) != k
  {
    hide Sum, Walk;
    assert Sum(weights) % WRAP == Sum(weights);
    PickBelow(seed, Sum(weights));
    PickOwner(weights, seed % WRAP % Sum(weights), k);
    WrappedSum(weights, k);
  }

  // ------------------------------------------------------------- proportional

  /** How many of the picks below `n` go to target `k`. */
  ghost function Share(weights: seq<Weight>, k: nat, n: nat): nat
    requires weights != []
  {
    if n == 0 then 0 else Share(weights, k, n - 1) + if Walk(weights, n - 1, 0) == k then 1 else 0
  }

  ghost function Shares(weights: seq<Weight>, n: nat): (s: seq<nat>)
    requires weights != []
    ensures |s| == |weights| && forall k :: 0 <= k < |s| ==> s[k] == Share(weights, k, n)
  {
    seq(|weights|, k requires 0 <= k => Share(weights, k, n))
  }

  /** Over one round of residues each target is chosen exactly `weight` times. */
  ghost predicate Proportional(weights: seq<Weight>)
    requires weights != []
  {
    Sum(weights) % WRAP > 0 && forall k :: 0 <= k < |weights| ==> Share(weights, k, Sum(weights) % WRAP) == weights[k]
  }

  ghost function Clamp(x: int, top: nat): nat {
    if x < 0 then 0 else if x > top then top else x
  }

  lemma {:induction false} ShareIs(weights: seq<Weight>, k: nat, n: nat)
    requires Sum(weights) < WRAP && k < |weights| && n <= Sum(weights)
    ensures Share(weights, k, n) == Clamp(n - Sum(weights[..k]), weights[k])
  {
    hide Sum, Walk;
    if n > 0 {
      ShareIs(weights, k, n - 1);
      PickOwner(weights, n - 1, k);
      WrappedSum(weights, k);
    }
  }

  lemma {:induction false} SumBump(s: seq<nat>, t: seq<nat>, k: nat)
    requires |s| == |t| && k < |s| && t[k] == s[k] + 1
    requires forall i :: 0 <= i < |s| && i != k ==> t[i] == s[i]
    ensures Sum(t) == Sum(s) + 1
  {
    var last := |s| - 1;
    if k < last {
      SumBump(s[..last], t[..last], k);
    } else {
      assert s[..last] == t[..last];
    }
  }

  lemma {:induction false} SumZero(s: seq<nat>)
    requires forall i :: 0 <= i < |s| ==> s[i] == 0
    ensures Sum(s) == 0
  {
    if s != [] {
      SumZero(s[..|s| - 1]);
    }
  }

  /** Every pick goes to exactly one target. */
  lemma {:induction false} SharesAddUp(weights: seq<Weight>, n: nat)
    requires weights != []
    ensures Sum(Shares(weights, n)) == n
  {
    if n == 0 {
      SumZero(Shares(weights, 0));
    } else {
      SharesAddUp(weights, n - 1);
      SumBump(Shares(weights, n - 1), Shares(weights, n), Walk(weights, n - 1, 0));
    }
  }

  lemma EachGetsItsWeight(weights: seq<Weight>, k: nat)
    requires Sum(weights) < WRAP && k < |weights|
    ensures Share(weights, k, Sum(weights)) == weights[k]
  {
    hide Sum, Share;
    ShareIs(weights, k, Sum(weights));
    WrappedSum(weights, k);
    PrefixBelowTotal(weights, k + 1);
  }

  lemma PrefixBelowTotal(weights: seq<Weight>, i: nat)
    requires i <= |weights|
    ensures Sum(weights[..i]) <= Sum(weights)
  {
    hide Sum;
    SumMonotone(weights, i, |weights|);
    assert weights[..|weights|] == weights;
  }

  /** The choice is proportional if and only if the weights add up to a positive 32-bit value. */
  lemma ProportionalIffNoWrap(weights: seq<Weight>)
    requires weights != []
    ensures Proportional(weights) <==> 0 < Sum(weights) < WRAP
  {
    hide Sum, Share;
    var total := Sum(weights) % WRAP;
    SharesAddUp(weights, total);
    if 0 < Sum(weights) < WRAP {
      forall k | 0 <= k < |weights|
        ensures Share(weights, k, total) == weights[k]
      {
        EachGetsItsWeight(weights, k);
      }
    }
    var ws: seq<nat> := weights;
    assert Proportional(weights) ==> Shares(weights, total) == ws;
  }

  /** Two weights of 2^31 wrap to 0, so the first target takes every request. */
  lemma WrappedWeightsAreUnfair(seed: nat)
    ensures var weights: seq<Weight> := [0x8000_0000, 0x8000_0000];
            Selected(weights, seed) == 0 && !Proportional(weights)
  {
    var weights: seq<Weight> := [0x8000_0000, 0x8000_0000];
    assert weights[..1] == [0x8000_0000] && weights[..1][..0] == weights[..0];
    assert Sum(weights[..0]) == 0;
    assert Sum(weights[..1]) == 0x8000_0000;
    assert Sum(weights) == WRAP;
  }
}
