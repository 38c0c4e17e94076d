/** `experiments::ExperimentRouter`: which variant of an experiment serves a request.
    Floating point is modelled by the reals. */
module Router {
  import opened Outcomes
  import opened Experiments
  import opened Floats
  import opened Seeds
  import Fnv

  datatype Score = Score(agent: string, mean: real, samples: nat)

  const BANDIT_DEFAULT_EPSILON: real := 0.1
  const BANDIT_DEFAULT_MIN_SAMPLES: nat := 30
  const F32_MIN: real := -340282346638528859811704183484516925440.0

  /** `seed_to_unit_f32`: 1.0 is reached, at the greatest seed. */
  function SeedToUnit(seed: nat): real {
    seed as real / U64_MAX as real
  }

  function RoutingSeed(e: ExperimentConfig, seed: PickSeed): nat {
    if e.stickyByUser then seed.Sticky(e.name) else seed.PerRequest(e.name)
  }

  // ---------------------------------------------------------------------
  // Weighted split
  // ---------------------------------------------------------------------

  /** The weight of the first `i` variants. */
  function Cumulative(variants: seq<Variant>, i: nat): real
    requires i <= |variants|
  {
    if i == 0 then 0.0 else Cumulative(variants, i - 1) + variants[i - 1].weight
  }

  function Total(variants: seq<Variant>): real {
    Cumulative(variants, |variants|)
  }

  /** `target` falls in variant `i`'s stretch of the cumulative weights; whatever is
      past the end belongs to the last variant. */
  predicate Holds(variants: seq<Variant>, target: real, i: nat)
    requires i < |variants|
  {
    && Cumulative(variants, i) <= target
    && (i < |variants| - 1 ==> target < Cumulative(variants, i + 1))
  }

  lemma {:induction false} CumulativeMonotone(variants: seq<Variant>, i: nat, j: nat)
    requires i <= j <= |variants| && PositiveWeights(variants)
    ensures Cumulative(variants, i) <= Cumulative(variants, j)
    ensures i < j ==> Cumulative(variants, i) < Cumulative(variants, j)
    decreases j
  {
    if i < j {
      assert variants[j - 1] in variants;
      CumulativeMonotone(variants, i, j - 1);
    }
  }

  lemma HoldsUniquely(variants: seq<Variant>, target: real, i: nat, j: nat)
    requires i < |variants| && j < |variants| && PositiveWeights(variants)
    requires Holds(variants, target, i) && Holds(variants, target, j)
    ensures i == j
  {
    if i < j {
      CumulativeMonotone(variants, i + 1, j);
    } else if j < i {
      CumulativeMonotone(variants, j + 1, i);
    }
  }

  /** The first variant whose cumulative weight passes `target`, else the last. */
  function WeightedFrom(variants: seq<Variant>, target: real, i: nat): (r: nat)
    requires i < |variants|
    ensures i <= r < |variants|
    ensures Cumulative(variants, i) <= target ==> Holds(variants, target, r)
    decreases |variants| - i
  {
    if target < Cumulative(variants, i + 1) || i == |variants| - 1 then i else WeightedFrom(variants, target, i + 1)
  }

  function WeightedIndex(variants: seq<Variant>, seed: nat): (r: nat)
    requires variants != []
    ensures r < |variants|
  {
    WeightedFrom(variants, TargetOf(seed, Total(variants)), 0)
  }

  function TargetOf(seed: nat, total: real): real {
    SeedToUnit(seed) * total
  }

  /** The running-sum loop of `weighted_pick`: total on a non-empty list, and equal to
      the interval pick. */
  method WeightedPick(variants: seq<Variant>, seed: nat) returns (r: Option<Variant>)
    ensures r == if variants == [] then None else Some(variants[WeightedIndex(variants, seed)])
  {
    var total := 0.0;
    for i := 0 to |variants|
      invariant total == Cumulative(variants, i)
    {
      total := total + variants[i].weight;
    }
    var target := TargetOf(seed, total);
    var acc := 0.0;
    for i := 0 to |variants|
      invariant acc == Cumulative(variants, i)
      invariant i < |variants| ==> WeightedIndex(variants, seed) == WeightedFrom(variants, target, i)
      invariant i == |variants| > 0 ==> WeightedIndex(variants, seed) == i - 1
    {
      acc := acc + variants[i].weight;
      if target < acc {
        return Some(variants[i]);
      }
    }
    return if variants == [] then None else Some(variants[|variants| - 1]);
  }

  // ---------------------------------------------------------------------
  // Proportionality: how many seeds of 0..=m land on variant i
  // ---------------------------------------------------------------------

  function Ceil(r: real): int {
    if r.Floor as real == r then r.Floor else r.Floor + 1
  }

  function Target(k: nat, m: nat, total: real): real
    requires m > 0
  {
    k as real / m as real * total
  }

  /** The seeds `k` of `0..=m` that select variant `i` when `k` maps to `k / m`. */
  function Selecting(variants: seq<Variant>, m: nat, i: nat): set<int>
    requires m > 0 && i < |variants|
  {
    set k | 0 <= k <= m && WeightedFrom(variants, Target(k, m, Total(variants)), 0) == i
  }

  function IntRange(lo: int, hi: int): (r: set<int>)
    requires lo <= hi
    ensures |r| == hi - lo && forall k :: k in r <==> lo <= k < hi
    decreases hi - lo
  {
    if lo == hi then {} else IntRange(lo, hi - 1) + {hi - 1}
  }

  lemma MulLe(a: real, b: real, c: real)
    requires c > 0.0
    ensures a <= b <==> a * c <= b * c
  {
  }

  /** Weight `x`'s part of `m` seeds. */
  function Share(m: nat, x: real, total: real): real
    requires total > 0.0
  {
    m as real * x / total
  }

  lemma ShareTimesTotal(m: nat, x: real, total: real)
    requires total > 0.0
    ensures Share(m, x, total) * total == m as real * x
  {
  }

  lemma ShareLaws(m: nat, x: real, y: real, total: real)
    requires total > 0.0
    ensures x <= y ==> Share(m, x, total) <= Share(m, y, total)
    ensures Share(m, total, total) == m as real
    ensures Share(m, x + y, total) == Share(m, x, total) + Share(m, y, total)
  {
    var a, b, c := Share(m, x, total), Share(m, y, total), Share(m, x + y, total);
    ShareTimesTotal(m, x, total);
    ShareTimesTotal(m, y, total);
    ShareTimesTotal(m, x + y, total);
    ShareTimesTotal(m, total, total);
    if x <= y {
      assert m as real * x <= m as real * y;
      MulLe(a, b, total);
    }
    Cancel(Share(m, total, total), m as real, total);
    assert (a + b) * total == a * total + b * total == m as real * (x + y);
    Cancel(c, a + b, total);
  }

  lemma Cancel(a: real, b: real, c: real)
    requires c > 0.0 && a * c == b * c
    ensures a == b
  {
    MulLe(a, b, c);
    MulLe(b, a, c);
  }

  lemma CeilAtMost(a: real, k: int)
    ensures Ceil(a) <= k <==> a <= k as real
  {
  }

  lemma TargetTimes(k: nat, m: nat, total: real)
    requires m > 0
    ensures Target(k, m, total) * m as real == k as real * total
  {
    var q := k as real / m as real;
    assert q * m as real == k as real;
    assert q * total * m as real == q * m as real * total;
  }

  /** Seed `k` reaches cumulative weight `x` exactly from `x`'s share of `m` on. */
  lemma Reaches(k: nat, m: nat, total: real, x: real)
    requires m > 0 && total > 0.0
    ensures x <= Target(k, m, total) <==> Ceil(Share(m, x, total)) <= k
  {
    ShareTimesTotal(m, x, total);
    TargetTimes(k, m, total);
    SameSide(Share(m, x, total), k as real, x, Target(k, m, total), m as real, total);
    CeilAtMost(Share(m, x, total), k);
  }

  /** `a / k` and `x / t` compare alike when both products agree. */
  lemma SameSide(a: real, k: real, x: real, t: real, m: real, total: real)
    requires m > 0.0 && total > 0.0 && a * total == m * x && t * m == k * total
    ensures x <= t <==> a <= k
  {
    MulLe(x, t, m);
    MulLe(a, k, total);
    assert m * x == x * m;
  }

  /** Where variant `i`'s seeds start. */
  function Cut(variants: seq<Variant>, m: nat, i: nat): int
    requires i <= |variants| && Total(variants) > 0.0
  {
    Ceil(Share(m, Cumulative(variants, i), Total(variants)))
  }

  lemma HoldsIffPicked(variants: seq<Variant>, target: real, i: nat)
    requires i < |variants| && PositiveWeights(variants) && 0.0 <= target
    ensures WeightedFrom(variants, target, 0) == i <==> Holds(variants, target, i)
  {
    assert Cumulative(variants, 0) == 0.0;
    if Holds(variants, target, i) {
      HoldsUniquely(variants, target, i, WeightedFrom(variants, target, 0));
    }
  }

  lemma TargetNonNegative(k: nat, m: nat, total: real)
    requires m > 0 && total > 0.0
    ensures 0.0 <= Target(k, m, total)
  {
    assert 0.0 <= k as real / m as real;
  }

  lemma SelectedIff(variants: seq<Variant>, m: nat, i: nat, k: nat)
    requires m > 0 && i < |variants| && PositiveWeights(variants) && Total(variants) > 0.0 && k <= m
    ensures WeightedFrom(variants, Target(k, m, Total(variants)), 0) == i <==>
            Cut(variants, m, i) <= k && (i < |variants| - 1 ==> k < Cut(variants, m, i + 1))
  {
    var total := Total(variants);
    TargetNonNegative(k, m, total);
    HoldsIffPicked(variants, Target(k, m, total), i);
    Reaches(k, m, total, Cumulative(variants, i));
    Reaches(k, m, total, Cumulative(variants, i + 1));
  }

  lemma CutAtTheEnd(variants: seq<Variant>, m: nat)
    requires Total(variants) > 0.0
    ensures Cut(variants, m, |variants|) == m
  {
    ShareLaws(m, 0.0, 0.0, Total(variants));
  }

  lemma CutMonotone(variants: seq<Variant>, m: nat, i: nat)
    requires i < |variants| && PositiveWeights(variants) && Total(variants) > 0.0
    ensures 0 <= Cut(variants, m, i) <= Cut(variants, m, i + 1) <= m
  {
    var total, x, y := Total(variants), Cumulative(variants, i), Cumulative(variants, i + 1);
    CumulativeMonotone(variants, 0, i);
    CumulativeMonotone(variants, i, i + 1);
    CumulativeMonotone(variants, i + 1, |variants|);
    ShareLaws(m, 0.0, x, total);
    ShareLaws(m, x, y, total);
    ShareLaws(m, y, total, total);
    assert Share(m, 0.0, total) == 0.0;
  }

  lemma CutWidth(variants: seq<Variant>, m: nat, i: nat)
    requires i < |variants| && Total(variants) > 0.0
    ensures var width := Cut(variants, m, i + 1) - Cut(variants, m, i);
            -1.0 < width as real - Share(m, variants[i].weight, Total(variants)) < 1.0
  {
    ShareLaws(m, Cumulative(variants, i), variants[i].weight, Total(variants));
  }

  /** Proportional split: the number of seeds of `0..=m` that select variant `i` is
      within one of its exact share `m * w_i / total`. */
  lemma SplitIsProportional(variants: seq<Variant>, m: nat, i: nat)
    requires m > 0 && i < |variants| && PositiveWeights(variants)
    ensures Total(variants) > 0.0
    ensures var share := Share(m, variants[i].weight, Total(variants));
            share - 1.0 <= |Selecting(variants, m, i)| as real <= share + 1.0
  {
    CumulativeMonotone(variants, 0, |variants|);
    CutMonotone(variants, m, i);
    CutWidth(variants, m, i);
    CutAtTheEnd(variants, m);
    var hi := if i < |variants| - 1 then Cut(variants, m, i + 1) else m + 1;
    SelectingIsRange(variants, m, i, hi);
    if i == |variants| - 1 {
      LastShare(variants, m);
    }
  }

  lemma SelectingIsRange(variants: seq<Variant>, m: nat, i: nat, hi: int)
    requires m > 0 && i < |variants| && PositiveWeights(variants) && Total(variants) > 0.0
    requires 0 <= Cut(variants, m, i) <= hi <= m + 1
    requires hi == if i < |variants| - 1 then Cut(variants, m, i + 1) else m + 1
    ensures |Selecting(variants, m, i)| == hi - Cut(variants, m, i)
  {
    var lo := Cut(variants, m, i);
    forall k
      ensures k in Selecting(variants, m, i) <==> k in IntRange(lo, hi)
    {
      if 0 <= k <= m {
        SelectedIff(variants, m, i, k);
      }
    }
    assert Selecting(variants, m, i) == IntRange(lo, hi);
  }

  /** The last variant's stretch is closed at the top, so it is rounded up, never down. */
  lemma LastShare(variants: seq<Variant>, m: nat)
    requires variants != [] && Total(variants) > 0.0
    ensures var share := Share(m, variants[|variants| - 1].weight, Total(variants));
            share <= (m + 1 - Cut(variants, m, |variants| - 1)) as real <= share + 1.0
  {
    var i := |variants| - 1;
    ShareLaws(m, Cumulative(variants, i), variants[i].weight, Total(variants));
  }

  /** The comment promises `[0, 1)`; only the greatest seed breaks the promise. */
  lemma UnitBelowOneIff(seed: Fnv.u64)
    ensures 0.0 <= SeedToUnit(seed) <= 1.0
    ensures SeedToUnit(seed) < 1.0 <==> seed < U64_MAX
  {
    var unit, top := SeedToUnit(seed), U64_MAX as real;
    assert unit * top == seed as real;
    MulLe(unit, 1.0, top);
    MulLe(0.0, unit, top);
    MulLe(1.0, unit, top);
  }

  /** The loop of `weighted_pick` runs off its end, so that the `last()` fallback answers,
      for exactly that seed; the fallback is then the variant the top interval belongs to. */
  lemma FallsThroughIff(variants: seq<Variant>, seed: Fnv.u64)
    requires variants != [] && PositiveWeights(variants)
    ensures var target := TargetOf(seed, Total(variants));
            (forall i | 0 < i <= |variants| :: Cumulative(variants, i) <= target) <==> seed == U64_MAX
    ensures seed == U64_MAX ==> WeightedIndex(variants, seed) == |variants| - 1
  {
    var n, total, target := |variants|, Total(variants), TargetOf(seed, Total(variants));
    CumulativeMonotone(variants, 0, n);
    UnitBelowOneIff(seed);
    MulLe(1.0, SeedToUnit(seed), total);
    assert total <= target <==> seed == U64_MAX;
    if seed == U64_MAX {
      forall i | 0 < i <= n ensures Cumulative(variants, i) <= target {
        CumulativeMonotone(variants, i, n);
      }
      CumulativeMonotone(variants, n - 1, n);
      HoldsIffPicked(variants, target, n - 1);
    } else {
      assert Cumulative(variants, n) == total;
    }
  }

  // The same with the rounding of the code --------------------------------

  /** `seed_to_unit_f32` as computed: `seed as f64` rounds, `u64::MAX as f64` is 2^64, the
      quotient is exact, and `as f32` rounds again. Scaling by 2^64 commutes with rounding. */
  function UnitF32(seed: Fnv.u64): real {
    Round(Round(seed, F64_BITS), F32_BITS) as real / Fnv.TWO64 as real
  }

  /** The least seed that rounds up to 1.0: 2^64 - 2^39 - 2^10. */
  const FIRST_ONE: nat := 0xFFFF_FF7F_FFFF_FC00

  lemma PowersUpTo40()
    ensures Pow2(11) == 0x800 && Pow2(23) == 0x80_0000 && Pow2(40) == 0x100_0000_0000
  {
    PowAdds(5, 5, 0x20, 0x20);
    PowAdds(10, 10, 0x400, 0x400);
    PowAdds(10, 1, 0x400, 2);
    PowAdds(20, 3, 0x10_0000, 8);
    PowAdds(20, 20, 0x10_0000, 0x10_0000);
  }

  lemma PowersOfTwo()
    ensures Pow2(63) == 0x8000_0000_0000_0000 && Pow2(64) == Fnv.TWO64
    ensures Pow2(11) == 0x800 && Pow2(40) == 0x100_0000_0000 && Pow2(41) == 0x200_0000_0000
  {
    hide Pow2;
    PowersUpTo40();
    PowOne();
    PowAdds(40, 1, 0x100_0000_0000, 2);
    PowAdds(40, 23, 0x100_0000_0000, 0x80_0000);
    PowAdds(63, 1, 0x8000_0000_0000_0000, 2);
  }

  lemma PowOne()
    ensures Pow2(1) == 2
  {
  }

  lemma PowAdds(a: nat, b: nat, p: nat, q: nat)
    requires Pow2(a) == p && Pow2(b) == q
    ensures Pow2(a + b) == p * q
  {
    PowSum(a, b);
  }

  lemma Two64IsExact()
    ensures Round(Fnv.TWO64, F32_BITS) == Fnv.TWO64
  {
    hide Pow2, Round, Ulp;
    PowersOfTwo();
    PowOne();
    PowAdds(64, 1, Fnv.TWO64, 2);
    UlpIs(Fnv.TWO64, F32_BITS, 41);
    RoundReaches(Fnv.TWO64, F32_BITS, 0x100_0000_0000, 0x80_0000);
    RoundAtMost(Fnv.TWO64, F32_BITS, 0x80_0000);
  }

  lemma RoundF64High(seed: Fnv.u64)
    requires seed >= Pow2(63)
    ensures Pow2(63) <= Round(seed, F64_BITS) <= Fnv.TWO64
    ensures Round(seed, F64_BITS) >= 0xFFFF_FF80_0000_0000 <==> seed >= FIRST_ONE
  {
    hide Pow2, Round, Ulp;
    PowersOfTwo();
    UlpIs(seed, F64_BITS, 11);
    RoundStaysBelow(seed, F64_BITS, 64);
    RoundReaches(seed, F64_BITS, 0x400, 0x10_0000_0000_0000);
    RoundReaches(seed, F64_BITS, 0x400, 0x1F_FFFF_F000_0000);
  }

  lemma RoundF32High(d: nat)
    requires Pow2(63) <= d <= Fnv.TWO64
    ensures Round(d, F32_BITS) <= Fnv.TWO64
    ensures Round(d, F32_BITS) == Fnv.TWO64 <==> d >= 0xFFFF_FF80_0000_0000
  {
    hide Pow2, Round, Ulp;
    PowersOfTwo();
    if d == Fnv.TWO64 {
      Two64IsExact();
    } else {
      UlpIs(d, F32_BITS, 40);
      RoundStaysBelow(d, F32_BITS, 64);
      RoundReaches(d, F32_BITS, 0x80_0000_0000, 0x100_0000);
    }
  }

  /** `u64::MAX as f64`. */
  lemma MaxRoundsToTwo64()
    ensures Round(U64_MAX, F64_BITS) == Fnv.TWO64
  {
    hide Pow2, Round, Ulp;
    PowersOfTwo();
    UlpIs(U64_MAX, F64_BITS, 11);
    RoundStaysBelow(U64_MAX, F64_BITS, 64);
    RoundReaches(U64_MAX, F64_BITS, 0x400, 0x20_0000_0000_0000);
  }

  /** The unit value of the code reaches 1.0 for exactly the greatest 2^39 + 2^10 seeds. */
  lemma RoundedUnitBelowOneIff(seed: Fnv.u64)
    ensures 0.0 <= UnitF32(seed) <= 1.0
    ensures UnitF32(seed) < 1.0 <==> seed < FIRST_ONE
  {
    hide Pow2, Round, Ulp;
    PowersOfTwo();
    var d := Round(seed, F64_BITS);
    if seed < Pow2(63) {
      RoundStaysBelow(seed, F64_BITS, 63);
      RoundStaysBelow(d, F32_BITS, 64);
      SmallDoubleStaysBelow(d);
    } else {
      RoundF64High(seed);
      RoundF32High(d);
    }
    Quotient(Round(d, F32_BITS), Fnv.TWO64);
  }

  lemma SmallDoubleStaysBelow(d: nat)
    requires d <= Pow2(63)
    ensures Round(d, F32_BITS) < Fnv.TWO64
  {
    hide Pow2, Round, Ulp;
    PowersOfTwo();
    if d < Pow2(63) {
      RoundStaysBelow(d, F32_BITS, 63);
    } else {
      RoundF32High(d);
    }
  }

  lemma Quotient(a: nat, b: nat)
    requires a <= b && b > 0
    ensures 0.0 <= a as real / b as real <= 1.0
    ensures a as real / b as real < 1.0 <==> a < b
  {
    var q := a as real / b as real;
    assert q * b as real == a as real;
    MulLe(q, 1.0, b as real);
    MulLe(0.0, q, b as real);
    MulLe(1.0, q, b as real);
  }

  /** Those are the seeds for which the loop runs off its end. */
  lemma RoundedFallsThroughIff(variants: seq<Variant>, seed: Fnv.u64)
    requires variants != [] && PositiveWeights(variants)
    ensures (forall i | 0 < i <= |variants| :: Cumulative(variants, i) <= UnitF32(seed) * Total(variants)) <==>
            seed >= FIRST_ONE
  {
    RoundedUnitBelowOneIff(seed);
    PastTheEndIff(variants, UnitF32(seed));
  }

  lemma PastTheEndIff(variants: seq<Variant>, unit: real)
    requires variants != [] && PositiveWeights(variants) && unit <= 1.0
    ensures (forall i | 0 < i <= |variants| :: Cumulative(variants, i) <= unit * Total(variants)) <==> unit == 1.0
  {
    hide Cumulative, PositiveWeights;
    var target, total := unit * Total(variants), Total(variants);
    CumulativeMonotone(variants, 0, |variants|);
    NothingBefore(variants);
    MulLe(1.0, unit, total);
    MulLe(unit, 1.0, total);
    PastTheEnd(variants, target);
  }

  lemma NothingBefore(variants: seq<Variant>)
    ensures Cumulative(variants, 0) == 0.0 && Total(variants) == Cumulative(variants, |variants|)
  {
  }

  lemma PastTheEnd(variants: seq<Variant>, target: real)
    requires variants != [] && PositiveWeights(variants) && target <= Total(variants)
    ensures (forall i | 0 < i <= |variants| :: Cumulative(variants, i) <= target) <==> target == Total(variants)
  {
    hide Cumulative, PositiveWeights;
    NothingBefore(variants);
    forall i | 0 < i <= |variants| ensures Cumulative(variants, i) <= Total(variants) {
      CumulativeMonotone(variants, i, |variants|);
    }
  }

  // ---------------------------------------------------------------------
  // Epsilon-greedy bandit
  // ---------------------------------------------------------------------

  /** The first summary for `agent`. */
  function FindScore(scores: seq<Score>, agent: string): Option<Score> {
    if scores == [] then None
    else if scores[0].agent == agent then Some(scores[0])
    else FindScore(scores[1..], agent)
  }

  predicate IsForced(v: Variant, scores: seq<Score>, minSamples: nat) {
    var s := FindScore(scores, v.agent);
    s.None? || s.value.samples < minSamples
  }

  function Forced(variants: seq<Variant>, scores: seq<Score>, minSamples: nat): (r: seq<Variant>)
    ensures forall v :: v in r <==> v in variants && IsForced(v, scores, minSamples)
  {
    if variants == [] then [] else
      (if IsForced(variants[0], scores, minSamples) then [variants[0]] else [])
      + Forced(variants[1..], scores, minSamples)
  }

  function UniformPick<T>(arms: seq<T>, seed: nat): (r: Option<T>)
    ensures r.None? <==> arms == []
    ensures r.Some? ==> r.value in arms
  {
    if arms == [] then None else Some(arms[seed % |arms|])
  }

  function Mean(scores: seq<Score>, agent: string): real {
    var s := FindScore(scores, agent);
    if s.None? then F32_MIN else s.value.mean
  }

  /** `Iterator::max_by`: a later arm replaces the leader unless it is strictly worse. */
  function MaxBy(variants: seq<Variant>, scores: seq<Score>): (r: nat)
    requires variants != []
    ensures r < |variants|
  {
    var last := |variants| - 1;
    if last == 0 then 0 else
      var lead := MaxBy(variants[..last], scores);
      if Mean(scores, variants[lead].agent) > Mean(scores, variants[last].agent) then lead else last
  }

  function MinSamples(e: ExperimentConfig): nat { e.minSamples.GetOr(BANDIT_DEFAULT_MIN_SAMPLES) }

  predicate Explores(e: ExperimentConfig, seed: PickSeed) {
    SeedToUnit(RoutingSeed(e, seed)) < e.epsilon.GetOr(BANDIT_DEFAULT_EPSILON)
  }

  function BanditPick(e: ExperimentConfig, scores: seq<Score>, seed: PickSeed): (r: Option<Variant>)
    ensures r.None? <==> e.variants == []
    ensures r.Some? ==> r.value in e.variants
  {
    var forced := Forced(e.variants, scores, MinSamples(e));
    if forced != [] then UniformPick(forced, seed.Sticky(e.name))
    else if Explores(e, seed) then UniformPick(e.variants, seed.Sticky(e.name))
    else if e.variants == [] then None
    else Some(e.variants[MaxBy(e.variants, scores)])
  }

  lemma {:induction false} MaxByIsLastMaximum(variants: seq<Variant>, scores: seq<Score>, i: nat)
    requires i < |variants|
    ensures var best := MaxBy(variants, scores);
            && Mean(scores, variants[i].agent) <= Mean(scores, variants[best].agent)
            && (i > best ==> Mean(scores, variants[i].agent) < Mean(scores, variants[best].agent))
  {
    var last := |variants| - 1;
    if last > 0 {
      var front := variants[..last];
      if i < last {
        MaxByIsLastMaximum(front, scores, i);
      }
    }
  }

  /** The doc comment promises the first of several tied leaders. The code keeps that
      promise exactly when no later arm ties the leader it should name. */
  lemma TiesGoToLast(variants: seq<Variant>, scores: seq<Score>, first: nat)
    requires first < |variants|
    requires forall i | 0 <= i < |variants| :: Mean(scores, variants[i].agent) <= Mean(scores, variants[first].agent)
    requires forall i | 0 <= i < first :: Mean(scores, variants[i].agent) < Mean(scores, variants[first].agent)
    ensures MaxBy(variants, scores) == first <==>
            forall i | first < i < |variants| :: Mean(scores, variants[i].agent) != Mean(scores, variants[first].agent)
  {
    MaxByIsLastMaximum(variants, scores, first);
    forall i | 0 <= i < |variants| {
      MaxByIsLastMaximum(variants, scores, i);
    }
  }

  /** Two arms tied on their mean: the second one wins. */
  lemma TieExample(seed: PickSeed)
    ensures var arms := [Variant("a", 1.0), Variant("b", 1.0)];
            var e := ExperimentConfig("e", Bandit, arms, true, None, None, None, Some(0.0), Some(1), None);
            BanditPick(e, [Score("a", 0.5, 1), Score("b", 0.5, 1)], seed) == Some(Variant("b", 1.0))
  {
    var scores := [Score("a", 0.5, 1), Score("b", 0.5, 1)];
    var variants := [Variant("a", 1.0), Variant("b", 1.0)];
    assert scores[1..] == [Score("b", 0.5, 1)];
    assert FindScore(scores, "b") == FindScore(scores[1..], "b") == Some(scores[1]);
    assert variants[..1] == [Variant("a", 1.0)];
  }

  // Warm-up -------------------------------------------------------------

  /** Scored turns this arm still needs before it stops being forced. An arm with no
      summary needs at least one, even when `min_samples` is zero. */
  function Need(v: Variant, scores: seq<Score>, minSamples: nat): nat {
    match FindScore(scores, v.agent)
    case None => if minSamples == 0 then 1 else minSamples
    case Some(s) => if s.samples < minSamples then minSamples - s.samples else 0
  }

  function Deficit(variants: seq<Variant>, scores: seq<Score>, minSamples: nat): nat {
    if variants == [] then 0 else Need(variants[0], scores, minSamples) + Deficit(variants[1..], scores, minSamples)
  }

  function SamplesOf(scores: seq<Score>, agent: string): nat {
    var s := FindScore(scores, agent);
    if s.None? then 0 else s.value.samples
  }

  /** One scored turn: `agent` gains a sample, nobody's score expires. */
  ghost predicate ScoredTurn(a: seq<Score>, agent: string, b: seq<Score>) {
    && FindScore(b, agent).Some? && SamplesOf(b, agent) == SamplesOf(a, agent) + 1
    && forall other :: other != agent ==>
         FindScore(b, other).Some? == FindScore(a, other).Some? && SamplesOf(b, other) == SamplesOf(a, other)
  }

  lemma {:induction false} DeficitZeroIff(variants: seq<Variant>, scores: seq<Score>, minSamples: nat)
    ensures Deficit(variants, scores, minSamples) == 0 <==> Forced(variants, scores, minSamples) == []
  {
    if variants != [] {
      DeficitZeroIff(variants[1..], scores, minSamples);
    }
  }

  lemma {:induction false} TurnElsewhere(
      variants: seq<Variant>, a: seq<Score>, b: seq<Score>, agent: string, minSamples: nat)
    requires ScoredTurn(a, agent, b)
    requires forall v | v in variants :: v.agent != agent
    ensures Deficit(variants, b, minSamples) == Deficit(variants, a, minSamples)
  {
    if variants != [] {
      assert variants[0] in variants;
      assert forall v | v in variants[1..] :: v in variants;
      TurnElsewhere(variants[1..], a, b, agent, minSamples);
    }
  }

  lemma {:induction false} TurnPaysOne(
      variants: seq<Variant>, a: seq<Score>, b: seq<Score>, v: Variant, minSamples: nat)
    requires ScoredTurn(a, v.agent, b) && DistinctAgents(variants) && v in variants
    ensures Deficit(variants, b, minSamples) ==
            Deficit(variants, a, minSamples) - if IsForced(v, a, minSamples) then 1 else 0
  {
    var rest := variants[1..];
    if variants[0] == v {
      forall w | w in rest ensures w.agent != v.agent {
        var i :| 0 <= i < |rest| && rest[i] == w;
        assert variants[i + 1] == w;
      }
      TurnElsewhere(rest, a, b, v.agent, minSamples);
    } else {
      assert v in rest;
      var i :| 0 < i < |variants| && variants[i] == v;
      TurnPaysOne(rest, a, b, v, minSamples);
    }
  }

  /** A run of turns, each scored before the next pick. */
  ghost predicate WarmUpRun(e: ExperimentConfig, scores: seq<seq<Score>>, seeds: seq<PickSeed>) {
    && |scores| == |seeds| + 1
    && forall t | 0 <= t < |seeds| ::
         BanditPick(e, scores[t], seeds[t]).Some?
         && ScoredTurn(scores[t], BanditPick(e, scores[t], seeds[t]).value.agent, scores[t + 1])
  }

  /** Each forced turn pays off exactly one of the missing samples, so forcing ends
      after exactly the initial deficit and never resumes. */
  lemma {:induction false} WarmUpEndsOnTime(e: ExperimentConfig, scores: seq<seq<Score>>, seeds: seq<PickSeed>, t: nat)
    requires WarmUpRun(e, scores, seeds) && DistinctAgents(e.variants) && t < |scores|
    ensures var start := Deficit(e.variants, scores[0], MinSamples(e));
            && Deficit(e.variants, scores[t], MinSamples(e)) == (if t <= start then start - t else 0)
            && (Forced(e.variants, scores[t], MinSamples(e)) != [] <==> t < start)
  {
    var min := MinSamples(e);
    if t > 0 {
      WarmUpEndsOnTime(e, scores, seeds, t - 1);
      var picked := BanditPick(e, scores[t - 1], seeds[t - 1]).value;
      DeficitZeroIff(e.variants, scores[t - 1], min);
      if Forced(e.variants, scores[t - 1], min) == [] {
        assert !IsForced(picked, scores[t - 1], min);
      }
      TurnPaysOne(e.variants, scores[t - 1], scores[t], picked, min);
    }
    DeficitZeroIff(e.variants, scores[t], min);
  }

  /** Afterwards every pick that does not explore takes an arm with the best mean, all
      of them measured. */
  lemma ExploitsTheLeader(e: ExperimentConfig, scores: seq<Score>, seed: PickSeed, v: Variant)
    requires Deficit(e.variants, scores, MinSamples(e)) == 0 && !Explores(e, seed) && v in e.variants
    ensures var r := BanditPick(e, scores, seed);
            && r.Some? && FindScore(scores, r.value.agent).Some? && FindScore(scores, v.agent).Some?
            && FindScore(scores, v.agent).value.mean <= FindScore(scores, r.value.agent).value.mean
  {
    DeficitZeroIff(e.variants, scores, MinSamples(e));
    var i :| 0 <= i < |e.variants| && e.variants[i] == v;
    MaxByIsLastMaximum(e.variants, scores, i);
    var best := e.variants[MaxBy(e.variants, scores)];
    assert !IsForced(v, scores, MinSamples(e)) && !IsForced(best, scores, MinSamples(e));
  }

  // ---------------------------------------------------------------------
  // Shadow
  // ---------------------------------------------------------------------

  function FindVariant(variants: seq<Variant>, agent: string): (r: Option<Variant>)
    ensures r.Some? <==> exists v :: v in variants && v.agent == agent
    ensures r.Some? ==> r.value in variants && r.value.agent == agent
  {
    if variants == [] then None
    else if variants[0].agent == agent then Some(variants[0])
    else FindVariant(variants[1..], agent)
  }

  function ShadowPick(e: ExperimentConfig): Option<Variant> {
    if e.variants == [] then None
    else if e.primary.Some? && FindVariant(e.variants, e.primary.value).Some?
    then FindVariant(e.variants, e.primary.value)
    else Some(e.variants[0])
  }

  function ShadowVariants(e: ExperimentConfig): seq<Variant> {
    OtherThan(e.variants, if e.strategy.Shadow? then e.primary else None)
  }

  function OtherThan(variants: seq<Variant>, primary: Option<string>): (r: seq<Variant>)
    ensures forall v :: v in r <==> v in variants && Some(v.agent) != primary
  {
    if variants == [] then [] else
      (if Some(variants[0].agent) != primary then [variants[0]] else []) + OtherThan(variants[1..], primary)
  }

  /** On a validated shadow experiment every variant runs exactly once: the primary in
      the foreground, the others behind it. */
  lemma ShadowCoversAll(e: ExperimentConfig, v: Variant)
    requires e.strategy.Shadow? && DistinctAgents(e.variants) && v in e.variants
    requires e.primary.Some? && exists p :: p in e.variants && p.agent == e.primary.value
    ensures v in ShadowVariants(e) <==> ShadowPick(e) != Some(v)
  {
    var p := FindVariant(e.variants, e.primary.value).value;
    if v.agent == p.agent {
      var i :| 0 <= i < |e.variants| && e.variants[i] == v;
      var j :| 0 <= j < |e.variants| && e.variants[j] == p;
      assert i == j;
    }
  }

  // ---------------------------------------------------------------------
  // The router
  // ---------------------------------------------------------------------

  function PickVariant(e: ExperimentConfig, scores: seq<Score>, seed: PickSeed): (r: Option<Variant>)
    ensures r.None? <==> e.variants == []
    ensures r.Some? ==> r.value in e.variants
  {
    match e.strategy
    case Bandit => BanditPick(e, scores, seed)
    case Shadow => ShadowPick(e)
    case Split =>
      if e.variants == [] then None else Some(e.variants[WeightedIndex(e.variants, RoutingSeed(e, seed))])
  }

  /** The agent a name resolves to: itself, unless it is an experiment with variants. */
  function ResolvedAgent(
      byName: map<string, ExperimentConfig>, name: string, scores: seq<Score>, seed: PickSeed): string
  {
    if name !in byName then name
    else
      var picked := PickVariant(byName[name], scores, seed);
      if picked.Some? then picked.value.agent else name
  }

  // ---------------------------------------------------------------------
  // What a pick is derived from
  // ---------------------------------------------------------------------

  /** The bytes an experiment's pick is hashed from: the user, the experiment's name and, unless
      the experiment is sticky, the draw. */
  function RoutingBytes(sticky: bool, name: string, draw: Fnv.u64, user: User): seq<Fnv.byte> {
    if sticky then user + NameBytes(name) else user + NameBytes(name) + LeBytes(draw, 8)
  }

  /** The hash, as a fraction of the greatest one. */
  function RoutingUnit(sticky: bool, name: string, draw: Fnv.u64, user: User): real {
    Fnv.Digest(Fnv.OFFSET, RoutingBytes(sticky, name, draw, user)) as real / 0xFFFF_FFFF_FFFF_FFFF as real
  }

  /** A split routes on that hash: the variant picked is the one whose interval of the running
      weights holds its share of the total. */
  lemma SplitRoutesOnDigest(e: ExperimentConfig, scores: seq<Score>, draw: Fnv.u64, user: User) returns (i: nat)
    requires e.strategy.Split? && e.variants != [] && PositiveWeights(e.variants)
    ensures i < |e.variants| && PickVariant(e, scores, PickSeed(draw, user)) == Some(e.variants[i])
    ensures var target := RoutingUnit(e.stickyByUser, e.name, draw, user) * Cumulative(e.variants, |e.variants|);
            Cumulative(e.variants, i) <= target && (i < |e.variants| - 1 ==> target < Cumulative(e.variants, i + 1))
  {
    hide SeedToUnit, RoutingUnit, RoutingSeed;
    var seed := RoutingSeed(e, PickSeed(draw, user));
    UnitOfRouting(e, draw, user);
    i := WeightedIndex(e.variants, seed);
    CumulativeMonotone(e.variants, 0, |e.variants|);
    NonNegativeProduct(SeedToUnit(seed), Total(e.variants));
    HoldsIffPicked(e.variants, TargetOf(seed, Total(e.variants)), i);
  }

  lemma NonNegativeProduct(a: real, b: real)
    requires 0.0 <= a && 0.0 <= b
    ensures 0.0 <= a * b
  {
  }

  lemma UnitOfRouting(e: ExperimentConfig, draw: Fnv.u64, user: User)
    ensures SeedToUnit(RoutingSeed(e, PickSeed(draw, user))) == RoutingUnit(e.stickyByUser, e.name, draw, user) >= 0.0
  {
    UnitBelowOneIff(RoutingSeed(e, PickSeed(draw, user)));
  }

  /** Unless the experiment is sticky, two draws of one block of 2^40 route on different
      hashes. */
  lemma DrawsRouteApart(e: ExperimentConfig, user: User, a: Fnv.u64, b: Fnv.u64)
    requires !e.stickyByUser && a != b && a / 0x100_0000_0000 == b / 0x100_0000_0000
    ensures RoutingSeed(e, PickSeed(a, user)) != RoutingSeed(e, PickSeed(b, user))
    ensures RoutingUnit(false, e.name, a, user) != RoutingUnit(false, e.name, b, user)
  {
    DrawsDiffer(user, e.name, a, b);
    Over(RoutingSeed(e, PickSeed(a, user)), RoutingSeed(e, PickSeed(b, user)), 0xFFFF_FFFF_FFFF_FFFF);
  }

  lemma Over(a: nat, b: nat, m: nat)
    requires m > 0
    ensures a != b ==> a as real / m as real != b as real / m as real
  {
    assert a as real / m as real * m as real == a as real;
    assert b as real / m as real * m as real == b as real;
  }

  /** An arm is short of samples: nobody has scored it, or its first summary is below the
      experiment's minimum, 30 unless it says otherwise. */
  predicate Short(e: ExperimentConfig, v: Variant, scores: seq<Score>) {
    || (forall s | s in scores :: s.agent != v.agent)
    || exists i | 0 <= i < |scores| ::
         && scores[i].agent == v.agent && scores[i].samples < e.minSamples.GetOr(30)
         && forall j | 0 <= j < i :: scores[j].agent != v.agent
  }

  lemma {:induction false} ShortIff(e: ExperimentConfig, v: Variant, scores: seq<Score>)
    ensures IsForced(v, scores, MinSamples(e)) <==> Short(e, v, scores)
  {
    var i := FirstScore(scores, v.agent);
    if i < |scores| {
      assert scores[i] in scores;
    }
  }

  lemma {:induction false} FirstScore(scores: seq<Score>, agent: string) returns (i: nat)
    ensures i <= |scores| && forall j | 0 <= j < i :: scores[j].agent != agent
    ensures i < |scores| ==> scores[i].agent == agent && FindScore(scores, agent) == Some(scores[i])
    ensures i == |scores| ==> FindScore(scores, agent) == None
  {
    if scores == [] || scores[0].agent == agent {
      i := 0;
    } else {
      var k := FirstScore(scores[1..], agent);
      i := k + 1;
      assert forall j | 0 < j < i :: scores[j] == scores[1..][j - 1];
    }
  }

  /** `arms` is the elements of `all` that satisfy `keep`, in their order. */
  predicate Filters<T(==)>(all: seq<T>, keep: T -> bool, arms: seq<T>)
    decreases |all|
  {
    if all == [] then arms == []
    else if keep(all[0]) then arms != [] && arms[0] == all[0] && Filters(all[1..], keep, arms[1..])
    else Filters(all[1..], keep, arms)
  }

  lemma {:induction false} ForcedFilters(e: ExperimentConfig, variants: seq<Variant>, scores: seq<Score>)
    ensures Filters(variants, (v: Variant) => Short(e, v, scores), Forced(variants, scores, MinSamples(e)))
  {
    if variants != [] {
      ForcedFilters(e, variants[1..], scores);
      ShortIff(e, variants[0], scores);
      var rest := Forced(variants[1..], scores, MinSamples(e));
      assert ([variants[0]] + rest)[1..] == rest && [] + rest == rest;
    }
  }

  /** A bandit's turn: with arms short of samples, the one of them at the user's own hash, counted
      off; otherwise, when the coin falls under the exploration rate (0.1 unless the experiment
      says otherwise), the one of all arms at that hash; otherwise the last of the arms with the
      greatest mean. The coin is the routing hash. */
  lemma BanditDecides(e: ExperimentConfig, scores: seq<Score>, draw: Fnv.u64, user: User) returns (arms: seq<Variant>)
    requires e.strategy.Bandit? && e.variants != []
    ensures Filters(e.variants, (v: Variant) => Short(e, v, scores), arms)
    ensures var hash := Fnv.Digest(Fnv.OFFSET, user + NameBytes(e.name));
            var picked := PickVariant(e, scores, PickSeed(draw, user));
            if arms != [] then picked == Some(arms[hash % |arms|])
            else if RoutingUnit(e.stickyByUser, e.name, draw, user) < e.epsilon.GetOr(0.1)
            then picked == Some(e.variants[hash % |e.variants|])
            else exists i :: 0 <= i < |e.variants| && picked == Some(e.variants[i]) && Leads(e.variants, scores, i)
  {
    arms := Forced(e.variants, scores, MinSamples(e));
    ForcedFilters(e, e.variants, scores);
    if arms == [] && !Explores(e, PickSeed(draw, user)) {
      var i := MaxBy(e.variants, scores);
      forall j | 0 <= j < |e.variants|
        ensures Mean(scores, e.variants[j].agent) <= Mean(scores, e.variants[i].agent)
        ensures j > i ==> Mean(scores, e.variants[j].agent) < Mean(scores, e.variants[i].agent)
      {
        MaxByIsLastMaximum(e.variants, scores, j);
      }
      assert Leads(e.variants, scores, i);
    }
  }

  /** The last of the arms with the greatest mean. */
  predicate Leads(variants: seq<Variant>, scores: seq<Score>, i: nat)
    requires i < |variants|
  {
    && (forall j | 0 <= j < |variants| :: Mean(scores, variants[j].agent) <= Mean(scores, variants[i].agent))
    && (forall j | i < j < |variants| :: Mean(scores, variants[j].agent) < Mean(scores, variants[i].agent))
  }

  /** Counting off is fair: of `n` consecutive hashes, from a multiple of `n` on, each arm gets
      exactly one. */
  lemma UniformPickCountsOff<T>(arms: seq<T>, round: nat, i: nat)
    requires i < |arms|
    ensures UniformPick(arms, round * |arms| + i) == Some(arms[i])
  {
    CountsOff(round, |arms|, i);
  }

  lemma CountsOff(round: nat, n: nat, i: nat)
    requires i < n
    ensures (round * n + i) % n == i
  {
    var a := round * n + i;
    DivMod(a, n);
    var q, r := a / n, a % n;
    if q < round {
      Multiples(q + 1, round, n);
    } else if q > round {
      Multiples(round + 1, q, n);
    }
  }

  lemma DivMod(a: nat, n: nat)
    requires n > 0
    ensures a == a / n * n + a % n && 0 <= a % n < n
  {
  }

  lemma Multiples(a: nat, b: nat, n: nat)
    requires 0 < a <= b
    ensures (a - 1) * n + n <= b * n
  {
    assert a * n <= b * n;
  }

  datatype Resolved = Resolved(agent: string, experiment: Option<string>)

  class ExperimentRouter {
    const byName: map<string, ExperimentConfig>
    var draws: Fnv.u64

    /** The table keyed by name; the last of several equal names is kept. */
    constructor (experiments: seq<ExperimentConfig>)
      ensures draws == 0 && byName == ByName(experiments)
    {
      byName := ByName(experiments);
      draws := 0;
    }

    /** `next_seed`: takes one draw; the counter wraps. */
    method NextSeed(user: User) returns (seed: PickSeed)
      modifies this`draws
      ensures seed == PickSeed(old(draws), user) && draws == NextDraw(old(draws))
    {
      seed := PickSeed(draws, user);
      draws := NextDraw(draws);
    }

    /** Names that are no experiment pass through without spending a draw. */
    method ResolveWithScores(name: string, user: User, scores: seq<Score>) returns (r: Resolved)
      modifies this`draws
      ensures name !in byName ==> r == Resolved(name, None) && draws == old(draws)
      ensures name in byName ==>
                && draws == NextDraw(old(draws))
                && r.agent == ResolvedAgent(byName, name, scores, PickSeed(old(draws), user))
                && (match PickVariant(byName[name], scores, PickSeed(old(draws), user))
                    case Some(v) => r.agent == v.agent
                    case None => r.agent == name)
                && r.experiment == Some(byName[name].name)
    {
      if name !in byName {
        return Resolved(name, None);
      }
      var e := byName[name];
      var seed := NextSeed(user);
      var picked;
      match e.strategy {
        case Bandit => picked := BanditPick(e, scores, seed);
        case Shadow => picked := ShadowPick(e);
        case Split => picked := WeightedPick(e.variants, RoutingSeed(e, seed));
      }
      return Resolved(if picked.Some? then picked.value.agent else name, Some(e.name));
    }

    /** The coin flip before a shadow run; only a rate strictly between 0 and 1 spends a
        draw. */
    method ShadowShouldSample(e: ExperimentConfig, user: User) returns (r: bool)
      modifies this`draws
      ensures var rate, flips := e.samplingRate.GetOr(1.0), 0.0 < e.samplingRate.GetOr(1.0) < 1.0 && e.strategy.Shadow?;
              && draws == (if flips then NextDraw(old(draws)) else old(draws))
              && var unit := SeedToUnit(PickSeed(old(draws), user).PerRequest(e.name));
                 r <==> e.strategy.Shadow? && (rate >= 1.0 || unit < rate)
    {
      if !e.strategy.Shadow? {
        return false;
      }
      var rate := e.samplingRate.GetOr(1.0);
      if rate >= 1.0 {
        return true;
      }
      if rate <= 0.0 {
        return false;
      }
      var seed := NextSeed(user);
      var draw := PerRequestSeed(seed, e.name);
      return SeedToUnit(draw) < rate;
    }
  }

  function NextDraw(draw: Fnv.u64): (r: Fnv.u64)
    ensures r == if draw == 0xFFFF_FFFF_FFFF_FFFF then 0 else draw + 1
  {
    (draw + 1) % Fnv.TWO64
  }

  /** What the draw counter cannot move: sticky experiments, shadow primaries, and a
      bandit's forced arms stay the same for a user on every request. */
  lemma DrawsDoNotMove(e: ExperimentConfig, scores: seq<Score>, user: User, a: Fnv.u64, b: Fnv.u64)
    requires
      || e.stickyByUser || e.strategy.Shadow?
      || (e.strategy.Bandit? && Forced(e.variants, scores, MinSamples(e)) != [])
    ensures PickVariant(e, scores, PickSeed(a, user)) == PickVariant(e, scores, PickSeed(b, user))
  {
  }

  /** The seeds `k` of `0..=m` that fall below a rate when `k` maps to `k / m`. */
  function Sampled(m: nat, rate: real): set<int>
    requires m > 0
  {
    set k | 0 <= k <= m && Target(k, m, 1.0) < rate
  }

  /** A coin with rate `rate` comes up for its share of the seeds, rounded up: shadow
      sampling, and a bandit's exploration. */
  lemma CoinIsFair(m: nat, rate: real)
    requires m > 0 && 0.0 < rate < 1.0
    ensures m as real * rate <= |Sampled(m, rate)| as real < m as real * rate + 1.0
  {
    ShareLaws(m, 0.0, rate, 1.0);
    ShareLaws(m, rate, 1.0, 1.0);
    var hi := Ceil(Share(m, rate, 1.0));
    assert Share(m, 0.0, 1.0) == 0.0 && 0 <= hi <= m;
    forall k
      ensures k in Sampled(m, rate) <==> k in IntRange(0, hi)
    {
      if 0 <= k <= m {
        Reaches(k, m, 1.0, rate);
      }
    }
    assert Sampled(m, rate) == IntRange(0, hi);
  }

  function ByName(experiments: seq<ExperimentConfig>): (m: map<string, ExperimentConfig>)
    ensures forall n | n in m :: m[n] in experiments && m[n].name == n
    ensures forall e | e in experiments :: e.name in m
  {
    if experiments == [] then map[] else
      var e := experiments[|experiments| - 1];
      ByName(experiments[..|experiments| - 1])[e.name := e]
  }
}
