/** Rounding to a binary floating-point format: to nearest, ties to even (section 4.3.1 of
    IEEE 754), on numbers in the format's normal range. */
module Floats {
  /** Bits of precision of `f64` and `f32`. */
  const F64_BITS: nat := 53
  const F32_BITS: nat := 24

  function Pow2(k: nat): (p: nat)
    ensures p >= 1
  {
    if k == 0 then 1 else 2 * Pow2(k - 1)
  }

  /** The distance between neighbours around `n` with `bits` bits of precision. */
  function Ulp(n: nat, bits: nat): (u: nat)
    ensures u >= 1
  {
    if n < Pow2(bits) then 1 else 2 * Ulp(n / 2, bits)
  }

  /** How many times `u` goes into `n`. */
  function Times(n: nat, u: nat): (q: nat)
    requires u >= 1
    ensures q * u <= n < q * u + u
  {
    if n < u then 0 else
      var q := Times(n - u, u);
      assert (q + 1) * u == q * u + u;
      q + 1
  }

  /** `n` as a number with `bits` bits of precision. */
  function Round(n: nat, bits: nat): nat {
    var u := Ulp(n, bits);
    var q := Times(n, u);
    var below := q * u;
    if 2 * (n - below) < u || (2 * (n - below) == u && q % 2 == 0) then below else below + u
  }

  lemma {:induction false} UlpIs(n: nat, bits: nat, j: nat)
    requires bits > 0 && Pow2(j + bits - 1) <= n < Pow2(j + bits)
    ensures Ulp(n, bits) == Pow2(j)
  {
    if j == 0 {
    } else {
      PowMonotone(bits, j + bits - 1);
      UlpIs(n / 2, bits, j - 1);
    }
  }

  lemma {:induction false} PowMonotone(a: nat, b: nat)
    requires a <= b
    ensures Pow2(a) <= Pow2(b)
  {
    if a < b {
      PowMonotone(a, b - 1);
    }
  }

  lemma {:induction false} PowSum(a: nat, b: nat)
    ensures Pow2(a + b) == Pow2(a) * Pow2(b)
  {
    if a > 0 {
      PowSum(a - 1, b);
      assert Pow2(a + b) == 2 * Pow2(a - 1 + b);
    }
  }

  lemma {:induction false} UlpIsPow(n: nat, bits: nat) returns (j: nat)
    requires bits > 0
    ensures Ulp(n, bits) == Pow2(j) && n < Pow2(j + bits) && (j > 0 ==> Pow2(j + bits - 1) <= n)
  {
    if n < Pow2(bits) {
      j := 0;
    } else {
      var k := UlpIsPow(n / 2, bits);
      j := k + 1;
      assert Pow2(j + bits) == 2 * Pow2(k + bits);
      if k > 0 {
        assert Pow2(k + bits) == 2 * Pow2(k + bits - 1);
      }
    }
  }

  /** Rounding does not cross a power of two. */
  lemma RoundStaysBelow(n: nat, bits: nat, k: nat)
    requires bits > 0 && bits <= k && n < Pow2(k)
    ensures Round(n, bits) <= Pow2(k)
  {
    hide Round, Ulp;
    var j := UlpIsPow(n, bits);
    if j + bits > k {
      PowMonotone(k, j + bits - 1);
    }
    PowSum(k - j, j);
    RoundAtMost(n, bits, Pow2(k - j));
  }

  lemma Ordered(a: nat, b: nat, u: nat)
    requires a <= b
    ensures a * u <= b * u
  {
  }

  function Distance(a: nat, b: nat): nat { if a < b then b - a else a - b }

  /** The result is a multiple of the ulp, none is nearer, and of two as near it is the even
      one. */
  lemma RoundIsNearest(n: nat, bits: nat) returns (t: nat)
    ensures Round(n, bits) == t * Ulp(n, bits)
    ensures forall k: nat :: Distance(t * Ulp(n, bits), n) <= Distance(k * Ulp(n, bits), n)
    ensures 2 * Distance(t * Ulp(n, bits), n) == Ulp(n, bits) ==> t % 2 == 0
  {
    hide Ulp, Times;
    var u := Ulp(n, bits);
    var q := Times(n, u);
    assert (q + 1) * u == q * u + u;
    t := if Round(n, bits) == q * u then q else q + 1;
    forall k: nat
      ensures Distance(t * u, n) <= Distance(k * u, n)
    {
      if k <= q {
        Ordered(k, q, u);
      } else {
        Ordered(q + 1, k, u);
      }
    }
  }

  lemma RoundAtMost(n: nat, bits: nat, t: nat)
    requires n <= t * Ulp(n, bits)
    ensures Round(n, bits) <= t * Ulp(n, bits)
  {
    var u := Ulp(n, bits);
    var q := Times(n, u);
    assert (q + 1) * u == q * u + u;
    if q + 1 <= t {
      Ordered(q + 1, t, u);
    } else {
      Ordered(t, q, u);
    }
  }

  /** The even multiple `t` of the ulp `2 * half` is reached from half an ulp below it on. */
  lemma RoundReaches(n: nat, bits: nat, half: nat, t: nat)
    requires Ulp(n, bits) == 2 * half && t % 2 == 0
    ensures Round(n, bits) >= t * (2 * half) <==> n >= t * (2 * half) - half
  {
    hide Times, Ulp;
    var u := 2 * half;
    var q := Times(n, u);
    if q >= t {
      Ordered(t, q, u);
    } else {
      assert (q + 1) * u == q * u + u;
      if q + 1 < t {
        Ordered(q + 2, t, u);
        assert (q + 2) * u == (q + 1) * u + u;
      }
    }
  }
}
