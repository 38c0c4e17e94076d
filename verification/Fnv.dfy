/** The router's 64-bit FNV-1a hash, and when two draws can share a seed. */
module Fnv {

  type byte = b: int | 0 <= b < 256

  const OFFSET: nat := 0xcbf2_9ce4_8422_2325
  const PRIME: nat := 0x0000_0100_0000_01b3
  const TWO64: nat := 0x1_0000_0000_0000_0000

  type u64 = n: int | 0 <= n < 0x1_0000_0000_0000_0000

  /** Exclusive or, bit by bit. */
  function Xor(x: nat, y: nat): nat {
    if x == 0 then y else if y == 0 then x else (x + y) % 2 + 2 * Xor(x / 2, y / 2)
  }

  function XorByte(x: byte, y: byte): byte {
    XorBound(x, y, 256);
    Xor(x, y)
  }

  /** `state ^= b`: only the low byte moves. */
  function Mix(state: u64, b: byte): u64 {
    256 * (state / 256) + XorByte(state % 256, b)
  }

  function Absorb(state: u64, b: byte): u64 {
    Mix(state, b) * PRIME % TWO64
  }

  /** The state after `bytes`. */
  function Digest(state: u64, bytes: seq<byte>): u64
    decreases |bytes|
  {
    if bytes == [] then state else Digest(Absorb(state, bytes[0]), bytes[1..])
  }

  /** Writing twice is writing the concatenation. */
  lemma {:induction false} DigestAppend(state: u64, a: seq<byte>, b: seq<byte>)
    ensures Digest(state, a + b) == Digest(Digest(state, a), b)
    decreases |a|
  {
    if a == [] {
      assert a + b == b;
    } else {
      assert (a + b)[1..] == a[1..] + b;
      DigestAppend(Absorb(state, a[0]), a[1..], b);
    }
  }

  class Fnv64 {
    var state: u64

    constructor ()
      ensures state == OFFSET
    {
      state := OFFSET;
    }

    method Write(bytes: seq<byte>)
      modifies this
      ensures state == Digest(old(state), bytes)
    {
      for i := 0 to |bytes|
        invariant Digest(state, bytes[i..]) == Digest(old(state), bytes)
      {
        assert bytes[i..][1..] == bytes[i + 1..];
        state := Mix(state, bytes[i]);
        state := state * PRIME % TWO64;
      }
    }
  }

  // ---------------------------------------------------------------------
  // One step loses nothing
  // ---------------------------------------------------------------------

  const INVERSE: nat := 0xce96_5057_aff6_957b

  predicate PowerOfTwo(n: nat) {
    n == 1 || (n > 1 && n % 2 == 0 && PowerOfTwo(n / 2))
  }

  lemma {:induction false} XorBound(x: nat, y: nat, bound: nat)
    requires PowerOfTwo(bound) && x < bound && y < bound
    ensures Xor(x, y) < bound
    decreases x
  {
    if x > 0 && y > 0 {
      XorBound(x / 2, y / 2, bound / 2);
    }
  }

  lemma XorStep(x: nat, y: nat)
    ensures Xor(x, y) == (x + y) % 2 + 2 * Xor(x / 2, y / 2)
  {
  }

  lemma SameBits(x: nat, y: nat, z: nat, a: int, b: int)
    requires (x + y) % 2 + 2 * a == (x + z) % 2 + 2 * b
    ensures a == b && y % 2 == z % 2
  {
  }

  lemma {:induction false} XorInjective(x: nat, y: nat, z: nat)
    ensures Xor(x, y) == Xor(x, z) ==> y == z
    decreases x
  {
    if x > 0 && Xor(x, y) == Xor(x, z) {
      XorStep(x, y);
      XorStep(x, z);
      SameBits(x, y, z, Xor(x / 2, y / 2), Xor(x / 2, z / 2));
      XorInjective(x / 2, y / 2, z / 2);
    }
  }

  lemma {:induction false} XorCommutes(x: nat, y: nat)
    ensures Xor(x, y) == Xor(y, x)
    decreases x
  {
    if x > 0 && y > 0 {
      XorCommutes(x / 2, y / 2);
    }
  }

  /** Multiplying by the odd prime can be undone. */
  lemma Unmultiply(u: u64)
    ensures u * PRIME % TWO64 * INVERSE % TWO64 == u
  {
    var q := u * PRIME / TWO64;
    assert PRIME * INVERSE == 1 + 0xce_9650_590f * TWO64;
    assert u * PRIME % TWO64 == u * PRIME - q * TWO64;
  }

  /** A step is injective in the state, and in the byte. */
  lemma AbsorbInjective(s: u64, t: u64, a: byte, b: byte)
    requires Absorb(s, a) == Absorb(t, b)
    ensures Mix(s, a) == Mix(t, b)
  {
    Unmultiply(Mix(s, a));
    Unmultiply(Mix(t, b));
  }

  lemma MixInjective(s: u64, t: u64, a: byte, b: byte)
    requires Mix(s, a) == Mix(t, b)
    ensures s / 256 == t / 256
    ensures a == b ==> s == t
    ensures s == t ==> a == b
  {
    XorCommutes(s % 256, a);
    XorCommutes(t % 256, b);
    XorInjective(a, s % 256, t % 256);
    XorInjective(s % 256, a, b);
  }

  lemma {:induction false} SameTail(s: u64, t: u64, tail: seq<byte>)
    requires Digest(s, tail) == Digest(t, tail)
    ensures s == t
    decreases |tail|
  {
    if tail != [] {
      SameTail(Absorb(s, tail[0]), Absorb(t, tail[0]), tail[1..]);
      AbsorbInjective(s, t, tail[0], tail[0]);
      MixInjective(s, t, tail[0], tail[0]);
    }
  }

  // ---------------------------------------------------------------------
  // Five bytes apart is not enough to collide
  // ---------------------------------------------------------------------

  lemma MixMoves(s: u64, b: byte)
    ensures -255 <= Mix(s, b) - s <= 255 && Mix(s, b) / 256 == s / 256
  {
  }

  lemma WholeTurns(u: u64) returns (turns: int)
    ensures u * PRIME % TWO64 == u * PRIME - turns * TWO64
  {
    turns := u * PRIME / TWO64;
  }

  /** How far apart two states are after one step each, up to whole turns of the
      modulus. */
  lemma StepApart(s: u64, t: u64, a: byte, b: byte) returns (x: int, turns: int)
    ensures -510 <= x <= 510 && Mix(s, a) - Mix(t, b) == s - t + x
    ensures Absorb(s, a) - Absorb(t, b) == (s - t + x) * PRIME - turns * TWO64
  {
    var u, v := Mix(s, a), Mix(t, b);
    MixMoves(s, a);
    MixMoves(t, b);
    x := u - v - (s - t);
    var i := WholeTurns(u);
    var j := WholeTurns(v);
    turns := i - j;
  }

  /** The prime is `2^40 + 435`: its powers split into a small and a large part. */
  function Low(x0: int, x1: int, x2: int, x3: int, x4: int): int {
    35_806_100_625 * x0 + 82_312_875 * x1 + 189_225 * x2 + 435 * x3 + x4
  }

  function High(x0: int, x1: int, x2: int, x3: int): int {
    329_251_500 * x0 + 567_675 * x1 + 870 * x2 + x3
  }

  /** The whole turns of the modulus in a polynomial of the prime. */
  function Wraps(x0: int, x1: int, x2: int): int {
    0x1_0000_0006_cc00_0011_52f6_0000 * x0 + 0x100_0000_0519_0000 * x1 + 0x1_0000 * x2
  }

  function Poly(x0: int, x1: int, x2: int, x3: int, x4: int): int {
    (((x0 * PRIME + x1) * PRIME + x2) * PRIME + x3) * PRIME + x4
  }

  lemma Powers(x0: int, x1: int, x2: int, x3: int, x4: int)
    ensures Poly(x0, x1, x2, x3, x4) ==
            Low(x0, x1, x2, x3, x4) + 0x100_0000_0000 * High(x0, x1, x2, x3) + TWO64 * Wraps(x0, x1, x2)
  {
  }

  /** The partial sums of the small part, base 435, when it comes to `t` times `2^40`. */
  predicate Chain(t: int, s0: int, s1: int, s2: int, s3: int) {
    && 0x100_0000_0000 * t - 255 <= 435 * s3 <= 0x100_0000_0000 * t + 255
    && s3 - 510 <= 435 * s2 <= s3 + 510 && s2 - 510 <= 435 * s1 <= s2 + 510 && s1 - 510 <= 435 * s0 <= s1 + 510
  }

  /** The large part, and the carry, fall between two multiples of `2^24`. */
  predicate Between(t: int, s0: int, s1: int, s2: int, s3: int, k: int) {
    0x100_0000 * k < 82_312_875 * s0 + 189_225 * s1 + 435 * s2 + s3 + t < 0x100_0000 * (k + 1)
  }

  // Each carry leaves few partial sums, none of them with a large part that vanishes.

  lemma Turn1(s0: int, s1: int, s2: int, s3: int) returns (k: int)
    requires Chain(1, s0, s1, s2, s3)
    ensures Between(1, s0, s1, s2, s3, k)
  {
    assert 2_527_612_937 <= s3 <= 2_527_612_938 && 5_810_604 <= s2 <= 5_810_605;
    assert 13_357 <= s1 <= 13_358 && 30 <= s0 <= 31;
    k := 599 + 5 * (s0 - 30);
  }

  lemma Turn2(s0: int, s1: int, s2: int, s3: int) returns (k: int)
    requires Chain(2, s0, s1, s2, s3)
    ensures Between(2, s0, s1, s2, s3, k)
  {
    assert s3 == 5_055_225_875 && 11_621_208 <= s2 <= 11_621_210;
    assert 26_715 <= s1 <= 26_716 && 61 <= s0 <= 62;
    k := 1_203 + 5 * (s0 - 61);
  }

  lemma Turn3(s0: int, s1: int, s2: int, s3: int) returns (k: int)
    requires Chain(3, s0, s1, s2, s3)
    ensures Between(3, s0, s1, s2, s3, k)
  {
    assert s3 == 7_582_838_812 && 17_431_813 <= s2 <= 17_431_814;
    assert 40_072 <= s1 <= 40_074 && 91 <= s0 <= 93;
    k := 1_802 + 5 * (s0 - 91);
  }

  lemma Turn4(s0: int, s1: int, s2: int, s3: int) returns (k: int)
    requires Chain(4, s0, s1, s2, s3)
    ensures Between(4, s0, s1, s2, s3, k)
  {
    assert s3 == 10_110_451_750 && 23_242_417 <= s2 <= 23_242_418;
    assert 53_430 <= s1 <= 53_432 && 122 <= s0 <= 124;
    k := 2_406 + 5 * (s0 - 122);
  }

  lemma Turn5(s0: int, s1: int, s2: int, s3: int) returns (k: int)
    requires Chain(5, s0, s1, s2, s3)
    ensures Between(5, s0, s1, s2, s3, k)
  {
    assert s3 == 12_638_064_687 && 29_053_022 <= s2 <= 29_053_023;
    assert 66_788 <= s1 <= 66_789 && 153 <= s0 <= 154;
    k := 3_010 + 5 * (s0 - 153);
  }

  lemma Turn6(s0: int, s1: int, s2: int, s3: int) returns (k: int)
    requires Chain(6, s0, s1, s2, s3)
    ensures Between(6, s0, s1, s2, s3, k)
  {
    assert 15_165_677_624 <= s3 <= 15_165_677_625 && 34_863_626 <= s2 <= 34_863_627;
    assert 80_146 <= s1 <= 80_147 && 184 <= s0 <= 185;
    k := 3_614 + 5 * (s0 - 184);
  }

  lemma Turn7(s0: int, s1: int, s2: int, s3: int) returns (k: int)
    requires Chain(7, s0, s1, s2, s3)
    ensures Between(7, s0, s1, s2, s3, k)
  {
    assert s3 == 17_693_290_562 && 40_674_231 <= s2 <= 40_674_232;
    assert 93_503 <= s1 <= 93_505 && 214 <= s0 <= 216;
    k := 4_213 + 5 * (s0 - 214);
  }

  lemma Turn8(s0: int, s1: int, s2: int, s3: int) returns (k: int)
    requires Chain(8, s0, s1, s2, s3)
    ensures Between(8, s0, s1, s2, s3, k)
  {
    assert s3 == 20_220_903_499 && 46_484_835 <= s2 <= 46_484_836;
    assert 106_861 <= s1 <= 106_862 && 245 <= s0 <= 246;
    k := 4_817 + 5 * (s0 - 245);
  }

  lemma Turn0(s0: int, s1: int, s2: int, s3: int) returns (k: int)
    requires Chain(0, s0, s1, s2, s3) && s0 != 0
    ensures Between(0, s0, s1, s2, s3, k)
  {
    assert s3 == 0 && -1 <= s2 <= 1 && -1 <= s1 <= 1 && -1 <= s0 <= 1;
    k := if s0 == 1 then 4 else -5;
  }

  lemma PositiveTurn(t: int, s0: int, s1: int, s2: int, s3: int) returns (k: int)
    requires 0 <= t <= 8 && Chain(t, s0, s1, s2, s3) && (t == 0 ==> s0 != 0)
    ensures Between(t, s0, s1, s2, s3, k)
  {
    if t == 0 {
      k := Turn0(s0, s1, s2, s3);
    } else if t <= 4 {
      if t == 1 { k := Turn1(s0, s1, s2, s3); }
      else if t == 2 { k := Turn2(s0, s1, s2, s3); }
      else if t == 3 { k := Turn3(s0, s1, s2, s3); }
      else { k := Turn4(s0, s1, s2, s3); }
    } else {
      if t == 5 { k := Turn5(s0, s1, s2, s3); }
      else if t == 6 { k := Turn6(s0, s1, s2, s3); }
      else if t == 7 { k := Turn7(s0, s1, s2, s3); }
      else { k := Turn8(s0, s1, s2, s3); }
    }
  }

  lemma AnyTurn(t: int, s0: int, s1: int, s2: int, s3: int) returns (k: int)
    requires -8 <= t <= 8 && Chain(t, s0, s1, s2, s3) && (t == 0 ==> s0 != 0)
    ensures Between(t, s0, s1, s2, s3, k)
  {
    if t >= 0 {
      k := PositiveTurn(t, s0, s1, s2, s3);
    } else {
      k := PositiveTurn(-t, -s0, -s1, -s2, -s3);
      k := -k - 1;
    }
  }

  lemma NotBetween(n: int, k: int, rest: int)
    requires n == 0x100_0000 * rest
    ensures !(0x100_0000 * k < n < 0x100_0000 * (k + 1))
  {
    if rest <= k {
      assert 0x100_0000 * rest <= 0x100_0000 * k;
    } else {
      assert 0x100_0000 * rest >= 0x100_0000 * (k + 1);
    }
  }

  /** The arithmetic at the centre: five small digits cancel only if the first is zero. */
  lemma NoCancel(x0: int, x1: int, x2: int, x3: int, x4: int, turns: int)
    requires -255 <= x0 <= 255 && -510 <= x1 <= 510 && -510 <= x2 <= 510 && -510 <= x3 <= 510 && -255 <= x4 <= 255
    requires Poly(x0, x1, x2, x3, x4) == turns * TWO64
    ensures x0 == 0
  {
    Powers(x0, x1, x2, x3, x4);
    var high, rest := High(x0, x1, x2, x3), turns - Wraps(x0, x1, x2);
    var t := 0x100_0000 * rest - high;
    assert Low(x0, x1, x2, x3, x4) == 0x100_0000_0000 * t;
    CarryIsSmall(x0, x1, x2, x3, x4, t);
    var s1 := 435 * x0 + x1;
    var s2 := 435 * s1 + x2;
    var s3 := 435 * s2 + x3;
    assert Chain(t, x0, s1, s2, s3);
    assert high == 82_312_875 * x0 + 189_225 * s1 + 435 * s2 + s3;
    if x0 != 0 {
      var k := AnyTurn(t, x0, s1, s2, s3);
      NotBetween(high + t, k, rest);
    }
  }

  lemma CarryIsSmall(x0: int, x1: int, x2: int, x3: int, x4: int, t: int)
    requires -255 <= x0 <= 255 && -510 <= x1 <= 510 && -510 <= x2 <= 510 && -510 <= x3 <= 510 && -255 <= x4 <= 255
    requires Low(x0, x1, x2, x3, x4) == 0x100_0000_0000 * t
    ensures -8 <= t <= 8
  {
    assert -9_200_000_000_000 <= Low(x0, x1, x2, x3, x4) <= 9_200_000_000_000;
  }

  /** The gap two bytes leave after one step, carried through another. */
  lemma Carry(s: u64, t: u64, a: byte, b: byte, d: int) returns (x: int, turns: int)
    requires s - t == d
    ensures -510 <= x <= 510
    ensures Absorb(s, a) - Absorb(t, b) == (d + x) * PRIME - turns * TWO64
  {
    x, turns := StepApart(s, t, a, b);
  }

  /** The last step of a collision closes what gap is left. */
  lemma Close(s: u64, t: u64, a: byte, b: byte, d: int)
    requires s - t == d && Absorb(s, a) == Absorb(t, b)
    ensures -255 <= d <= 255
  {
    AbsorbInjective(s, t, a, b);
    MixMoves(s, a);
    MixMoves(t, b);
  }

  lemma Open(s: u64, a: byte, b: byte) returns (x: int, turns: int)
    ensures -255 <= x <= 255 && (x == 0 ==> a == b)
    ensures Absorb(s, a) - Absorb(s, b) == x * PRIME - turns * TWO64
  {
    x, turns := StepApart(s, s, a, b);
    MixMoves(s, a);
    MixMoves(s, b);
    if x == 0 {
      XorInjective(s % 256, a, b);
    }
  }

  lemma GapsCancel(
      s: u64, a: seq<byte>, b: seq<byte>, s1: u64, t1: u64, s2: u64, t2: u64, s3: u64, t3: u64, s4: u64, t4: u64)
    requires |a| == 5 && |b| == 5
    requires s1 == Absorb(s, a[0]) && t1 == Absorb(s, b[0])
    requires s2 == Absorb(s1, a[1]) && t2 == Absorb(t1, b[1])
    requires s3 == Absorb(s2, a[2]) && t3 == Absorb(t2, b[2])
    requires s4 == Absorb(s3, a[3]) && t4 == Absorb(t3, b[3])
    requires Absorb(s4, a[4]) == Absorb(t4, b[4])
    ensures a[0] == b[0]
  {
    var d1, d2, d3, d4 := s1 - t1, s2 - t2, s3 - t3, s4 - t4;
    var x0, r0 := Open(s, a[0], b[0]);
    var x1, r1 := Carry(s1, t1, a[1], b[1], d1);
    var x2, r2 := Carry(s2, t2, a[2], b[2], d2);
    var x3, r3 := Carry(s3, t3, a[3], b[3], d3);
    Close(s4, t4, a[4], b[4], d4);
    Telescope(x0, x1, x2, x3, d1, d2, d3, d4, r0, r1, r2, r3);
    NoCancel(x0, x1, x2, x3, -d4, ((r0 * PRIME + r1) * PRIME + r2) * PRIME + r3);
  }

  lemma WindowDiffers(s: u64, a: seq<byte>, b: seq<byte>)
    requires |a| == 5 && |b| == 5 && a[0] != b[0]
    ensures Digest(s, a) != Digest(s, b)
  {
    var s1, t1 := Absorb(s, a[0]), Absorb(s, b[0]);
    var s2, t2 := Absorb(s1, a[1]), Absorb(t1, b[1]);
    var s3, t3 := Absorb(s2, a[2]), Absorb(t2, b[2]);
    var s4, t4 := Absorb(s3, a[3]), Absorb(t3, b[3]);
    DigestFive(s, a, s1, s2, s3, s4);
    DigestFive(s, b, t1, t2, t3, t4);
    if Digest(s, a) == Digest(s, b) {
      GapsCancel(s, a, b, s1, t1, s2, t2, s3, t3, s4, t4);
    }
  }

  lemma DigestNext(s: u64, a: seq<byte>)
    requires a != []
    ensures Digest(s, a) == Digest(Absorb(s, a[0]), a[1..])
  {
  }

  lemma DigestFive(s: u64, a: seq<byte>, s1: u64, s2: u64, s3: u64, s4: u64)
    requires |a| == 5
    requires s1 == Absorb(s, a[0]) && s2 == Absorb(s1, a[1]) && s3 == Absorb(s2, a[2]) && s4 == Absorb(s3, a[3])
    ensures Digest(s, a) == Absorb(s4, a[4])
  {
    DigestNext(s, a);
    DigestNext(s1, a[1..]);
    DigestNext(s2, a[2..]);
    DigestNext(s3, a[3..]);
    DigestNext(s4, a[4..]);
    assert a[1..][1..] == a[2..] && a[2..][1..] == a[3..] && a[3..][1..] == a[4..] && a[4..][1..] == [];
  }

  lemma Telescope(
      x0: int, x1: int, x2: int, x3: int, d1: int, d2: int, d3: int, d4: int, r0: int, r1: int, r2: int, r3: int)
    requires d1 == x0 * PRIME - r0 * TWO64
    requires d2 == (d1 + x1) * PRIME - r1 * TWO64
    requires d3 == (d2 + x2) * PRIME - r2 * TWO64
    requires d4 == (d3 + x3) * PRIME - r3 * TWO64
    ensures Poly(x0, x1, x2, x3, -d4) == (((r0 * PRIME + r1) * PRIME + r2) * PRIME + r3) * TWO64
  {
  }

  /** One byte apart: nothing later brings the states together again. */
  lemma FirstByteDiffers(s: u64, a: seq<byte>, b: seq<byte>)
    requires a != [] && b != [] && a[0] != b[0] && a[1..] == b[1..]
    ensures Digest(s, a) != Digest(s, b)
  {
    if Digest(s, a) == Digest(s, b) {
      SameTail(Absorb(s, a[0]), Absorb(s, b[0]), a[1..]);
      AbsorbInjective(s, s, a[0], b[0]);
      MixInjective(s, s, a[0], b[0]);
    }
  }

  /** Same length, equal from byte `k <= 5` on, and long enough: different bytes give
      different states. */
  lemma {:induction false} DigestDiffers(s: u64, a: seq<byte>, b: seq<byte>, k: nat)
    requires k <= 5 && |a| == |b| >= k + 3
    requires a != b && a[k..] == b[k..]
    ensures Digest(s, a) != Digest(s, b)
    decreases |a|
  {
    DigestNext(s, a);
    DigestNext(s, b);
    assert a[0..] == a && b[0..] == b;
    if a[0] == b[0] {
      assert a[1..][k - 1..] == a[k..] && b[1..][k - 1..] == b[k..];
      assert a == [a[0]] + a[1..] && b == [b[0]] + b[1..];
      DigestDiffers(Absorb(s, a[0]), a[1..], b[1..], k - 1);
    } else if k == 1 {
      FirstByteDiffers(s, a, b);
    } else {
      assert a == a[..5] + a[5..] && b == b[..5] + b[5..];
      assert a[5..] == a[k..][5 - k..] == b[5..];
      WindowDiffers(s, a[..5], b[..5]);
      DigestAppend(s, a[..5], a[5..]);
      DigestAppend(s, b[..5], b[5..]);
      if Digest(s, a) == Digest(s, b) {
        SameTail(Digest(s, a[..5]), Digest(s, b[..5]), a[5..]);
      }
    }
  }
}
