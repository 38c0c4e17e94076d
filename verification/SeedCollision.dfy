/** Two draws that share a per-request seed. Each step of the hash is written out in
    base-4 digits and quotients, so that it is checked by linear arithmetic. */
module SeedCollision {
  import opened Fnv
  import opened Seeds

  type bit = n: int | 0 <= n < 2

  // Shifted operands are passed by name, so that no quotient of a sum is unfolded.

  lemma Halve(x: nat, y: nat, a: bit, b: bit, p: nat, q: nat)
    requires p == 2 * x + a && q == 2 * y + b
    ensures Xor(p, q) == 2 * Xor(x, y) + if a == b then 0 else 1
  {
    assert p / 2 == x && q / 2 == y;
    assert (p + q) % 2 == if a == b then 0 else 1;
    XorStep(p, q);
  }

  lemma Shift4Parts(x: nat, y: nat, a1: bit, a0: bit, b1: bit, b0: bit, a: nat, b: nat, c: nat, d: nat, p: nat, q: nat)
    requires a == 2 * a1 + a0 && b == 2 * b1 + b0 && c == 2 * x + a1 && d == 2 * y + b1
    requires p == 2 * c + a0 && q == 2 * d + b0
    ensures Xor(p, q) == 4 * Xor(x, y) + Xor(a, b)
  {
    Halve(c, d, a0, b0, p, q);
    Halve(x, y, a1, b1, c, d);
    Halve(a1, b1, a0, b0, a, b);
    Halve(0, 0, a1, b1, a1, b1);
  }

  lemma TwoBits(n: nat) returns (n1: bit, n0: bit)
    requires n < 4
    ensures n == 2 * n1 + n0
  {
    n1 := if n >= 2 then 1 else 0;
    n0 := n - 2 * n1;
  }

  lemma Shift4(x: nat, y: nat, a: nat, b: nat, p: nat, q: nat)
    requires a < 4 && b < 4 && p == 4 * x + a && q == 4 * y + b
    ensures Xor(p, q) == 4 * Xor(x, y) + Xor(a, b)
  {
    var a1, a0 := TwoBits(a);
    var b1, b0 := TwoBits(b);
    Shift4Parts(x, y, a1, a0, b1, b0, a, b, 2 * x + a1, 2 * y + b1, p, q);
  }

  /** `m` is the exclusive or of two base-4 digits. */
  predicate IsXor(a: nat, b: nat, m: nat) {
    a < 4 && b < 4 && if a == b then m == 0 else if a == 0 then m == b else if b == 0 then m == a else a + b + m == 6
  }

  lemma DigitXor(a: nat, b: nat, m: nat)
    requires IsXor(a, b, m)
    ensures Xor(a, b) == m
  {
    var a1, a0 := TwoBits(a);
    var b1, b0 := TwoBits(b);
    Halve(a1, b1, a0, b0, a, b);
    Halve(0, 0, a1, b1, a1, b1);
  }

  lemma ShiftDigit(x: nat, y: nat, a: nat, b: nat, m: nat, p: nat, q: nat, z: nat)
    requires IsXor(a, b, m) && p == 4 * x + a && q == 4 * y + b && Xor(x, y) == z
    ensures Xor(p, q) == 4 * z + m
  {
    Shift4(x, y, a, b, p, q);
    DigitXor(a, b, m);
  }

  lemma XorOfDigits(
      a3: nat, a2: nat, a1: nat, a0: nat, b3: nat, b2: nat, b1: nat, b0: nat, m3: nat, m2: nat, m1: nat, m0: nat,
      a: nat, b: nat)
    requires IsXor(a3, b3, m3) && IsXor(a2, b2, m2) && IsXor(a1, b1, m1) && IsXor(a0, b0, m0)
    requires a == 64 * a3 + 16 * a2 + 4 * a1 + a0 && b == 64 * b3 + 16 * b2 + 4 * b1 + b0
    ensures Xor(a, b) == 64 * m3 + 16 * m2 + 4 * m1 + m0
  {
    var x2, y2, z2 := 4 * a3 + a2, 4 * b3 + b2, 4 * m3 + m2;
    var x1, y1, z1 := 4 * x2 + a1, 4 * y2 + b1, 4 * z2 + m1;
    DigitXor(a3, b3, m3);
    ShiftDigit(a3, b3, a2, b2, m2, x2, y2, m3);
    ShiftDigit(x2, y2, a1, b1, m1, x1, y1, z2);
    ShiftDigit(x1, y1, a0, b0, m0, a, b, z1);
  }

  lemma SplitByte(state: u64, high: nat, low: nat)
    requires low < 256 && state == 256 * high + low
    ensures state / 256 == high && state % 256 == low
  {
  }

  lemma MixIs(state: u64, high: nat, low: byte, read: byte)
    requires state == 256 * high + low
    ensures Mix(state, read) == 256 * high + Xor(low, read)
  {
    SplitByte(state, high, low);
  }

  lemma AbsorbIs(state: u64, read: byte, mixed: u64, turns: nat)
    requires Mix(state, read) == mixed && 0 <= mixed * PRIME - turns * TWO64 < TWO64
    ensures Absorb(state, read) == mixed * PRIME - turns * TWO64
  {
  }

  /** Reading the lowest byte of `n` (digits `b`) in the state `256 * high + low` (digits `a`);
      the product passes the modulus `turns` times. */
  lemma Read(
      n: nat, count: nat, state: u64, high: nat, a3: nat, a2: nat, a1: nat, a0: nat,
      rest: nat, b3: nat, b2: nat, b1: nat, b0: nat, m3: nat, m2: nat, m1: nat, m0: nat, turns: nat)
    returns (next: u64, left: nat)
    requires IsXor(a3, b3, m3) && IsXor(a2, b2, m2) && IsXor(a1, b1, m1) && IsXor(a0, b0, m0)
    requires count > 0 && n == 256 * rest + 64 * b3 + 16 * b2 + 4 * b1 + b0
    requires state == 256 * high + 64 * a3 + 16 * a2 + 4 * a1 + a0
    requires 0 <= (256 * high + 64 * m3 + 16 * m2 + 4 * m1 + m0) * PRIME - turns * TWO64 < TWO64
    ensures next == (256 * high + 64 * m3 + 16 * m2 + 4 * m1 + m0) * PRIME - turns * TWO64 && left == count - 1
    ensures Digest(state, LeBytes(n, count)) == Digest(next, LeBytes(rest, left))
  {
    var low, read := 64 * a3 + 16 * a2 + 4 * a1 + a0, 64 * b3 + 16 * b2 + 4 * b1 + b0;
    var mixed := 256 * high + 64 * m3 + 16 * m2 + 4 * m1 + m0;
    XorOfDigits(a3, a2, a1, a0, b3, b2, b1, b0, m3, m2, m1, m0, low, read);
    MixIs(state, high, low, read);
    AbsorbIs(state, read, mixed, turns);
    next, left := mixed * PRIME - turns * TWO64, count - 1;
    SplitNumber(n, rest, read);
    assert LeBytes(n, count)[0] == read && LeBytes(n, count)[1..] == LeBytes(rest, left);
    DigestNext(state, LeBytes(n, count));
  }

  lemma SplitNumber(n: nat, high: nat, low: nat)
    requires low < 256 && n == 256 * high + low
    ensures n / 256 == high && n % 256 == low
  {
  }

  // Sixteen zero bytes, then the name, then each draw.

  lemma ZerosA(n: nat, count: nat, s: u64)
    requires n == 0 && count >= 4 && s == 0xcbf29ce484222325
    ensures Digest(s, LeBytes(n, count)) == Digest(0x4d25767f9dce13f5, LeBytes(0, count - 4))
  {
    var s1, k := Read(n, count, s, 0xcbf29ce4842223, 0, 2, 1, 1, 0, 0, 0, 0, 0, 0, 2, 1, 1, 875948729822);
    s1, k := Read(0, k, s1, 0xaf63bd4c8601b7, 3, 1, 3, 3, 0, 0, 0, 0, 0, 3, 1, 3, 3, 753292627376);
    s1, k := Read(0, k, s1, 0x8328807b4eb6f, 3, 2, 3, 1, 0, 0, 0, 0, 0, 3, 2, 3, 1, 35207514050);
    s1, k := Read(0, k, s1, 0xd94d12186c0f2f, 2, 3, 1, 3, 0, 0, 0, 0, 0, 2, 3, 1, 3, 933300935133);
  }

  lemma ZerosB(n: nat, count: nat, s: u64)
    requires n == 0 && count >= 4 && s == 0x4d25767f9dce13f5
    ensures Digest(s, LeBytes(n, count)) == Digest(0xa8c7f832281a39c5, LeBytes(0, count - 4))
  {
    var s1, k := Read(n, count, s, 0x4d25767f9dce13, 3, 3, 1, 1, 0, 0, 0, 0, 0, 3, 3, 1, 1, 331341004832);
    s1, k := Read(0, k, s1, 0xe4bc4fd9252be9, 1, 0, 3, 3, 0, 0, 0, 0, 0, 1, 0, 3, 3, 982411893417);
    s1, k := Read(0, k, s1, 0xd7e4fcfa299d71, 0, 3, 3, 1, 0, 0, 0, 0, 0, 0, 3, 3, 1, 927259753368);
    s1, k := Read(0, k, s1, 0x778b1a14b6876a, 2, 2, 1, 3, 0, 0, 0, 0, 0, 2, 2, 1, 3, 513434850689);
  }

  lemma ZerosC(n: nat, count: nat, s: u64)
    requires n == 0 && count >= 4 && s == 0xa8c7f832281a39c5
    ensures Digest(s, LeBytes(n, count)) == Digest(0x5467b0da1d106495, LeBytes(0, count - 4))
  {
    var s1, k := Read(n, count, s, 0xa8c7f832281a39, 3, 0, 1, 1, 0, 0, 0, 0, 0, 3, 0, 1, 1, 724909437766);
    s1, k := Read(0, k, s1, 0xe604823a249029, 2, 3, 3, 3, 0, 0, 0, 0, 0, 2, 3, 3, 3, 987918121899);
    s1, k := Read(0, k, s1, 0x69d307cc20f6ef, 2, 0, 3, 1, 0, 0, 0, 0, 0, 2, 0, 3, 1, 454512069844);
    s1, k := Read(0, k, s1, 0xc885ccdc03990c, 2, 1, 1, 3, 0, 0, 0, 0, 0, 2, 1, 1, 3, 861238254936);
  }

  lemma ZerosD(n: nat, count: nat, s: u64)
    requires n == 0 && count >= 4 && s == 0x5467b0da1d106495
    ensures Digest(s, LeBytes(n, count)) == Digest(0x88201fb960ff6465, LeBytes(0, count - 4))
  {
    var s1, k := Read(n, count, s, 0x5467b0da1d1064, 2, 1, 1, 1, 0, 0, 0, 0, 0, 2, 1, 1, 1, 362516896428);
    s1, k := Read(0, k, s1, 0x7c96179f62dae9, 0, 2, 3, 3, 0, 0, 0, 0, 0, 0, 2, 3, 3, 535094075446);
    s1, k := Read(0, k, s1, 0x8df352d4f9fa3a, 3, 1, 3, 1, 0, 0, 0, 0, 0, 3, 1, 3, 1, 609672680939);
    s1, k := Read(0, k, s1, 0x2eb09ce4c43205, 2, 0, 1, 3, 0, 0, 0, 0, 0, 2, 0, 1, 3, 200531567891);
  }

  lemma Name(n: nat, count: nat, s: u64)
    requires n == 101 && count >= 1 && s == 0x88201fb960ff6465
    ensures Digest(s, LeBytes(n, count)) == Digest(0x4df9e7ffd1f6ec00, LeBytes(0, count - 1))
  {
    var s1, k := Read(n, count, s, 0x88201fb960ff64, 1, 2, 1, 1, 0, 1, 2, 1, 1, 0, 0, 0, 0, 584654502472);
  }

  lemma OneLow(n: nat, count: nat, s: u64)
    requires n == 17786581147611857594 && count >= 4 && s == 0x4df9e7ffd1f6ec00
    ensures Digest(s, LeBytes(n, count)) == Digest(0x1774f98f2b943814, LeBytes(4141261137, count - 4))
  {
    var s1, k := Read(n, count, s, 0x4df9e7ffd1f6ec, 0, 0, 0, 0, 69478832607858818, 2, 3, 2, 2, 2,
      3, 2, 2, 334905213014);
    s1, k := Read(69478832607858818, k, s1, 0x7691f1b1c69440, 0, 0, 3, 2, 271401689874448, 2, 0, 0,
      2, 2, 0, 3, 0, 509254677136);
    s1, k := Read(271401689874448, k, s1, 0xe3e3d146de9ad, 3, 2, 1, 0, 1060162851072, 0, 1, 0, 0,
      3, 3, 1, 0, 61173732486);
    s1, k := Read(1060162851072, k, s1, 0x1d6fbdb6c41295, 2, 1, 3, 0, 4141261137, 0, 0, 0, 0, 2, 1, 3, 0, 126428755702);
  }

  lemma OneHigh(n: nat, count: nat, s: u64)
    requires n == 4141261137 && count >= 4 && s == 0x1774f98f2b943814
    ensures Digest(s, LeBytes(n, count)) == Digest(0xec2f6bd92f382576, LeBytes(0, count - 4))
  {
    var s1, k := Read(n, count, s, 0x1774f98f2b9438, 0, 1, 1, 0, 16176801, 1, 1, 0, 1, 1, 0, 1, 1, 100746760019);
    s1, k := Read(16176801, k, s1, 0x6ffc53470cdb9d, 0, 3, 3, 3, 63190, 2, 2, 0, 1, 2, 1, 3, 2, 480974686155);
    s1, k := Read(63190, k, s1, 0x255f1fbad92cd3, 1, 3, 2, 2, 246, 3, 1, 1, 2, 2, 2, 3, 0, 160509704984);
    s1, k := Read(246, k, s1, 0xad76967f072bad, 1, 0, 1, 0, 0, 3, 3, 1, 2, 2, 3, 0, 2, 745018916909);
  }

  lemma OtherLow(n: nat, count: nat, s: u64)
    requires n == 6208047648310027200 && count >= 4 && s == 0x4df9e7ffd1f6ec00
    ensures Digest(s, LeBytes(n, count)) == Digest(0xecad3cc0abb5a240, LeBytes(1445423729, count - 4))
  {
    var s1, k := Read(n, count, s, 0x4df9e7ffd1f6ec, 0, 0, 0, 0, 24250186126211043, 3, 0, 0, 0, 3,
      0, 0, 0, 334905213014);
    s1, k := Read(24250186126211043, k, s1, 0x7691f7b1c6944a, 1, 0, 0, 0, 94727289555511, 3, 2, 0,
      3, 2, 2, 0, 3, 509255070352);
    s1, k := Read(94727289555511, k, s1, 0xe5286146dfad2, 3, 3, 2, 1, 370028474826, 0, 3, 1, 3, 3,
      0, 3, 2, 61514060934);
    s1, k := Read(370028474826, k, s1, 0x510ca2b6e13434, 0, 0, 2, 2, 1445423729, 3, 0, 2, 2, 3, 0, 0, 0, 348104341354);
  }

  lemma OtherHigh(n: nat, count: nat, s: u64)
    requires n == 1445423729 && count >= 4 && s == 0xecad3cc0abb5a240
    ensures Digest(s, LeBytes(n, count)) == Digest(0xec2f6bd92f382576, LeBytes(0, count - 4))
  {
    var s1, k := Read(n, count, s, 0xecad3cc0abb5a2, 1, 0, 0, 0, 5646186, 1, 3, 0, 1, 0, 3, 0, 1, 1016518722109);
    s1, k := Read(5646186, k, s1, 0xe0006c63c5a299, 1, 0, 0, 3, 22055, 1, 2, 2, 2, 0, 2, 2, 1, 962079778114);
    s1, k := Read(22055, k, s1, 0x43515688d34a40, 2, 2, 2, 3, 86, 0, 2, 1, 3, 2, 0, 3, 0, 289127434565);
    s1, k := Read(86, k, s1, 0xad76967f072bad, 3, 2, 1, 0, 0, 1, 1, 1, 2, 2, 3, 0, 2, 745018916909);
  }

  lemma {:induction false} ZeroBytes(count: nat)
    ensures LeBytes(0, count) == seq(count, i => 0)
  {
    if count > 0 {
      ZeroBytes(count - 1);
    }
  }

  lemma Prefix(user: User, name: string)
    requires user == seq(16, i => 0) && name == "e"
    ensures Digest(OFFSET, user + NameBytes(name)) == 0x4df9e7ffd1f6ec00
  {
    var zero, code, sixteen, one := 0, 101, 16, 1;
    ZeroBytes(sixteen);
    assert NameBytes(name) == LeBytes(code, one) by {
      assert name[0] as int % 256 == code;
    }
    DigestAppend(OFFSET, user, NameBytes(name));
    ZerosA(zero, sixteen, 0xcbf29ce484222325);
    ZerosB(zero, sixteen - 4, 0x4d25767f9dce13f5);
    ZerosC(zero, sixteen - 8, 0xa8c7f832281a39c5);
    ZerosD(zero, sixteen - 12, 0x5467b0da1d106495);
    Name(code, one, 0x88201fb960ff6465);
  }

  /** Two draws far apart that do share a seed: user zero, experiment `e`. */
  lemma DrawsCanRepeat(user: User, name: string, a: u64, b: u64)
    requires user == seq(16, i => 0) && name == "e"
    requires a == 17786581147611857594 && b == 6208047648310027200
    ensures PickSeed(a, user).PerRequest(name) == PickSeed(b, user).PerRequest(name)
  {
    var eight := 8;
    var head := user + NameBytes(name);
    Prefix(user, name);
    DigestAppend(OFFSET, head, LeBytes(a, eight));
    DigestAppend(OFFSET, head, LeBytes(b, eight));
    OneLow(a, eight, 0x4df9e7ffd1f6ec00);
    OneHigh(4141261137, eight - 4, 0x1774f98f2b943814);
    OtherLow(b, eight, 0x4df9e7ffd1f6ec00);
    OtherHigh(1445423729, eight - 4, 0xecad3cc0abb5a240);
  }
}
