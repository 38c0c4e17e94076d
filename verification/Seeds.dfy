/** `PickSeed`: what one variant pick is derived from. */
module Seeds {
  import opened Fnv

  /** A user id is a UUID: sixteen bytes. */
  type User = s: seq<byte> | |s| == 16 witness seq(16, i => 0)

  function NameBytes(name: string): (r: seq<byte>)
    ensures |r| == |name| && forall i | 0 <= i < |r| && name[i] as int < 256 :: r[i] == name[i] as int
  {
    seq(|name|, i requires 0 <= i < |name| => name[i] as int % 256)
  }

  /** The low `count` bytes of `n`, least significant first. */
  function LeBytes(n: nat, count: nat): (r: seq<byte>)
    ensures |r| == count
  {
    if count == 0 then [] else [n % 256] + LeBytes(n / 256, count - 1)
  }

  /** The user and the router's draw counter. */
  datatype PickSeed = PickSeed(draw: u64, user: User) {
    function Sticky(name: string): u64 {
      Digest(OFFSET, user + NameBytes(name))
    }

    function PerRequest(name: string): u64 {
      Digest(OFFSET, user + NameBytes(name) + LeBytes(draw, 8))
    }
  }

  /** `PickSeed::sticky`. */
  method StickySeed(seed: PickSeed, name: string) returns (r: u64)
    ensures r == seed.Sticky(name)
  {
    var hasher := new Fnv64();
    hasher.Write(seed.user);
    hasher.Write(NameBytes(name));
    DigestAppend(OFFSET, seed.user, NameBytes(name));
    return hasher.state;
  }

  /** `PickSeed::per_request`. */
  method PerRequestSeed(seed: PickSeed, name: string) returns (r: u64)
    ensures r == seed.PerRequest(name)
  {
    var hasher := new Fnv64();
    hasher.Write(seed.user);
    hasher.Write(NameBytes(name));
    hasher.Write(LeBytes(seed.draw, 8));
    DigestAppend(OFFSET, seed.user, NameBytes(name));
    DigestAppend(OFFSET, seed.user + NameBytes(name), LeBytes(seed.draw, 8));
    return hasher.state;
  }

  // ---------------------------------------------------------------------
  // When two draws share a seed
  // ---------------------------------------------------------------------

  /** `n` is spelled out by `count` bytes. */
  predicate Fits(n: nat, count: nat) {
    if count == 0 then n == 0 else Fits(n / 256, count - 1)
  }

  lemma {:induction false} LeInjective(m: nat, n: nat, count: nat)
    requires Fits(m, count) && Fits(n, count) && LeBytes(m, count) == LeBytes(n, count)
    ensures m == n
  {
    if count > 0 {
      assert LeBytes(m, count)[0] == m % 256 && LeBytes(n, count)[0] == n % 256;
      assert LeBytes(m, count)[1..] == LeBytes(m / 256, count - 1);
      assert LeBytes(n, count)[1..] == LeBytes(n / 256, count - 1);
      LeInjective(m / 256, n / 256, count - 1);
    }
  }

  lemma EightBytesFit(n: u64)
    ensures Fits(n, 8)
  {
    var a := n / 256;
    var b := a / 256;
    var c := b / 256;
    var d := c / 256;
    var e := d / 256;
    var f := e / 256;
    var g := f / 256;
    assert g < 256;
    assert Fits(g / 256, 0);
    assert Fits(f, 2) && Fits(e, 3) && Fits(d, 4);
    assert Fits(c, 5) && Fits(b, 6) && Fits(a, 7);
  }

  /** Draws in the same block of 2^40 share their upper bytes. */
  lemma UpperBytes(n: u64)
    ensures LeBytes(n, 8)[5..] == LeBytes(n / 0x100_0000_0000, 3)
  {
    var a := n / 256;
    var b := a / 256;
    var c := b / 256;
    var d := c / 256;
    LowByte(n, 8);
    LowByte(a, 7);
    LowByte(b, 6);
    LowByte(c, 5);
    LowByte(d, 4);
    assert d / 256 == n / 0x100_0000_0000;
  }

  lemma LowByte(n: nat, count: nat)
    requires count > 0
    ensures LeBytes(n, count) == [n % 256] + LeBytes(n / 256, count - 1)
  {
  }

  /** The number the bytes spell, the first one least significant. */
  function FromLe(bytes: seq<byte>): nat {
    if bytes == [] then 0 else bytes[0] + 256 * FromLe(bytes[1..])
  }

  /** `to_le_bytes`, read back. */
  lemma {:induction false} LeReadsBack(n: nat, count: nat)
    requires Fits(n, count)
    ensures FromLe(LeBytes(n, count)) == n
  {
    if count > 0 {
      LowByte(n, count);
      assert LeBytes(n, count)[1..] == LeBytes(n / 256, count - 1);
      LeReadsBack(n / 256, count - 1);
    }
  }

  lemma DrawReadsBack(draw: u64)
    ensures |LeBytes(draw, 8)| == 8 && FromLe(LeBytes(draw, 8)) == draw
  {
    EightBytesFit(draw);
    LeReadsBack(draw, 8);
  }

  /** A per-request seed differs on every draw of the same block of 2^40 draws, for
      every user and experiment. */
  lemma DrawsDiffer(user: User, name: string, a: u64, b: u64)
    requires a != b && a / 0x100_0000_0000 == b / 0x100_0000_0000
    ensures PickSeed(a, user).PerRequest(name) != PickSeed(b, user).PerRequest(name)
  {
    var head, x, y := user + NameBytes(name), LeBytes(a, 8), LeBytes(b, 8);
    UpperBytes(a);
    UpperBytes(b);
    if x == y {
      EightBytesFit(a);
      EightBytesFit(b);
      LeInjective(a, b, 8);
    }
    DigestDiffers(Digest(OFFSET, head), x, y, 5);
    DigestAppend(OFFSET, head, x);
    DigestAppend(OFFSET, head, y);
  }
}
