/** Binary digits of numbers and of limb sequences. */
module Bits {
  import opened Words
  import opened Limbs

  /** `n >> k`: the number spelled by the bits of n from bit k up. */
  function Prefix(n: nat, k: nat): nat {
    if k == 0 then n else Prefix(n / 2, k - 1)
  }

  function Bit(n: nat, k: nat): nat {
    Prefix(n, k) % 2
  }

  /** `(limb >> k) & 1`. */
  predicate LimbBit(limb: uint32, k: nat) {
    Bit(limb as nat, k) == 1
  }

  /** Reading a number from its most significant bit: one more bit doubles the prefix and adds the bit. */
  lemma {:induction false} PrefixStep(n: nat, k: nat)
    ensures Prefix(n, k) == 2 * Prefix(n, k + 1) + Bit(n, k)
  {
    if k > 0 {
      PrefixStep(n / 2, k - 1);
    }
  }

  lemma {:induction false} PrefixSum(n: nat, j: nat, k: nat)
    ensures Prefix(n, j + k) == Prefix(Prefix(n, j), k)
    decreases j
  {
    if j > 0 {
      PrefixSum(n / 2, j - 1, k);
    }
  }

  lemma PrefixNibble(n: nat)
    ensures Prefix(n, 4) == n / 0x10
  {
    assert Prefix(n, 4) == Prefix(n / 2, 3) == Prefix(n / 4, 2);
    assert Prefix(n / 4, 2) == Prefix(n / 8, 1) == Prefix(n / 16, 0);
  }

  lemma PrefixByte(n: nat)
    ensures Prefix(n, 8) == n / 0x100
  {
    PrefixNibble(n);
    PrefixNibble(n / 0x10);
    PrefixSum(n, 4, 4);
  }

  lemma PrefixHalfLimb(n: nat)
    ensures Prefix(n, 16) == n / 0x1_0000
  {
    PrefixByte(n);
    PrefixByte(n / 0x100);
    PrefixSum(n, 8, 8);
  }

  lemma PrefixLimb(n: nat)
    ensures Prefix(n, 32) == n / LIMB
  {
    PrefixHalfLimb(n);
    PrefixHalfLimb(n / 0x1_0000);
    PrefixSum(n, 16, 16);
  }

  /** h shifted up by j bits. */
  ghost function Doubled(h: nat, j: nat): nat {
    if j == 0 then h else 2 * Doubled(h, j - 1)
  }

  lemma {:induction false} LowBits(d: nat, h: nat, j: nat, k: nat)
    requires k < j
    ensures Bit(d + Doubled(h, j), k) == Bit(d, k)
    decreases k
  {
    if k > 0 {
      assert (d + Doubled(h, j)) / 2 == d / 2 + Doubled(h, j - 1);
      LowBits(d / 2, h, j - 1, k - 1);
    }
  }

  lemma {:induction false} DoubledSum(h: nat, i: nat, j: nat)
    ensures Doubled(h, i + j) == Doubled(Doubled(h, i), j)
    decreases j
  {
    if j > 0 {
      DoubledSum(h, i, j - 1);
    }
  }

  lemma DoubledLimb(h: nat)
    ensures Doubled(h, 32) == LIMB * h
  {
    var h1, h2, h3 := 0x100 * h, 0x1_0000 * h, 0x100_0000 * h;
    DoubledByte(h);
    DoubledByte(h1);
    DoubledByte(h2);
    DoubledByte(h3);
    DoubledSum(h, 8, 8);
    DoubledSum(h, 16, 8);
    DoubledSum(h, 24, 8);
  }

  lemma DoubledByte(h: nat)
    ensures Doubled(h, 8) == 0x100 * h
  {
    assert Doubled(h, 1) == 2 * h;
    assert Doubled(h, 3) == 4 * Doubled(h, 1);
    assert Doubled(h, 5) == 4 * Doubled(h, 3);
    assert Doubled(h, 7) == 4 * Doubled(h, 5);
  }

  lemma {:induction false} LimbPrefix(s: seq<uint32>, i: nat, k: nat)
    requires i <= |s|
    ensures Prefix(Value(s), 32 * i + k) == Prefix(Value(s[i..]), k)
  {
    if i == 0 {
      assert s[0..] == s;
    } else {
      LimbPrefix(s[1..], i - 1, k);
      assert s[1..][i - 1..] == s[i..];
      PrefixSum(Value(s), 32, 32 * (i - 1) + k);
      PrefixLimb(Value(s));
    }
  }

  /** Bit `bit` of the number is bit `bit % 32` of limb `bit / 32`. */
  lemma BitOfLimbs(s: seq<uint32>, bit: nat)
    requires bit < 32 * |s|
    ensures LimbBit(s[bit / 32], bit % 32) <==> Bit(Value(s), bit) == 1
  {
    var i, k := bit / 32, bit % 32;
    LimbPrefix(s, i, k);
    ValueAt(s, i);
    DoubledLimb(Value(s[i + 1..]));
    LowBits(s[i] as nat, Value(s[i + 1..]), 32, k);
  }

  lemma PrefixNone(s: seq<uint32>)
    ensures Prefix(Value(s), 32 * |s|) == 0
  {
    LimbPrefix(s, |s|, 0);
  }
}
