/** Little-endian byte strings as numbers, and their packing into 32-bit limbs. */
module Bytes {
  import opened Words
  import opened Limbs
  import opened Bits

  ghost function BytesValue(s: seq<byte>): nat {
    if s == [] then 0 else s[0] as nat + 0x100 * BytesValue(s[1..])
  }

  /** `(b >> k) & 1`. */
  predicate ByteBit(b: byte, k: nat) {
    Bit(b as nat, k) == 1
  }

  lemma {:induction false} BytesInjective(a: seq<byte>, b: seq<byte>)
    requires |a| == |b| && BytesValue(a) == BytesValue(b)
    ensures a == b
  {
    if a != [] {
      BytesInjective(a[1..], b[1..]);
      assert a == [a[0]] + a[1..];
      assert b == [b[0]] + b[1..];
    }
  }

  lemma {:induction false} BytePrefix(s: seq<byte>, i: nat, k: nat)
    requires i <= |s|
    ensures Prefix(BytesValue(s), 8 * i + k) == Prefix(BytesValue(s[i..]), k)
  {
    if i == 0 {
      assert s[0..] == s;
    } else {
      BytePrefix(s[1..], i - 1, k);
      assert s[1..][i - 1..] == s[i..];
      PrefixSum(BytesValue(s), 8, 8 * (i - 1) + k);
      PrefixByte(BytesValue(s));
    }
  }

  /** Bit `bit` of the number is bit `bit % 8` of byte `bit / 8`. */
  lemma BitOfBytes(s: seq<byte>, bit: nat)
    requires bit < 8 * |s|
    ensures ByteBit(s[bit / 8], bit % 8) <==> Bit(BytesValue(s), bit) == 1
  {
    var i, k := bit / 8, bit % 8;
    BytePrefix(s, i, k);
    assert s[i..][1..] == s[i + 1..];
    DoubledByte(BytesValue(s[i + 1..]));
    LowBits(s[i] as nat, BytesValue(s[i + 1..]), 8, k);
  }

  lemma BytesPrefixNone(s: seq<byte>)
    ensures Prefix(BytesValue(s), 8 * |s|) == 0
  {
    BytePrefix(s, |s|, 0);
  }

  function ByteShift(m: nat): (w: uint32)
    requires m < 4
  {
    if m == 0 then 1 else if m == 1 then 0x100 else if m == 2 then 0x1_0000 else 0x100_0000
  }

  /** The number formed by the first n of the four bytes of a limb. */
  ghost function PartialLimb(s: seq<byte>, n: nat): (v: nat)
    requires n <= 4 && n <= |s|
    ensures v < if n == 4 then LIMB else ByteShift(n) as int
  {
    if n == 0 then 0 else PartialLimb(s, n - 1) + s[n - 1] as nat * ByteShift(n - 1) as nat
  }

  lemma {:induction false} PackedValue(bytes: seq<byte>, limbs: seq<uint32>)
    requires |bytes| == 4 * |limbs|
    requires forall q :: 0 <= q < |limbs| ==> limbs[q] as nat == PartialLimb(bytes[4 * q..], 4)
    ensures Value(limbs) == BytesValue(bytes)
  {
    if limbs != [] {
      assert bytes[0..] == bytes;
      assert limbs[0] as nat == PartialLimb(bytes[4 * 0..], 4);
      FourBytes(bytes);
      forall q | 0 <= q < |limbs[1..]| ensures limbs[1..][q] as nat == PartialLimb(bytes[4..][4 * q..], 4) {
        assert limbs[1..][q] == limbs[q + 1];
        assert bytes[4..][4 * q..] == bytes[4 * (q + 1)..];
      }
      PackedValue(bytes[4..], limbs[1..]);
    }
  }

  lemma FourBytes(s: seq<byte>)
    requires |s| >= 4
    ensures BytesValue(s) == PartialLimb(s, 4) + LIMB * BytesValue(s[4..])
  {
    assert s[1..][1..] == s[2..] && s[2..][1..] == s[3..] && s[3..][1..] == s[4..];
    assert BytesValue(s) == s[0] as nat + 0x100 * BytesValue(s[1..]);
    assert BytesValue(s[1..]) == s[1] as nat + 0x100 * BytesValue(s[2..]);
    assert BytesValue(s[2..]) == s[2] as nat + 0x100 * BytesValue(s[3..]);
    assert BytesValue(s[3..]) == s[3] as nat + 0x100 * BytesValue(s[4..]);
    assert PartialLimb(s, 1) == s[0] as nat;
    assert PartialLimb(s, 3) == PartialLimb(s, 2) + s[2] as nat * 0x1_0000;
  }

  /** Packs 4 * n bytes into n limbs, four bytes a limb. The bytes of one limb occupy disjoint bits, so the
      source's bitwise `|=` is written as the sum it amounts to. */
  method PackLimbs(bytes: seq<byte>) returns (limbs: array<uint32>)
    requires |bytes| == 32
    ensures fresh(limbs) && limbs.Length == 8
    ensures Value(limbs[..]) == BytesValue(bytes)
    ensures limbs[7] / 0x8000_0000 == bytes[31] as uint32 / 0x80
  {
    limbs := new uint32[8](_ => 0);
    for i := 0 to 32
      invariant forall q :: 0 <= q < i / 4 ==> limbs[q] as nat == PartialLimb(bytes[4 * q..], 4)
      invariant i < 32 ==> limbs[i / 4] as nat == PartialLimb(bytes[4 * (i / 4)..], i % 4)
      invariant forall q :: i / 4 < q < 8 ==> limbs[q] == 0
    {
      var q, m := i / 4, i % 4;
      ghost var four := bytes[4 * q..];
      assert bytes[i] == four[m];
      assert PartialLimb(four, m + 1) == PartialLimb(four, m) + bytes[i] as nat * ByteShift(m) as nat;
      limbs[q] := limbs[q] + bytes[i] as uint32 * ByteShift(m);
      assert (i + 1) % 4 == 0 ==> m == 3;
    }
    PackedValue(bytes, limbs[..]);
    assert limbs[7] as nat == PartialLimb(bytes[28..], 3) + bytes[31] as nat * 0x100_0000;
  }
}
