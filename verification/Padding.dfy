/** Message padding of SHA-256 (blocks of 64 bytes, 8-byte length) and SHA-512 (128 and 16), FIPS 180-4
    sections 5.1.1 and 5.1.2. Both sources keep the bit length in a 64-bit integer. */
module Padding {
  import opened Words
  import opened ModArith
  import opened Bits

  const TWO_64: int := 0x1_0000_0000_0000_0000

  predicate IsFormat(block: nat, field: nat) {
    (block == 64 && field == 8) || (block == 128 && field == 16)
  }

  ghost function Zeros(n: nat): (z: seq<byte>)
    ensures |z| == n && forall i :: 0 <= i < n ==> z[i] == 0
  {
    seq(n, _ => 0)
  }

  /** n as k bytes, most significant first; higher digits are dropped. */
  ghost function BigEndian(n: nat, k: nat): (s: seq<byte>)
    ensures |s| == k
  {
    if k == 0 then [] else BigEndian(n / 0x100, k - 1) + [(n % 0x100) as byte]
  }

  ghost function BigEndianValue(s: seq<byte>): nat {
    if s == [] then 0 else 0x100 * BigEndianValue(s[..|s| - 1]) + s[|s| - 1] as nat
  }

  /** The 64-bit length in bits, wrapping around. */
  function BitLength(size: nat): nat {
    size * 8 % TWO_64
  }

  /** The fewest zeros after the 0x80 byte that leave exactly the length field in the last block. */
  ghost function ZeroCount(size: nat, block: nat, field: nat): (k: nat)
    requires IsFormat(block, field)
    ensures k < block && (size + 1 + k) % block == block - field
    ensures forall j: nat {:trigger (size + 1 + j) % block} :: j < k ==> (size + 1 + j) % block != block - field
  {
    (block - field - (size + 1)) % block
  }

  ghost function PadBody(data: seq<byte>, block: nat, field: nat): seq<byte>
    requires IsFormat(block, field)
  {
    data + [0x80] + Zeros(ZeroCount(|data|, block, field))
  }

  ghost function Pad(data: seq<byte>, block: nat, field: nat): seq<byte>
    requires IsFormat(block, field)
  {
    PadBody(data, block, field) + BigEndian(BitLength(|data|), field)
  }

  /** A whole number of blocks, and fewer than two blocks more than the data. */
  lemma PadWholeBlocks(data: seq<byte>, block: nat, field: nat)
    requires IsFormat(block, field)
    ensures |Pad(data, block, field)| % block == 0
    ensures |data| + field < |Pad(data, block, field)| <= |data| + block + field
  {
    var k := ZeroCount(|data|, block, field);
    FillsBlock(|data| + 1 + k, block, field);
  }

  lemma FillsBlock(n: nat, block: nat, field: nat)
    requires IsFormat(block, field) && n % block == block - field
    ensures (n + field) % block == 0
  {
    var q := n / block;
    MulDistributes(q, 1, block);
    DivModUnique(n + field, block, q + 1, 0);
  }

  // Padding can be undone.

  lemma {:induction false} BigEndianRoundTrip(n: nat, k: nat)
    requires Prefix(n, 8 * k) == 0
    ensures BigEndianValue(BigEndian(n, k)) == n
  {
    if k == 0 {
    } else {
      var s := BigEndian(n, k);
      assert s[..|s| - 1] == BigEndian(n / 0x100, k - 1);
      PrefixSum(n, 8, 8 * (k - 1));
      PrefixByte(n);
      BigEndianRoundTrip(n / 0x100, k - 1);
    }
  }

  lemma PrefixOf64Bits(n: nat)
    requires n < TWO_64
    ensures Prefix(n, 64) == 0 && Prefix(n, 128) == 0
  {
    PrefixSum(n, 32, 32);
    PrefixSum(n, 64, 64);
    PrefixLimb(n);
    PrefixLimb(n / LIMB);
    PrefixZero(64);
  }

  lemma PrefixZero(k: nat)
    ensures Prefix(0, k) == 0
  {
  }

  /** Reads the length field back and cuts the padding off. */
  ghost function Unpad(padded: seq<byte>, field: nat): seq<byte>
    requires field <= |padded|
  {
    var size := BigEndianValue(padded[|padded| - field..]) / 8;
    if size <= |padded| then padded[..size] else padded
  }

  lemma TailOf(a: seq<byte>, b: seq<byte>)
    ensures (a + b)[|a|..] == b
  {
  }

  lemma LengthBack(size: nat)
    requires size < 0x2000_0000_0000_0000
    ensures BitLength(size) / 8 == size
  {
  }

  lemma UnpadBody(data: seq<byte>, body: seq<byte>, length: seq<byte>)
    requires |data| <= |body| && body[..|data|] == data
    requires BigEndianValue(length) / 8 == |data|
    ensures Unpad(body + length, |length|) == data
  {
    TailOf(body, length);
    assert (body + length)[..|data|] == body[..|data|];
  }

  lemma UnpadPad(data: seq<byte>, block: nat, field: nat)
    requires IsFormat(block, field) && |data| < 0x2000_0000_0000_0000
    ensures field <= |Pad(data, block, field)|
    ensures Unpad(Pad(data, block, field), field) == data
  {
    var n := BitLength(|data|);
    PrefixOf64Bits(n);
    BigEndianRoundTrip(n, field);
    LengthBack(|data|);
    UnpadBody(data, PadBody(data, block, field), BigEndian(n, field));
  }

  /** Different messages below 2^61 bytes have different paddings. */
  lemma PadInjective(a: seq<byte>, b: seq<byte>, block: nat, field: nat)
    requires IsFormat(block, field)
    requires |a| < 0x2000_0000_0000_0000 && |b| < 0x2000_0000_0000_0000
    requires Pad(a, block, field) == Pad(b, block, field)
    ensures a == b
  {
    UnpadPad(a, block, field);
    UnpadPad(b, block, field);
  }

  // The loops that pad in place.

  /** Appends the low k bytes of n, most significant first, by shifting down to zero. */
  method AppendBigEndian(message: seq<byte>, n: nat, k: nat) returns (r: seq<byte>)
    ensures r == message + BigEndian(n, k)
  {
    r := message;
    ghost var done := 0;
    var shift: int := 8 * k - 8;
    assert r == message + BigEndian(Prefix(n, 8 * k), 0);
    while shift >= 0
      invariant done <= k && shift == 8 * (k - done) - 8
      invariant r == message + BigEndian(Prefix(n, shift + 8), done)
    {
      PrefixSum(n, shift, 8);
      PrefixByte(Prefix(n, shift));
      r := r + [(Prefix(n, shift) % 0x100) as byte];
      shift := shift - 8;
      done := done + 1;
    }
  }

  lemma {:induction false} HighZeros(n: nat, k: nat)
    requires Prefix(n, 8 * k) == 0
    ensures BigEndian(n, k + 8) == Zeros(8) + BigEndian(n, k)
    decreases k
  {
    if k == 0 {
      ZeroDigits(8);
      assert Zeros(8) + [] == Zeros(8);
    } else {
      PrefixSum(n, 8, 8 * (k - 1));
      PrefixByte(n);
      HighZeros(n / 0x100, k - 1);
    }
  }

  lemma {:induction false} ZeroDigits(k: nat)
    ensures BigEndian(0, k) == Zeros(k)
  {
    if k > 0 {
      ZeroDigits(k - 1);
    }
  }

  /** Appends zeros until only the length field is missing from the last block. */
  method FillBlock(start: seq<byte>, block: nat, field: nat) returns (message: seq<byte>)
    requires IsFormat(block, field) && |start| > 0
    ensures message == start + Zeros(ZeroCount(|start| - 1, block, field))
  {
    ghost var k := ZeroCount(|start| - 1, block, field);
    message := start;
    ghost var j := 0;
    while |message| % block != block - field
      invariant 0 <= j <= k && message == start + Zeros(j)
      decreases k - j
    {
      assert (|start| - 1 + 1 + j) % block != block - field;
      message := message + [0x00];
      j := j + 1;
      assert Zeros(j) == Zeros(j - 1) + [0x00];
    }
    assert (|start| - 1 + 1 + j) % block == block - field;
  }

  /** The eight zero bytes SHA-512 puts above the 64-bit length. */
  method AppendHighZeros(start: seq<byte>, field: nat) returns (message: seq<byte>)
    requires field == 8 || field == 16
    ensures message == start + Zeros(field - 8)
  {
    message := start;
    if field == 16 {
      for i := 0 to 8
        invariant message == start + Zeros(i)
      {
        message := message + [0x00];
        assert Zeros(i + 1) == Zeros(i) + [0x00];
      }
    }
  }

  method PadMessage(data: seq<byte>, block: nat, field: nat) returns (message: seq<byte>)
    requires IsFormat(block, field)
    ensures message == Pad(data, block, field)
  {
    var bitLength := BitLength(|data|);
    PrefixOf64Bits(bitLength);
    HighZeros(bitLength, 8);
    message := FillBlock(data + [0x80], block, field);
    ghost var body := message;
    message := AppendHighZeros(message, field);
    message := AppendBigEndian(message, bitLength, 8);
    assert BigEndian(bitLength, field) == Zeros(field - 8) + BigEndian(bitLength, 8);
    Associative(body, Zeros(field - 8), BigEndian(bitLength, 8));
  }

  lemma Associative<T>(a: seq<T>, b: seq<T>, c: seq<T>)
    ensures (a + b) + c == a + (b + c)
  {
  }
}
