/** Signature verification, RFC 8032 section 5.1.7: scalars modulo the group order and the final comparison. */
module Ed25519 {
  import opened Words
  import opened ModArith
  import opened Limbs
  import opened Bits
  import opened Bytes
  import opened Field
  import opened EdwardsLaw
  import opened Curve
  import opened BasePoint
  import Sha2Variants

  const FE_L: Fe := [0x5cf5d3ed, 0x5812631a, 0xa2f79cd6, 0x14def9de, 0x00000000, 0x00000000, 0x00000000, 0x10000000]

  /** The group order, as the number its limbs spell. */
  ghost function GroupOrder(): pos { PositiveValue(FE_L) }

  ghost const L: pos := GroupOrder()

  lemma OrderValue()
    ensures Value(FE_L) == L == 0x1000000000000000000000000000000014def9dea2f79cd65812631a5cf5d3ed
  {
    ValueOfEight(FE_L);
  }

  /** r = (r << 1) | bit. No limb of a number below 2^255 loses a bit. */
  method ShiftIn(r: array<uint32>, bit: uint32)
    requires r.Length == 8 && bit <= 1 && Value(r[..]) < TWO_255
    modifies r
    ensures Value(r[..]) == 2 * old(Value(r[..])) + bit as int
  {
    ghost var was := r[..];
    ghost var total := 2 * Value(was) + bit as int;
    var carry := bit;
    assert was == was[0..];
    for i := 0 to 8
      invariant carry <= 1
      invariant forall k :: i <= k < 8 ==> r[k] == was[k]
      invariant Tail(r[..i], 2 * Value(was[i..]) + carry as int) == total
    {
      ghost var low := r[..i];
      ValueAt(was, i);
      var next := r[i] / 0x8000_0000;
      r[i] := r[i] % 0x8000_0000 * 2 + carry;
      carry := next;
      assert r[..i + 1] == low + [r[i]];
      TailSnoc(low, r[i], 2 * Value(was[i + 1..]) + carry as int);
    }
    assert r[..8] == r[..] && was[8..] == [];
    CarryOut(r[..], carry as int);
  }

  lemma LongDivisionStep(w: nat, k: nat, r: int)
    requires r == Residue(Prefix(w, k + 1), L)
    ensures var n := 2 * r + Bit(w, k);
            Residue(Prefix(w, k), L) == if n >= L then n - L else n
  {
    hide Prime, EdwardsD, GroupOrder;
    var q := Prefix(w, k + 1);
    var n := 2 * r + Bit(w, k);
    PrefixStep(w, k);
    CongResidue(q, L);
    CongAdd(q, r, q, r, L);
    CongAdd(q + q, r + r, Bit(w, k), Bit(w, k), L);
    CongMultiple(n - L, 1, L);
    ResidueReduced(if n >= L then n - L else n, L);
  }

  /** A 512-bit little-endian number modulo L, by binary long division. */
  method ReduceModL(wide: seq<byte>) returns (r: Fe)
    requires |wide| == 64
    ensures Value(r) == Residue(BytesValue(wide), L)
  {
    hide GroupOrder, Tail, Residue;
    OrderValue();
    Constants();
    BytesPrefixNone(wide);
    ResidueReduced(0, L);
    ghost var w := BytesValue(wide);
    var buffer := new uint32[8](_ => 0);
    ValueZero(buffer[..]);
    var bit := 511;
    while bit >= 0
      invariant -1 <= bit <= 511
      invariant Value(buffer[..]) == Residue(Prefix(w, bit + 1), L)
    {
      LongDivisionStep(w, bit, Value(buffer[..]));
      BitOfBytes(wide, bit);
      ShiftIn(buffer, if ByteBit(wide[bit / 8], bit % 8) then 1 else 0);
      var ge := GreaterEqual(buffer[..], FE_L);
      if ge {
        SubRaw(buffer, FE_L);
      }
      bit := bit - 1;
    }
    r := buffer[..];
  }

  /** The standard base point. */
  ghost function Base(): Ext {
    Decoded(BASE_ENCODING)
  }

  method DecodeBase() returns (b: Point)
    ensures Reduced(b) && Coords(b) == Base()
  {
    hide Prime, EdwardsD, GroupOrder, Decodable, Decoded;
    var ok;
    ok, b := Decompress(BASE_ENCODING);
    BaseDecodes();
  }

  /** k = SHA-512(R || A || M) mod L. */
  ghost function Challenge(r: seq<byte>, publicKey: seq<byte>, message: seq<byte>): nat {
    Residue(BytesValue(Sha2Variants.Sha512(r + publicKey + message)), L)
  }

  /** The equation of RFC 8032 section 5.1.7: S is below L, R and A decode, and [S]B and R + [k]A are the same
      projective point, multiples being by recursive double-and-add. */
  ghost predicate Accepts(message: seq<byte>, publicKey: seq<byte>, signature: seq<byte>)
    requires |publicKey| == 32 && |signature| == 64
  {
    var r, s := signature[..32], BytesValue(signature[32..]);
    && s < L
    && Decodable(r)
    && Decodable(publicKey)
    && Balances(s, Decoded(r), Challenge(r, publicKey, message), Decoded(publicKey))
  }

  /** [s]B = R + [k]A. */
  ghost predicate Balances(s: nat, r: Ext, k: nat, a: Ext) {
    SameAffine(Multiple(s, Base(), D), Sum(r, Multiple(k, a, D), D), P)
  }

  /** The whole condition, written out: for a signature of R and S, 32 bytes each: S is below the group order L, and
      for k = SHA-512(R || A || M) modulo L the points [S]B and R + [k]A have the same affine coordinates. */
  lemma AcceptsMeans(message: seq<byte>, publicKey: seq<byte>, r: seq<byte>, s: seq<byte>)
    requires |publicKey| == 32 && |r| == 32 && |s| == 32
    ensures Accepts(message, publicKey, r + s)
            <==> && BytesValue(s) < L && Decodable(r) && Decodable(publicKey)
                 && var k := Residue(BytesValue(Sha2Variants.Sha512(r + (publicKey + message))), L);
                    var left := Multiple(BytesValue(s), Decoded(BASE_ENCODING), D);
                    var right := Sum(Decoded(r), Multiple(k, Decoded(publicKey), D), D);
                    Cong(left.x * right.z, right.x * left.z, P) && Cong(left.y * right.z, right.y * left.z, P)
  {
    hide Prime, EdwardsD, GroupOrder, Residue, Sum, Multiple, Decoded, Decodable, Cong, BytesValue;
    assert (r + s)[..32] == r && (r + s)[32..] == s;
    assert r + (publicKey + message) == r + publicKey + message;
  }

  method Verify(message: seq<byte>, publicKey: seq<byte>, signature: seq<byte>) returns (ok: bool)
    requires |publicKey| == 32 && |signature| == 64
    ensures ok <==> Accepts(message, publicKey, signature)
  {
    hide Prime, EdwardsD, Residue, Sum, Multiple, Decoded, Decodable, Decodes, Base;
    OrderValue();
    var rEncoded := signature[..32];
    var limbs := PackLimbs(signature[32..]);
    var s := limbs[..];
    var large := GreaterEqual(s, FE_L);
    if large {
      return false;
    }
    var okR, rPoint := Decompress(rEncoded);
    if !okR {
      return false;
    }
    var okA, aPoint := Decompress(publicKey);
    if !okA {
      return false;
    }
    var digest := Sha2Variants.HashSha512(rEncoded + publicKey + message);
    var k := ReduceModL(digest);
    var base := DecodeBase();
    var left := ScalarMul(s, base);
    var ka := ScalarMul(k, aPoint);
    var right := PointAdd(rPoint, ka);
    ok := PointEqual(left, right);
    SameVerdict(Coords(left), Multiple(Value(s), Base(), D), Coords(right), Coords(rPoint), Coords(ka),
                Multiple(Value(k), Coords(aPoint), D));
  }

  lemma SameVerdict(left: Ext, left': Ext, right: Ext, r: Ext, ka: Ext, ka': Ext)
    requires Similar(left, left', P) && CongExt(right, Sum(r, ka, D), P) && Similar(ka, ka', P)
    ensures SameAffine(left, right, P) <==> SameAffine(left', Sum(r, ka', D), P)
  {
    hide Prime, EdwardsD, GroupOrder;
    SimilarReflexive(r, P);
    SimilarSum(r, r, ka, ka', D, P);
    SimilarOfCong(right, Sum(r, ka, D), Sum(r, ka', D));
    if SameAffine(left', Sum(r, ka', D), P) {
      SameAffineRespects(left, left', right, Sum(r, ka', D), P);
    }
    if SameAffine(left, right, P) {
      SimilarSymmetric(left, left', P);
      SimilarSymmetric(right, Sum(r, ka', D), P);
      SameAffineRespects(left', left, Sum(r, ka', D), right, P);
    }
  }
}
