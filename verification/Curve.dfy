/** Points of edwards25519 in extended coordinates: addition, the scalar ladder, comparison and decompression. */
module Curve {
  import opened Words
  import opened ModArith
  import opened Limbs
  import opened Bits
  import opened Bytes
  import opened Field
  import opened EdwardsLaw

  const FE_D: Fe :=
    [0x135978a3, 0x75eb4dca, 0x4141d8ab, 0x00700a4d, 0x7779e898, 0x8cc74079, 0x2b6ffe73, 0x52036cee]

  /** The curve constant d = -121665 / 121666, as the number its limbs spell. */
  ghost function EdwardsD(): int { Value(FE_D) }

  ghost const D: int := EdwardsD()

  const FE_SQRT_MINUS_ONE: Fe :=
    [0x4a0ea0b0, 0xc4ee1b27, 0xad2fe478, 0x2f431806, 0x3dfbd7a7, 0x2b4d0099, 0x4fc1df0b, 0x2b832480]
  ghost const SQRT_MINUS_ONE: int := Value(FE_SQRT_MINUS_ONE)
  const FE_P_MINUS_5_OVER_8: Fe :=
    [0xfffffffd, 0xffffffff, 0xffffffff, 0xffffffff, 0xffffffff, 0xffffffff, 0xffffffff, 0x0fffffff]

  /** d is the quotient it is named for. */
  lemma CurveConstant()
    ensures Cong(D * 121666, -121665, P)
  {
    Constants();
    ValueOfEight(FE_D);
    assert D * 121666 == 0x13083 * P - 121665;
    CongMultiple(-121665, 0x13083, P);
  }

  lemma RootExponent()
    ensures 8 * Value(FE_P_MINUS_5_OVER_8) == P - 5
  {
    Constants();
    ValueOfEight(FE_P_MINUS_5_OVER_8);
  }

  lemma SquareIsMinusOne()
    ensures Cong(SQRT_MINUS_ONE * SQRT_MINUS_ONE, -1, P)
  {
    Constants();
    ValueOfEight(FE_SQRT_MINUS_ONE);
    assert SQRT_MINUS_ONE * SQRT_MINUS_ONE == 0xecaa2e2f6a2302ccedb31ac05720688238ced2078f3eb0ec9f22e8f621972e5 * P - 1;
    CongMultiple(-1, 0xecaa2e2f6a2302ccedb31ac05720688238ced2078f3eb0ec9f22e8f621972e5, P);
  }

  datatype Point = Point(x: Fe, y: Fe, z: Fe, t: Fe)

  const NO_POINT := Point(FE_ZERO, FE_ZERO, FE_ZERO, FE_ZERO)
  const IDENTITY := Point(FE_ZERO, FE_ONE, FE_ONE, FE_ZERO)

  ghost function Coords(p: Point): Ext {
    Ext(Value(p.x), Value(p.y), Value(p.z), Value(p.t))
  }

  ghost predicate Reduced(p: Point) {
    Value(p.x) < P && Value(p.y) < P && Value(p.z) < P && Value(p.t) < P
  }

  /** Points that are congruent and reduced are the same limbs. */
  lemma ReducedUnique(p: Point, q: Point)
    requires Reduced(p) && Reduced(q) && CongExt(Coords(p), Coords(q), P)
    ensures p == q
  {
    hide Prime, EdwardsD;
    ResidueReduced(Value(p.x), P);
    ResidueReduced(Value(q.x), P);
    ResidueReduced(Value(p.y), P);
    ResidueReduced(Value(q.y), P);
    ResidueReduced(Value(p.z), P);
    ResidueReduced(Value(q.z), P);
    ResidueReduced(Value(p.t), P);
    ResidueReduced(Value(q.t), P);
    ValueInjective(p.x, q.x);
    ValueInjective(p.y, q.y);
    ValueInjective(p.z, q.z);
    ValueInjective(p.t, q.t);
  }

  // Field operations read as congruences.

  method AddMod(a: Fe, b: Fe) returns (r: Fe)
    ensures Value(r) < P && Cong(Value(r), Value(a) + Value(b), P)
  {
    r := Add(a, b);
    CongResidue(Value(a) + Value(b), P);
  }

  method SubMod(a: Fe, b: Fe) returns (r: Fe)
    requires Value(a) < P && Value(b) < P
    ensures Value(r) < P && Cong(Value(r), Value(a) - Value(b), P)
  {
    hide Prime, EdwardsD;
    r := Sub(a, b);
    CongMultiple(Value(a) - Value(b), 1, P);
  }

  method MulMod(a: Fe, b: Fe) returns (r: Fe)
    ensures Value(r) < P && Cong(Value(r), Value(a) * Value(b), P)
  {
    r := Mul(a, b);
    CongResidue(Value(a) * Value(b), P);
  }

  /** The four products of the addition formulas. */
  method AddProducts(p: Point, q: Point) returns (a: Fe, b: Fe, c: Fe, d: Fe)
    requires Reduced(p) && Reduced(q)
    ensures Value(a) < P && Value(b) < P && Value(c) < P && Value(d) < P
    ensures Cong(Value(a), (Value(p.y) - Value(p.x)) * (Value(q.y) - Value(q.x)), P)
    ensures Cong(Value(b), (Value(p.y) + Value(p.x)) * (Value(q.y) + Value(q.x)), P)
    ensures Cong(Value(c), Value(p.t) * 2 * D * Value(q.t), P)
    ensures Cong(Value(d), Value(p.z) * 2 * Value(q.z), P)
  {
    hide Prime, EdwardsD;
    a := ProductOfDifferences(p, q);
    b := ProductOfSums(p, q);
    c := ProductOfT(p, q);
    var zz := MulMod(p.z, q.z);
    d := AddMod(zz, zz);
    CongAdd(Value(zz), Value(p.z) * Value(q.z), Value(zz), Value(p.z) * Value(q.z), P);
    Twice(Value(p.z), 1, Value(q.z));
  }

  method ProductOfDifferences(p: Point, q: Point) returns (a: Fe)
    requires Reduced(p) && Reduced(q)
    ensures Value(a) < P && Cong(Value(a), (Value(p.y) - Value(p.x)) * (Value(q.y) - Value(q.x)), P)
  {
    hide Prime, EdwardsD;
    var l := SubMod(p.y, p.x);
    var r := SubMod(q.y, q.x);
    a := MulMod(l, r);
    CongMul(Value(l), Value(p.y) - Value(p.x), Value(r), Value(q.y) - Value(q.x), P);
  }

  method ProductOfSums(p: Point, q: Point) returns (b: Fe)
    requires Reduced(p) && Reduced(q)
    ensures Value(b) < P && Cong(Value(b), (Value(p.y) + Value(p.x)) * (Value(q.y) + Value(q.x)), P)
  {
    hide Prime, EdwardsD;
    var l := AddMod(p.y, p.x);
    var r := AddMod(q.y, q.x);
    b := MulMod(l, r);
    CongMul(Value(l), Value(p.y) + Value(p.x), Value(r), Value(q.y) + Value(q.x), P);
  }

  method ProductOfT(p: Point, q: Point) returns (c: Fe)
    requires Reduced(p) && Reduced(q)
    ensures Value(c) < P && Cong(Value(c), Value(p.t) * 2 * D * Value(q.t), P)
  {
    hide Prime;
    c := DoubledProduct(FE_D, p.t, q.t);
  }

  method DoubledProduct(d: Fe, a: Fe, b: Fe) returns (c: Fe)
    ensures Value(c) < P && Cong(Value(c), Value(a) * 2 * Value(d) * Value(b), P)
  {
    hide Prime, EdwardsD;
    var twoD := AddMod(d, d);
    var l := MulMod(a, twoD);
    c := MulMod(l, b);
    CongMul(Value(a), Value(a), Value(twoD), 2 * Value(d), P);
    CongMul(Value(l), Value(a) * (2 * Value(d)), Value(b), Value(b), P);
    MulAssociates(Value(a), 2, Value(d));
  }

  method CombineProducts(a: Fe, b: Fe, c: Fe, d: Fe) returns (r: Point)
    requires Value(a) < P && Value(b) < P && Value(c) < P && Value(d) < P
    ensures Reduced(r) && CongExt(Coords(r), Combine(Value(a), Value(b), Value(c), Value(d)), P)
  {
    hide Prime, EdwardsD;
    var e := SubMod(b, a);
    var f := SubMod(d, c);
    var g := AddMod(d, c);
    var h := AddMod(b, a);
    var x := MulMod(e, f);
    var y := MulMod(g, h);
    var t := MulMod(e, h);
    var z := MulMod(f, g);
    r := Point(x, y, z, t);
    CongMul(Value(e), Value(b) - Value(a), Value(f), Value(d) - Value(c), P);
    CongMul(Value(g), Value(d) + Value(c), Value(h), Value(b) + Value(a), P);
    CongMul(Value(e), Value(b) - Value(a), Value(h), Value(b) + Value(a), P);
    CongMul(Value(f), Value(d) - Value(c), Value(g), Value(d) + Value(c), P);
  }

  /** Unified addition, for distinct points and for doubling alike. */
  method PointAdd(p: Point, q: Point) returns (r: Point)
    requires Reduced(p) && Reduced(q)
    ensures Reduced(r) && CongExt(Coords(r), Sum(Coords(p), Coords(q), D), P)
  {
    hide Prime, EdwardsD;
    var a, b, c, d := AddProducts(p, q);
    r := CombineProducts(a, b, c, d);
    CongCombine(Value(a), Value(b), Value(c), Value(d),
                (Value(p.y) - Value(p.x)) * (Value(q.y) - Value(q.x)),
                (Value(p.y) + Value(p.x)) * (Value(q.y) + Value(q.x)),
                Value(p.t) * 2 * D * Value(q.t), Value(p.z) * 2 * Value(q.z), P);
  }

  /** The multiple of p by the ladder over the 256 bits of the scalar, most significant first. */
  method ScalarMul(scalar: Fe, p: Point) returns (result: Point)
    requires Reduced(p)
    ensures Reduced(result) && Similar(Coords(result), Multiple(Value(scalar), Coords(p), D), P)
    ensures OnCurve(Coords(p), D, P) ==> OnCurve(Coords(result), D, P)
  {
    hide Prime, EdwardsD, Residue, Sum, OnCurve;
    Constants();
    PrefixNone(scalar);
    ghost var n, p' := Value(scalar), Coords(p);
    result := IDENTITY;
    SimilarReflexive(NEUTRAL, P);
    NeutralOnCurve(D, P);
    var bit := 255;
    while bit >= 0
      invariant -1 <= bit <= 255
      invariant Reduced(result) && Similar(Coords(result), Multiple(Prefix(n, bit + 1), p', D), P)
      invariant OnCurve(p', D, P) ==> OnCurve(Coords(result), D, P)
    {
      ghost var r := Coords(result);
      LadderStep(r, n, bit, p', D, P);
      BitOfLimbs(scalar, bit);
      result := PointAdd(result, result);
      ghost var twice := Coords(result);
      SimilarOfCong(twice, Sum(r, r, D), Multiple(Prefix(n, bit), p', D));
      KeepsCurve(r, r, twice);
      if LimbBit(scalar[bit / 32], bit % 32) {
        result := PointAdd(result, p);
        CongSum(twice, Sum(r, r, D), p', p', D, P);
        SimilarOfCong(Coords(result), Sum(Sum(r, r, D), p', D), Multiple(Prefix(n, bit), p', D));
        KeepsCurve(twice, p', Coords(result));
      }
      bit := bit - 1;
    }
  }

  lemma SimilarOfCong(r: Ext, s: Ext, t: Ext)
    requires CongExt(r, s, P)
    ensures Similar(s, t, P) ==> Similar(r, t, P)
  {
    hide Prime, EdwardsD;
    if Similar(s, t, P) {
      var k :| Unit(k, P) && CongExt(s, Scale(k, t), P);
      SimilarWith(k, r, t, P);
    }
  }

  lemma OnCurveOfCong(r: Ext, s: Ext, d: int, m: pos)
    requires CongExt(r, s, m) && OnCurve(s, d, m)
    ensures OnCurve(r, d, m)
  {
    CongMul(r.x, s.x, r.y, s.y, m);
    CongMul(r.z, s.z, r.t, s.t, m);
    CongMul(r.x, s.x, r.x, s.x, m);
    CongMul(r.y, s.y, r.y, s.y, m);
    CongMul(r.z, s.z, r.z, s.z, m);
    CongMul(r.t, s.t, r.t, s.t, m);
    CongMul(d, d, r.t * r.t, s.t * s.t, m);
    CongAdd(r.y * r.y, s.y * s.y, r.x * r.x, s.x * s.x, m);
    CongAdd(r.z * r.z, s.z * s.z, d * (r.t * r.t), d * (s.t * s.t), m);
  }

  lemma KeepsCurve(p: Ext, q: Ext, r: Ext)
    requires CongExt(r, Sum(p, q, D), P)
    ensures OnCurve(p, D, P) && OnCurve(q, D, P) ==> OnCurve(r, D, P)
  {
    hide Prime, EdwardsD;
    if OnCurve(p, D, P) && OnCurve(q, D, P) {
      SumOnCurve(p, q, D, P);
      OnCurveOfCong(r, Sum(p, q, D), D, P);
    }
  }

  /** Equality of X/Z and of Y/Z, by cross multiplication. */
  ghost predicate SameAffine(p: Ext, q: Ext, m: pos)
  {
    Cong(p.x * q.z, q.x * p.z, m) && Cong(p.y * q.z, q.y * p.z, m)
  }

  method PointEqual(p: Point, q: Point) returns (eq: bool)
    ensures eq <==> SameAffine(Coords(p), Coords(q), P)
  {
    hide Prime, EdwardsD;
    var x1 := MulMod(p.x, q.z);
    var x2 := MulMod(q.x, p.z);
    var y1 := MulMod(p.y, q.z);
    var y2 := MulMod(q.y, p.z);
    var dx := Sub(x1, x2);
    var dy := Sub(y1, y2);
    var zx := IsZero(dx);
    var zy := IsZero(dy);
    EqualIffCong(Value(x1), Value(p.x) * Value(q.z), Value(x2), Value(q.x) * Value(p.z));
    EqualIffCong(Value(y1), Value(p.y) * Value(q.z), Value(y2), Value(q.y) * Value(p.z));
    eq := zx && zy;
  }

  lemma EqualIffCong(r: int, x: int, s: int, y: int)
    requires 0 <= r < P && 0 <= s < P && Cong(r, x, P) && Cong(s, y, P)
    ensures r == s <==> Cong(x, y, P)
  {
    hide Prime, EdwardsD;
    ResidueReduced(r, P);
    ResidueReduced(s, P);
  }

  /** The comparison does not depend on the representatives of the two projective points. */
  lemma SameAffineRespects(p: Ext, p': Ext, q: Ext, q': Ext, m: pos)
    requires Similar(p, p', m) && Similar(q, q', m) && SameAffine(p', q', m)
    ensures SameAffine(p, q, m)
  {
    var k :| Unit(k, m) && CongExt(p, Scale(k, p'), m);
    var l :| Unit(l, m) && CongExt(q, Scale(l, q'), m);
    CrossScaled(p.x, p'.x, k, q.z, q'.z, l, m);
    CrossScaled(q.x, q'.x, l, p.z, p'.z, k, m);
    CrossScaled(p.y, p'.y, k, q.z, q'.z, l, m);
    CrossScaled(q.y, q'.y, l, p.z, p'.z, k, m);
    Commute(k, l);
    CongMul(k * l, k * l, p'.x * q'.z, q'.x * p'.z, m);
    CongMul(k * l, k * l, p'.y * q'.z, q'.y * p'.z, m);
  }

  lemma CrossScaled(a: int, a': int, k: int, b: int, b': int, l: int, m: pos)
    requires Cong(a, k * a', m) && Cong(b, l * b', m)
    ensures Cong(a * b, (k * l) * (a' * b'), m)
  {
    CongMul(a, k * a', b, l * b', m);
    SwapFactors(k, a', l, b');
  }

  /** Two reduced results of the same sum, whichever operand came first, are the same limbs. */
  lemma PointAddCommutes(p: Point, q: Point, r: Point, r': Point)
    requires Reduced(r) && CongExt(Coords(r), Sum(Coords(p), Coords(q), D), P)
    requires Reduced(r') && CongExt(Coords(r'), Sum(Coords(q), Coords(p), D), P)
    ensures r == r'
  {
    hide Prime, EdwardsD;
    SumCommutes(Coords(p), Coords(q), D);
    ReducedUnique(r, r');
  }

  // Decompression, RFC 8032 section 5.1.3.

  const TWO_255: int := 0x8000000000000000000000000000000000000000000000000000000000000000

  ghost function CurveU(y: int): int { y * y - 1 }
  ghost function CurveV(y: int): int { D * (y * y) + 1 }

  /** The candidate square root u v^3 (u v^7)^((p-5)/8). */
  ghost function Candidate(y: int): int {
    var u, v := CurveU(y), CurveV(y);
    var v3 := v * v * v;
    (u * v3) * Power(u * (v3 * v3 * v), Value(FE_P_MINUS_5_OVER_8))
  }

  /** The candidate, or the candidate times a square root of -1, is a root of x^2 = u / v. */
  ghost predicate RootFound(y: int) {
    var c := Candidate(y);
    || Cong(CurveV(y) * (c * c), CurveU(y), P)
    || Cong(CurveV(y) * (c * c), -CurveU(y), P)
  }

  /** The root of u / v: the candidate itself, or times the root of -1. */
  ghost function Root(y: int): int {
    var c := Candidate(y);
    if Cong(CurveV(y) * (c * c), CurveU(y), P) then Residue(c, P) else Residue(c * SQRT_MINUS_ONE, P)
  }

  ghost predicate IsRoot(x: int, y: int) {
    Cong(CurveV(y) * (x * x), CurveU(y), P)
  }

  /** The affine curve equation -x^2 + y^2 = 1 + d x^2 y^2. */
  ghost predicate AffineCurve(x: int, y: int) {
    Cong(y * y - x * x, 1 + D * ((x * y) * (x * y)), P)
  }

  lemma RootIsOnCurve(x: int, y: int)
    requires IsRoot(x, y)
    ensures AffineCurve(x, y)
  {
    hide Prime, EdwardsD;
    var xx, yy := x * x, y * y;
    MulDistributes(D * yy, 1, xx);
    SwapFactors(x, y, x, y);
    MulAssociates(D, yy, xx);
    Commute(xx, yy);
    var dxy := D * ((x * y) * (x * y));
    assert CurveV(y) * xx == dxy + xx;
    CongAdd(dxy + xx, yy - 1, xx - 1, xx - 1, P);
  }

  lemma AffineIsExtended(x: int, y: int, t: int)
    requires AffineCurve(x, y) && Cong(t, x * y, P)
    ensures OnCurve(Ext(x, y, 1, t), D, P)
  {
    hide Prime, EdwardsD;
    CongMul(t, x * y, t, x * y, P);
    CongMul(D, D, t * t, (x * y) * (x * y), P);
    CongAdd(1, 1, D * (t * t), D * ((x * y) * (x * y)), P);
  }

  /** What a decoded point is: reduced affine coordinates on the curve whose re-encoding, y with the parity of x
      in the top bit, is the byte string it came from. */
  ghost predicate Decodes(encoded: seq<byte>, p: Point) {
    && Reduced(p)
    && p.z == FE_ONE
    && AffineCurve(Value(p.x), Value(p.y))
    && Value(p.t) == Residue(Value(p.x) * Value(p.y), P)
    && BytesValue(encoded) == Value(p.y) + TWO_255 * (Value(p.x) % 2)
  }

  lemma DecodedOnCurve(encoded: seq<byte>, p: Point)
    requires Decodes(encoded, p)
    ensures OnCurve(Coords(p), D, P) && Unit(Coords(p).z, P)
  {
    hide Prime, EdwardsD;
    Constants();
    CongResidue(Value(p.x) * Value(p.y), P);
    AffineIsExtended(Value(p.x), Value(p.y), Value(p.t));
    assert Inverse(1, 1, P);
  }

  /** A point has one encoding. */
  lemma EncodingUnique(a: seq<byte>, b: seq<byte>, p: Point)
    requires |a| == |b| && Decodes(a, p) && Decodes(b, p)
    ensures a == b
  {
    hide Prime, EdwardsD;
    BytesInjective(a, b);
  }

  // The steps of the decompression.

  method UAndV(y: Fe) returns (u: Fe, v: Fe)
    ensures Value(u) < P && Value(v) < P
    ensures Cong(Value(u), CurveU(Value(y)), P) && Cong(Value(v), CurveV(Value(y)), P)
  {
    u, v := UAndVFor(FE_D, y);
  }

  method UAndVFor(d: Fe, y: Fe) returns (u: Fe, v: Fe)
    ensures Value(u) < P && Cong(Value(u), Value(y) * Value(y) - 1, P)
    ensures Value(v) < P && Cong(Value(v), Value(d) * (Value(y) * Value(y)) + 1, P)
  {
    hide Prime, EdwardsD;
    Constants();
    var squared := MulMod(y, y);
    u := SubMod(squared, FE_ONE);
    var dyy := MulMod(d, squared);
    v := AddMod(dyy, FE_ONE);
    CongAdd(Value(squared), Value(y) * Value(y), 1, 1, P);
    CongMul(Value(d), Value(d), Value(squared), Value(y) * Value(y), P);
    CongAdd(Value(dyy), Value(d) * (Value(y) * Value(y)), 1, 1, P);
  }

  method CandidateRoot(y: Fe, u: Fe, v: Fe) returns (x: Fe)
    requires Cong(Value(u), CurveU(Value(y)), P) && Cong(Value(v), CurveV(Value(y)), P)
    ensures Value(x) < P && Cong(Value(x), Candidate(Value(y)), P)
  {
    hide Prime, EdwardsD;
    ghost var u', v' := CurveU(Value(y)), CurveV(Value(y));
    ghost var v3', e := v' * v' * v', Value(FE_P_MINUS_5_OVER_8);
    var v2 := MulMod(v, v);
    var v3 := MulMod(v2, v);
    CongMul(Value(v), v', Value(v), v', P);
    CongMul(Value(v2), v' * v', Value(v), v', P);
    var v6 := MulMod(v3, v3);
    var v7 := MulMod(v6, v);
    CongMul(Value(v3), v3', Value(v3), v3', P);
    CongMul(Value(v6), v3' * v3', Value(v), v', P);
    var uv3 := MulMod(u, v3);
    CongMul(Value(u), u', Value(v3), v3', P);
    var uv7 := MulMod(u, v7);
    CongMul(Value(u), u', Value(v7), v3' * v3' * v', P);
    var w := Pow(uv7, FE_P_MINUS_5_OVER_8);
    PowerCong(Value(uv7), u' * (v3' * v3' * v'), e, P);
    CongResidue(Power(Value(uv7), e), P);
    x := MulMod(uv3, w);
    CongMul(Value(uv3), u' * v3', Value(w), Power(u' * (v3' * v3' * v'), e), P);
  }

  /** v * x^2. */
  method TimesSquare(v: Fe, x: Fe) returns (r: Fe)
    ensures Value(r) < P && Cong(Value(r), Value(v) * (Value(x) * Value(x)), P)
  {
    var xx := MulMod(x, x);
    r := MulMod(v, xx);
    CongMul(Value(v), Value(v), Value(xx), Value(x) * Value(x), P);
  }

  method IsCong(a: Fe, b: Fe) returns (eq: bool)
    requires Value(a) < P && Value(b) < P
    ensures eq <==> Value(a) == Value(b)
  {
    hide Prime, EdwardsD;
    var difference := Sub(a, b);
    eq := IsZero(difference);
  }

  /** The test that v x^2 = -u. Its first half compares v x^2 with u again, since adding p - u subtracts u; after
      the failed comparison only the second half can hold. With u = 0 the subtrahend is p itself, not reduced. */
  method IsNegative(vxx: Fe, u: Fe) returns (neg: bool)
    requires Value(vxx) < P && Value(u) < P && Value(vxx) != Value(u)
    ensures neg <==> Cong(Value(vxx), 0 - Value(u), P)
  {
    hide Prime, EdwardsD;
    Constants();
    var minusU := Sub(FE_P, u);
    var added := Add(vxx, minusU);
    var zero := IsZero(added);
    DifferenceNotZero(Value(vxx), Value(u));
    NegativeCong(Value(vxx), Value(u));
    var difference := Sub(vxx, minusU);
    neg := IsZero(difference);
    neg := zero || neg;
  }

  lemma DifferenceNotZero(a: int, b: int)
    requires 0 <= a < P && 0 <= b < P && a != b
    ensures Residue(a + (P - b), P) != 0
  {
    hide Prime, EdwardsD;
    CongMultiple(a - b, 1, P);
    ResidueReduced(if a > b then a - b else a - b + P, P);
  }

  lemma NegativeCong(a: int, u: int)
    requires 0 <= a < P && 0 <= u < P && a != u
    ensures Cong(a, -u, P) <==> a == P - u
  {
    hide Prime, EdwardsD;
    CongMultiple(-u, 1, P);
    ResidueReduced(a, P);
    ResidueReduced(0, P);
    if u > 0 {
      ResidueReduced(P - u, P);
    }
  }

  /** Does x square to u / v? */
  method SquaresTo(v: Fe, x: Fe, u: Fe, ghost y: int, ghost x': int) returns (yes: bool, vxx: Fe)
    requires Value(u) < P && Cong(Value(u), CurveU(y), P) && Cong(Value(v), CurveV(y), P) && Cong(Value(x), x', P)
    ensures yes <==> IsRoot(x', y)
    ensures Value(vxx) < P && Cong(Value(vxx), CurveV(y) * (x' * x'), P)
    ensures yes <==> Value(vxx) == Value(u)
  {
    hide Prime, EdwardsD;
    vxx := TimesSquare(v, x);
    SquareCong(Value(v), CurveV(y), Value(x), x');
    yes := IsCong(vxx, u);
    EqualIffCong(Value(vxx), CurveV(y) * (x' * x'), Value(u), CurveU(y));
  }

  /** The square root of u / v that the code settles on, or failure. */
  method FindRoot(y: Fe, u: Fe, v: Fe) returns (ok: bool, x: Fe)
    requires Value(u) < P && Value(v) < P
    requires Cong(Value(u), CurveU(Value(y)), P) && Cong(Value(v), CurveV(Value(y)), P)
    ensures ok <==> RootFound(Value(y))
    ensures Value(x) < P && (ok ==> IsRoot(Value(x), Value(y)))
    ensures ok ==> Value(x) == Root(Value(y))
  {
    hide Prime, EdwardsD;
    x := CandidateRoot(y, u, v);
    ghost var n := Value(y);
    ghost var c := Candidate(n);
    var first, vxx := SquaresTo(v, x, u, n, c);
    if !first {
      var second := IsNegative(vxx, u);
      CongAdd(0, 0, Value(u), CurveU(n), P);
      if !second {
        return false, x;
      }
      x := TimesRootOfMinusOne(x, c);
      RootOfMinusOne(Value(x), c, CurveV(n), CurveU(n));
    }
    var vxx';
    ok, vxx' := SquaresTo(v, x, u, n, Value(x));
    if first {
      SquareCong(CurveV(n), CurveV(n), Value(x), c);
      ResidueReduced(Value(x), P);
    } else {
      ResidueReduced(Value(x), P);
    }
  }

  method TimesRootOfMinusOne(x: Fe, ghost c: int) returns (r: Fe)
    requires Cong(Value(x), c, P)
    ensures Value(r) < P && Cong(Value(r), c * SQRT_MINUS_ONE, P)
  {
    r := MulMod(x, FE_SQRT_MINUS_ONE);
    CongMul(Value(x), c, SQRT_MINUS_ONE, SQRT_MINUS_ONE, P);
  }

  lemma SquareCong(v: int, v': int, x: int, x': int)
    requires Cong(v, v', P) && Cong(x, x', P)
    ensures Cong(v * (x * x), v' * (x' * x'), P)
  {
    CongMul(x, x', x, x', P);
    CongMul(v, v', x * x, x' * x', P);
  }

  /** If v c^2 = -u then c times the root of -1 squares to u / v, so the final re-check never fails. */
  lemma RootOfMinusOne(x: int, c: int, v: int, u: int)
    requires Cong(x, c * SQRT_MINUS_ONE, P) && Cong(v * (c * c), 0 - u, P)
    ensures Cong(v * (x * x), u, P)
  {
    hide Prime, EdwardsD;
    var i := SQRT_MINUS_ONE;
    SquareIsMinusOne();
    SquareCong(v, v, x, c * i);
    SwapFactors(c, i, c, i);
    CongMul(v * (c * c), 0 - u, i * i, -1, P);
    MulAssociates(v, c * c, i * i);
  }

  /** The least significant bit of a limb sequence is its parity. */
  lemma Parity(x: Fe)
    ensures Value(x) % 2 == x[0] as int % 2
  {
    assert x == x[0..];
    ValueAt(x, 0);
  }

  lemma OddFlip(x: int)
    ensures (P - x) % 2 == 1 - x % 2
  {
    DivModUnique(P - x, 2, (P - 1) / 2 - x / 2, 1 - x % 2);
  }

  /** x with the requested parity: x or p - x, p being odd. */
  method WithParity(x: Fe, sign: uint32) returns (r: Fe)
    requires Value(x) < P && sign <= 1 && (Value(x) == 0 ==> sign == 0)
    ensures Value(r) < P && Value(r) % 2 == sign as int
    ensures Value(r) == if Value(x) % 2 == sign as int then Value(x) else P - Value(x)
  {
    Constants();
    Parity(x);
    OddFlip(Value(x));
    r := x;
    if x[0] % 2 != sign {
      r := Sub(FE_P, x);
    }
  }

  lemma NegatedRoot(x: int, y: int)
    requires IsRoot(x, y)
    ensures IsRoot(P - x, y)
  {
    hide Prime, EdwardsD;
    CongMultiple(-x, 1, P);
    SquareCong(CurveV(y), CurveV(y), P - x, -x);
    Signs(x, -x);
    Signs(x, x);
  }

  /** The coordinate y and the sign bit of an encoding. */
  method SplitEncoding(encoded: seq<byte>) returns (y: Fe, sign: uint32)
    requires |encoded| == 32
    ensures sign <= 1 && Value(y) < TWO_255
    ensures BytesValue(encoded) == Value(y) + TWO_255 * sign as int
  {
    var limbs := PackLimbs(encoded);
    ghost var full := limbs[..];
    sign := encoded[31] as uint32 / 0x80;
    limbs[7] := limbs[7] % 0x8000_0000;
    y := limbs[..];
    ValueOfEight(full);
    ValueOfEight(y);
  }

  /** x is zero exactly when y^2 = 1. */
  lemma ZeroRoot(x: int, y: int)
    requires 0 <= x < P && IsRoot(x, y) && x == Root(y)
    ensures x == 0 <==> Cong(y * y, 1, P)
  {
    hide Prime, EdwardsD;
    ResidueReduced(0, P);
    if x == 0 {
      CongAdd(0, CurveU(y), 1, 1, P);
    }
    if Cong(y * y, 1, P) {
      CongResidue(Candidate(y), P);
      CongResidue(Candidate(y) * SQRT_MINUS_ONE, P);
      CongAdd(y * y, 1, 1, 1, P);
      var v3 := CurveV(y) * CurveV(y) * CurveV(y);
      var w := Power(CurveU(y) * (v3 * v3 * CurveV(y)), Value(FE_P_MINUS_5_OVER_8));
      CongMul(CurveU(y), 0, v3, v3, P);
      CongMul(CurveU(y) * v3, 0, w, w, P);
      CongMul(Candidate(y), 0, SQRT_MINUS_ONE, SQRT_MINUS_ONE, P);
      ResidueReduced(x, P);
    }
  }

  /** An encoding is refused when y is not below p, when the candidate is no root, or when x is 0 (y is 1 or -1)
      and the sign bit is set. */
  ghost predicate Decodable(encoded: seq<byte>)
    requires |encoded| == 32
  {
    var n := BytesValue(encoded);
    var y, sign := n % TWO_255, n / TWO_255;
    y < P && RootFound(y) && !(Cong(y * y, 1, P) && sign == 1)
  }

  /** With v c^2 = u (u v^7)^((p-1)/4) the candidate drops out: an encoding decodes exactly when y is below p, u times
      that power is u or -u, for u = y^2 - 1 and v = d y^2 + 1, and not y^2 = 1 with the sign bit set. */
  lemma DecodableMeans(encoded: seq<byte>)
    requires |encoded| == 32
    ensures var n := BytesValue(encoded);
            var y, sign := n % TWO_255, n / TWO_255;
            var u, v := y * y - 1, D * (y * y) + 1;
            var w := u * Power(u * Power(v, 7), (P - 1) / 4);
            Decodable(encoded)
            <==> y < P && (Cong(w, u, P) || Cong(w, 0 - u, P)) && !(Cong(y * y, 1, P) && sign == 1)
  {
    hide Prime, EdwardsD, BytesValue, Power, RootFound, Cong;
    RootFoundMeans(BytesValue(encoded) % TWO_255);
  }

  lemma RootFoundMeans(y: int)
    ensures var u, v := y * y - 1, D * (y * y) + 1;
            var w := u * Power(u * Power(v, 7), (P - 1) / 4);
            RootFound(y) <==> Cong(w, u, P) || Cong(w, 0 - u, P)
  {
    hide Prime, EdwardsD, Power, Candidate, Cong;
    CandidateSquared(y);
  }

  /** v c^2 = u (u v^7)^((p-1)/4), over the integers. */
  lemma CandidateSquared(y: int)
    ensures var u, v := y * y - 1, D * (y * y) + 1;
            CurveV(y) * (Candidate(y) * Candidate(y)) == u * Power(u * Power(v, 7), (P - 1) / 4)
  {
    hide Prime, EdwardsD, Power;
    var u, v := CurveU(y), CurveV(y);
    var v3, e := v * v * v, Value(FE_P_MINUS_5_OVER_8);
    var w, q := u * (v3 * v3 * v), Power(u * (v3 * v3 * v), e);
    SeventhPower(v);
    RootExponent();
    DivModUnique(P - 1, 4, 2 * e + 1, 0);
    PowerSum(w, 2 * e, 1);
    PowerSum(w, e, e);
    FirstPower(w);
    CandidateFactors(u, v, v3, q);
  }

  lemma SeventhPower(v: int)
    ensures Power(v, 7) == v * v * v * (v * v * v) * v
  {
    hide Power;
    FirstPower(v);
    PowerSum(v, 1, 1);
    PowerSum(v, 2, 1);
    PowerSum(v, 3, 3);
    PowerSum(v, 6, 1);
  }

  lemma FirstPower(w: int)
    ensures Power(w, 1) == w
  {
    assert Power(w, 1) == w * Power(w, 0);
  }

  lemma CandidateFactors(u: int, v: int, v3: int, q: int)
    ensures v * (((u * v3) * q) * ((u * v3) * q)) == u * ((q * q) * (u * (v3 * v3 * v)))
  {
    var a := u * v3;
    SwapFactors(a, q, a, q);
    SwapFactors(u, v3, u, v3);
    var qq, uu, vv := q * q, u * u, v3 * v3;
    assert ((u * v3) * q) * ((u * v3) * q) == (uu * vv) * qq;
    calc {
      v * ((uu * vv) * qq);
      { MulAssociates(v, uu * vv, qq); }
      (v * (uu * vv)) * qq;
      { MulAssociates(v, uu, vv); Commute(v, vv); }
      (uu * (vv * v)) * qq;
      { MulAssociates(u, u, vv * v); }
      (u * (u * (vv * v))) * qq;
      { MulAssociates(u, u * (vv * v), qq); Commute(u * (vv * v), qq); }
      u * (qq * (u * (vv * v)));
    }
  }

  /** The point an encoding stands for. */
  ghost function Decoded(encoded: seq<byte>): Ext {
    var n := BytesValue(encoded);
    var y, sign := n % TWO_255, n / TWO_255;
    var x := if Root(y) % 2 == sign then Root(y) else P - Root(y);
    Ext(x, y, 1, Residue(x * y, P))
  }

  method Decompress(encoded: seq<byte>) returns (ok: bool, out: Point)
    requires |encoded| == 32
    ensures ok <==> Decodable(encoded)
    ensures ok ==> Decodes(encoded, out) && Coords(out) == Decoded(encoded)
    ensures !ok ==> out == NO_POINT
  {
    Constants();
    out := NO_POINT;
    var y, sign := SplitEncoding(encoded);
    DivModUnique(BytesValue(encoded), TWO_255, sign as int, Value(y));
    var large := GreaterEqual(y, FE_P);
    if large {
      return false, out;
    }
    var u, v := UAndV(y);
    var found, x := FindRoot(y, u, v);
    if !found {
      return false, out;
    }
    ZeroRoot(Value(x), Value(y));
    var zero := IsZero(x);
    if zero && sign == 1 {
      return false, out;
    }
    NegatedRoot(Value(x), Value(y));
    x := WithParity(x, sign);
    RootIsOnCurve(Value(x), Value(y));
    var t := Mul(x, y);
    CongResidue(Value(x) * Value(y), P);
    return true, Point(x, y, FE_ONE, t);
  }
}
