/** The unified addition of extended twisted-Edwards coordinates (RFC 8032 section 5.1.4), over the integers
    modulo an arbitrary m and for an arbitrary curve constant d. */
module EdwardsLaw {
  import opened ModArith
  import opened Bits

  /** Extended homogeneous coordinates, up to congruence modulo m. */
  datatype Ext = Ext(x: int, y: int, z: int, t: int)

  const NEUTRAL := Ext(0, 1, 1, 0)

  /** The second half of the formulas of RFC 8032 section 5.1.4, from A, B, C and D. */
  ghost function Combine(a: int, b: int, c: int, dd: int): Ext {
    var e, f, g, h := b - a, dd - c, dd + c, b + a;
    Ext(e * f, g * h, f * g, e * h)
  }

  /** The formulas of RFC 8032 section 5.1.4, without reduction. */
  ghost function Sum(p: Ext, q: Ext, d: int): Ext {
    Combine((p.y - p.x) * (q.y - q.x), (p.y + p.x) * (q.y + q.x), p.t * 2 * d * q.t, p.z * 2 * q.z)
  }

  ghost predicate OnCurve(p: Ext, d: int, m: pos)
  {
    && Cong(p.x * p.y, p.z * p.t, m)
    && Cong(p.y * p.y - p.x * p.x, p.z * p.z + d * (p.t * p.t), m)
  }

  // The halves of the intermediate values e, f, g and h of the formulas.

  ghost function HalfE(p: Ext, q: Ext): int { p.x * q.y + q.x * p.y }

  ghost function HalfH(p: Ext, q: Ext): int { p.y * q.y + p.x * q.x }

  ghost function HalfF(p: Ext, q: Ext, d: int): int { p.z * q.z - d * (p.t * q.t) }

  ghost function HalfG(p: Ext, q: Ext, d: int): int { p.z * q.z + d * (p.t * q.t) }

  lemma Halves(p: Ext, q: Ext, d: int)
    ensures var e, f, g, h := HalfE(p, q), HalfF(p, q, d), HalfG(p, q, d), HalfH(p, q);
            Sum(p, q, d) == Ext(4 * (e * f), 4 * (g * h), 4 * (f * g), 4 * (e * h))
  {
    var e, f, g, h := HalfE(p, q), HalfF(p, q, d), HalfG(p, q, d), HalfH(p, q);
    Cross(p.x, p.y, q.x, q.y);
    Twice(p.t, d, q.t);
    Twice(p.z, 1, q.z);
    Quadruple(e, f);
    Quadruple(g, h);
    Quadruple(f, g);
    Quadruple(e, h);
  }

  lemma Cross(x1: int, y1: int, x2: int, y2: int)
    ensures (y1 + x1) * (y2 + x2) - (y1 - x1) * (y2 - x2) == 2 * (x1 * y2 + x2 * y1)
    ensures (y1 + x1) * (y2 + x2) + (y1 - x1) * (y2 - x2) == 2 * (y1 * y2 + x1 * x2)
  {
  }

  lemma Twice(a: int, d: int, b: int)
    ensures a * 2 * d * b == 2 * (d * (a * b)) && a * 2 * b == 2 * (a * b)
  {
  }

  lemma Quadruple(a: int, b: int)
    ensures (2 * a) * (2 * b) == 4 * (a * b)
  {
  }

  // Polynomial identities.

  lemma Identity1(x1: int, y1: int, x2: int, y2: int)
    ensures var e, h := x1 * y2 + x2 * y1, y1 * y2 + x1 * x2;
            h * h - e * e == (y1 * y1 - x1 * x1) * (y2 * y2 - x2 * x2)
  {
  }

  lemma Identity2(z1: int, t1: int, z2: int, t2: int, d: int)
    ensures var f, g := z1 * z2 - d * (t1 * t2), z1 * z2 + d * (t1 * t2);
            g * g - f * f == 4 * (d * ((z1 * t1) * (z2 * t2)))
  {
  }

  lemma Commute(a: int, b: int)
    ensures a * b == b * a
  {
  }

  lemma SwapFactors(a: int, b: int, c: int, e: int)
    ensures (a * b) * (c * e) == (a * c) * (b * e)
  {
  }

  lemma SquareOf(a: int, b: int)
    ensures (a + b) * (a + b) == a * a + 2 * (a * b) + b * b
    ensures (a - b) * (a - b) == a * a - 2 * (a * b) + b * b
  {
  }

  lemma ProductOf(a: int, b: int, c: int, e: int)
    ensures (a + b) * (c + e) == a * c + a * e + b * c + b * e
  {
  }

  lemma MovedOut(a: int, d: int, b: int)
    ensures (a * a) * (d * (b * b)) == d * ((a * b) * (a * b))
    ensures (d * (b * b)) * (a * a) == d * ((b * a) * (b * a))
  {
    MulAssociates(a * a, d, b * b);
    SwapFactors(a, a, b, b);
    SwapFactors(b, b, a, a);
    MulAssociates(d, b * b, a * a);
  }

  lemma NormProduct(z1: int, t1: int, z2: int, t2: int, d: int)
    ensures (z1 * z1 + d * (t1 * t1)) * (z2 * z2 + d * (t2 * t2))
            == (z1 * z2) * (z1 * z2) + d * ((z1 * t2) * (z1 * t2)) + d * ((t1 * z2) * (t1 * z2))
               + (d * (t1 * t2)) * (d * (t1 * t2))
  {
    ProductOf(z1 * z1, d * (t1 * t1), z2 * z2, d * (t2 * t2));
    SwapFactors(z1, z1, z2, z2);
    MovedOut(z1, d, t2);
    MovedOut(z2, d, t1);
    SwapFactors(d, t1 * t1, d, t2 * t2);
    SwapFactors(t1, t1, t2, t2);
    SwapFactors(d, t1 * t2, d, t1 * t2);
  }

  lemma NormDifference(a: int, b: int, u: int, v: int, d: int)
    requires a * b == u * v
    ensures a * a + d * (u * u) + d * (v * v) + (d * b) * (d * b) - (a - d * b) * (a - d * b) == d * ((u + v) * (u + v))
  {
    SquareOf(a, d * b);
    SquareOf(u, v);
    MulAssociates(a, d, b);
    MulDistributes(u * u + 2 * (u * v), v * v, d);
    MulDistributes(u * u, 2 * (u * v), d);
    MulAssociates(d, 2, u * v);
  }

  lemma Identity3(z1: int, t1: int, z2: int, t2: int, d: int)
    ensures var f, w := z1 * z2 - d * (t1 * t2), z1 * t2 + t1 * z2;
            (z1 * z1 + d * (t1 * t1)) * (z2 * z2 + d * (t2 * t2)) - f * f == d * (w * w)
  {
    NormProduct(z1, t1, z2, t2, d);
    SwapFactors(z1, z2, t1, t2);
    SwapFactors(z1, t2, t1, z2);
    Commute(t2, z2);
    NormDifference(z1 * z2, t1 * t2, z1 * t2, t1 * z2, d);
  }

  lemma Identity4(x1: int, y1: int, x2: int, y2: int)
    ensures var h, s := y1 * y2 + x1 * x2, y1 * y2 - x1 * x2;
            h * h - 4 * ((x1 * y1) * (x2 * y2)) == s * s
  {
  }

  lemma Identity5(z1: int, t1: int, z2: int, t2: int, d: int)
    ensures var g, w := z1 * z2 + d * (t1 * t2), z1 * t2 + t1 * z2;
            g * w == (z2 * t2) * (z1 * z1 + d * (t1 * t1)) + (z1 * t1) * (z2 * z2 + d * (t2 * t2))
  {
    ProductOf(z1 * z2, d * (t1 * t2), z1 * t2, t1 * z2);
    SwapFactors(z1, z2, z1, t2);
    SwapFactors(z1, z2, t1, z2);
    MulAssociates(z1 * t2, d, t1 * t2);
    MulAssociates(t1 * z2, d, t1 * t2);
    SwapFactors(z1, t2, t1, t2);
    SwapFactors(t1, z2, t1, t2);
    MulDistributes(z1 * z1, d * (t1 * t1), z2 * t2);
    MulDistributes(z2 * z2, d * (t2 * t2), z1 * t1);
    MulAssociates(z2 * t2, d, t1 * t1);
    MulAssociates(z1 * t1, d, t2 * t2);
  }

  lemma Identity6(x1: int, y1: int, x2: int, y2: int)
    ensures var e, s := x1 * y2 + x2 * y1, y1 * y2 - x1 * x2;
            e * s == (x2 * y2) * (y1 * y1 - x1 * x1) + (x1 * y1) * (y2 * y2 - x2 * x2)
  {
  }

  // The curve equation is kept.

  lemma CongFour(a: int, a': int, b: int, b': int, m: pos)
    requires Cong(a, a', m) && Cong(b, b', m)
    ensures Cong(4 * (a * b), 4 * (a' * b'), m)
  {
    CongMul(a, a', b, b', m);
    CongMul(4, 4, a * b, a' * b', m);
  }

  lemma LeftPart(ee: int, ff: int, gg: int, hh: int, ww: int, nn: int, mm: int, d: int, m: pos)
    requires hh == ee + nn && mm - ff == d * ww && Cong(nn, mm, m)
    ensures Cong(gg * hh - gg * ff, gg * ee + d * (gg * ww), m)
  {
    var dw := d * ww;
    LeftFactor(ee, ff, hh, nn, mm, dw, m);
    CongMul(gg, gg, hh - ff, ee + dw, m);
    MulDistributes(hh, ff, gg);
    MulDistributes(ee, dw, gg);
    MulAssociates(gg, d, ww);
  }

  lemma LeftFactor(ee: int, ff: int, hh: int, nn: int, mm: int, dw: int, m: pos)
    requires hh == ee + nn && mm - ff == dw && Cong(nn, mm, m)
    ensures Cong(hh - ff, ee + dw, m)
  {
    CongAdd(ee - ff, ee - ff, nn, mm, m);
  }

  lemma RightPart(ee: int, ff: int, gg: int, hh: int, ss: int, u: int, v: int, d: int, m: pos)
    requires gg == ff + 4 * (d * v) && hh - 4 * u == ss && Cong(u, v, m)
    ensures Cong(ee * ff + d * (ee * hh), gg * ee + d * (ee * ss), m)
  {
    CongFour(d, d, u, v, m);
    CongAdd(gg + d * hh, gg + d * hh, 4 * (d * v), 4 * (d * u), m);
    MulDistributes(hh, 4 * u, d);
    MulAssociates(d, 4, u);
    CongMul(ee, ee, ff + d * hh, gg + d * ss, m);
    MulDistributes(ff, d * hh, ee);
    MulDistributes(gg, d * ss, ee);
    MulAssociates(ee, d, hh);
    MulAssociates(ee, d, ss);
  }

  lemma MiddlePart(e: int, g: int, w: int, s: int, d: int, m: pos)
    requires Cong(g * w, e * s, m)
    ensures Cong(d * ((g * g) * (w * w)), d * ((e * e) * (s * s)), m)
  {
    CongMul(g * w, e * s, g * w, e * s, m);
    SwapFactors(g, w, g, w);
    SwapFactors(e, s, e, s);
    CongMul(d, d, (g * g) * (w * w), (e * e) * (s * s), m);
  }

  /** The identities above, with the curve equations of both operands, give the curve equation of the sum. */
  lemma CurveCore(e: int, f: int, g: int, h: int, w: int, s: int, nn: int, mm: int, u: int, v: int, d: int, m: pos)
    requires h * h == e * e + nn && g * g == f * f + 4 * (d * v)
    requires mm - f * f == d * (w * w) && h * h - 4 * u == s * s
    requires Cong(g * w, e * s, m) && Cong(nn, mm, m) && Cong(u, v, m)
    ensures Cong((g * h) * (g * h) - (e * f) * (e * f), (f * g) * (f * g) + d * ((e * h) * (e * h)), m)
  {
    var ee, ff, gg, hh, ww, ss := e * e, f * f, g * g, h * h, w * w, s * s;
    LeftPart(ee, ff, gg, hh, ww, nn, mm, d, m);
    RightPart(ee, ff, gg, hh, ss, u, v, d, m);
    MiddlePart(e, g, w, s, d, m);
    Rearrange(gg * hh, gg * ff, gg * ee, d * (gg * ww), ee * ff, d * (ee * hh), d * (ee * ss), m);
    SwapFactors(g, h, g, h);
    SwapFactors(e, f, e, f);
    SwapFactors(f, g, f, g);
    SwapFactors(e, h, e, h);
    Commute(ff, gg);
  }

  lemma Rearrange(a: int, b: int, c: int, x: int, k: int, l: int, y: int, m: pos)
    requires Cong(a - b, c + x, m) && Cong(k + l, c + y, m) && Cong(x, y, m)
    ensures Cong(a - k, b + l, m)
  {
    CongAdd(c, c, x, y, m);
    CongAdd(a - b, k + l, b - k, b - k, m);
  }

  lemma CrossSums(p: Ext, q: Ext, d: int, m: pos)
    requires OnCurve(p, d, m) && OnCurve(q, d, m)
    ensures Cong(HalfG(p, q, d) * (p.z * q.t + p.t * q.z), HalfE(p, q) * (p.y * q.y - p.x * q.x), m)
  {
    var n1, n2 := p.y * p.y - p.x * p.x, q.y * q.y - q.x * q.x;
    var m1, m2 := p.z * p.z + d * (p.t * p.t), q.z * q.z + d * (q.t * q.t);
    Identity5(p.z, p.t, q.z, q.t, d);
    Identity6(p.x, p.y, q.x, q.y);
    CongMul(q.x * q.y, q.z * q.t, n1, m1, m);
    CongMul(p.x * p.y, p.z * p.t, n2, m2, m);
    CongAdd((q.x * q.y) * n1, (q.z * q.t) * m1, (p.x * p.y) * n2, (p.z * p.t) * m2, m);
  }

  lemma HalvesOnCurve(p: Ext, q: Ext, d: int, m: pos)
    requires OnCurve(p, d, m) && OnCurve(q, d, m)
    ensures var e, f, g, h := HalfE(p, q), HalfF(p, q, d), HalfG(p, q, d), HalfH(p, q);
            Cong((g * h) * (g * h) - (e * f) * (e * f), (f * g) * (f * g) + d * ((e * h) * (e * h)), m)
  {
    var n1, n2 := p.y * p.y - p.x * p.x, q.y * q.y - q.x * q.x;
    var m1, m2 := p.z * p.z + d * (p.t * p.t), q.z * q.z + d * (q.t * q.t);
    Identity1(p.x, p.y, q.x, q.y);
    Identity2(p.z, p.t, q.z, q.t, d);
    Identity3(p.z, p.t, q.z, q.t, d);
    Identity4(p.x, p.y, q.x, q.y);
    CongMul(n1, m1, n2, m2, m);
    CongMul(p.x * p.y, p.z * p.t, q.x * q.y, q.z * q.t, m);
    CrossSums(p, q, d, m);
    CurveCore(HalfE(p, q), HalfF(p, q, d), HalfG(p, q, d), HalfH(p, q),
              p.z * q.t + p.t * q.z, p.y * q.y - p.x * q.x, n1 * n2, m1 * m2,
              (p.x * p.y) * (q.x * q.y), (p.z * p.t) * (q.z * q.t), d, m);
  }

  lemma FourSquared(a: int)
    ensures (4 * a) * (4 * a) == 16 * (a * a)
  {
  }

  /** The sum of two points on the curve is on the curve. */
  lemma SumOnCurve(p: Ext, q: Ext, d: int, m: pos)
    requires OnCurve(p, d, m) && OnCurve(q, d, m)
    ensures OnCurve(Sum(p, q, d), d, m)
  {
    var e, f, g, h := HalfE(p, q), HalfF(p, q, d), HalfG(p, q, d), HalfH(p, q);
    var x, y, z, t := e * f, g * h, f * g, e * h;
    Halves(p, q, d);
    HalvesOnCurve(p, q, d, m);
    assert (4 * x) * (4 * y) == (4 * z) * (4 * t) by {
      SwapFactors(4, x, 4, y);
      SwapFactors(4, z, 4, t);
      SwapFactors(e, f, g, h);
      SwapFactors(g, f, e, h);
    }
    FourSquared(x);
    FourSquared(y);
    FourSquared(z);
    FourSquared(t);
    CongMul(16, 16, y * y - x * x, z * z + d * (t * t), m);
    MulAssociates(16, d, t * t);
    MulAssociates(d, 16, t * t);
  }

  /** Addition is commutative. */
  lemma SumCommutes(p: Ext, q: Ext, d: int)
    ensures Sum(p, q, d) == Sum(q, p, d)
  {
    Halves(p, q, d);
    Halves(q, p, d);
    Symmetric(p.x, p.y, q.x, q.y);
    Symmetric(p.z, p.t, q.z, q.t);
  }

  lemma Symmetric(a: int, b: int, c: int, e: int)
    ensures a * c == c * a && b * e == e * b && a * e + c * b == c * b + a * e
  {
  }

  ghost function Scale(k: int, p: Ext): Ext {
    Ext(k * p.x, k * p.y, k * p.z, k * p.t)
  }

  /** Scaling both operands scales the sum by the square of the product: the formulas are homogeneous. */
  lemma SumOfScaled(k: int, p: Ext, l: int, q: Ext, d: int)
    ensures Sum(Scale(k, p), Scale(l, q), d) == Scale((k * l) * (k * l), Sum(p, q, d))
  {
    var e, f, g, h := HalfE(p, q), HalfF(p, q, d), HalfG(p, q, d), HalfH(p, q);
    var p', q' := Scale(k, p), Scale(l, q);
    var c := k * l;
    Halves(p, q, d);
    Halves(p', q', d);
    assert HalfE(p', q') == c * e && HalfH(p', q') == c * h by {
      SwapFactors(k, p.x, l, q.y);
      SwapFactors(k, q.x, l, p.y);
      SwapFactors(l, q.x, k, p.y);
      SwapFactors(k, p.y, l, q.y);
      SwapFactors(k, p.x, l, q.x);
      MulDistributes(p.x * q.y, q.x * p.y, c);
      MulDistributes(p.y * q.y, p.x * q.x, c);
    }
    assert HalfF(p', q', d) == c * f && HalfG(p', q', d) == c * g by {
      SwapFactors(k, p.z, l, q.z);
      SwapFactors(k, p.t, l, q.t);
      MulAssociates(d, c, p.t * q.t);
      MulDistributes(p.z * q.z, d * (p.t * q.t), c);
    }
    ScaledProduct(c, e, f);
    ScaledProduct(c, g, h);
    ScaledProduct(c, f, g);
    ScaledProduct(c, e, h);
  }

  lemma ScaledProduct(c: int, a: int, b: int)
    ensures 4 * ((c * a) * (c * b)) == (c * c) * (4 * (a * b))
  {
    SwapFactors(c, a, c, b);
    MulAssociates(4, c * c, a * b);
  }

  /** On affine points (Z = 1) the sum, taken as X/Z and Y/Z, obeys the Edwards addition law
      x3 = (x1 y2 + x2 y1) / (1 + d x1 x2 y1 y2) and y3 = (y1 y2 + x1 x2) / (1 - d x1 x2 y1 y2). */
  lemma AffineLaw(x1: int, y1: int, x2: int, y2: int, d: int)
    ensures var s := Sum(Ext(x1, y1, 1, x1 * y1), Ext(x2, y2, 1, x2 * y2), d);
            var k := d * ((x1 * y1) * (x2 * y2));
            && s.x * (1 + k) == s.z * (x1 * y2 + x2 * y1)
            && s.y * (1 - k) == s.z * (y1 * y2 + x1 * x2)
  {
    var p, q := Ext(x1, y1, 1, x1 * y1), Ext(x2, y2, 1, x2 * y2);
    Halves(p, q, d);
    FourTimes(HalfE(p, q), HalfF(p, q, d), HalfG(p, q, d));
    FourTimes(HalfH(p, q), HalfG(p, q, d), HalfF(p, q, d));
    Symmetric(HalfF(p, q, d), HalfG(p, q, d), HalfG(p, q, d), HalfH(p, q));
  }

  lemma FourTimes(e: int, f: int, g: int)
    ensures (4 * (e * f)) * g == (4 * (f * g)) * e && (4 * (f * e)) * g == (4 * (g * f)) * e
  {
    MulAssociates(e, f, g);
    MulAssociates(4, f * g, e);
  }

  ghost function Negate(p: Ext): Ext {
    p.(x := -p.x, t := -p.t)
  }

  lemma NegativeHalves(p: Ext, d: int)
    ensures HalfE(p, Negate(p)) == 0
    ensures HalfH(p, Negate(p)) == p.y * p.y - p.x * p.x
    ensures HalfF(p, Negate(p), d) == p.z * p.z + d * (p.t * p.t)
  {
    Signs(p.x, p.y);
    Signs(p.x, p.x);
    Signs(p.t, p.t);
    Signs(d, p.t * p.t);
  }

  /** A point and its negative add up to the neutral element, in the form (0 : Z : Z : 0). */
  lemma SumWithNegative(p: Ext, d: int, m: pos)
    requires OnCurve(p, d, m)
    ensures var s := Sum(p, Negate(p), d);
            s.x == 0 && s.t == 0 && Cong(s.y, s.z, m)
  {
    var q := Negate(p);
    Halves(p, q, d);
    NegativeHalves(p, d);
    var f, g, h := HalfF(p, q, d), HalfG(p, q, d), HalfH(p, q);
    CongFour(g, g, h, f, m);
    Commute(f, g);
  }

  lemma Signs(a: int, b: int)
    ensures a * (-b) == -(a * b) && (-a) * b == -(a * b)
  {
  }

  // Projective equality.

  ghost predicate CongExt(p: Ext, q: Ext, m: pos)
  {
    Cong(p.x, q.x, m) && Cong(p.y, q.y, m) && Cong(p.z, q.z, m) && Cong(p.t, q.t, m)
  }

  lemma CongCombine(a: int, b: int, c: int, dd: int, a': int, b': int, c': int, dd': int, m: pos)
    requires Cong(a, a', m) && Cong(b, b', m) && Cong(c, c', m) && Cong(dd, dd', m)
    ensures CongExt(Combine(a, b, c, dd), Combine(a', b', c', dd'), m)
  {
    CongAdd(b, b', a, a', m);
    CongAdd(dd, dd', c, c', m);
    CongMul(b - a, b' - a', dd - c, dd' - c', m);
    CongMul(dd + c, dd' + c', b + a, b' + a', m);
    CongMul(dd - c, dd' - c', dd + c, dd' + c', m);
    CongMul(b - a, b' - a', b + a, b' + a', m);
  }

  lemma CongSum(p: Ext, p': Ext, q: Ext, q': Ext, d: int, m: pos)
    requires CongExt(p, p', m) && CongExt(q, q', m)
    ensures CongExt(Sum(p, q, d), Sum(p', q', d), m)
  {
    var e, f, g, h := HalfE(p, q), HalfF(p, q, d), HalfG(p, q, d), HalfH(p, q);
    var e', f', g', h' := HalfE(p', q'), HalfF(p', q', d), HalfG(p', q', d), HalfH(p', q');
    Halves(p, q, d);
    Halves(p', q', d);
    assert Cong(e, e', m) && Cong(h, h', m) by {
      CongMul(p.x, p'.x, q.y, q'.y, m);
      CongMul(q.x, q'.x, p.y, p'.y, m);
      CongMul(p.y, p'.y, q.y, q'.y, m);
      CongMul(p.x, p'.x, q.x, q'.x, m);
      CongAdd(p.x * q.y, p'.x * q'.y, q.x * p.y, q'.x * p'.y, m);
      CongAdd(p.y * q.y, p'.y * q'.y, p.x * q.x, p'.x * q'.x, m);
    }
    assert Cong(f, f', m) && Cong(g, g', m) by {
      CongMul(p.z, p'.z, q.z, q'.z, m);
      CongMul(p.t, p'.t, q.t, q'.t, m);
      CongMul(d, d, p.t * q.t, p'.t * q'.t, m);
      CongAdd(p.z * q.z, p'.z * q'.z, d * (p.t * q.t), d * (p'.t * q'.t), m);
    }
    CongFour(e, e', f, f', m);
    CongFour(g, g', h, h', m);
    CongFour(f, f', g, g', m);
    CongFour(e, e', h, h', m);
  }

  ghost predicate Inverse(k: int, l: int, m: pos)
  {
    Cong(k * l, 1, m)
  }

  ghost predicate Unit(k: int, m: pos)
  {
    exists l :: Inverse(k, l, m)
  }

  lemma UnitProduct(k: int, l: int, m: pos)
    requires Unit(k, m) && Unit(l, m)
    ensures Unit(k * l, m)
  {
    var k' :| Inverse(k, k', m);
    var l' :| Inverse(l, l', m);
    CongMul(k * k', 1, l * l', 1, m);
    SwapFactors(k, l, k', l');
    assert Inverse(k * l, k' * l', m);
  }

  lemma UnitFour(m: pos)
    requires m % 2 == 1
    ensures Unit(4, m)
  {
    var half := (m + 1) / 2;
    CongMultiple(1, 1, m);
    assert Inverse(2, half, m);
    UnitProduct(2, 2, m);
  }

  /** The same projective point: equal up to a common invertible factor. */
  ghost predicate Similar(p: Ext, q: Ext, m: pos)
  {
    exists k :: Unit(k, m) && CongExt(p, Scale(k, q), m)
  }

  lemma SimilarWith(k: int, p: Ext, q: Ext, m: pos)
    requires Unit(k, m) && CongExt(p, Scale(k, q), m)
    ensures Similar(p, q, m)
  {
  }

  lemma CongScale(k: int, p: Ext, q: Ext, m: pos)
    requires CongExt(p, q, m)
    ensures CongExt(Scale(k, p), Scale(k, q), m)
  {
    CongMul(k, k, p.x, q.x, m);
    CongMul(k, k, p.y, q.y, m);
    CongMul(k, k, p.z, q.z, m);
    CongMul(k, k, p.t, q.t, m);
  }

  lemma ScaleTwice(k: int, l: int, p: Ext)
    ensures Scale(k, Scale(l, p)) == Scale(k * l, p)
  {
    MulAssociates(k, l, p.x);
    MulAssociates(k, l, p.y);
    MulAssociates(k, l, p.z);
    MulAssociates(k, l, p.t);
  }

  lemma SimilarReflexive(p: Ext, m: pos)
    ensures Similar(p, p, m)
  {
    assert Inverse(1, 1, m);
    assert Scale(1, p) == p;
    SimilarWith(1, p, p, m);
  }

  lemma SimilarSymmetric(p: Ext, q: Ext, m: pos)
    requires Similar(p, q, m)
    ensures Similar(q, p, m)
  {
    var k :| Unit(k, m) && CongExt(p, Scale(k, q), m);
    var l :| Inverse(k, l, m);
    assert Inverse(l, k, m) by {
      Commute(k, l);
    }
    CongScale(l, p, Scale(k, q), m);
    ScaleTwice(l, k, q);
    Commute(k, l);
    CongMul(l * k, 1, q.x, q.x, m);
    CongMul(l * k, 1, q.y, q.y, m);
    CongMul(l * k, 1, q.z, q.z, m);
    CongMul(l * k, 1, q.t, q.t, m);
    SimilarWith(l, q, p, m);
  }

  lemma SimilarTransitive(p: Ext, q: Ext, r: Ext, m: pos)
    requires Similar(p, q, m) && Similar(q, r, m)
    ensures Similar(p, r, m)
  {
    var k :| Unit(k, m) && CongExt(p, Scale(k, q), m);
    var l :| Unit(l, m) && CongExt(q, Scale(l, r), m);
    UnitProduct(k, l, m);
    CongScale(k, q, Scale(l, r), m);
    ScaleTwice(k, l, r);
    SimilarWith(k * l, p, r, m);
  }

  /** Addition is well defined on projective points. */
  lemma SimilarSum(p: Ext, p': Ext, q: Ext, q': Ext, d: int, m: pos)
    requires Similar(p, p', m) && Similar(q, q', m)
    ensures Similar(Sum(p, q, d), Sum(p', q', d), m)
  {
    var k :| Unit(k, m) && CongExt(p, Scale(k, p'), m);
    var l :| Unit(l, m) && CongExt(q, Scale(l, q'), m);
    CongSum(p, Scale(k, p'), q, Scale(l, q'), d, m);
    SumOfScaled(k, p', l, q', d);
    UnitProduct(k, l, m);
    UnitProduct(k * l, k * l, m);
    SimilarWith((k * l) * (k * l), Sum(p, q, d), Sum(p', q', d), m);
  }

  lemma NeutralTwice(d: int, m: pos)
    requires m % 2 == 1
    ensures Similar(Sum(NEUTRAL, NEUTRAL, d), NEUTRAL, m)
  {
    UnitFour(m);
    assert Sum(NEUTRAL, NEUTRAL, d) == Scale(4, NEUTRAL);
    SimilarWith(4, Sum(NEUTRAL, NEUTRAL, d), NEUTRAL, m);
  }

  /** The neutral element is neutral for every point of the curve with an invertible Z. */
  lemma NeutralIsNeutral(p: Ext, d: int, m: pos)
    requires m % 2 == 1 && OnCurve(p, d, m) && Unit(p.z, m)
    ensures Similar(Sum(NEUTRAL, p, d), p, m)
  {
    Halves(NEUTRAL, p, d);
    var s := Sum(NEUTRAL, p, d);
    assert s == Ext(4 * (p.x * p.z), 4 * (p.z * p.y), 4 * (p.z * p.z), 4 * (p.x * p.y));
    CongMul(4, 4, p.x * p.y, p.z * p.t, m);
    ScaleTwice(4, p.z, p);
    Commute(p.x, p.z);
    UnitFour(m);
    UnitProduct(4, p.z, m);
    SimilarWith(4 * p.z, s, p, m);
  }

  lemma NeutralOnCurve(d: int, m: pos)
    ensures OnCurve(NEUTRAL, d, m)
  {
  }

  // Scalar multiples.

  /** The multiple of p by recursive double-and-add on the scalar. */
  ghost function Multiple(n: nat, p: Ext, d: int): Ext {
    if n == 0 then NEUTRAL
    else
      var half := Multiple(n / 2, p, d);
      var twice := Sum(half, half, d);
      if n % 2 == 1 then Sum(twice, p, d) else twice
  }

  /** Doubling and adding once: 0 gives the neutral element, 1 the point itself, 2n and 2n + 1 what they should. */
  lemma MultipleLaws(n: nat, p: Ext, d: int, m: pos)
    requires m % 2 == 1
    ensures Multiple(0, p, d) == NEUTRAL
    ensures OnCurve(p, d, m) && Unit(p.z, m) ==> Similar(Multiple(1, p, d), p, m)
    ensures Similar(Multiple(2 * n, p, d), Sum(Multiple(n, p, d), Multiple(n, p, d), d), m)
    ensures Similar(Multiple(2 * n + 1, p, d), Sum(Multiple(2 * n, p, d), p, d), m)
  {
    var twice := Sum(NEUTRAL, NEUTRAL, d);
    assert Multiple(0, p, d) == NEUTRAL && Multiple(1, p, d) == Sum(twice, p, d);
    SimilarReflexive(p, m);
    SimilarReflexive(Multiple(2 * n, p, d), m);
    SimilarReflexive(Multiple(2 * n + 1, p, d), m);
    hide Sum, OnCurve, Similar, Unit;
    NeutralTwice(d, m);
    SimilarSum(twice, NEUTRAL, p, p, d, m);
    if OnCurve(p, d, m) && Unit(p.z, m) {
      NeutralIsNeutral(p, d, m);
      SimilarTransitive(Sum(twice, p, d), Sum(NEUTRAL, p, d), p, m);
    }
    if n == 0 {
      SimilarSymmetric(twice, NEUTRAL, m);
      SimilarReflexive(Sum(twice, p, d), m);
    }
  }

  /** One step of the ladder that reads the scalar from its most significant bit. Leading zero bits double the
      neutral element, which only scales it. */
  lemma LadderStep(r: Ext, n: nat, k: nat, p: Ext, d: int, m: pos)
    requires m % 2 == 1
    requires Similar(r, Multiple(Prefix(n, k + 1), p, d), m)
    ensures Bit(n, k) == 0 ==> Similar(Sum(r, r, d), Multiple(Prefix(n, k), p, d), m)
    ensures Bit(n, k) == 1 ==> Similar(Sum(Sum(r, r, d), p, d), Multiple(Prefix(n, k), p, d), m)
  {
    PrefixStep(n, k);
    var half := Multiple(Prefix(n, k + 1), p, d);
    SimilarSum(r, half, r, half, d, m);
    SimilarReflexive(p, m);
    SimilarSum(Sum(r, r, d), Sum(half, half, d), p, p, d, m);
    if Prefix(n, k) == 0 {
      NeutralTwice(d, m);
      SimilarTransitive(Sum(r, r, d), Sum(half, half, d), NEUTRAL, m);
    }
  }

  /** Multiples of a point on the curve are on the curve. */
  lemma {:induction false} MultipleOnCurve(n: nat, p: Ext, d: int, m: pos)
    requires OnCurve(p, d, m)
    ensures OnCurve(Multiple(n, p, d), d, m)
  {
    if n == 0 {
      NeutralOnCurve(d, m);
    } else {
      var half := Multiple(n / 2, p, d);
      MultipleOnCurve(n / 2, p, d, m);
      SumOnCurve(half, half, d, m);
      SumOnCurve(Sum(half, half, d), p, d, m);
    }
  }
}
