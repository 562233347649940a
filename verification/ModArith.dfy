/** Residues and congruences of integers. The residue is defined by repeated addition or subtraction, which keeps
    division out of every proof that only needs its laws; lemma ResidueIsRemainder says that it is x % m. */
module ModArith {

  type pos = m: int | m > 0 witness 1

  lemma MulMonotonic(a: int, b: int, c: int)
    requires a <= b && 0 <= c
    ensures a * c <= b * c
  {
  }

  lemma MulDistributes(a: int, b: int, c: int)
    ensures (a + b) * c == a * c + b * c && c * (a + b) == c * a + c * b
    ensures (a - b) * c == a * c - b * c && c * (a - b) == c * a - c * b
  {
  }

  lemma MulAssociates(a: int, b: int, c: int)
    ensures a * (b * c) == (a * b) * c && a * (b * c) == b * (a * c)
  {
  }

  lemma MulGrows(k: int, m: pos)
    ensures 1 <= k ==> m <= k * m
    ensures k <= -1 ==> k * m <= 0 - m
  {
  }

  /** Two representations with remainders in range are the same. */
  lemma QuotientUnique(m: pos, q: int, r: int, q': int, r': int)
    requires 0 <= r < m && 0 <= r' < m && q * m + r == q' * m + r'
    ensures q == q' && r == r'
  {
    MulDistributes(q, q', m);
    MulGrows(q - q', m);
  }

  lemma DivModUnique(x: int, m: pos, q: int, r: int)
    requires 0 <= r < m && x == q * m + r
    ensures x / m == q && x % m == r
  {
    QuotientUnique(m, q, r, x / m, x % m);
  }

  ghost function Residue(x: int, m: pos): (r: int)
    ensures 0 <= r < m
    decreases if x < 0 then m - x else x
  {
    if x < 0 then Residue(x + m, m) else if x < m then x else Residue(x - m, m)
  }

  ghost predicate Cong(x: int, y: int, m: pos) {
    Residue(x, m) == Residue(y, m)
  }

  lemma {:induction false} ResidueQuotient(x: int, m: pos) returns (q: int)
    ensures x == q * m + Residue(x, m)
    decreases if x < 0 then m - x else x
  {
    if x < 0 {
      q := ResidueQuotient(x + m, m);
      MulDistributes(q, 1, m);
      q := q - 1;
    } else if x < m {
      q := 0;
    } else {
      q := ResidueQuotient(x - m, m);
      MulDistributes(q, 1, m);
      q := q + 1;
    }
  }

  lemma ResidueUnique(x: int, m: pos, q: int, r: int)
    requires 0 <= r < m && x == q * m + r
    ensures Residue(x, m) == r
  {
    var q' := ResidueQuotient(x, m);
    QuotientUnique(m, q, r, q', Residue(x, m));
  }

  lemma ResidueIsRemainder(x: int, m: pos)
    ensures Residue(x, m) == x % m
  {
    var q := ResidueQuotient(x, m);
    DivModUnique(x, m, q, Residue(x, m));
  }

  lemma CongMultiple(x: int, k: int, m: pos)
    ensures Cong(x + k * m, x, m)
  {
    var q := ResidueQuotient(x, m);
    MulDistributes(q, k, m);
    ResidueUnique(x + k * m, m, q + k, Residue(x, m));
  }

  /** Congruent numbers differ by a multiple of the modulus. */
  lemma CongWitness(x: int, y: int, m: pos) returns (k: int)
    requires Cong(x, y, m)
    ensures x == y + k * m
  {
    var q := ResidueQuotient(x, m);
    var q' := ResidueQuotient(y, m);
    MulDistributes(q, q', m);
    k := q - q';
  }

  lemma CongAdd(a: int, b: int, c: int, d: int, m: pos)
    requires Cong(a, b, m) && Cong(c, d, m)
    ensures Cong(a + c, b + d, m) && Cong(a - c, b - d, m)
  {
    var k := CongWitness(a, b, m);
    var l := CongWitness(c, d, m);
    MulDistributes(k, l, m);
    CongMultiple(b + d, k + l, m);
    CongMultiple(b - d, k - l, m);
  }

  lemma CongMul(a: int, b: int, c: int, d: int, m: pos)
    requires Cong(a, b, m) && Cong(c, d, m)
    ensures Cong(a * c, b * d, m)
  {
    var k := CongWitness(a, b, m);
    var l := CongWitness(c, d, m);
    var j := k * c + b * l;
    MulDistributes(b, k * m, c);
    MulDistributes(d, l * m, b);
    MulAssociates(c, k, m);
    MulAssociates(b, l, m);
    MulDistributes(k * c, b * l, m);
    assert a * c == b * d + j * m;
    CongMultiple(b * d, j, m);
  }

  lemma ResidueReduced(r: int, m: pos)
    requires 0 <= r < m
    ensures Residue(r, m) == r
  {
  }

  lemma CongResidue(x: int, m: pos)
    ensures Cong(Residue(x, m), x, m)
  {
  }
}
