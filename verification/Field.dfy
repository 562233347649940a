/** Arithmetic modulo p = 2^255 - 19 on eight 32-bit limbs. A field element is a value
    (`std::array` copies); the loops work in place on a local buffer, as the originals do. */
module Field {
  import opened Words
  import opened ModArith
  import opened Limbs
  import opened Bits

  type Fe = s: seq<uint32> | |s| == 8 witness [0, 0, 0, 0, 0, 0, 0, 0]

  const TWO_256: int := 0x1_0000000000000000000000000000000000000000000000000000000000000000

  const FE_ZERO: Fe := [0, 0, 0, 0, 0, 0, 0, 0]
  const FE_ONE: Fe := [1, 0, 0, 0, 0, 0, 0, 0]
  const FE_P: Fe :=
    [0xffffffed, 0xffffffff, 0xffffffff, 0xffffffff, 0xffffffff, 0xffffffff, 0xffffffff, 0x7fffffff]

  /** p, as the number its limbs spell. */
  ghost function Prime(): pos { PositiveValue(FE_P) }

  ghost const P: pos := Prime()

  ghost function PositiveValue(s: Fe): pos
    requires s[0] > 0
  {
    assert Value(s) == s[0] as int + LIMB * Tail(s[1..], 0);
    Value(s)
  }

  /** A carry out of limb 7 weighs 2^256. */
  lemma CarryOut(s: Fe, carry: int)
    ensures Tail(s, carry) == Value(s) + TWO_256 * carry
    ensures Value(s) < TWO_256
  {
    TailIsShift(s, carry);
    ShiftOfEight(carry);
    ShiftOfEight(1);
    ValueBound(s);
  }

  lemma ShiftOfEight(t: int)
    ensures Shift(t, 8) == TWO_256 * t
  {
    assert Shift(t, 1) == LIMB * t;
    assert Shift(t, 2) == LIMB * LIMB * t;
    assert Shift(t, 3) == LIMB * LIMB * LIMB * t;
    assert Shift(t, 4) == LIMB * LIMB * LIMB * LIMB * t;
    assert Shift(t, 5) == LIMB * LIMB * LIMB * LIMB * LIMB * t;
    assert Shift(t, 6) == LIMB * LIMB * LIMB * LIMB * LIMB * LIMB * t;
    assert Shift(t, 7) == LIMB * LIMB * LIMB * LIMB * LIMB * LIMB * LIMB * t;
  }

  lemma ValueOfEight(s: Fe)
    ensures Value(s) == s[0] as int + LIMB * (s[1] as int + LIMB * (s[2] as int + LIMB * (s[3] as int
                        + LIMB * (s[4] as int + LIMB * (s[5] as int + LIMB * (s[6] as int + LIMB * s[7] as int))))))
  {
    assert s == s[0..] && s[8..] == [];
    ValueAt(s, 7);
    ValueAt(s, 6);
    ValueAt(s, 5);
    ValueAt(s, 4);
    ValueAt(s, 3);
    ValueAt(s, 2);
    ValueAt(s, 1);
    ValueAt(s, 0);
  }

  lemma Constants()
    ensures P == 0x7fffffffffffffffffffffffffffffffffffffffffffffffffffffffffffffed
    ensures Value(FE_P) == P && Value(FE_ONE) == 1 && Value(FE_ZERO) == 0
  {
    ValueOfEight(FE_P);
    ValueOfEight(FE_ONE);
    ValueOfEight(FE_ZERO);
  }

  /** The most significant limb in which two numbers differ decides. */
  lemma DecidedAt(a: seq<uint32>, b: seq<uint32>, i: nat)
    requires |a| == |b| && i < |a| && a[i] != b[i]
    requires forall k :: i < k < |a| ==> a[k] == b[k]
    ensures a[i] > b[i] <==> Value(a) >= Value(b)
  {
    assert a[i + 1..] == b[i + 1..];
    TailSplit(a, i);
    TailSplit(b, i);
    ValueAt(a, i);
    ValueAt(b, i);
    if a[i] < b[i] {
      TailMonotonic(a[..i], b[..i], Value(a[i..]), Value(b[i..]));
    } else {
      TailMonotonic(b[..i], a[..i], Value(b[i..]), Value(a[i..]));
    }
  }

  method GreaterEqual(a: Fe, b: Fe) returns (ge: bool)
    ensures ge <==> Value(a) >= Value(b)
  {
    var i := 7;
    while i >= 0
      invariant -1 <= i <= 7
      invariant forall k :: i < k < 8 ==> a[k] == b[k]
    {
      if a[i] != b[i] {
        DecidedAt(a, b, i);
        return a[i] > b[i];
      }
      i := i - 1;
    }
    assert a == b;
    return true;
  }

  method IsZero(a: Fe) returns (zero: bool)
    ensures zero <==> Value(a) == 0
  {
    ValueZero(a);
    for i := 0 to 8
      invariant forall k :: 0 <= k < i ==> a[k] == 0
    {
      if a[i] != 0 {
        return false;
      }
    }
    return true;
  }

  /** a -= b, for a >= b. */
  method SubRaw(a: array<uint32>, b: Fe)
    requires a.Length == 8 && Value(a[..]) >= Value(b)
    modifies a
    ensures Value(a[..]) == old(Value(a[..])) - Value(b)
  {
    ghost var was := a[..];
    ghost var difference := Value(was) - Value(b);
    var borrow: int64 := 0;
    assert was == was[0..] && b == b[0..];
    for i := 0 to 8
      invariant 0 <= borrow <= 1
      invariant forall k :: i <= k < 8 ==> a[k] == was[k]
      invariant Tail(a[..i], Value(was[i..]) - Value(b[i..]) - borrow as int) == difference
    {
      ghost var low := a[..i];
      ValueAt(was, i);
      ValueAt(b, i);
      var diff: int64 := a[i] as int64 - b[i] as int64 - borrow;
      borrow := 0;
      if diff < 0 {
        diff := diff + 0x1_0000_0000;
        borrow := 1;
      }
      a[i] := diff as uint32;
      assert a[..i + 1] == low + [a[i]];
      TailSnoc(low, a[i], Value(was[i + 1..]) - Value(b[i + 1..]) - borrow as int);
    }
    assert a[..8] == a[..] && was[8..] == [] && b[8..] == [];
    CarryOut(a[..], -(borrow as int));
    CarryOut(was, 0);
  }

  /** Folds a carry out of limb 7 back in, 2^256 being 38 modulo p. The number falls at every round. */
  method FoldCarry(r: array<uint32>, carryIn: uint64)
    requires r.Length == 8 && carryIn < 0x1_0000_0000
    modifies r
    ensures Cong(Value(r[..]), old(Value(r[..])) + TWO_256 * carryIn as int, P)
  {
    hide Prime, Tail;
    var carry := carryIn;
    ghost var total := Value(r[..]) + TWO_256 * carry as int;
    while carry != 0
      invariant carry < 0x1_0000_0000
      invariant Cong(Value(r[..]) + TWO_256 * carry as int, total, P)
      decreases Value(r[..]) + TWO_256 * carry as int
    {
      ghost var before := Value(r[..]);
      FoldBack(before, carry as int);
      carry := AddFold(r, carry * 38);
    }
  }

  lemma FoldBack(x: int, high: int)
    ensures Cong(x + 38 * high, x + TWO_256 * high, P)
  {
    Constants();
    FoldBackModulo(x, high, P);
  }

  lemma FoldBackModulo(x: int, high: int, p: pos)
    requires TWO_256 == 2 * p + 38
    ensures Cong(x + 38 * high, x + TWO_256 * high, p)
  {
    MulAssociates(2, high, p);
    CongMultiple(x + 38 * high, 2 * high, p);
    MulDistributes(2 * p, 38, high);
  }

  /** One limb of a fold: the digit d goes out, the new carry stays. */
  lemma FoldStep(done: seq<uint32>, d: uint32, l: int, low: int, h: int, high: int, carry: int, next: int)
    requires l + 38 * h + carry == d as int + LIMB * next
    ensures Tail(done + [d], low + 38 * high + next)
            == Tail(done, (l + LIMB * low) + 38 * (h + LIMB * high) + carry)
  {
    TailSnoc(done, d, low + 38 * high + next);
  }

  /** One pass of the fold: adds a small number limb by limb while any of it is left, and returns the carry out. */
  method AddFold(r: array<uint32>, amount: uint64) returns (carry: uint64)
    requires r.Length == 8 && amount < 0x40_0000_0000
    modifies r
    ensures Value(r[..]) + TWO_256 * carry as int == old(Value(r[..])) + amount as int
    ensures carry <= 64
  {
    ghost var was := r[..];
    ghost var total := Value(was) + amount as int;
    var fold := amount;
    var i := 0;
    assert was == was[0..];
    TailNone([], total);
    assert Value([]) == 0;
    hide Tail, Value;
    while i < 8 && fold != 0
      invariant 0 <= i <= 8 && fold < 0x40_0000_0000 && (i > 0 ==> fold <= 64)
      invariant forall k :: i <= k < 8 ==> r[k] == was[k]
      invariant Tail(r[..i], Value(was[i..]) + fold as int) == total
    {
      ghost var low, before := r[..i], fold;
      ValueAt(was, i);
      var sum := r[i] as uint64 + Low32(fold) as uint64;
      r[i] := Low32(sum);
      fold := High32(fold) + High32(sum);
      assert r[..i + 1] == low + [r[i]];
      FoldStep(low, r[i], was[i] as int, Value(was[i + 1..]), 0, 0, before as int, fold as int);
      i := i + 1;
    }
    CarryOut(r[..], fold as int);
    carry := fold;
    if i == 8 {
      assert r[..8] == r[..] && was[8..] == [];
    } else {
      TailSplit(r[..], i);
      assert r[..][..i] == r[..i] && r[..][i..] == was[i..];
    }
  }

  /** Subtracts p until the number is below it. */
  method Reduce(r: array<uint32>)
    requires r.Length == 8
    modifies r
    ensures Value(r[..]) == Residue(old(Value(r[..])), P)
  {
    hide Prime, Tail;
    Constants();
    ghost var total := Value(r[..]);
    var ge := GreaterEqual(r[..], FE_P);
    while ge
      invariant ge <==> Value(r[..]) >= P
      invariant Cong(Value(r[..]), total, P)
      decreases Value(r[..])
    {
      CongMultiple(Value(r[..]) - P, 1, P);
      SubRaw(r, FE_P);
      ge := GreaterEqual(r[..], FE_P);
    }
    ResidueReduced(Value(r[..]), P);
  }

  /** a + b into the buffer, with the carry out of limb 7. */
  method AddLimbs(a: Fe, b: Fe) returns (r: array<uint32>, carry: uint64)
    ensures fresh(r) && r.Length == 8 && carry <= 1
    ensures Value(r[..]) + TWO_256 * carry as int == Value(a) + Value(b)
  {
    r := new uint32[8](_ => 0);
    carry := 0;
    ghost var total := Value(a) + Value(b);
    assert a == a[0..] && b == b[0..];
    for i := 0 to 8
      invariant carry <= 1
      invariant Tail(r[..i], Value(a[i..]) + Value(b[i..]) + carry as int) == total
    {
      ghost var low := r[..i];
      ValueAt(a, i);
      ValueAt(b, i);
      var sum := a[i] as uint64 + b[i] as uint64 + carry;
      r[i] := Low32(sum);
      carry := High32(sum);
      assert r[..i + 1] == low + [r[i]];
      TailSnoc(low, r[i], Value(a[i + 1..]) + Value(b[i + 1..]) + carry as int);
    }
    assert r[..8] == r[..] && a[8..] == [] && b[8..] == [];
    CarryOut(r[..], carry as int);
  }

  method Add(a: Fe, b: Fe) returns (r: Fe)
    ensures Value(r) == Residue(Value(a) + Value(b), P)
  {
    var buffer, carry := AddLimbs(a, b);
    FoldCarry(buffer, carry);
    Reduce(buffer);
    r := buffer[..];
  }

  /** a - b for operands up to p itself: p is added only when a < b, so p - 0 is p, unreduced. */
  method Sub(a: Fe, b: Fe) returns (r: Fe)
    requires Value(a) <= P && Value(b) <= P
    ensures Value(r) == if Value(a) >= Value(b) then Value(a) - Value(b) else Value(a) + P - Value(b)
  {
    Constants();
    CarryOut(a, 0);
    var buffer := new uint32[8](i requires 0 <= i < 8 => a[i]);
    assert buffer[..] == a;
    var ge := GreaterEqual(a, b);
    if !ge {
      var carry;
      buffer, carry := AddLimbs(a, FE_P);
      CarryOut(buffer[..], 0);
    }
    SubRaw(buffer, b);
    r := buffer[..];
  }

  /** One step of the product. All of limb + x * y + carry fits 64 bits, the largest being 2^64 - 1 exactly. */
  method Accumulate(limb: uint32, x: uint32, y: uint32, carry: uint64) returns (low: uint32, high: uint64)
    requires carry < 0x1_0000_0000
    ensures low as int + LIMB * high as int == limb as int + x as int * y as int + carry as int
    ensures high < 0x1_0000_0000
  {
    ghost var top := LIMB - 1;
    MulMonotonic(x as int, top, y as int);
    MulMonotonic(y as int, top, top);
    MulMonotonic(0, x as int, y as int);
    var sum := limb as uint64 + x as uint64 * y as uint64 + carry;
    low := Low32(sum);
    high := High32(sum);
  }

  /** x times the number of s, limb by limb. */
  ghost function Scaled(s: seq<uint32>, x: int): int {
    if s == [] then 0 else s[0] as int * x + LIMB * Scaled(s[1..], x)
  }

  lemma {:induction false} ScaledIsProduct(s: seq<uint32>, x: int)
    ensures Scaled(s, x) == Value(s) * x
  {
    if s != [] {
      ScaledIsProduct(s[1..], x);
      MulDistributes(s[0] as int, LIMB * Value(s[1..]), x);
    }
  }

  lemma ScaledNone(s: seq<uint32>, x: int)
    requires s == []
    ensures Scaled(s, x) == 0
  {
  }

  lemma ScaledAt(s: seq<uint32>, i: nat, x: int)
    requires i < |s|
    ensures Scaled(s[i..], x) == s[i] as int * x + LIMB * Scaled(s[i + 1..], x)
  {
    assert s[i..][1..] == s[i + 1..];
  }

  /** Adds x * b[j] into limb i + j. The number spelled by the finished limbs and the rest is kept. */
  method RowLimb(t: array<uint32>, x: uint32, b: Fe, i: nat, j: nat, carryIn: uint64, ghost was: seq<uint32>)
    returns (carry: uint64)
    requires t.Length == |was| == 16 && i < 8 && j < 8 && t[i + j] == was[i + j] && carryIn < 0x1_0000_0000
    modifies t
    ensures t[..] == old(t[..])[i + j := t[i + j]] && carry < 0x1_0000_0000
    ensures Tail(t[i..i + j + 1], Value(was[i + j + 1..]) + Scaled(b[j + 1..], x as int) + carry as int)
            == old(Tail(t[i..i + j], Value(was[i + j..]) + Scaled(b[j..], x as int) + carryIn as int))
  {
    ghost var done := t[i..i + j];
    ValueAt(was, i + j);
    ScaledAt(b, j, x as int);
    var low;
    low, carry := Accumulate(t[i + j], b[j], x, carryIn);
    t[i + j] := low;
    assert t[i..i + j + 1] == done + [low];
    TailSnoc(done, low, Value(was[i + j + 1..]) + Scaled(b[j + 1..], x as int) + carry as int);
  }

  /** The carry out of a row becomes the limb above it. */
  lemma RowEnd(was: seq<uint32>, now: seq<uint32>, i: nat)
    requires |was| == |now| == 16 && i < 8
    requires (forall k :: i + 8 <= k < 16 ==> was[k] == 0) && forall k :: i + 9 <= k < 16 ==> now[k] == 0
    ensures Value(now[i..]) == Tail(now[i..i + 8], Value(was[i + 8..]) + now[i + 8] as int)
  {
    ValueZero(was[i + 8..]);
    ValueZero(now[i + 9..]);
    ValueAt(now, i + 8);
    assert now[i..] == now[i..i + 8] + now[i + 8..];
    TailConcat(now[i..i + 8], now[i + 8..], 0);
  }

  /** One row of the schoolbook product: adds x * b above limb i. */
  method MulRow(t: array<uint32>, x: uint32, b: Fe, i: nat)
    requires t.Length == 16 && i < 8 && forall k :: i + 8 <= k < 16 ==> t[k] == 0
    modifies t
    ensures t[..i] == old(t[..i]) && forall k :: i + 9 <= k < 16 ==> t[k] == 0
    ensures Value(t[i..]) == old(Value(t[i..])) + Scaled(b, x as int)
  {
    hide Tail, Scaled;
    var carry: uint64 := 0;
    ghost var was := t[..];
    ghost var total := Value(was[i..]) + Scaled(b, x as int);
    assert b == b[0..];
    TailNone(t[i..i + 0], total);
    for j := 0 to 8
      invariant carry < 0x1_0000_0000
      invariant t[..i] == was[..i]
      invariant forall k :: i + j <= k < 16 ==> t[k] == was[k]
      invariant Tail(t[i..i + j], Value(was[i + j..]) + Scaled(b[j..], x as int) + carry as int) == total
    {
      carry := RowLimb(t, x, b, i, j, carry, was);
    }
    ScaledNone(b[8..], x as int);
    ghost var done := t[i..i + 8];
    t[i + 8] := Low32(carry);
    assert t[i..i + 8] == done;
    RowEnd(was, t[..], i);
  }

  /** The 512-bit product, schoolbook. */
  method MulWide(a: Fe, b: Fe) returns (t: array<uint32>)
    ensures fresh(t) && t.Length == 16
    ensures Value(t[..]) == Value(a) * Value(b)
  {
    t := new uint32[16](_ => 0);
    ghost var product := Scaled(a, Value(b));
    assert t[0..] == t[..] && a == a[0..];
    ValueZero(t[..]);
    for i := 0 to 8
      invariant forall k :: i + 8 <= k < 16 ==> t[k] == 0
      invariant Tail(t[..i], Value(t[i..]) + Scaled(a[i..], Value(b))) == product
    {
      ghost var done := t[..i];
      ScaledAt(a, i, Value(b));
      ScaledIsProduct(b, a[i] as int);
      MulRow(t, a[i], b, i);
      assert t[i..][1..] == t[i + 1..];
      assert t[..i + 1] == done + [t[i]];
      TailSnoc(done, t[i], Value(t[i + 1..]) + Scaled(a[i + 1..], Value(b)));
    }
    assert t[..] == t[..8] + t[8..] && a[8..] == [];
    TailConcat(t[..8], t[8..], 0);
    ScaledIsProduct(a, Value(b));
  }

  /** low + 38 * high, with the carry out of limb 7. */
  method FoldHalves(t: seq<uint32>) returns (r: array<uint32>, carry: uint64)
    requires |t| == 16
    ensures fresh(r) && r.Length == 8 && carry <= 38
    ensures Value(r[..]) + TWO_256 * carry as int == Value(t[..8]) + 38 * Value(t[8..])
  {
    r := new uint32[8](_ => 0);
    carry := 0;
    ghost var low, high := t[..8], t[8..];
    ghost var total := Value(low) + 38 * Value(high);
    assert low == low[0..] && high == high[0..];
    TailNone([], total);
    assert Value([]) == 0;
    hide Tail, Value;
    for i := 0 to 8
      invariant carry <= 38
      invariant Tail(r[..i], Value(low[i..]) + 38 * Value(high[i..]) + carry as int) == total
    {
      ghost var done, before := r[..i], carry;
      ValueAt(low, i);
      ValueAt(high, i);
      var sum := t[i] as uint64 + t[i + 8] as uint64 * 38 + carry;
      r[i] := Low32(sum);
      carry := High32(sum);
      assert r[..i + 1] == done + [r[i]];
      FoldStep(done, r[i], low[i] as int, Value(low[i + 1..]), high[i] as int, Value(high[i + 1..]), before as int,
               carry as int);
    }
    assert low[8..] == [] && high[8..] == [] && r[..8] == r[..];
    CarryOut(r[..], carry as int);
  }

  lemma FoldProduct(t: seq<uint32>)
    requires |t| == 16
    ensures Cong(Value(t[..8]) + 38 * Value(t[8..]), Value(t), P)
  {
    TailSplit(t, 8);
    CarryOut(t[..8], Value(t[8..]));
    FoldBack(Value(t[..8]), Value(t[8..]));
  }

  method Mul(a: Fe, b: Fe) returns (r: Fe)
    ensures Value(r) == Residue(Value(a) * Value(b), P)
  {
    var t := MulWide(a, b);
    FoldProduct(t[..]);
    var buffer, carry := FoldHalves(t[..]);
    FoldCarry(buffer, carry);
    Reduce(buffer);
    r := buffer[..];
  }

  /** base^exponent over the integers. */
  ghost function Power(base: int, exponent: nat): int {
    if exponent == 0 then 1 else base * Power(base, exponent - 1)
  }

  lemma {:induction false} PowerSum(base: int, i: nat, j: nat)
    ensures Power(base, i + j) == Power(base, i) * Power(base, j)
    decreases i
  {
    if i > 0 {
      PowerSum(base, i - 1, j);
      MulAssociates(base, Power(base, i - 1), Power(base, j));
    }
  }

  lemma {:induction false} PowerCong(a: int, b: int, exponent: nat, m: pos)
    requires Cong(a, b, m)
    ensures Cong(Power(a, exponent), Power(b, exponent), m)
  {
    if exponent > 0 {
      PowerCong(a, b, exponent - 1, m);
      CongMul(a, b, Power(a, exponent - 1), Power(b, exponent - 1), m);
    }
  }

  lemma PowerPrefix(base: int, exponent: nat, k: nat)
    ensures var full := Power(base, Prefix(exponent, k + 1));
            Power(base, Prefix(exponent, k)) == if Bit(exponent, k) == 1 then base * (full * full) else full * full
  {
    var q := Prefix(exponent, k + 1);
    PrefixStep(exponent, k);
    PowerSum(base, q, q);
  }

  lemma SquareStep(r: int, full: int, base: int)
    requires r == Residue(full, P)
    ensures Residue(r * r, P) == Residue(full * full, P)
    ensures Residue(Residue(r * r, P) * base, P) == Residue(base * (full * full), P)
  {
    CongResidue(full, P);
    CongMul(r, full, r, full, P);
    CongResidue(r * r, P);
    CongMul(Residue(r * r, P), full * full, base, base, P);
  }

  /** Square, and multiply when the next bit of the exponent is set. */
  lemma PowerStep(base: int, exponent: nat, k: nat, r: int)
    requires r == Residue(Power(base, Prefix(exponent, k + 1)), P)
    ensures Bit(exponent, k) == 0 ==> Residue(r * r, P) == Residue(Power(base, Prefix(exponent, k)), P)
    ensures Bit(exponent, k) == 1 ==>
              Residue(Residue(r * r, P) * base, P) == Residue(Power(base, Prefix(exponent, k)), P)
  {
    PowerPrefix(base, exponent, k);
    SquareStep(r, Power(base, Prefix(exponent, k + 1)), base);
  }

  /** base^exponent mod p by square-and-multiply from the most significant bit. */
  method Pow(base: Fe, exponent: Fe) returns (result: Fe)
    ensures Value(result) == Residue(Power(Value(base), Value(exponent)), P)
  {
    Constants();
    PrefixNone(exponent);
    result := FE_ONE;
    var bit := 255;
    while bit >= 0
      invariant -1 <= bit <= 255
      invariant Value(result) == Residue(Power(Value(base), Prefix(Value(exponent), bit + 1)), P)
    {
      PowerStep(Value(base), Value(exponent), bit, Value(result));
      BitOfLimbs(exponent, bit);
      result := Mul(result, result);
      if LimbBit(exponent[bit / 32], bit % 32) {
        result := Mul(result, base);
      }
      bit := bit - 1;
    }
  }
}
