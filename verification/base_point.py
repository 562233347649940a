"""Writes BasePoint.dfy: the proof by computation that the standard base point of edwards25519 decodes.

Every step of the exponentiation is given by the quotient of a square or a product by p; the verifier only has to
multiply and compare."""

P = 2**255 - 19
D = (-121665 * pow(121666, P - 2, P)) % P
Y = 4 * pow(5, P - 2, P) % P

lines = []


def out(text=""):
    while len(text) > 120 and ", " in text[:118]:
        cut = text.rindex(", ", 0, 118) + 1
        lines.append(text[:cut])
        text = "        " + text[cut + 1:]
    lines.append(text)


def num(n):
    return "0x%x" % n


def cong(left, right, value, reduced):
    """assert left == reduced + q * p, so that it is congruent to reduced."""
    q = (value - reduced) // P
    assert value == reduced + q * P
    out("    CongMultiple(%s, %s, P);" % (right, num(q) if q >= 0 else "-" + num(-q)))


class Chain:
    """One lemma of the chain: powers of W, each with its exponent."""

    def __init__(self, name, start, known, goal_exponent, doc=None):
        self.name, self.goal = name, goal_exponent
        self.e, self.t = start
        if doc:
            out("  /** %s */" % doc)
        out("  lemma %s()" % name)
        goal = pow(W, goal_exponent, P)
        out("    ensures IsPower(W, %s, %s)" % (num(goal_exponent), num(goal)))
        out("  {")
        out("    hide Prime, IsPower;")
        for k in known:
            out("    %s();" % k)
        out("    var e, t := %s, %s;" % (num(self.e), num(self.t)))

    def square(self, times=1):
        for _ in range(times):
            q, r = divmod(self.t * self.t, P)
            out("    e, t := Times(W, e, t, e, t, %s);" % num(q))
            self.e, self.t = 2 * self.e, r
        return self

    def times(self, f, s):
        q, r = divmod(self.t * s, P)
        out("    e, t := Times(W, e, t, %s, %s, %s);" % (num(f), num(s), num(q)))
        self.e, self.t = self.e + f, r
        return self

    def end(self):
        assert self.e == self.goal and self.t == pow(W, self.goal, P)
        out("  }")
        out()


U = (Y * Y - 1) % P
V = (D * Y * Y + 1) % P
V2 = V * V % P
V3 = V2 * V % P
V6 = V3 * V3 % P
V7 = V6 * V % P
W = U * V7 % P
UV3 = U * V3 % P
E = (P - 5) // 8
X = pow(W, E, P)
C = UV3 * X % P
assert V * C * C % P == U and C % 2 == 1

out("/** The standard base point of edwards25519, y = 4/5 with the even x. base_point.py writes this file. */")
out("module BasePoint {")
for m in ["Words", "ModArith", "Limbs", "Bytes", "Field", "EdwardsLaw", "Curve"]:
    out("  import opened %s" % m)
out()
enc = Y.to_bytes(32, "little")
out("  const BASE_ENCODING: seq<byte> := [")
out("    " + ", ".join("0x%02x" % b for b in enc[:16]) + ",")
out("    " + ", ".join("0x%02x" % b for b in enc[16:]) + "]")
out()
out("  const BASE_X: int := %s" % num(P - C))
out("  const BASE_Y: int := %s" % num(Y))
out()
for name, value in [("U", U), ("V", V), ("V3", V3), ("W", W), ("ROOT", C)]:
    out("  const %s: int := %s" % (name, num(value)))
out()
out("""  /** The 31 equal bytes of the encoding. */
  ghost function Power256(n: nat): nat {
    if n == 0 then 1 else 0x100 * Power256(n - 1)
  }

  lemma {:induction false} EqualBytes(s: seq<byte>)
    requires forall i :: 0 <= i < |s| ==> s[i] == 0x66
    ensures 5 * BytesValue(s) == 2 * (Power256(|s|) - 1)
  {
    if s != [] {
      EqualBytes(s[1..]);
    }
  }

  lemma EncodedValue()
    ensures BytesValue(BASE_ENCODING) == BASE_Y
  {
    assert Power256(8) == 0x1_0000_0000_0000_0000;
    assert Power256(16) == 0x1_0000_0000_0000_0000_0000_0000_0000_0000;
    assert Power256(24) == 0x1_0000_0000_0000_0000_0000_0000_0000_0000_0000_0000_0000_0000;
    assert Power256(31) == %s;
    EqualBytes(BASE_ENCODING[1..]);
  }

  ghost predicate IsPower(base: int, e: nat, t: int) {
    Cong(Power(base, e), t, P)
  }

  /** One multiplication of the chain; q is the quotient of the product by p. */
  lemma Times(base: int, e: nat, t: int, f: nat, s: int, q: int) returns (ef: nat, ts: int)
    requires IsPower(base, e, t) && IsPower(base, f, s)
    ensures ef == e + f && ts == t * s - q * %s
    ensures IsPower(base, ef, ts)
  {
    ef, ts := e + f, t * s - q * P;
    Constants();
    hide Prime;
    PowerSum(base, e, f);
    CongMul(Power(base, e), t, Power(base, f), s, P);
    CongMultiple(t * s, -q, P);
  }

  lemma Ones1()
    ensures IsPower(W, 1, W)
  {
    assert Power(W, 1) == W * Power(W, 0);
  }
""" % (num(256**31), num(P)))


def ones(n):
    return 2**n - 1


def power(e):
    return (e, pow(W, e, P))


def run(n, k, doc=None):
    """The lemmas that lead from exponent 2^n - 1 to (2^n - 1) 2^k, at most twenty squarings each."""
    known, done = "Ones%d" % n, 0
    while done < k:
        more = min(20, k - done)
        e = ones(n) * 2**done
        name = "Ones%dTimes%d" % (n, done + more)
        Chain(name, power(e), [known], e * 2**more, doc).square(more).end()
        known, done, doc = name, done + more, None
    return known


def join(n, k):
    """From 2^n - 1 and 2^k - 1 to 2^(n + k) - 1."""
    known = run(n, k)
    Chain("Ones%d" % (n + k), power(ones(n) * 2**k), sorted({known, "Ones%d" % k}), ones(n + k)) \
        .times(*power(ones(k))).end()


out("  // W to the exponents 2^n - 1, from n = 1 up to 250.")
out()
for n, k in [(1, 1), (2, 1), (3, 2), (5, 5), (10, 10), (20, 20), (40, 10), (50, 50), (100, 100), (200, 50)]:
    join(n, k)
Chain("RootPower", power(ones(250)), ["Ones1", "Ones250"], E, "The exponent (p - 5) / 8 is 2^252 - 3.") \
    .square(2).times(1, W).end()


def step(doc, name, requires, ensures, body):
    if doc:
        out("  /** %s */" % doc)
    out("  lemma %s" % name)
    for r in requires:
        out("    requires %s" % r)
    for r in ensures:
        out("    ensures %s" % r)
    out("  {")
    for b in body:
        out("    %s" % b)
    out("  }")
    out()


def quotient(value, reduced):
    q = (value - reduced) // P
    assert value == reduced + q * P
    return num(q)


step("a * b is congruent to r when it is r plus q times p, for congruent factors.",
     "Product(a: int, a': int, b: int, b': int, q: int, r: int)",
     ["Cong(a, a', P) && Cong(b, b', P) && a' * b' == r + q * %s" % num(P)],
     ["Cong(a * b, r, P)"],
     ["Constants();", "hide Prime;", "CongMul(a, a', b, b', P);", "CongMultiple(r, q, P);"])

dyy = D * Y * Y % P
step(None, "UAndVValues()", [], ["Cong(CurveU(BASE_Y), U, P) && Cong(CurveV(BASE_Y), V, P)"],
     ["hide Prime, EdwardsD;",
      "Product(BASE_Y, BASE_Y, BASE_Y, BASE_Y, %s, %s);" % (quotient(Y * Y, Y * Y % P), num(Y * Y % P)),
      "DValue();",
      "Product(D, D, BASE_Y * BASE_Y, %s, %s, %s);" % (num(Y * Y % P), quotient(D * (Y * Y % P), dyy), num(dyy)),
      "CongAdd(BASE_Y * BASE_Y, %s, 1, 1, P);" % num(Y * Y % P),
      "CongAdd(D * (BASE_Y * BASE_Y), %s, 1, 1, P);" % num(dyy)])

step(None, "DValue()", [], ["D == %s" % num(D)], ["ValueOfEight(FE_D);"])

step(None, "CandidateValue()", [], ["Cong(Candidate(BASE_Y), ROOT, P)"],
     ["hide Prime, EdwardsD, CurveU, CurveV, IsPower;",
      "UAndVValues();",
      "var u, v := CurveU(BASE_Y), CurveV(BASE_Y);",
      "Product(v, V, v, V, %s, %s);" % (quotient(V * V, V2), num(V2)),
      "Product(v * v, %s, v, V, %s, V3);" % (num(V2), quotient(V2 * V, V3)),
      "var v3 := v * v * v;",
      "Product(v3, V3, v3, V3, %s, %s);" % (quotient(V3 * V3, V6), num(V6)),
      "Product(v3 * v3, %s, v, V, %s, %s);" % (num(V6), quotient(V6 * V, V7), num(V7)),
      "Product(u, U, v3 * v3 * v, %s, %s, W);" % (num(V7), quotient(U * V7, W)),
      "Product(u, U, v3, V3, %s, %s);" % (quotient(U * V3, UV3), num(UV3)),
      "RootExponent();",
      "Constants();",
      "RootPower();",
      "PowerOf(u * (v3 * v3 * v), %s, %s);" % (num(E), num(X)),
      "assert Value(FE_P_MINUS_5_OVER_8) == %s;" % num(E),
      "Product(u * v3, %s, Power(u * (v3 * v3 * v), %s), %s," % (num(UV3), num(E), num(X)),
      "        %s, ROOT);" % quotient(UV3 * X, C)])

step(None, "PowerOf(w: int, e: nat, t: int)", ["Cong(w, W, P) && IsPower(W, e, t)"], ["Cong(Power(w, e), t, P)"],
     ["hide Prime;", "PowerCong(w, W, e, P);"])

step(None, "RootValue()", [], ["RootFound(BASE_Y) && Root(BASE_Y) == ROOT"],
     ["hide Prime, EdwardsD, Candidate, CurveU, CurveV;",
      "CandidateValue();",
      "UAndVValues();",
      "var c := Candidate(BASE_Y);",
      "Product(c, ROOT, c, ROOT, %s, %s);" % (quotient(C * C, C * C % P), num(C * C % P)),
      "Product(CurveV(BASE_Y), V, c * c, %s, %s, U);" % (num(C * C % P), quotient(V * (C * C % P), U)),
      "Constants();",
      "ResidueReduced(ROOT, P);"])

out("""  /** An encoding without the sign bit, of a y whose root is odd. */
  lemma DecodesNegated(encoded: seq<byte>, y: int, root: int)
    requires |encoded| == 32 && BytesValue(encoded) == y && 0 <= y < P
    requires RootFound(y) && Root(y) == root && root %% 2 == 1
    ensures Decodable(encoded) && Decoded(encoded) == Ext(P - root, y, 1, Residue((P - root) * y, P))
  {
    hide Prime, EdwardsD, RootFound, Root, Residue, BytesValue, Cong;
    assert y < TWO_255 by { Constants(); }
    DivModUnique(y, TWO_255, 0, y);
  }

  /** The standard encoding decodes: to the point with y = 4/5 and the even x, which is not the neutral point. */
  lemma BaseDecodes()
    ensures Decodable(BASE_ENCODING)
    ensures Decoded(BASE_ENCODING) == Ext(BASE_X, BASE_Y, 1, Residue(BASE_X * BASE_Y, P))
    ensures Cong(5 * BASE_Y, 4, P) && BASE_X %% 2 == 0 && BASE_X != 0
  {
    hide Prime, EdwardsD, RootFound, Root, Residue, Cong, Decodable, Decoded, BytesValue;
    EncodedValue();
    RootValue();
    Constants();
    DecodesNegated(BASE_ENCODING, BASE_Y, ROOT);
    CongMultiple(4, %s, P);
  }
}""" % quotient(5 * Y, 4))

with open("BasePoint.dfy", "w") as f:
    f.write("\n".join(lines) + "\n")
