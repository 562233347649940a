"""Writes Sha2Constants.dfy and Sha2Vectors.dfy.

The first proves where the constants of the two hash functions come from: the verifier compares the cube of a literal
with a multiple of a prime. The second computes the two digests of "abc": every word of the message schedule and every
state of the rounds is given, and the verifier only has to carry out one step."""

PRIMES = [n for n in range(2, 410) if all(n % d for d in range(2, n))]


def root(n, k):
    """The integer k-th root of n."""
    low, high = 0, 1 << 300
    while low < high:
        mid = (low + high + 1) // 2
        low, high = (mid, high) if mid ** k <= n else (low, mid - 1)
    return low


class Variant:
    def __init__(self, name, bits, rounds, big0, big1, small0, small1):
        self.name, self.bits, self.rounds = name, bits, rounds
        self.sigmas = big0, big1, small0, small1
        self.one = 1 << bits
        self.constants = [root(p << (3 * bits), 3) % self.one for p in PRIMES[:rounds]]
        self.initial = [root(p << (2 * bits), 2) % self.one for p in PRIMES[:8]]

    def rotr(self, x, n):
        return (x >> n | x << (self.bits - n)) % self.one

    def big(self, s, x):
        return self.rotr(x, s[0]) ^ self.rotr(x, s[1]) ^ self.rotr(x, s[2])

    def small(self, s, x):
        return self.rotr(x, s[0]) ^ self.rotr(x, s[1]) ^ x >> s[2]

    def schedule(self, block):
        w = list(block)
        for t in range(16, self.rounds):
            w.append((w[t - 16] + self.small(self.sigmas[2], w[t - 15]) + w[t - 7]
                      + self.small(self.sigmas[3], w[t - 2])) % self.one)
        return w

    def states(self, w):
        a, b, c, d, e, f, g, h = self.initial
        states = [self.initial]
        for t in range(self.rounds):
            t1 = h + self.big(self.sigmas[1], e) + (e & f ^ ~e & g) + self.constants[t] + w[t]
            t2 = self.big(self.sigmas[0], a) + (a & b ^ a & c ^ b & c)
            a, b, c, d, e, f, g, h = (t1 + t2) % self.one, a, b, c, (d + t1) % self.one, e, f, g
            states.append([a, b, c, d, e, f, g, h])
        return states

    def num(self, n):
        return "0x%0*x" % (self.bits // 4, n)


VARIANTS = [
    Variant("256", 32, 64, (2, 13, 22), (6, 11, 25), (7, 18, 3), (17, 19, 10)),
    Variant("512", 64, 80, (28, 34, 39), (14, 18, 41), (1, 8, 7), (19, 61, 6))]

lines = []


def out(text=""):
    indent = " " * (len(text) - len(text.lstrip()) + 4)
    while len(text) > 120:
        cut = text.rindex(", ", 0, 120) + 1
        lines.append(text[:cut])
        text = indent + text[cut + 1:]
    lines.append(text)


def is_root(name):
    """A number with a root is given with the integer part of the root."""
    out("  lemma Is%s(k: Word, n: nat, p: nat, one: nat)" % name)
    out("    requires %sRoot(n, k as nat, p, one)" % name)
    out("    ensures From%sRoot(k as nat, p, one)" % name)
    out("  {")
    out("  }")
    out()


def constants():
    out("/** Where the constants of SHA-256 and SHA-512 come from. sha2_vectors.py writes this file. */")
    out("module Sha2Constants {")
    out("  import opened Sha2")
    out("  import opened Sha2Variants")
    out()
    for c in range(10):
        out("  const P_%d: seq<nat> := [%s]" % (c, ", ".join(map(str, PRIMES[8 * c:8 * c + 8]))))
    out()
    for n in 64, 80:
        out("  /** The first %d prime numbers. */" % n)
        out("  const PRIMES_%d := %s" % (n, " + ".join("P_%d" % c for c in range(n // 8))))
        out()
    for name, power, base in (("Cube", 3, "x * x * x"), ("Square", 2, "x * x")):
        out("  /** k / one is the fractional part of the %s root of p, cut off, if n is the integer part. */" % name.lower())
        out("  predicate %sRoot(n: nat, k: nat, p: nat, one: nat) {" % name)
        out("    var x := n * one + k;")
        ones = " * ".join(["one"] * power)
        out("    k < one && %s <= p * (%s) < %s" % (base, ones, base.replace("x", "(x + 1)")))
        out("  }")
        out()
        out("  ghost predicate From%sRoot(k: nat, p: nat, one: nat) {" % name)
        out("    exists n: nat :: %sRoot(n, k, p, one)" % name)
        out("  }")
        out()
    is_root("Cube")
    is_root("Square")
    out("  /** Each word of k is the fractional part of the cube root of the number of p at the same place. */")
    out("  ghost predicate CubeRoots(k: seq<Word>, p: seq<nat>, one: nat) {")
    out("    |k| == |p| && forall i :: 0 <= i < |k| ==> FromCubeRoot(k[i] as nat, p[i], one)")
    out("  }")
    out()
    out("  lemma RowOf(k: seq<Word>, p: seq<nat>, one: nat)")
    out("    requires |k| == 8 == |p|")
    for i in range(8):
        out("    requires FromCubeRoot(k[%d] as nat, p[%d], one)" % (i, i))
    out("    ensures CubeRoots(k, p, one)")
    out("  {")
    out("    hide FromCubeRoot;")
    out("  }")
    out()
    out("  lemma JoinRows(k: seq<Word>, p: seq<nat>, k': seq<Word>, p': seq<nat>, one: nat)")
    out("    requires CubeRoots(k, p, one) && CubeRoots(k', p', one)")
    out("    ensures CubeRoots(k + k', p + p', one)")
    out("  {")
    out("    hide FromCubeRoot;")
    out("  }")
    out()
    for v in VARIANTS:
        one = "0x1" + "_0000" * (v.bits // 16)
        rows = v.rounds // 8
        for c in range(rows):
            out("  lemma Row%s_%d()" % (v.name, c))
            out("    ensures CubeRoots(K%s_%d, P_%d, %s)" % (v.name, c, c, one))
            out("  {")
            out("    hide FromCubeRoot, CubeRoots;")
            for i in range(8 * c, 8 * c + 8):
                out("    IsCube(%s, %d, %d, %s);" % (v.num(v.constants[i]), root(PRIMES[i], 3), PRIMES[i], one))
            out("    RowOf(K%s_%d, P_%d, %s);" % (v.name, c, c, one))
            out("  }")
            out()
        out("  /** The constants of SHA-%s are the first %d bits of the fractional parts of the cube roots of the primes. */"
            % (v.name, v.bits))
        out("  lemma Constants%s()" % v.name)
        out("    ensures CubeRoots(SHA%s.constants, PRIMES_%d, %s)" % (v.name, v.rounds, one))
        out("  {")
        out("    hide CubeRoots;")
        for c in range(rows):
            out("    Row%s_%d();" % (v.name, c))
        k, p = "K%s_0" % v.name, "P_0"
        out("    var k, p := %s, %s;" % (k, p))
        for c in range(1, rows):
            out("    JoinRows(k, p, K%s_%d, P_%d, %s);" % (v.name, c, c, one))
            out("    k, p := k + K%s_%d, p + P_%d;" % (v.name, c, c))
        out("  }")
        out()
        out("  /** The initial hash value is the same of their square roots. */")
        out("  lemma Initial%s()" % v.name)
        for i in range(8):
            out("    ensures FromSquareRoot(SHA%s.initial.%s as nat, %d, %s)" % (v.name, "abcdefgh"[i], PRIMES[i], one))
        out("  {")
        out("    hide FromSquareRoot;")
        for i in range(8):
            out("    IsSquare(%s, %d, %d, %s);" % (v.num(v.initial[i]), root(PRIMES[i], 2), PRIMES[i], one))
        out("  }")
        out()
    lines[-1] = "}"


def registers(v, state):
    return "Registers(%s)" % ", ".join(map(v.num, state))


def schedule_rows(v, w):
    """The words of the schedule, eight to a lemma."""
    for c in range(v.rounds // 8):
        out("  lemma Words%s_%d(p: Parameters, block: seq<Word>)" % (v.name, c))
        out("    requires Is%s(p) && block == BLOCK_%s" % (v.name, v.name))
        for t in range(8 * c, 8 * c + 8):
            out("    ensures W(p, block, %d) == %s" % (t, v.num(w[t])))
        out("  {")
        if c >= 2:
            out("    hide W;")
            out("    Words%s_%d(p, block);" % (v.name, c - 2))
            out("    Words%s_%d(p, block);" % (v.name, c - 1))
            for t in range(8 * c, 8 * c + 8):
                out("    WordAt(p, block, %d, %s);" % (t, v.num(w[t])))
        out("  }")
        out()


def state_rows(v, w, states):
    rows = " + ".join("K%s_%d" % (v.name, c) for c in range(v.rounds // 8))
    """The states after the rounds, eight to a lemma."""
    for c in range(v.rounds // 8):
        out("  lemma States%s_%d(p: Parameters, start: Registers, block: seq<Word>)" % (v.name, c))
        out("    requires Is%s(p) && block == BLOCK_%s" % (v.name, v.name))
        out("    requires p.constants == %s" % rows)
        out("    requires Rounds(p, start, block, %d) == %s" % (8 * c, registers(v, states[8 * c])))
        out("    ensures Rounds(p, start, block, %d) == %s" % (8 * c + 8, registers(v, states[8 * c + 8])))
        out("  {")
        out("    hide W, Rounds;")
        out("    Words%s_%d(p, block);" % (v.name, c))
        out("    Row%s_%d(p);" % (v.name, c))
        for t in range(8 * c, 8 * c + 8):
            out("    StateAt(p, start, block, %d, %s);" % (t, registers(v, states[t + 1])))
        out("  }")
        out()


def digest(v, states):
    """The block of the padded message, the state at its end and the digest."""
    n = v.bits // 8
    final = [(x + y) % v.one for x, y in zip(v.initial, states[-1])]
    spelled = [["0x%02x" % b for b in x.to_bytes(n, "big")] for x in final]
    out("  lemma Block%s(p: Parameters)" % v.name)
    out("    requires Is%s(p)" % v.name)
    out("    ensures |Pad(ABC, %d, %d)| == %d" % (16 * n, 2 * n, 16 * n))
    out("    ensures BlockWords(p, Pad(ABC, %d, %d)) == BLOCK_%s" % (16 * n, 2 * n, v.name))
    out("  {")
    out("    hide Pad, WordsOf, WordOf;")
    out("    var s: seq<byte> := [0x61, 0x62, 0x63, 0x80];")
    out("    PadWholeBlocks(ABC, %d, %d);" % (16 * n, 2 * n))
    out("    AbcPadded(%d, %d, %d);" % (16 * n, 2 * n, n))
    out("    AbcWords(%d, %d, %d);" % (16 * n, 2 * n, n))
    out("    FourBytes(0x61, 0x62, 0x63, 0x80);")
    for k in range(n - 3):
        out("    ZerosAppended(s, %d);" % k)
    value = 0
    for k, b in enumerate([0x61, 0x62, 0x63, 0x80] + [0] * (n - 4)):
        out("    assert AppendByte(%s, 0x%02x) == %s;" % (v.num(value), b, v.num(value << 8 | b)))
        value = value << 8 | b
    out("    assert [%s] + (seq(14, _ => 0 as Word) + [24]) == BLOCK_%s;" % (v.num(value), v.name))
    out("  }")
    out()
    out("  lemma End%s()" % v.name)
    out("    ensures Rounds(SHA%s, SHA%s.initial, BLOCK_%s, %d) == %s"
        % (v.name, v.name, v.name, v.rounds, registers(v, states[-1])))
    out("  {")
    out("    hide W, Round;")
    out("    var p, start := SHA%s, SHA%s.initial;" % (v.name, v.name))
    out("    assert Rounds(p, start, BLOCK_%s, 0) == start;" % v.name)
    for c in range(v.rounds // 8):
        out("    States%s_%d(p, start, BLOCK_%s);" % (v.name, c, v.name))
    out("  }")
    out()
    for i in range(8):
        out("  lemma DigestWord%s_%d()" % (v.name, i))
        out("    ensures BytesOf(%s, %d) == [%s]" % (v.num(final[i]), n, ", ".join(spelled[i])))
        out("  {")
        out("    hide BytesOf;")
        out("    %sOf(%s);" % ("Four" if n == 4 else "Eight", ", ".join("0x%x" % (final[i] >> 8 * j) for j in range(n))))
        out("  }")
        out()
    out("  lemma EndSum%s()" % v.name)
    out("    ensures Plus(SHA%s, SHA%s.initial, %s) == %s" % (v.name, v.name, registers(v, states[-1]), registers(v, final)))
    out("  {")
    out("  }")
    out()
    out("  lemma Abc%s()" % v.name)
    if n == 4:
        out("    ensures Sha%s(ABC) == [" % v.name)
        for i in range(0, 8, 4):
            out("      %s%s" % (", ".join(sum(spelled[i:i + 4], [])), "," if i < 4 else "]"))
    else:
        out("    ensures Sha%s(ABC) ==" % v.name)
        for i in range(8):
            out("      [%s]%s" % (", ".join(spelled[i]), " +" if i < 7 else ""))
    out("  {")
    out("    hide Pad, BlockWords, Rounds, Plus, Spelled, BytesOf, Digest;")
    out("    BothSound();")
    out("    Block%s(SHA%s);" % (v.name, v.name))
    out("    End%s();" % v.name)
    out("    OneBlock(SHA%s, ABC, %s);" % (v.name, registers(v, states[-1])))
    out("    EndSum%s();" % v.name)
    out("    SpelledRegisters(%s, %d);" % (registers(v, final), n))
    for i in range(8):
        out("    DigestWord%s_%d();" % (v.name, i))
    out("  }")
    out()


def vectors():
    out("/** The digests of \"abc\". sha2_vectors.py writes this file. */")
    out("module Sha2Vectors {")
    out("  import opened Words")
    out("  import opened Padding")
    out("  import opened Sha2")
    out("  import opened Sha2Variants")
    out("  import opened Sha2Steps")
    out()
    for v in VARIANTS:
        n = v.bits // 8
        w = v.schedule([0x61626380 << (v.bits - 32)] + [0] * 14 + [24])
        states = v.states(w)
        out("  const BLOCK_%s: seq<Word> := [%s]" % (v.name, ", ".join(v.num(x) for x in w[:16])))
        out()
        out("  predicate Is%s(p: Parameters) {" % v.name)
        out("    && Sound(p) && p.bits == %d && p.Rounds() == %d" % (v.bits, v.rounds))
        out("    && p.big0 == Sigma(%d, %d, %d) && p.big1 == Sigma(%d, %d, %d)" % (v.sigmas[0] + v.sigmas[1]))
        out("    && p.small0 == Sigma(%d, %d, %d) && p.small1 == Sigma(%d, %d, %d)" % (v.sigmas[2] + v.sigmas[3]))
        out("  }")
        out()
        rows = " + ".join("K%s_%d" % (v.name, c) for c in range(v.rounds // 8))
        for c in range(v.rounds // 8):
            out("  lemma Row%s_%d(p: Parameters)" % (v.name, c))
            out("    requires p.constants == %s" % rows)
            out("    ensures |p.constants| == %d" % v.rounds)
            for t in range(8 * c, 8 * c + 8):
                out("    ensures p.constants[%d] == %s" % (t, v.num(v.constants[t])))
            out("  {")
            out("  }")
            out()
        schedule_rows(v, w)
        state_rows(v, w, states)
        digest(v, states)
    lines[-1] = "}"


constants()
open("Sha2Constants.dfy", "w").write("\n".join(lines) + "\n")
del lines[:]
vectors()
open("Sha2Vectors.dfy", "w").write("\n".join(lines) + "\n")
