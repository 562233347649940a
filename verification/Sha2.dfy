/** SHA-256 and SHA-512 (FIPS 180-4). The two sources are the same algorithm over words of 32 and 64 bits, so
    both are one model with the word size, constants and rotation counts as parameters. A word is held in 64 bits;
    with 32-bit words every result that could be longer is cut. */
module Sha2 {
  import opened Words
  import opened Padding

  type Word = bv64

  datatype Sigma = Sigma(x: Word, y: Word, z: Word)

  datatype Parameters = Parameters(
    bits: nat, constants: seq<Word>, initial: Registers, big0: Sigma, big1: Sigma, small0: Sigma, small1: Sigma)
  {
    function Rounds(): nat { |constants| }
    function WordBytes(): nat { if bits == 32 then 4 else 8 }
    function BlockBytes(): nat { if bits == 32 then 64 else 128 }
    function LengthBytes(): nat { if bits == 32 then 8 else 16 }
    /** The low bits of x. */
    function Wrap(x: Word): Word { if bits == 32 then x & 0xFFFF_FFFF else x }
  }

  datatype Registers = Registers(a: Word, b: Word, c: Word, d: Word, e: Word, f: Word, g: Word, h: Word)

  predicate Rotates(p: Parameters, s: Sigma) {
    var most: Word := if p.bits == 32 then 32 else 64;
    s.x <= most && s.y <= most && s.z <= most
  }

  /** What the loops need of the parameters. */
  predicate Sound(p: Parameters) {
    && (p.bits == 32 || p.bits == 64)
    && 16 <= |p.constants|
    && Rotates(p, p.big0) && Rotates(p, p.big1) && Rotates(p, p.small0) && Rotates(p, p.small1)
  }

  function RotR(p: Parameters, x: Word, n: Word): Word
    requires n <= if p.bits == 32 then 32 else 64
  {
    p.Wrap((x >> n) | (x << ((if p.bits == 32 then 32 else 64) - n)))
  }

  /** Addition modulo the word size. */
  function Sum(p: Parameters, x: Word, y: Word): Word {
    p.Wrap(x + y)
  }

  // Sections 4.1.2 and 4.1.3: the functions.

  function Big(p: Parameters, s: Sigma, x: Word): Word
    requires Rotates(p, s)
  {
    RotR(p, x, s.x) ^ RotR(p, x, s.y) ^ RotR(p, x, s.z)
  }

  function Small(p: Parameters, s: Sigma, x: Word): Word
    requires Rotates(p, s)
  {
    RotR(p, x, s.x) ^ RotR(p, x, s.y) ^ (x >> s.z)
  }

  function Ch(p: Parameters, x: Word, y: Word, z: Word): Word {
    (x & y) ^ (p.Wrap(!x) & z)
  }

  function Maj(x: Word, y: Word, z: Word): Word {
    (x & y) ^ (x & z) ^ (y & z)
  }

  // Sections 6.2.2 and 6.4.2: message schedule, rounds and hash values.

  ghost function W(p: Parameters, block: seq<Word>, t: nat): Word
    requires Sound(p) && |block| == 16
  {
    if t < 16 then block[t]
    else
      Sum(p, Sum(p, Sum(p, W(p, block, t - 16), Small(p, p.small0, W(p, block, t - 15))), W(p, block, t - 7)),
          Small(p, p.small1, W(p, block, t - 2)))
  }

  ghost function Round(p: Parameters, r: Registers, k: Word, w: Word): Registers
    requires Sound(p)
  {
    var t1 := Sum(p, Sum(p, Sum(p, Sum(p, r.h, Big(p, p.big1, r.e)), Ch(p, r.e, r.f, r.g)), k), w);
    var t2 := Sum(p, Big(p, p.big0, r.a), Maj(r.a, r.b, r.c));
    Registers(Sum(p, t1, t2), r.a, r.b, r.c, Sum(p, r.d, t1), r.e, r.f, r.g)
  }

  ghost function Rounds(p: Parameters, start: Registers, block: seq<Word>, t: nat): Registers
    requires Sound(p) && |block| == 16 && t <= p.Rounds()
  {
    if t == 0 then start
    else Round(p, Rounds(p, start, block, t - 1), p.constants[t - 1], W(p, block, t - 1))
  }

  function Plus(p: Parameters, x: Registers, y: Registers): Registers {
    Registers(Sum(p, x.a, y.a), Sum(p, x.b, y.b), Sum(p, x.c, y.c), Sum(p, x.d, y.d),
              Sum(p, x.e, y.e), Sum(p, x.f, y.f), Sum(p, x.g, y.g), Sum(p, x.h, y.h))
  }

  function AppendByte(w: Word, b: byte): Word {
    (w << 8) | (b as Word)
  }

  /** Bytes, most significant first. */
  ghost function WordOf(s: seq<byte>): Word {
    if s == [] then 0 else AppendByte(WordOf(s[..|s| - 1]), s[|s| - 1])
  }

  /** Bytes read as words of n bytes each. */
  ghost function WordsOf(s: seq<byte>, n: nat): (words: seq<Word>)
    requires n == 4 || n == 8
    ensures n == 4 ==> |words| == |s| / 4
    ensures n == 8 ==> |words| == |s| / 8
    decreases |s|
  {
    if |s| < n then [] else [WordOf(s[..n])] + WordsOf(s[n..], n)
  }

  ghost function BlockWords(p: Parameters, block: seq<byte>): (b: seq<Word>)
    requires Sound(p) && |block| == p.BlockBytes()
    ensures |b| == 16
  {
    WordsOf(block, p.WordBytes())
  }

  ghost function Compress(p: Parameters, state: Registers, block: seq<byte>): Registers
    requires Sound(p) && |block| == p.BlockBytes()
  {
    Plus(p, state, Rounds(p, state, BlockWords(p, block), p.Rounds()))
  }

  /** The hash value after all blocks of a padded message. */
  ghost function CompressAll(p: Parameters, state: Registers, message: seq<byte>): Registers
    requires Sound(p)
    decreases |message|
  {
    var n := p.BlockBytes();
    if |message| < n then state else CompressAll(p, Compress(p, state, message[..n]), message[n..])
  }

  function AsSeq(r: Registers): (s: seq<Word>)
    ensures |s| == 8
  {
    [r.a, r.b, r.c, r.d, r.e, r.f, r.g, r.h]
  }

  function LastByte(w: Word): byte {
    (w & 0xFF) as byte
  }

  /** Byte i of a word, counted from the least significant: (w >> 8 * i) & 0xFF. */
  function ByteOf(w: Word, i: nat): byte {
    if i == 0 then LastByte(w) else ByteOf(w >> 8, i - 1)
  }

  /** The low n bytes of a word, most significant first. */
  function BytesOf(w: Word, n: nat): (s: seq<byte>)
    requires n <= 8
    ensures |s| == n
  {
    if n == 0 then [] else [ByteOf(w, n - 1)] + BytesOf(w, n - 1)
  }

  /** Words spelled as n bytes each. */
  ghost function Spelled(words: seq<Word>, n: nat): (s: seq<byte>)
    requires n <= 8
    ensures n == 4 ==> |s| == 4 * |words|
    ensures n == 8 ==> |s| == 8 * |words|
  {
    if words == [] then [] else Spelled(words[..|words| - 1], n) + BytesOf(words[|words| - 1], n)
  }

  ghost function Digest(p: Parameters, data: seq<byte>): (d: seq<byte>)
    requires Sound(p)
    ensures |d| == 8 * p.WordBytes()
  {
    Spelled(AsSeq(CompressAll(p, p.initial, Pad(data, p.BlockBytes(), p.LengthBytes()))), p.WordBytes())
  }

  // The loops.

  method LoadWord(message: seq<byte>, offset: nat, n: nat) returns (word: Word)
    requires offset + n <= |message|
    ensures word == WordOf(message[offset..offset + n])
  {
    hide AppendByte;
    word := 0;
    for b := 0 to n
      invariant word == WordOf(message[offset..offset + b])
    {
      ghost var next := message[offset..offset + b + 1];
      assert next[..|next| - 1] == message[offset..offset + b];
      word := AppendByte(word, message[offset + b]);
    }
  }

  /** The next word of the block read so far. */
  lemma NextWord(done: seq<Word>, rest: seq<byte>, n: nat)
    requires (n == 4 || n == 8) && n <= |rest|
    ensures done + WordsOf(rest, n) == (done + [WordOf(rest[..n])]) + WordsOf(rest[n..], n)
  {
    Associative(done, [WordOf(rest[..n])], WordsOf(rest[n..], n));
  }

  /** The sixteen words of a block. */
  method LoadBlock(w: array<Word>, message: seq<byte>, start: nat, n: nat)
    requires n == 4 || n == 8
    requires 16 <= w.Length && start + 16 * n <= |message|
    modifies w
    ensures w[..16] == WordsOf(message[start..start + 16 * n], n)
  {
    hide WordOf;
    ghost var block := message[start..start + 16 * n];
    ghost var rest := block;
    var offset := start;
    assert w[..0] + WordsOf(block, n) == WordsOf(block, n);
    for i := 0 to 16
      invariant |rest| == n * (16 - i) && offset + |rest| == start + 16 * n
      invariant rest == message[offset..start + 16 * n]
      invariant w[..i] + WordsOf(rest, n) == WordsOf(block, n)
    {
      ghost var done := w[..i];
      NextWord(done, rest, n);
      w[i] := LoadWord(message, offset, n);
      assert message[offset..offset + n] == rest[..n];
      assert w[..i + 1] == done + [w[i]];
      rest := rest[n..];
      offset := offset + n;
    }
  }

  /** Fills the message schedule in place. */
  method Schedule(p: Parameters, message: seq<byte>, start: nat) returns (w: array<Word>)
    requires Sound(p) && start + p.BlockBytes() <= |message|
    ensures fresh(w) && w.Length == p.Rounds()
    ensures forall t :: 0 <= t < w.Length ==> w[t] == W(p, BlockWords(p, message[start..start + p.BlockBytes()]), t)
  {
    ghost var block := BlockWords(p, message[start..start + p.BlockBytes()]);
    w := new Word[p.Rounds()](_ => 0);
    LoadBlock(w, message, start, p.WordBytes());
    assert forall t :: 0 <= t < 16 ==> w[t] == w[..16][t] == block[t];
    ExtendSchedule(p, w, block);
  }

  method ExtendSchedule(p: Parameters, w: array<Word>, ghost block: seq<Word>)
    requires Sound(p) && |block| == 16 && w.Length == p.Rounds()
    requires forall t :: 0 <= t < 16 ==> w[t] == block[t]
    modifies w
    ensures forall t :: 0 <= t < w.Length ==> w[t] == W(p, block, t)
  {
    for i := 16 to w.Length
      invariant forall t :: 0 <= t < i ==> w[t] == W(p, block, t)
    {
      w[i] := ScheduleWord(p, w[i - 16], w[i - 15], w[i - 7], w[i - 2]);
    }
  }

  method ScheduleWord(p: Parameters, w16: Word, w15: Word, w7: Word, w2: Word) returns (w: Word)
    requires Sound(p)
    ensures w == Sum(p, Sum(p, Sum(p, w16, Small(p, p.small0, w15)), w7), Small(p, p.small1, w2))
  {
    hide Sum, Small;
    var s0 := Small(p, p.small0, w15);
    var s1 := Small(p, p.small1, w2);
    w := Sum(p, Sum(p, Sum(p, w16, s0), w7), s1);
  }

  /** The rounds, rotating a to h. */
  method RunRounds(p: Parameters, start: Registers, w: array<Word>, ghost block: seq<Word>) returns (r: Registers)
    requires Sound(p) && |block| == 16 && w.Length == p.Rounds()
    requires forall t :: 0 <= t < w.Length ==> w[t] == W(p, block, t)
    ensures r == Rounds(p, start, block, p.Rounds())
  {
    r := start;
    for i := 0 to p.Rounds()
      invariant r == Rounds(p, start, block, i)
    {
      r := Rotate(p, r, p.constants[i], w[i]);
    }
  }

  /** One round, on the eight working variables. */
  method Rotate(p: Parameters, start: Registers, k: Word, w: Word) returns (r: Registers)
    requires Sound(p)
    ensures r == Round(p, start, k, w)
  {
    hide Sum, Big, Ch, Maj;
    var a, b, c, d := start.a, start.b, start.c, start.d;
    var e, f, g, h := start.e, start.f, start.g, start.h;
    var s1 := Big(p, p.big1, e);
    var ch := Ch(p, e, f, g);
    var temp1 := Sum(p, Sum(p, Sum(p, Sum(p, h, s1), ch), k), w);
    var s0 := Big(p, p.big0, a);
    var maj := Maj(a, b, c);
    var temp2 := Sum(p, s0, maj);
    h := g;
    g := f;
    f := e;
    e := Sum(p, d, temp1);
    d := c;
    c := b;
    b := a;
    a := Sum(p, temp1, temp2);
    r := Registers(a, b, c, d, e, f, g, h);
  }

  /** A whole number of blocks of n bytes. */
  ghost predicate Whole(s: seq<byte>, n: nat)
    requires n > 0
    decreases |s|
  {
    s == [] || (n <= |s| && Whole(s[n..], n))
  }

  lemma {:induction false} WholeIfDivisible(s: seq<byte>, n: nat)
    requires (n == 64 || n == 128) && |s| % n == 0
    ensures Whole(s, n)
    decreases |s|
  {
    if s != [] {
      WholeIfDivisible(s[n..], n);
    }
  }

  method AppendWord(start: seq<byte>, w: Word, n: nat) returns (r: seq<byte>)
    requires n <= 8
    ensures r == start + BytesOf(w, n)
  {
    hide ByteOf;
    r := start;
    var left := n;
    while left > 0
      invariant 0 <= left <= n && r + BytesOf(w, left) == start + BytesOf(w, n)
    {
      Associative(r, [ByteOf(w, left - 1)], BytesOf(w, left - 1));
      r := r + [ByteOf(w, left - 1)];
      left := left - 1;
    }
  }

  method Hash(p: Parameters, data: seq<byte>) returns (digest: seq<byte>)
    requires Sound(p)
    ensures digest == Digest(p, data)
  {
    hide BytesOf, CompressAll, Pad;
    var message := PadMessage(data, p.BlockBytes(), p.LengthBytes());
    PadWholeBlocks(data, p.BlockBytes(), p.LengthBytes());
    var state := HashBlocks(p, message);
    var words := AsSeq(state);
    digest := [];
    for i := 0 to 8
      invariant digest == Spelled(words[..i], p.WordBytes())
    {
      assert words[..i + 1][..i] == words[..i];
      digest := AppendWord(digest, words[i], p.WordBytes());
    }
    assert words[..8] == words;
  }

  method CompressBlock(p: Parameters, state: Registers, message: seq<byte>, start: nat) returns (next: Registers)
    requires Sound(p) && start + p.BlockBytes() <= |message|
    ensures next == Compress(p, state, message[start..start + p.BlockBytes()])
  {
    var w := Schedule(p, message, start);
    var r := RunRounds(p, state, w, BlockWords(p, message[start..start + p.BlockBytes()]));
    next := Plus(p, state, r);
  }

  method HashBlocks(p: Parameters, message: seq<byte>) returns (state: Registers)
    requires Sound(p) && |message| % p.BlockBytes() == 0
    ensures state == CompressAll(p, p.initial, message)
  {
    hide Compress, Pad;
    state := p.initial;
    var start, n := 0, p.BlockBytes();
    WholeIfDivisible(message, n);
    assert message[0..] == message;
    while start < |message|
      invariant start <= |message| && Whole(message[start..], n)
      invariant CompressAll(p, state, message[start..]) == CompressAll(p, p.initial, message)
    {
      ghost var rest := message[start..];
      assert rest[..n] == message[start..start + n];
      assert rest[n..] == message[start + n..];
      state := CompressBlock(p, state, message, start);
      start := start + n;
    }
  }
}
