/** Single steps of the two hash functions, for computing with them. */
module Sha2Steps {
  import opened Words
  import opened Padding
  import opened Sha2

  /** A word of the schedule, from the four it depends on. */
  function WordFrom(p: Parameters, w16: Word, w15: Word, w7: Word, w2: Word): Word
    requires Sound(p)
  {
    Sum(p, Sum(p, Sum(p, w16, Small(p, p.small0, w15)), w7), Small(p, p.small1, w2))
  }

  lemma WordAt(p: Parameters, block: seq<Word>, t: nat, w: Word)
    requires Sound(p) && |block| == 16 && t >= 16
    requires WordFrom(p, W(p, block, t - 16), W(p, block, t - 15), W(p, block, t - 7), W(p, block, t - 2)) == w
    ensures W(p, block, t) == w
  {
    hide Sum, Small;
  }

  lemma StateAt(p: Parameters, start: Registers, block: seq<Word>, t: nat, next: Registers)
    requires Sound(p) && |block| == 16 && t < p.Rounds()
    requires Round(p, Rounds(p, start, block, t), p.constants[t], W(p, block, t)) == next
    ensures Rounds(p, start, block, t + 1) == next
  {
    hide Round, W;
  }

  lemma AppendedByte(s: seq<byte>, b: byte)
    ensures WordOf(s + [b]) == AppendByte(WordOf(s), b)
  {
    hide AppendByte;
    assert (s + [b])[..|s + [b]| - 1] == s;
  }

  lemma FourBytes(a: byte, b: byte, c: byte, d: byte)
    ensures WordOf([a, b, c, d]) == AppendByte(AppendByte(AppendByte(AppendByte(0, a), b), c), d)
  {
    hide AppendByte, WordOf;
    AppendedByte([a, b, c], d);
    AppendedByte([a, b], c);
    AppendedByte([a], b);
    AppendedByte([], a);
    assert WordOf([]) == 0 by { NoBytes(); }
    assert [a, b, c] + [d] == [a, b, c, d] && [a, b] + [c] == [a, b, c] && [a] + [b] == [a, b] && [] + [a] == [a];
  }

  lemma NoBytes()
    ensures WordOf([]) == 0
  {
  }

  lemma {:induction false} ZerosAppended(s: seq<byte>, k: nat)
    ensures k == 0 ==> WordOf(s + Zeros(k)) == WordOf(s)
    ensures k > 0 ==> WordOf(s + Zeros(k)) == AppendByte(WordOf(s + Zeros(k - 1)), 0)
  {
    hide AppendByte, WordOf;
    if k == 0 {
      assert s + Zeros(0) == s;
    } else {
      AppendedByte(s + Zeros(k - 1), 0);
      assert (s + Zeros(k - 1)) + [0] == s + Zeros(k);
    }
  }

  lemma {:induction false} ZeroWord(k: nat)
    ensures WordOf(Zeros(k)) == 0
  {
    hide WordOf;
    NoBytes();
    ZerosAppended([], k);
    assert [] + Zeros(k) == Zeros(k);
    if k > 0 {
      ZeroWord(k - 1);
      assert [] + Zeros(k - 1) == Zeros(k - 1);
      assert AppendByte(0, 0) == 0;
    }
  }

  lemma FirstWord(a: seq<byte>, b: seq<byte>, n: nat)
    requires (n == 4 || n == 8) && |a| == n
    ensures WordsOf(a + b, n) == [WordOf(a)] + WordsOf(b, n)
  {
    hide WordOf;
    assert (a + b)[..n] == a && (a + b)[n..] == b;
  }

  lemma {:induction false} ZeroWords(k: nat, n: nat, rest: seq<byte>)
    requires n == 4 || n == 8
    ensures WordsOf(Zeros(k * n) + rest, n) == seq(k, _ => 0) + WordsOf(rest, n)
  {
    hide WordOf, WordsOf;
    if k == 0 {
      assert Zeros(0) + rest == rest;
    } else {
      assert k * n == n + (k - 1) * n;
      assert Zeros(k * n) + rest == Zeros(n) + (Zeros((k - 1) * n) + rest);
      FirstWord(Zeros(n), Zeros((k - 1) * n) + rest, n);
      ZeroWord(n);
      ZeroWords(k - 1, n, rest);
      assert seq(k, _ => 0 as Word) == [0] + seq(k - 1, _ => 0 as Word);
    }
  }

  const ABC: seq<byte> := [0x61, 0x62, 0x63]

  /** The only block of the padded message "abc": its first word, fourteen zero words, and the length in bits. */
  lemma AbcPadded(block: nat, field: nat, n: nat)
    requires IsFormat(block, field) && block == 16 * n
    ensures Pad(ABC, block, field)
            == ([0x61, 0x62, 0x63, 0x80] + Zeros(n - 4)) + (Zeros(14 * n) + (Zeros(n - 1) + [24]))
  {
    hide BigEndian;
    LengthOfAbc(field);
    assert ZeroCount(3, block, field) == block - field - 4;
    assert ABC + [0x80] == [0x61, 0x62, 0x63, 0x80];
    ZerosSplit([0x61, 0x62, 0x63, 0x80], n - 4, 14 * n, field, n);
  }

  lemma LengthOfAbc(field: nat)
    requires field == 8 || field == 16
    ensures BigEndian(BitLength(3), field) == Zeros(field - 1) + [24]
  {
    ZeroDigits(field - 1);
  }

  /** Zeros are zeros, however they are counted. */
  lemma ZerosSplit(s: seq<byte>, i: nat, j: nat, field: nat, n: nat)
    requires 0 < n <= field <= i + j + n
    ensures s + Zeros(i + j + n - field) + (Zeros(field - 1) + [24])
            == (s + Zeros(i)) + (Zeros(j) + (Zeros(n - 1) + [24]))
  {
  }

  lemma AbcWords(block: nat, field: nat, n: nat)
    requires IsFormat(block, field) && block == 16 * n
    ensures WordsOf(Pad(ABC, block, field), n)
            == [WordOf([0x61, 0x62, 0x63, 0x80] + Zeros(n - 4))] + (seq(14, _ => 0) + [24])
  {
    hide WordOf, WordsOf, Pad;
    var first, last := [0x61, 0x62, 0x63, 0x80] + Zeros(n - 4), Zeros(n - 1) + [24];
    AbcPadded(block, field, n);
    FirstWord(first, Zeros(14 * n) + last, n);
    ZeroWords(14, n, last);
    FirstWord(last, [], n);
    assert last + [] == last;
    NoWords(n);
    ZeroWord(n - 1);
    AppendedByte(Zeros(n - 1), 24);
    assert AppendByte(0, 24) == 24;
  }

  lemma NoWords(n: nat)
    requires n == 4 || n == 8
    ensures WordsOf([], n) == []
  {
  }

  lemma CompressedOnce(p: Parameters, state: Registers, block: seq<byte>)
    requires Sound(p) && |block| == p.BlockBytes()
    ensures CompressAll(p, state, block) == Plus(p, state, Rounds(p, state, BlockWords(p, block), p.Rounds()))
  {
    hide Rounds, BlockWords, Plus;
    assert block[..p.BlockBytes()] == block && block[p.BlockBytes()..] == [];
    var next := Compress(p, state, block);
    assert CompressAll(p, next, []) == next;
  }

  /** The digest of a message that is padded to one block. */
  lemma OneBlock(p: Parameters, data: seq<byte>, end: Registers)
    requires Sound(p) && |Pad(data, p.BlockBytes(), p.LengthBytes())| == p.BlockBytes()
    requires Rounds(p, p.initial, BlockWords(p, Pad(data, p.BlockBytes(), p.LengthBytes())), p.Rounds()) == end
    ensures Digest(p, data) == Spelled(AsSeq(Plus(p, p.initial, end)), p.WordBytes())
  {
    hide Pad, Rounds, BlockWords, Plus, Spelled, CompressAll;
    CompressedOnce(p, p.initial, Pad(data, p.BlockBytes(), p.LengthBytes()));
  }

  lemma SpelledNext(words: seq<Word>, k: nat, n: nat)
    requires k < |words| && n <= 8
    ensures Spelled(words[..k + 1], n) == Spelled(words[..k], n) + BytesOf(words[k], n)
  {
    hide BytesOf;
    assert words[..k + 1][..k] == words[..k];
  }

  lemma SpelledRegisters(r: Registers, n: nat)
    requires n == 4 || n == 8
    ensures Spelled(AsSeq(r), n)
            == BytesOf(r.a, n) + BytesOf(r.b, n) + BytesOf(r.c, n) + BytesOf(r.d, n)
               + BytesOf(r.e, n) + BytesOf(r.f, n) + BytesOf(r.g, n) + BytesOf(r.h, n)
  {
    hide BytesOf, Spelled;
    var words := AsSeq(r);
    SpelledNone(n);
    SpelledNext(words, 0, n);
    SpelledNext(words, 1, n);
    SpelledNext(words, 2, n);
    SpelledNext(words, 3, n);
    SpelledNext(words, 4, n);
    SpelledNext(words, 5, n);
    SpelledNext(words, 6, n);
    SpelledNext(words, 7, n);
    assert words[..0] == [] && words[..8] == words && [] + BytesOf(r.a, n) == BytesOf(r.a, n);
  }

  lemma SpelledNone(n: nat)
    requires n <= 8
    ensures Spelled([], n) == []
  {
  }

  lemma {:induction false} LowByte(w: Word, n: nat)
    requires n < 8
    ensures BytesOf(w, n + 1) == BytesOf(w >> 8, n) + [LastByte(w)]
  {
    if n > 0 {
      LowByte(w, n - 1);
    }
  }

  /** The bytes of a word, when the word is shifted byte by byte. */
  lemma FourOf(w: Word, w1: Word, w2: Word, w3: Word)
    requires w1 == w >> 8 && w2 == w1 >> 8 && w3 == w2 >> 8
    ensures BytesOf(w, 4)
            == [LastByte(w3), LastByte(w2), LastByte(w1), LastByte(w)]
  {
    hide BytesOf;
    NoBytesOf(w3 >> 8);
    LowByte(w3, 0);
    LowByte(w2, 1);
    LowByte(w1, 2);
    LowByte(w, 3);
  }

  lemma EightOf(w: Word, w1: Word, w2: Word, w3: Word, w4: Word, w5: Word, w6: Word, w7: Word)
    requires w1 == w >> 8 && w2 == w1 >> 8 && w3 == w2 >> 8 && w4 == w3 >> 8
    requires w5 == w4 >> 8 && w6 == w5 >> 8 && w7 == w6 >> 8
    ensures BytesOf(w, 8)
            == [LastByte(w7), LastByte(w6), LastByte(w5), LastByte(w4),
                LastByte(w3), LastByte(w2), LastByte(w1), LastByte(w)]
  {
    hide BytesOf;
    FourOf(w4, w5, w6, w7);
    LowByte(w3, 4);
    LowByte(w2, 5);
    LowByte(w1, 6);
    LowByte(w, 7);
  }

  lemma NoBytesOf(w: Word)
    ensures BytesOf(w, 0) == []
  {
  }
}
