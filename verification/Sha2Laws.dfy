/** What the functions of FIPS 180-4 mean, bit by bit. A set of bit positions is given as a mask. */
module Sha2Laws {
  import opened Sha2

  /** Choice: wherever the bits of x are 1 they choose the bits of y, and wherever they are 0 those of z. */
  lemma ChoiceOf32(p: Parameters, x: Word, y: Word, z: Word, mask: Word)
    requires p.bits == 32 && mask < 0x1_0000_0000
    ensures x & mask == mask ==> Ch(p, x, y, z) & mask == y & mask
    ensures x & mask == 0 ==> Ch(p, x, y, z) & mask == z & mask
  {
  }

  lemma ChoiceOf64(p: Parameters, x: Word, y: Word, z: Word, mask: Word)
    requires p.bits == 64
    ensures x & mask == mask ==> Ch(p, x, y, z) & mask == y & mask
    ensures x & mask == 0 ==> Ch(p, x, y, z) & mask == z & mask
  {
  }

  /** Majority: wherever two of the three agree, they decide. */
  lemma Majority(x: Word, y: Word, z: Word, mask: Word)
    ensures x & mask == y & mask ==> Maj(x, y, z) & mask == x & mask
    ensures x & mask == z & mask ==> Maj(x, y, z) & mask == x & mask
    ensures y & mask == z & mask ==> Maj(x, y, z) & mask == y & mask
  {
    FirstTwoDecide(x, y, z, mask);
    FirstAndLastDecide(x, y, z, mask);
    LastTwoDecide(x, y, z, mask);
  }

  lemma FirstTwoDecide(x: Word, y: Word, z: Word, mask: Word)
    ensures x & mask == y & mask ==> Maj(x, y, z) & mask == x & mask
  {
  }

  lemma FirstAndLastDecide(x: Word, y: Word, z: Word, mask: Word)
    ensures x & mask == z & mask ==> Maj(x, y, z) & mask == x & mask
  {
  }

  lemma LastTwoDecide(x: Word, y: Word, z: Word, mask: Word)
    ensures y & mask == z & mask ==> Maj(x, y, z) & mask == y & mask
  {
  }

  /** Bit i of a word, counted from the least significant. */
  function Bit(x: Word, i: Word): Word
    requires i < 64
  {
    (x >> i) & 1
  }

  // The counts by which the two algorithms rotate. Each rotation takes bit i of the result from bit i + n of x,
  // counted round the word.

  lemma RotatedBit32(p: Parameters, x: Word, n: Word, i: Word)
    requires p.bits == 32 && x < 0x1_0000_0000 && i < 32 && n in COUNTS_256
    ensures Bit(RotR(p, x, n), i) == Bit(x, (i + n) % 32)
  {
    hide RotR, Bit;
    match n {
      case 2 => Rotated32By2(p, x, i);
      case 13 => Rotated32By13(p, x, i);
      case 22 => Rotated32By22(p, x, i);
      case 6 => Rotated32By6(p, x, i);
      case 11 => Rotated32By11(p, x, i);
      case 25 => Rotated32By25(p, x, i);
      case 7 => Rotated32By7(p, x, i);
      case 18 => Rotated32By18(p, x, i);
      case 17 => Rotated32By17(p, x, i);
      case 19 => Rotated32By19(p, x, i);
      case _ =>
    }
  }

  const COUNTS_256: seq<Word> := [2, 13, 22, 6, 11, 25, 7, 18, 17, 19]
  const COUNTS_512: seq<Word> := [28, 34, 39, 14, 18, 41, 1, 8, 19, 61]

  lemma RotatedBit64(p: Parameters, x: Word, n: Word, i: Word)
    requires p.bits == 64 && i < 64 && n in COUNTS_512
    ensures Bit(RotR(p, x, n), i) == Bit(x, (i + n) % 64)
  {
    hide RotR, Bit;
    match n {
      case 28 => Rotated64By28(p, x, i);
      case 34 => Rotated64By34(p, x, i);
      case 39 => Rotated64By39(p, x, i);
      case 14 => Rotated64By14(p, x, i);
      case 18 => Rotated64By18(p, x, i);
      case 41 => Rotated64By41(p, x, i);
      case 1 => Rotated64By1(p, x, i);
      case 8 => Rotated64By8(p, x, i);
      case 19 => Rotated64By19(p, x, i);
      case 61 => Rotated64By61(p, x, i);
      case _ =>
    }
  }

  lemma Rotated32By2(p: Parameters, x: Word, i: Word)
    requires p.bits == 32 && x < 0x1_0000_0000 && i < 32
    ensures Bit(RotR(p, x, 2), i) == Bit(x, (i + 2) % 32)
  {
  }

  lemma Rotated32By13(p: Parameters, x: Word, i: Word)
    requires p.bits == 32 && x < 0x1_0000_0000 && i < 32
    ensures Bit(RotR(p, x, 13), i) == Bit(x, (i + 13) % 32)
  {
  }

  lemma Rotated32By22(p: Parameters, x: Word, i: Word)
    requires p.bits == 32 && x < 0x1_0000_0000 && i < 32
    ensures Bit(RotR(p, x, 22), i) == Bit(x, (i + 22) % 32)
  {
  }

  lemma Rotated32By6(p: Parameters, x: Word, i: Word)
    requires p.bits == 32 && x < 0x1_0000_0000 && i < 32
    ensures Bit(RotR(p, x, 6), i) == Bit(x, (i + 6) % 32)
  {
  }

  lemma Rotated32By11(p: Parameters, x: Word, i: Word)
    requires p.bits == 32 && x < 0x1_0000_0000 && i < 32
    ensures Bit(RotR(p, x, 11), i) == Bit(x, (i + 11) % 32)
  {
  }

  lemma Rotated32By25(p: Parameters, x: Word, i: Word)
    requires p.bits == 32 && x < 0x1_0000_0000 && i < 32
    ensures Bit(RotR(p, x, 25), i) == Bit(x, (i + 25) % 32)
  {
  }

  lemma Rotated32By7(p: Parameters, x: Word, i: Word)
    requires p.bits == 32 && x < 0x1_0000_0000 && i < 32
    ensures Bit(RotR(p, x, 7), i) == Bit(x, (i + 7) % 32)
  {
  }

  lemma Rotated32By18(p: Parameters, x: Word, i: Word)
    requires p.bits == 32 && x < 0x1_0000_0000 && i < 32
    ensures Bit(RotR(p, x, 18), i) == Bit(x, (i + 18) % 32)
  {
  }

  lemma Rotated32By17(p: Parameters, x: Word, i: Word)
    requires p.bits == 32 && x < 0x1_0000_0000 && i < 32
    ensures Bit(RotR(p, x, 17), i) == Bit(x, (i + 17) % 32)
  {
  }

  lemma Rotated32By19(p: Parameters, x: Word, i: Word)
    requires p.bits == 32 && x < 0x1_0000_0000 && i < 32
    ensures Bit(RotR(p, x, 19), i) == Bit(x, (i + 19) % 32)
  {
  }

  lemma Rotated64By28(p: Parameters, x: Word, i: Word)
    requires p.bits == 64 && i < 64
    ensures Bit(RotR(p, x, 28), i) == Bit(x, (i + 28) % 64)
  {
  }

  lemma Rotated64By34(p: Parameters, x: Word, i: Word)
    requires p.bits == 64 && i < 64
    ensures Bit(RotR(p, x, 34), i) == Bit(x, (i + 34) % 64)
  {
  }

  lemma Rotated64By39(p: Parameters, x: Word, i: Word)
    requires p.bits == 64 && i < 64
    ensures Bit(RotR(p, x, 39), i) == Bit(x, (i + 39) % 64)
  {
  }

  lemma Rotated64By14(p: Parameters, x: Word, i: Word)
    requires p.bits == 64 && i < 64
    ensures Bit(RotR(p, x, 14), i) == Bit(x, (i + 14) % 64)
  {
  }

  lemma Rotated64By18(p: Parameters, x: Word, i: Word)
    requires p.bits == 64 && i < 64
    ensures Bit(RotR(p, x, 18), i) == Bit(x, (i + 18) % 64)
  {
  }

  lemma Rotated64By41(p: Parameters, x: Word, i: Word)
    requires p.bits == 64 && i < 64
    ensures Bit(RotR(p, x, 41), i) == Bit(x, (i + 41) % 64)
  {
  }

  lemma Rotated64By1(p: Parameters, x: Word, i: Word)
    requires p.bits == 64 && i < 64
    ensures Bit(RotR(p, x, 1), i) == Bit(x, (i + 1) % 64)
  {
  }

  lemma Rotated64By8(p: Parameters, x: Word, i: Word)
    requires p.bits == 64 && i < 64
    ensures Bit(RotR(p, x, 8), i) == Bit(x, (i + 8) % 64)
  {
  }

  lemma Rotated64By19(p: Parameters, x: Word, i: Word)
    requires p.bits == 64 && i < 64
    ensures Bit(RotR(p, x, 19), i) == Bit(x, (i + 19) % 64)
  {
  }

  lemma Rotated64By61(p: Parameters, x: Word, i: Word)
    requires p.bits == 64 && i < 64
    ensures Bit(RotR(p, x, 61), i) == Bit(x, (i + 61) % 64)
  {
  }
}
