/** Where the constants of SHA-256 and SHA-512 come from. sha2_vectors.py writes this file. */
module Sha2Constants {
  import opened Sha2
  import opened Sha2Variants

  const P_0: seq<nat> := [2, 3, 5, 7, 11, 13, 17, 19]
  const P_1: seq<nat> := [23, 29, 31, 37, 41, 43, 47, 53]
  const P_2: seq<nat> := [59, 61, 67, 71, 73, 79, 83, 89]
  const P_3: seq<nat> := [97, 101, 103, 107, 109, 113, 127, 131]
  const P_4: seq<nat> := [137, 139, 149, 151, 157, 163, 167, 173]
  const P_5: seq<nat> := [179, 181, 191, 193, 197, 199, 211, 223]
  const P_6: seq<nat> := [227, 229, 233, 239, 241, 251, 257, 263]
  const P_7: seq<nat> := [269, 271, 277, 281, 283, 293, 307, 311]
  const P_8: seq<nat> := [313, 317, 331, 337, 347, 349, 353, 359]
  const P_9: seq<nat> := [367, 373, 379, 383, 389, 397, 401, 409]

  /** The first 64 prime numbers. */
  const PRIMES_64 := P_0 + P_1 + P_2 + P_3 + P_4 + P_5 + P_6 + P_7

  /** The first 80 prime numbers. */
  const PRIMES_80 := P_0 + P_1 + P_2 + P_3 + P_4 + P_5 + P_6 + P_7 + P_8 + P_9

  /** k / one is the fractional part of the cube root of p, cut off, if n is the integer part. */
  predicate CubeRoot(n: nat, k: nat, p: nat, one: nat) {
    var x := n * one + k;
    k < one && x * x * x <= p * (one * one * one) < (x + 1) * (x + 1) * (x + 1)
  }

  ghost predicate FromCubeRoot(k: nat, p: nat, one: nat) {
    exists n: nat :: CubeRoot(n, k, p, one)
  }

  /** k / one is the fractional part of the square root of p, cut off, if n is the integer part. */
  predicate SquareRoot(n: nat, k: nat, p: nat, one: nat) {
    var x := n * one + k;
    k < one && x * x <= p * (one * one) < (x + 1) * (x + 1)
  }

  ghost predicate FromSquareRoot(k: nat, p: nat, one: nat) {
    exists n: nat :: SquareRoot(n, k, p, one)
  }

  lemma IsCube(k: Word, n: nat, p: nat, one: nat)
    requires CubeRoot(n, k as nat, p, one)
    ensures FromCubeRoot(k as nat, p, one)
  {
  }

  lemma IsSquare(k: Word, n: nat, p: nat, one: nat)
    requires SquareRoot(n, k as nat, p, one)
    ensures FromSquareRoot(k as nat, p, one)
  {
  }

  /** Each word of k is the fractional part of the cube root of the number of p at the same place. */
  ghost predicate CubeRoots(k: seq<Word>, p: seq<nat>, one: nat) {
    |k| == |p| && forall i :: 0 <= i < |k| ==> FromCubeRoot(k[i] as nat, p[i], one)
  }

  lemma RowOf(k: seq<Word>, p: seq<nat>, one: nat)
    requires |k| == 8 == |p|
    requires FromCubeRoot(k[0] as nat, p[0], one)
    requires FromCubeRoot(k[1] as nat, p[1], one)
    requires FromCubeRoot(k[2] as nat, p[2], one)
    requires FromCubeRoot(k[3] as nat, p[3], one)
    requires FromCubeRoot(k[4] as nat, p[4], one)
    requires FromCubeRoot(k[5] as nat, p[5], one)
    requires FromCubeRoot(k[6] as nat, p[6], one)
    requires FromCubeRoot(k[7] as nat, p[7], one)
    ensures CubeRoots(k, p, one)
  {
    hide FromCubeRoot;
  }

  lemma JoinRows(k: seq<Word>, p: seq<nat>, k': seq<Word>, p': seq<nat>, one: nat)
    requires CubeRoots(k, p, one) && CubeRoots(k', p', one)
    ensures CubeRoots(k + k', p + p', one)
  {
    hide FromCubeRoot;
  }

  lemma Row256_0()
    ensures CubeRoots(K256_0, P_0, 0x1_0000_0000)
  {
    hide FromCubeRoot, CubeRoots;
    IsCube(0x428a2f98, 1, 2, 0x1_0000_0000);
    IsCube(0x71374491, 1, 3, 0x1_0000_0000);
    IsCube(0xb5c0fbcf, 1, 5, 0x1_0000_0000);
    IsCube(0xe9b5dba5, 1, 7, 0x1_0000_0000);
    IsCube(0x3956c25b, 2, 11, 0x1_0000_0000);
    IsCube(0x59f111f1, 2, 13, 0x1_0000_0000);
    IsCube(0x923f82a4, 2, 17, 0x1_0000_0000);
    IsCube(0xab1c5ed5, 2, 19, 0x1_0000_0000);
    RowOf(K256_0, P_0, 0x1_0000_0000);
  }

  lemma Row256_1()
    ensures CubeRoots(K256_1, P_1, 0x1_0000_0000)
  {
    hide FromCubeRoot, CubeRoots;
    IsCube(0xd807aa98, 2, 23, 0x1_0000_0000);
    IsCube(0x12835b01, 3, 29, 0x1_0000_0000);
    IsCube(0x243185be, 3, 31, 0x1_0000_0000);
    IsCube(0x550c7dc3, 3, 37, 0x1_0000_0000);
    IsCube(0x72be5d74, 3, 41, 0x1_0000_0000);
    IsCube(0x80deb1fe, 3, 43, 0x1_0000_0000);
    IsCube(0x9bdc06a7, 3, 47, 0x1_0000_0000);
    IsCube(0xc19bf174, 3, 53, 0x1_0000_0000);
    RowOf(K256_1, P_1, 0x1_0000_0000);
  }

  lemma Row256_2()
    ensures CubeRoots(K256_2, P_2, 0x1_0000_0000)
  {
    hide FromCubeRoot, CubeRoots;
    IsCube(0xe49b69c1, 3, 59, 0x1_0000_0000);
    IsCube(0xefbe4786, 3, 61, 0x1_0000_0000);
    IsCube(0x0fc19dc6, 4, 67, 0x1_0000_0000);
    IsCube(0x240ca1cc, 4, 71, 0x1_0000_0000);
    IsCube(0x2de92c6f, 4, 73, 0x1_0000_0000);
    IsCube(0x4a7484aa, 4, 79, 0x1_0000_0000);
    IsCube(0x5cb0a9dc, 4, 83, 0x1_0000_0000);
    IsCube(0x76f988da, 4, 89, 0x1_0000_0000);
    RowOf(K256_2, P_2, 0x1_0000_0000);
  }

  lemma Row256_3()
    ensures CubeRoots(K256_3, P_3, 0x1_0000_0000)
  {
    hide FromCubeRoot, CubeRoots;
    IsCube(0x983e5152, 4, 97, 0x1_0000_0000);
    IsCube(0xa831c66d, 4, 101, 0x1_0000_0000);
    IsCube(0xb00327c8, 4, 103, 0x1_0000_0000);
    IsCube(0xbf597fc7, 4, 107, 0x1_0000_0000);
    IsCube(0xc6e00bf3, 4, 109, 0x1_0000_0000);
    IsCube(0xd5a79147, 4, 113, 0x1_0000_0000);
    IsCube(0x06ca6351, 5, 127, 0x1_0000_0000);
    IsCube(0x14292967, 5, 131, 0x1_0000_0000);
    RowOf(K256_3, P_3, 0x1_0000_0000);
  }

  lemma Row256_4()
    ensures CubeRoots(K256_4, P_4, 0x1_0000_0000)
  {
    hide FromCubeRoot, CubeRoots;
    IsCube(0x27b70a85, 5, 137, 0x1_0000_0000);
    IsCube(0x2e1b2138, 5, 139, 0x1_0000_0000);
    IsCube(0x4d2c6dfc, 5, 149, 0x1_0000_0000);
    IsCube(0x53380d13, 5, 151, 0x1_0000_0000);
    IsCube(0x650a7354, 5, 157, 0x1_0000_0000);
    IsCube(0x766a0abb, 5, 163, 0x1_0000_0000);
    IsCube(0x81c2c92e, 5, 167, 0x1_0000_0000);
    IsCube(0x92722c85, 5, 173, 0x1_0000_0000);
    RowOf(K256_4, P_4, 0x1_0000_0000);
  }

  lemma Row256_5()
    ensures CubeRoots(K256_5, P_5, 0x1_0000_0000)
  {
    hide FromCubeRoot, CubeRoots;
    IsCube(0xa2bfe8a1, 5, 179, 0x1_0000_0000);
    IsCube(0xa81a664b, 5, 181, 0x1_0000_0000);
    IsCube(0xc24b8b70, 5, 191, 0x1_0000_0000);
    IsCube(0xc76c51a3, 5, 193, 0x1_0000_0000);
    IsCube(0xd192e819, 5, 197, 0x1_0000_0000);
    IsCube(0xd6990624, 5, 199, 0x1_0000_0000);
    IsCube(0xf40e3585, 5, 211, 0x1_0000_0000);
    IsCube(0x106aa070, 6, 223, 0x1_0000_0000);
    RowOf(K256_5, P_5, 0x1_0000_0000);
  }

  lemma Row256_6()
    ensures CubeRoots(K256_6, P_6, 0x1_0000_0000)
  {
    hide FromCubeRoot, CubeRoots;
    IsCube(0x19a4c116, 6, 227, 0x1_0000_0000);
    IsCube(0x1e376c08, 6, 229, 0x1_0000_0000);
    IsCube(0x2748774c, 6, 233, 0x1_0000_0000);
    IsCube(0x34b0bcb5, 6, 239, 0x1_0000_0000);
    IsCube(0x391c0cb3, 6, 241, 0x1_0000_0000);
    IsCube(0x4ed8aa4a, 6, 251, 0x1_0000_0000);
    IsCube(0x5b9cca4f, 6, 257, 0x1_0000_0000);
    IsCube(0x682e6ff3, 6, 263, 0x1_0000_0000);
    RowOf(K256_6, P_6, 0x1_0000_0000);
  }

  lemma Row256_7()
    ensures CubeRoots(K256_7, P_7, 0x1_0000_0000)
  {
    hide FromCubeRoot, CubeRoots;
    IsCube(0x748f82ee, 6, 269, 0x1_0000_0000);
    IsCube(0x78a5636f, 6, 271, 0x1_0000_0000);
    IsCube(0x84c87814, 6, 277, 0x1_0000_0000);
    IsCube(0x8cc70208, 6, 281, 0x1_0000_0000);
    IsCube(0x90befffa, 6, 283, 0x1_0000_0000);
    IsCube(0xa4506ceb, 6, 293, 0x1_0000_0000);
    IsCube(0xbef9a3f7, 6, 307, 0x1_0000_0000);
    IsCube(0xc67178f2, 6, 311, 0x1_0000_0000);
    RowOf(K256_7, P_7, 0x1_0000_0000);
  }

  /** The constants of SHA-256 are the first 32 bits of the fractional parts of the cube roots of the primes. */
  lemma Constants256()
    ensures CubeRoots(SHA256.constants, PRIMES_64, 0x1_0000_0000)
  {
    hide CubeRoots;
    Row256_0();
    Row256_1();
    Row256_2();
    Row256_3();
    Row256_4();
    Row256_5();
    Row256_6();
    Row256_7();
    var k, p := K256_0, P_0;
    JoinRows(k, p, K256_1, P_1, 0x1_0000_0000);
    k, p := k + K256_1, p + P_1;
    JoinRows(k, p, K256_2, P_2, 0x1_0000_0000);
    k, p := k + K256_2, p + P_2;
    JoinRows(k, p, K256_3, P_3, 0x1_0000_0000);
    k, p := k + K256_3, p + P_3;
    JoinRows(k, p, K256_4, P_4, 0x1_0000_0000);
    k, p := k + K256_4, p + P_4;
    JoinRows(k, p, K256_5, P_5, 0x1_0000_0000);
    k, p := k + K256_5, p + P_5;
    JoinRows(k, p, K256_6, P_6, 0x1_0000_0000);
    k, p := k + K256_6, p + P_6;
    JoinRows(k, p, K256_7, P_7, 0x1_0000_0000);
    k, p := k + K256_7, p + P_7;
  }

  /** The initial hash value is the same of their square roots. */
  lemma Initial256()
    ensures FromSquareRoot(SHA256.initial.a as nat, 2, 0x1_0000_0000)
    ensures FromSquareRoot(SHA256.initial.b as nat, 3, 0x1_0000_0000)
    ensures FromSquareRoot(SHA256.initial.c as nat, 5, 0x1_0000_0000)
    ensures FromSquareRoot(SHA256.initial.d as nat, 7, 0x1_0000_0000)
    ensures FromSquareRoot(SHA256.initial.e as nat, 11, 0x1_0000_0000)
    ensures FromSquareRoot(SHA256.initial.f as nat, 13, 0x1_0000_0000)
    ensures FromSquareRoot(SHA256.initial.g as nat, 17, 0x1_0000_0000)
    ensures FromSquareRoot(SHA256.initial.h as nat, 19, 0x1_0000_0000)
  {
    hide FromSquareRoot;
    IsSquare(0x6a09e667, 1, 2, 0x1_0000_0000);
    IsSquare(0xbb67ae85, 1, 3, 0x1_0000_0000);
    IsSquare(0x3c6ef372, 2, 5, 0x1_0000_0000);
    IsSquare(0xa54ff53a, 2, 7, 0x1_0000_0000);
    IsSquare(0x510e527f, 3, 11, 0x1_0000_0000);
    IsSquare(0x9b05688c, 3, 13, 0x1_0000_0000);
    IsSquare(0x1f83d9ab, 4, 17, 0x1_0000_0000);
    IsSquare(0x5be0cd19, 4, 19, 0x1_0000_0000);
  }

  lemma Row512_0()
    ensures CubeRoots(K512_0, P_0, 0x1_0000_0000_0000_0000)
  {
    hide FromCubeRoot, CubeRoots;
    IsCube(0x428a2f98d728ae22, 1, 2, 0x1_0000_0000_0000_0000);
    IsCube(0x7137449123ef65cd, 1, 3, 0x1_0000_0000_0000_0000);
    IsCube(0xb5c0fbcfec4d3b2f, 1, 5, 0x1_0000_0000_0000_0000);
    IsCube(0xe9b5dba58189dbbc, 1, 7, 0x1_0000_0000_0000_0000);
    IsCube(0x3956c25bf348b538, 2, 11, 0x1_0000_0000_0000_0000);
    IsCube(0x59f111f1b605d019, 2, 13, 0x1_0000_0000_0000_0000);
    IsCube(0x923f82a4af194f9b, 2, 17, 0x1_0000_0000_0000_0000);
    IsCube(0xab1c5ed5da6d8118, 2, 19, 0x1_0000_0000_0000_0000);
    RowOf(K512_0, P_0, 0x1_0000_0000_0000_0000);
  }

  lemma Row512_1()
    ensures CubeRoots(K512_1, P_1, 0x1_0000_0000_0000_0000)
  {
    hide FromCubeRoot, CubeRoots;
    IsCube(0xd807aa98a3030242, 2, 23, 0x1_0000_0000_0000_0000);
    IsCube(0x12835b0145706fbe, 3, 29, 0x1_0000_0000_0000_0000);
    IsCube(0x243185be4ee4b28c, 3, 31, 0x1_0000_0000_0000_0000);
    IsCube(0x550c7dc3d5ffb4e2, 3, 37, 0x1_0000_0000_0000_0000);
    IsCube(0x72be5d74f27b896f, 3, 41, 0x1_0000_0000_0000_0000);
    IsCube(0x80deb1fe3b1696b1, 3, 43, 0x1_0000_0000_0000_0000);
    IsCube(0x9bdc06a725c71235, 3, 47, 0x1_0000_0000_0000_0000);
    IsCube(0xc19bf174cf692694, 3, 53, 0x1_0000_0000_0000_0000);
    RowOf(K512_1, P_1, 0x1_0000_0000_0000_0000);
  }

  lemma Row512_2()
    ensures CubeRoots(K512_2, P_2, 0x1_0000_0000_0000_0000)
  {
    hide FromCubeRoot, CubeRoots;
    IsCube(0xe49b69c19ef14ad2, 3, 59, 0x1_0000_0000_0000_0000);
    IsCube(0xefbe4786384f25e3, 3, 61, 0x1_0000_0000_0000_0000);
    IsCube(0x0fc19dc68b8cd5b5, 4, 67, 0x1_0000_0000_0000_0000);
    IsCube(0x240ca1cc77ac9c65, 4, 71, 0x1_0000_0000_0000_0000);
    IsCube(0x2de92c6f592b0275, 4, 73, 0x1_0000_0000_0000_0000);
    IsCube(0x4a7484aa6ea6e483, 4, 79, 0x1_0000_0000_0000_0000);
    IsCube(0x5cb0a9dcbd41fbd4, 4, 83, 0x1_0000_0000_0000_0000);
    IsCube(0x76f988da831153b5, 4, 89, 0x1_0000_0000_0000_0000);
    RowOf(K512_2, P_2, 0x1_0000_0000_0000_0000);
  }

  lemma Row512_3()
    ensures CubeRoots(K512_3, P_3, 0x1_0000_0000_0000_0000)
  {
    hide FromCubeRoot, CubeRoots;
    IsCube(0x983e5152ee66dfab, 4, 97, 0x1_0000_0000_0000_0000);
    IsCube(0xa831c66d2db43210, 4, 101, 0x1_0000_0000_0000_0000);
    IsCube(0xb00327c898fb213f, 4, 103, 0x1_0000_0000_0000_0000);
    IsCube(0xbf597fc7beef0ee4, 4, 107, 0x1_0000_0000_0000_0000);
    IsCube(0xc6e00bf33da88fc2, 4, 109, 0x1_0000_0000_0000_0000);
    IsCube(0xd5a79147930aa725, 4, 113, 0x1_0000_0000_0000_0000);
    IsCube(0x06ca6351e003826f, 5, 127, 0x1_0000_0000_0000_0000);
    IsCube(0x142929670a0e6e70, 5, 131, 0x1_0000_0000_0000_0000);
    RowOf(K512_3, P_3, 0x1_0000_0000_0000_0000);
  }

  lemma Row512_4()
    ensures CubeRoots(K512_4, P_4, 0x1_0000_0000_0000_0000)
  {
    hide FromCubeRoot, CubeRoots;
    IsCube(0x27b70a8546d22ffc, 5, 137, 0x1_0000_0000_0000_0000);
    IsCube(0x2e1b21385c26c926, 5, 139, 0x1_0000_0000_0000_0000);
    IsCube(0x4d2c6dfc5ac42aed, 5, 149, 0x1_0000_0000_0000_0000);
    IsCube(0x53380d139d95b3df, 5, 151, 0x1_0000_0000_0000_0000);
    IsCube(0x650a73548baf63de, 5, 157, 0x1_0000_0000_0000_0000);
    IsCube(0x766a0abb3c77b2a8, 5, 163, 0x1_0000_0000_0000_0000);
    IsCube(0x81c2c92e47edaee6, 5, 167, 0x1_0000_0000_0000_0000);
    IsCube(0x92722c851482353b, 5, 173, 0x1_0000_0000_0000_0000);
    RowOf(K512_4, P_4, 0x1_0000_0000_0000_0000);
  }

  lemma Row512_5()
    ensures CubeRoots(K512_5, P_5, 0x1_0000_0000_0000_0000)
  {
    hide FromCubeRoot, CubeRoots;
    IsCube(0xa2bfe8a14cf10364, 5, 179, 0x1_0000_0000_0000_0000);
    IsCube(0xa81a664bbc423001, 5, 181, 0x1_0000_0000_0000_0000);
    IsCube(0xc24b8b70d0f89791, 5, 191, 0x1_0000_0000_0000_0000);
    IsCube(0xc76c51a30654be30, 5, 193, 0x1_0000_0000_0000_0000);
    IsCube(0xd192e819d6ef5218, 5, 197, 0x1_0000_0000_0000_0000);
    IsCube(0xd69906245565a910, 5, 199, 0x1_0000_0000_0000_0000);
    IsCube(0xf40e35855771202a, 5, 211, 0x1_0000_0000_0000_0000);
    IsCube(0x106aa07032bbd1b8, 6, 223, 0x1_0000_0000_0000_0000);
    RowOf(K512_5, P_5, 0x1_0000_0000_0000_0000);
  }

  lemma Row512_6()
    ensures CubeRoots(K512_6, P_6, 0x1_0000_0000_0000_0000)
  {
    hide FromCubeRoot, CubeRoots;
    IsCube(0x19a4c116b8d2d0c8, 6, 227, 0x1_0000_0000_0000_0000);
    IsCube(0x1e376c085141ab53, 6, 229, 0x1_0000_0000_0000_0000);
    IsCube(0x2748774cdf8eeb99, 6, 233, 0x1_0000_0000_0000_0000);
    IsCube(0x34b0bcb5e19b48a8, 6, 239, 0x1_0000_0000_0000_0000);
    IsCube(0x391c0cb3c5c95a63, 6, 241, 0x1_0000_0000_0000_0000);
    IsCube(0x4ed8aa4ae3418acb, 6, 251, 0x1_0000_0000_0000_0000);
    IsCube(0x5b9cca4f7763e373, 6, 257, 0x1_0000_0000_0000_0000);
    IsCube(0x682e6ff3d6b2b8a3, 6, 263, 0x1_0000_0000_0000_0000);
    RowOf(K512_6, P_6, 0x1_0000_0000_0000_0000);
  }

  lemma Row512_7()
    ensures CubeRoots(K512_7, P_7, 0x1_0000_0000_0000_0000)
  {
    hide FromCubeRoot, CubeRoots;
    IsCube(0x748f82ee5defb2fc, 6, 269, 0x1_0000_0000_0000_0000);
    IsCube(0x78a5636f43172f60, 6, 271, 0x1_0000_0000_0000_0000);
    IsCube(0x84c87814a1f0ab72, 6, 277, 0x1_0000_0000_0000_0000);
    IsCube(0x8cc702081a6439ec, 6, 281, 0x1_0000_0000_0000_0000);
    IsCube(0x90befffa23631e28, 6, 283, 0x1_0000_0000_0000_0000);
    IsCube(0xa4506cebde82bde9, 6, 293, 0x1_0000_0000_0000_0000);
    IsCube(0xbef9a3f7b2c67915, 6, 307, 0x1_0000_0000_0000_0000);
    IsCube(0xc67178f2e372532b, 6, 311, 0x1_0000_0000_0000_0000);
    RowOf(K512_7, P_7, 0x1_0000_0000_0000_0000);
  }

  lemma Row512_8()
    ensures CubeRoots(K512_8, P_8, 0x1_0000_0000_0000_0000)
  {
    hide FromCubeRoot, CubeRoots;
    IsCube(0xca273eceea26619c, 6, 313, 0x1_0000_0000_0000_0000);
    IsCube(0xd186b8c721c0c207, 6, 317, 0x1_0000_0000_0000_0000);
    IsCube(0xeada7dd6cde0eb1e, 6, 331, 0x1_0000_0000_0000_0000);
    IsCube(0xf57d4f7fee6ed178, 6, 337, 0x1_0000_0000_0000_0000);
    IsCube(0x06f067aa72176fba, 7, 347, 0x1_0000_0000_0000_0000);
    IsCube(0x0a637dc5a2c898a6, 7, 349, 0x1_0000_0000_0000_0000);
    IsCube(0x113f9804bef90dae, 7, 353, 0x1_0000_0000_0000_0000);
    IsCube(0x1b710b35131c471b, 7, 359, 0x1_0000_0000_0000_0000);
    RowOf(K512_8, P_8, 0x1_0000_0000_0000_0000);
  }

  lemma Row512_9()
    ensures CubeRoots(K512_9, P_9, 0x1_0000_0000_0000_0000)
  {
    hide FromCubeRoot, CubeRoots;
    IsCube(0x28db77f523047d84, 7, 367, 0x1_0000_0000_0000_0000);
    IsCube(0x32caab7b40c72493, 7, 373, 0x1_0000_0000_0000_0000);
    IsCube(0x3c9ebe0a15c9bebc, 7, 379, 0x1_0000_0000_0000_0000);
    IsCube(0x431d67c49c100d4c, 7, 383, 0x1_0000_0000_0000_0000);
    IsCube(0x4cc5d4becb3e42b6, 7, 389, 0x1_0000_0000_0000_0000);
    IsCube(0x597f299cfc657e2a, 7, 397, 0x1_0000_0000_0000_0000);
    IsCube(0x5fcb6fab3ad6faec, 7, 401, 0x1_0000_0000_0000_0000);
    IsCube(0x6c44198c4a475817, 7, 409, 0x1_0000_0000_0000_0000);
    RowOf(K512_9, P_9, 0x1_0000_0000_0000_0000);
  }

  /** The constants of SHA-512 are the first 64 bits of the fractional parts of the cube roots of the primes. */
  lemma Constants512()
    ensures CubeRoots(SHA512.constants, PRIMES_80, 0x1_0000_0000_0000_0000)
  {
    hide CubeRoots;
    Row512_0();
    Row512_1();
    Row512_2();
    Row512_3();
    Row512_4();
    Row512_5();
    Row512_6();
    Row512_7();
    Row512_8();
    Row512_9();
    var k, p := K512_0, P_0;
    JoinRows(k, p, K512_1, P_1, 0x1_0000_0000_0000_0000);
    k, p := k + K512_1, p + P_1;
    JoinRows(k, p, K512_2, P_2, 0x1_0000_0000_0000_0000);
    k, p := k + K512_2, p + P_2;
    JoinRows(k, p, K512_3, P_3, 0x1_0000_0000_0000_0000);
    k, p := k + K512_3, p + P_3;
    JoinRows(k, p, K512_4, P_4, 0x1_0000_0000_0000_0000);
    k, p := k + K512_4, p + P_4;
    JoinRows(k, p, K512_5, P_5, 0x1_0000_0000_0000_0000);
    k, p := k + K512_5, p + P_5;
    JoinRows(k, p, K512_6, P_6, 0x1_0000_0000_0000_0000);
    k, p := k + K512_6, p + P_6;
    JoinRows(k, p, K512_7, P_7, 0x1_0000_0000_0000_0000);
    k, p := k + K512_7, p + P_7;
    JoinRows(k, p, K512_8, P_8, 0x1_0000_0000_0000_0000);
    k, p := k + K512_8, p + P_8;
    JoinRows(k, p, K512_9, P_9, 0x1_0000_0000_0000_0000);
    k, p := k + K512_9, p + P_9;
  }

  /** The initial hash value is the same of their square roots. */
  lemma Initial512()
    ensures FromSquareRoot(SHA512.initial.a as nat, 2, 0x1_0000_0000_0000_0000)
    ensures FromSquareRoot(SHA512.initial.b as nat, 3, 0x1_0000_0000_0000_0000)
    ensures FromSquareRoot(SHA512.initial.c as nat, 5, 0x1_0000_0000_0000_0000)
    ensures FromSquareRoot(SHA512.initial.d as nat, 7, 0x1_0000_0000_0000_0000)
    ensures FromSquareRoot(SHA512.initial.e as nat, 11, 0x1_0000_0000_0000_0000)
    ensures FromSquareRoot(SHA512.initial.f as nat, 13, 0x1_0000_0000_0000_0000)
    ensures FromSquareRoot(SHA512.initial.g as nat, 17, 0x1_0000_0000_0000_0000)
    ensures FromSquareRoot(SHA512.initial.h as nat, 19, 0x1_0000_0000_0000_0000)
  {
    hide FromSquareRoot;
    IsSquare(0x6a09e667f3bcc908, 1, 2, 0x1_0000_0000_0000_0000);
    IsSquare(0xbb67ae8584caa73b, 1, 3, 0x1_0000_0000_0000_0000);
    IsSquare(0x3c6ef372fe94f82b, 2, 5, 0x1_0000_0000_0000_0000);
    IsSquare(0xa54ff53a5f1d36f1, 2, 7, 0x1_0000_0000_0000_0000);
    IsSquare(0x510e527fade682d1, 3, 11, 0x1_0000_0000_0000_0000);
    IsSquare(0x9b05688c2b3e6c1f, 3, 13, 0x1_0000_0000_0000_0000);
    IsSquare(0x1f83d9abfb41bd6b, 4, 17, 0x1_0000_0000_0000_0000);
    IsSquare(0x5be0cd19137e2179, 4, 19, 0x1_0000_0000_0000_0000);
  }
}
