/** Hexadecimal text: the output of sha256_hex and the input of hex_to_bytes. */
module Hex {
  import opened Options
  import opened Words
  import opened JsonParser

  function HexChar(n: nat): (c: char)
    requires n < 16
    ensures HexDigit(c) == Some(n) && !('A' <= c <= 'Z')
  {
    if n < 10 then '0' + n as char else 'a' + (n - 10) as char
  }

  /** Two lower-case digits for every byte. */
  function ToHex(bytes: seq<byte>): (s: string)
    ensures |s| == 2 * |bytes|
  {
    if bytes == [] then ""
    else
      var b := bytes[|bytes| - 1] as nat;
      ToHex(bytes[..|bytes| - 1]) + [HexChar(b / 16), HexChar(b % 16)]
  }

  method EncodeHex(bytes: seq<byte>) returns (s: string)
    ensures s == ToHex(bytes)
  {
    s := "";
    for i := 0 to |bytes|
      invariant s == ToHex(bytes[..i])
    {
      assert bytes[..i + 1][..i] == bytes[..i];
      s := s + [HexChar(bytes[i] as nat / 16)];
      s := s + [HexChar(bytes[i] as nat % 16)];
    }
    assert bytes[..|bytes|] == bytes;
  }

  /** The byte spelled by two digits of either case. */
  function ByteFrom(high: char, low: char): Option<byte> {
    match (HexDigit(high), HexDigit(low))
    case (Some(h), Some(l)) => Some((h * 16 + l) as byte)
    case _ => None
  }

  /** The bytes spelled by the first n pairs of digits. */
  function Pairs(s: string, n: nat): (r: Option<seq<byte>>)
    requires 2 * n <= |s|
    ensures r.Some? ==> |r.value| == n
  {
    if n == 0 then Some([])
    else
      match Pairs(s, n - 1)
      case None => None
      case Some(bytes) =>
        match ByteFrom(s[2 * n - 2], s[2 * n - 1])
        case None => None
        case Some(b) => Some(bytes + [b])
  }

  function FromHex(s: string): (r: Option<seq<byte>>)
    ensures r.Some? ==> 2 * |r.value| == |s|
  {
    if |s| % 2 != 0 then None else Pairs(s, |s| / 2)
  }

  lemma {:induction false} PairsFail(s: string, n: nat, m: nat)
    requires n <= m && 2 * m <= |s| && Pairs(s, n).None?
    ensures Pairs(s, m).None?
    decreases m
  {
    if n < m { PairsFail(s, n, m - 1); }
  }

  method HexToBytes(hex: string) returns (r: Option<seq<byte>>)
    ensures r == FromHex(hex)
  {
    if |hex| % 2 != 0 {
      return None;
    }
    var bytes: seq<byte> := [];
    var i := 0;
    while i + 1 < |hex|
      invariant i % 2 == 0 && i <= |hex|
      invariant Pairs(hex, i / 2) == Some(bytes)
      decreases |hex| - i
    {
      var b := ByteFrom(hex[i], hex[i + 1]);
      if b.None? {
        PairsFail(hex, i / 2 + 1, |hex| / 2);
        return None;
      }
      bytes := bytes + [b.value];
      i := i + 2;
    }
    r := Some(bytes);
  }

  function LowerChar(c: char): char {
    if 'A' <= c <= 'Z' then c - 'A' + 'a' else c
  }

  function ToLower(s: string): (t: string)
    ensures |t| == |s|
  {
    seq(|s|, i requires 0 <= i < |s| => LowerChar(s[i]))
  }

  lemma {:induction false} PairsPrefix(s: string, t: string, n: nat)
    requires 2 * n <= |s|
    ensures Pairs(s + t, n) == Pairs(s, n)
  {
    if n > 0 { PairsPrefix(s, t, n - 1); }
  }

  /** Reading undoes writing, so no two byte strings have the same text. */
  lemma {:induction false} HexBack(bytes: seq<byte>)
    ensures FromHex(ToHex(bytes)) == Some(bytes)
  {
    if bytes != [] {
      var n := |bytes| - 1;
      var b := bytes[n] as nat;
      HexBack(bytes[..n]);
      PairsPrefix(ToHex(bytes[..n]), [HexChar(b / 16), HexChar(b % 16)], n);
      assert bytes == bytes[..n] + [bytes[n]];
    }
  }

  /** A digest is written in lower case, so comparing it with a lower-cased text is comparing the bytes. */
  lemma {:induction false} HexIsLower(bytes: seq<byte>)
    ensures ToLower(ToHex(bytes)) == ToHex(bytes)
  {
    if bytes != [] {
      var n := |bytes| - 1;
      HexIsLower(bytes[..n]);
      var s := ToHex(bytes);
      assert s[..2 * n] == ToHex(bytes[..n]);
      forall i | 0 <= i < |s| ensures LowerChar(s[i]) == s[i] {
        if i < 2 * n {
          assert s[i] == ToHex(bytes[..n])[i] && ToLower(ToHex(bytes[..n]))[i] == s[i];
        }
      }
    }
  }

  const DIGITS := "0123456789abcdef"

  /** Each byte is written as its two digits, the higher first. */
  lemma {:induction false} HexAt(bytes: seq<byte>, i: nat)
    requires i < |bytes|
    ensures ToHex(bytes)[2 * i] == DIGITS[bytes[i] as nat / 16] && ToHex(bytes)[2 * i + 1] == DIGITS[bytes[i] as nat % 16]
  {
    hide HexChar;
    var n := |bytes| - 1;
    HexCharIsDigit(bytes[n] as nat / 16);
    HexCharIsDigit(bytes[n] as nat % 16);
    if i < n {
      HexAt(bytes[..n], i);
    }
  }

  lemma HexCharIsDigit(n: nat)
    requires n < 16
    ensures HexChar(n) == DIGITS[n]
  {
  }

  lemma DigitOfEitherCase(c: char, n: nat)
    requires n < 16
    ensures HexDigit(c) == Some(n) <==> LowerChar(c) == HexChar(n)
  {
  }

  /** The bytes read are those whose text it is, with digits of either case. */
  lemma FromHexMeans(s: string, bytes: seq<byte>)
    ensures FromHex(s) == Some(bytes) <==> ToLower(s) == ToHex(bytes)
  {
    if |s| % 2 == 0 {
      PairsMean(s, |s| / 2, bytes);
      assert s[..|s|] == s;
    }
  }

  lemma ByteOfEitherCase(high: char, low: char, b: byte)
    ensures ByteFrom(high, low) == Some(b)
            <==> LowerChar(high) == HexChar(b as nat / 16) && LowerChar(low) == HexChar(b as nat % 16)
  {
    DigitOfEitherCase(high, b as nat / 16);
    DigitOfEitherCase(low, b as nat % 16);
    assert HexDigit(high).Some? ==> HexDigit(high).value < 16;
    assert HexDigit(low).Some? ==> HexDigit(low).value < 16;
    hide HexDigit, HexChar, LowerChar;
  }

  lemma {:induction false} PairsMean(s: string, n: nat, bytes: seq<byte>)
    requires 2 * n <= |s|
    ensures Pairs(s, n) == Some(bytes) <==> ToLower(s[..2 * n]) == ToHex(bytes)
  {
    hide HexDigit, HexChar, LowerChar, ByteFrom;
    if n == 0 || |bytes| != n {
      assert |bytes| != n ==> |ToLower(s[..2 * n])| != |ToHex(bytes)|;
    } else {
      var last, before := bytes[n - 1], bytes[..n - 1];
      var high, low := s[2 * n - 2], s[2 * n - 1];
      PairsMean(s, n - 1, before);
      ByteOfEitherCase(high, low, last);
      assert bytes == before + [last];
      assert ToLower(s[..2 * n]) == ToLower(s[..2 * (n - 1)]) + [LowerChar(high), LowerChar(low)];
      SplitEqual(ToLower(s[..2 * (n - 1)]), [LowerChar(high), LowerChar(low)], ToHex(before),
                 [HexChar(last as nat / 16), HexChar(last as nat % 16)]);
      LastPair(s, n, before, last);
    }
  }

  lemma LastPair(s: string, n: nat, before: seq<byte>, last: byte)
    requires 0 < n && 2 * n <= |s|
    ensures Pairs(s, n) == Some(before + [last])
            <==> Pairs(s, n - 1) == Some(before) && ByteFrom(s[2 * n - 2], s[2 * n - 1]) == Some(last)
  {
    hide ByteFrom;
    var p, b := Pairs(s, n - 1), ByteFrom(s[2 * n - 2], s[2 * n - 1]);
    if p.Some? && b.Some? && p.value + [b.value] == before + [last] {
      assert |p.value| == |before|;
      assert (p.value + [b.value])[..|before|] == p.value && (before + [last])[..|before|] == before;
      assert (p.value + [b.value])[|before|] == b.value && (before + [last])[|before|] == last;
    }
  }

  lemma SplitEqual(a: string, b: string, c: string, d: string)
    requires |a| == |c|
    ensures a + b == c + d <==> a == c && b == d
  {
    assert (a + b)[..|a|] == a && (c + d)[..|a|] == c && (a + b)[|a|..] == b && (c + d)[|a|..] == d;
  }

  const CAPITALS := "ABCDEFGHIJKLMNOPQRSTUVWXYZ"
  const SMALL := "abcdefghijklmnopqrstuvwxyz"

  // Lower-casing changes the twenty-six letters, and nothing else.

  lemma LetterLowered(k: nat)
    requires k < 26
    ensures LowerChar(CAPITALS[k]) == SMALL[k]
  {
    assert CAPITALS[k] as int == 'A' as int + k;
    assert SMALL[k] as int == 'a' as int + k;
  }

  lemma CapitalsListed(c: char)
    requires 'A' <= c <= 'Z'
    ensures c in CAPITALS
  {
    var k := c as int - 'A' as int;
    assert CAPITALS[k] as int == 'A' as int + k;
  }

  lemma OthersStay(c: char)
    requires c !in CAPITALS
    ensures LowerChar(c) == c
  {
    if 'A' <= c <= 'Z' {
      CapitalsListed(c);
      assert false;
    }
  }
}
