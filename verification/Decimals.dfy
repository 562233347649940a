/** Counts as text: static_cast<int>, std::to_string and std::stoi for 32-bit integers. */
module Decimals {
  import opened Options
  import opened JsonParser

  const TWO_31: int := 0x8000_0000
  const TWO_32: int := 0x1_0000_0000

  predicate IsInt32(x: int) {
    -TWO_31 <= x < TWO_31
  }

  /** static_cast<int>(n), which wraps around. */
  function ToInt32(n: nat): (x: int)
    ensures IsInt32(x) && (x - n) % TWO_32 == 0
    ensures n < TWO_31 ==> x == n
  {
    if n % TWO_32 < TWO_31 then n % TWO_32 else n % TWO_32 - TWO_32
  }

  function Digits(n: nat): (s: string)
    ensures s != "" && forall i :: 0 <= i < |s| ==> '0' <= s[i] <= '9'
  {
    var digit := ['0' + (n % 10) as char];
    if n < 10 then digit else Digits(n / 10) + digit
  }

  function ToString(x: int): string {
    if x < 0 then "-" + Digits(-x) else Digits(x)
  }

  function SkipDigits(s: string, pos: nat): (next: nat)
    requires pos <= |s|
    ensures pos <= next <= |s|
    ensures next < |s| ==> !('0' <= s[next] <= '9')
    ensures forall k :: pos <= k < next ==> '0' <= s[k] <= '9'
    decreases |s| - pos
  {
    if pos < |s| && '0' <= s[pos] <= '9' then SkipDigits(s, pos + 1) else pos
  }

  function DigitsValue(s: string): nat
    requires forall i :: 0 <= i < |s| ==> '0' <= s[i] <= '9'
  {
    if s == "" then 0 else 10 * DigitsValue(s[..|s| - 1]) + (s[|s| - 1] as int - '0' as int)
  }

  /** std::stoi: white space, a sign, and the longest run of digits; None where it throws. */
  function Stoi(s: string): Option<int> {
    var start := SkipSpace(s, 0);
    var first := if start < |s| && (s[start] == '-' || s[start] == '+') then start + 1 else start;
    var end := SkipDigits(s, first);
    if end == first then None
    else
      var digits := s[first..end];
      assert forall i :: 0 <= i < |digits| ==> digits[i] == s[first + i];
      var n: int := DigitsValue(digits);
      var x := if first > start && s[start] == '-' then -n else n;
      if IsInt32(x) then Some(x) else None
  }

  lemma {:induction false} DigitsRead(n: nat)
    ensures DigitsValue(Digits(n)) == n
  {
    var s := Digits(n);
    var digit := '0' + (n % 10) as char;
    if n < 10 {
      assert s == [digit] && s[..0] == "";
    } else {
      DigitsRead(n / 10);
      assert s[..|s| - 1] == Digits(n / 10) && s[|s| - 1] == digit;
    }
  }

  lemma DigitsEnd(s: string, first: nat)
    requires first <= |s| && forall k :: first <= k < |s| ==> '0' <= s[k] <= '9'
    ensures SkipDigits(s, first) == |s|
  {
  }

  /** stoi undoes to_string on the whole range of int. */
  lemma StoiToString(x: int)
    requires IsInt32(x)
    ensures Stoi(ToString(x)) == Some(x)
  {
    hide Digits, DigitsValue, SkipDigits;
    var s := ToString(x);
    var digits := Digits(if x < 0 then -x else x);
    DigitsRead(if x < 0 then -x else x);
    var first := if x < 0 then 1 else 0;
    assert |s| == first + |digits| && forall k :: first <= k < |s| ==> s[k] == digits[k - first];
    assert SkipSpace(s, 0) == 0 by { NoSpace(s); }
    DigitsEnd(s, first);
    assert s[first..|s|] == digits;
  }

  lemma NoSpace(s: string)
    requires s != "" && !IsSpace(s[0])
    ensures SkipSpace(s, 0) == 0
  {
  }
}
