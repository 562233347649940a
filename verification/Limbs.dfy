/** Numbers held as little-endian sequences of 32-bit limbs. */
module Limbs {
  import opened Words

  /** The number whose low limbs are s and whose remaining part, shifted above them, is t. A carry chain
      keeps this number fixed while it moves limbs from t into s. */
  ghost function Tail(s: seq<uint32>, t: int): (n: int)
    ensures 0 <= t ==> 0 <= n
  {
    if s == [] then t else s[0] as int + LIMB * Tail(s[1..], t)
  }

  /** The number a limb sequence stands for. */
  ghost function Value(s: seq<uint32>): nat {
    Tail(s, 0)
  }

  lemma TailNone(s: seq<uint32>, t: int)
    requires s == []
    ensures Tail(s, t) == t
  {
  }

  lemma {:induction false} TailSnoc(s: seq<uint32>, d: uint32, t: int)
    ensures Tail(s + [d], t) == Tail(s, d as int + LIMB * t)
  {
    if s == [] {
      assert s + [d] == [d];
    } else {
      assert (s + [d])[1..] == s[1..] + [d];
      TailSnoc(s[1..], d, t);
    }
  }

  lemma ValueAt(s: seq<uint32>, i: nat)
    requires i < |s|
    ensures Value(s[i..]) == s[i] as int + LIMB * Value(s[i + 1..])
  {
    assert s[i..][1..] == s[i + 1..];
  }

  lemma {:induction false} TailConcat(a: seq<uint32>, b: seq<uint32>, t: int)
    ensures Tail(a + b, t) == Tail(a, Tail(b, t))
  {
    if a == [] {
      assert a + b == b;
    } else {
      assert (a + b)[1..] == a[1..] + b;
      TailConcat(a[1..], b, t);
    }
  }

  lemma TailSplit(s: seq<uint32>, i: nat)
    requires i <= |s|
    ensures Value(s) == Tail(s[..i], Value(s[i..]))
  {
    assert s == s[..i] + s[i..];
    TailConcat(s[..i], s[i..], 0);
  }

  /** A larger tail outweighs any limbs below it. */
  lemma {:induction false} TailMonotonic(a: seq<uint32>, b: seq<uint32>, t: int, u: int)
    requires |a| == |b| && t < u
    ensures Tail(a, t) < Tail(b, u)
  {
    if a != [] {
      TailMonotonic(a[1..], b[1..], t, u);
    }
  }

  /** t shifted up by n limbs. */
  ghost function Shift(t: int, n: nat): int {
    if n == 0 then t else LIMB * Shift(t, n - 1)
  }

  lemma {:induction false} TailIsShift(s: seq<uint32>, t: int)
    ensures Tail(s, t) == Value(s) + Shift(t, |s|)
  {
    if s != [] {
      TailIsShift(s[1..], t);
    }
  }

  lemma {:induction false} ValueBound(s: seq<uint32>)
    ensures Value(s) < Shift(1, |s|)
  {
    if s != [] {
      ValueBound(s[1..]);
    }
  }

  lemma {:induction false} ValueZero(s: seq<uint32>)
    ensures (forall k :: 0 <= k < |s| ==> s[k] == 0) <==> Value(s) == 0
  {
    if s != [] {
      ValueZero(s[1..]);
      assert forall k :: 0 <= k < |s| ==> s[k] == if k == 0 then s[0] else s[1..][k - 1];
      assert forall k :: 0 <= k < |s[1..]| ==> s[1..][k] == s[k + 1];
    }
  }

  /** Equal numbers of equal length have equal limbs. */
  lemma {:induction false} ValueInjective(a: seq<uint32>, b: seq<uint32>)
    requires |a| == |b| && Value(a) == Value(b)
    ensures a == b
  {
    if a != [] {
      ValueInjective(a[1..], b[1..]);
      assert a == [a[0]] + a[1..];
      assert b == [b[0]] + b[1..];
    }
  }
}
