/** The order of std::string, and what std::sort promises for a strict weak ordering. */
module Sorting {
  import opened Sequences

  predicate LexLess(a: string, b: string) {
    b != "" && (a == "" || a[0] < b[0] || (a[0] == b[0] && LexLess(a[1..], b[1..])))
  }

  lemma {:induction false} LexTotal(a: string, b: string)
    ensures LexLess(a, b) || LexLess(b, a) || a == b
    ensures !(LexLess(a, b) && LexLess(b, a))
    ensures !LexLess(a, a)
  {
    if a != "" {
      LexTotal(a[1..], a[1..]);
      if b != "" {
        LexTotal(a[1..], b[1..]);
        assert a[0] == b[0] && a[1..] == b[1..] ==> a == [a[0]] + a[1..] == b;
      }
    }
  }

  /** The order of std::string: at the first place where they differ the smaller character comes first, and a proper
      prefix comes before. */
  lemma {:induction false} LexMeans(a: string, b: string)
    ensures LexLess(a, b) <==> exists k: nat :: IsFirstDifference(a, b, k)
  {
    forall k: nat | IsFirstDifference(a, b, k) && k > 0 ensures a != "" && b != "" && a[0] == b[0] {
      assert a[..k][0] == b[..k][0];
    }
    if a != "" && b != "" && a[0] == b[0] {
      LexMeans(a[1..], b[1..]);
      if k: nat :| IsFirstDifference(a[1..], b[1..], k) {
        assert a[..k + 1] == [a[0]] + a[1..][..k] && b[..k + 1] == [b[0]] + b[1..][..k];
        assert IsFirstDifference(a, b, k + 1);
      }
      if k: nat :| IsFirstDifference(a, b, k) {
        assert a[1..][..k - 1] == a[..k][1..] && b[1..][..k - 1] == b[..k][1..];
        assert IsFirstDifference(a[1..], b[1..], k - 1);
      }
    } else {
      if LexLess(a, b) {
        assert IsFirstDifference(a, b, 0);
      }
      if k: nat :| IsFirstDifference(a, b, k) {
        assert k == 0;
      }
    }
  }

  /** a and b agree before place k, and there a ends or has the smaller character. */
  ghost predicate IsFirstDifference(a: string, b: string, k: nat) {
    k <= |a| && k < |b| && a[..k] == b[..k] && (k == |a| || a[k] < b[k])
  }

  /** a comes before b, or is b. */
  ghost predicate NotAfter(a: string, b: string) {
    a == b || exists k: nat :: IsFirstDifference(a, b, k)
  }

  lemma NotLess(a: string, b: string)
    ensures !LexLess(b, a) <==> NotAfter(a, b)
  {
    hide LexLess;
    LexTotal(a, b);
    LexMeans(a, b);
  }

  lemma {:induction false} LexTransitive(a: string, b: string, c: string)
    requires LexLess(a, b) && LexLess(b, c)
    ensures LexLess(a, c)
  {
    if a != "" && a[0] == b[0] == c[0] {
      LexTransitive(a[1..], b[1..], c[1..]);
    }
  }

  /** What std::sort asks of a comparison. */
  ghost predicate StrictWeak<T(!new)>(less: (T, T) -> bool) {
    && (forall x, y :: !(less(x, y) && less(y, x)))
    && (forall x, y, z :: !less(y, x) && !less(z, y) ==> !less(z, x))
  }

  lemma LexNotLessTransitive(x: string, y: string, z: string)
    requires !LexLess(y, x) && !LexLess(z, y)
    ensures !LexLess(z, x)
  {
    hide LexLess;
    LexTotal(x, y);
    LexTotal(y, z);
    LexTotal(x, z);
    if LexLess(x, y) && LexLess(y, z) {
      LexTransitive(x, y, z);
    }
  }

  lemma LexOrder()
    ensures StrictWeak(LexLess)
  {
    hide LexLess;
    forall a: string, b: string ensures !(LexLess(a, b) && LexLess(b, a)) {
      LexTotal(a, b);
    }
    forall a: string, b: string, c: string | !LexLess(b, a) && !LexLess(c, b) ensures !LexLess(c, a) {
      LexNotLessTransitive(a, b, c);
    }
  }

  ghost predicate Sorted<T>(s: seq<T>, less: (T, T) -> bool) {
    forall i, j :: 0 <= i < j < |s| ==> !less(s[j], s[i])
  }

  function Insert<T>(s: seq<T>, x: T, less: (T, T) -> bool): seq<T> {
    if s == [] || less(x, s[0]) then [x] + s else [s[0]] + Insert(s[1..], x, less)
  }

  lemma {:induction false} InsertAdds<T>(s: seq<T>, x: T, less: (T, T) -> bool)
    ensures multiset(Insert(s, x, less)) == multiset(s) + multiset{x}
  {
    if s != [] && !less(x, s[0]) {
      InsertAdds(s[1..], x, less);
      assert s == [s[0]] + s[1..];
    }
  }

  lemma InsertMembers<T>(s: seq<T>, x: T, less: (T, T) -> bool, y: T)
    ensures y in Insert(s, x, less) <==> y in s || y == x
  {
    InsertAdds(s, x, less);
    hide Insert;
    assert y in Insert(s, x, less) <==> y in multiset(Insert(s, x, less));
    assert y in s <==> y in multiset(s);
  }

  lemma {:induction false} InsertSorted<T(!new)>(s: seq<T>, x: T, less: (T, T) -> bool)
    requires StrictWeak(less) && Sorted(s, less)
    ensures Sorted(Insert(s, x, less), less)
  {
    if s == [] {
    } else if less(x, s[0]) {
      forall j | 0 <= j < |s| ensures !less(s[j], x) {
        assert !less(s[0], x) && (j > 0 ==> !less(s[j], s[0]));
      }
    } else {
      InsertSorted(s[1..], x, less);
      var rest := Insert(s[1..], x, less);
      forall j | 0 <= j < |rest| ensures !less(rest[j], s[0]) {
        assert rest[j] in rest;
        InsertMembers(s[1..], x, less, rest[j]);
      }
    }
  }

  /** The sorted sequence; nothing is said of the order of equivalent elements. */
  method Sort<T(!new)>(s: seq<T>, less: (T, T) -> bool) returns (r: seq<T>)
    requires StrictWeak(less)
    ensures Sorted(r, less) && multiset(r) == multiset(s)
  {
    r := [];
    for i := 0 to |s|
      invariant Sorted(r, less) && multiset(r) == multiset(s[..i])
    {
      InsertAdds(r, s[i], less);
      InsertSorted(r, s[i], less);
      r := Insert(r, s[i], less);
      assert s[..i + 1] == s[..i] + [s[i]];
    }
    assert s[..|s|] == s;
  }

  /** Distinct elements are comparable. */
  ghost predicate Comparable<T>(s: seq<T>, less: (T, T) -> bool) {
    forall x, y :: x in s && y in s ==> x == y || less(x, y) || less(y, x)
  }

  lemma SameTails<T>(a: seq<T>, b: seq<T>)
    requires multiset(a) == multiset(b) && a != [] && b != [] && a[0] == b[0]
    ensures multiset(a[1..]) == multiset(b[1..])
  {
    assert a == [a[0]] + a[1..] && b == [b[0]] + b[1..];
    assert multiset(a[1..]) == multiset(a) - multiset{a[0]};
    assert multiset(b[1..]) == multiset(b) - multiset{b[0]};
  }

  lemma HeadsLeast<T(!new)>(a: seq<T>, b: seq<T>, less: (T, T) -> bool)
    requires Sorted(a, less) && Sorted(b, less) && Comparable(a, less) && a != [] && b != []
    requires StrictWeak(less) && a[0] in b && b[0] in a
    ensures a[0] == b[0]
  {
    var i :| 0 <= i < |b| && b[i] == a[0];
    var j :| 0 <= j < |a| && a[j] == b[0];
  }

  /** When no two different elements are equivalent, sorting has one result only. */
  lemma {:induction false} SortedUnique<T(!new)>(a: seq<T>, b: seq<T>, less: (T, T) -> bool)
    requires StrictWeak(less) && Sorted(a, less) && Sorted(b, less)
    requires multiset(a) == multiset(b) && Comparable(a, less)
    ensures a == b
  {
    hide StrictWeak;
    SameMembers(a, b);
    if a != [] {
      HeadsLeast(a, b, less);
      SameTails(a, b);
      assert forall x :: x in a[1..] ==> x in a;
      SortedUnique(a[1..], b[1..], less);
      assert a == [a[0]] + a[1..] && b == [b[0]] + b[1..];
    }
  }
}
