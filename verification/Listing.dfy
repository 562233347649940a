/** Enumerating a directory of records: every record once, in an order the file system chooses. */
module Listing {
  import opened Sequences
  import opened Sorting

  /** s lists the records of m, each once. */
  ghost predicate Lists<T(!new)>(s: seq<T>, m: map<string, T>, id: T -> string) {
    && NoDuplicates(s)
    && (forall x :: x in s ==> id(x) in m && m[id(x)] == x)
    && (forall k :: k in m ==> m[k] in s)
  }

  method ListAll<T(!new)>(m: map<string, T>, ghost id: T -> string) returns (s: seq<T>)
    requires forall k :: k in m ==> id(m[k]) == k
    ensures Lists(s, m, id)
  {
    s := [];
    var left := m.Keys;
    while left != {}
      invariant left <= m.Keys && NoDuplicates(s)
      invariant forall x :: x in s ==> id(x) in m && m[id(x)] == x && id(x) !in left
      invariant forall k :: k in m && k !in left ==> m[k] in s
    {
      var k :| k in left;
      s := s + [m[k]];
      left := left - {k};
    }
  }

  lemma ListsPermuted<T(!new)>(s: seq<T>, r: seq<T>, m: map<string, T>, id: T -> string)
    requires Lists(s, m, id) && multiset(s) == multiset(r)
    ensures Lists(r, m, id)
  {
    PermutedNoDuplicates(s, r);
    SameMembers(s, r);
  }

  /** Sorted by an order that tells different records apart, there is one listing only. */
  lemma SortedListingUnique<T(!new)>(s: seq<T>, r: seq<T>, m: map<string, T>, id: T -> string, less: (T, T) -> bool)
    requires Lists(s, m, id) && Lists(r, m, id) && StrictWeak(less) && Sorted(s, less) && Sorted(r, less)
    requires forall x, y :: id(x) != id(y) ==> less(x, y) || less(y, x)
    ensures s == r
  {
    hide StrictWeak, Sorted;
    SameElements(s, r);
    forall x, y | x in s && y in s ensures x == y || less(x, y) || less(y, x) {
      assert id(x) == id(y) ==> x == m[id(x)] == y;
    }
    SortedUnique(s, r, less);
  }
}
