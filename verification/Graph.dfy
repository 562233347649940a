/** Adjacency, walks and distances: what the graph engine's answers mean. */
module Graph {
  import opened Records
  import opened Sequences
  import opened Sorting

  datatype Neighbor = Neighbor(objectId: string, relationshipId: string, kind: RelationshipType)

  type Adjacency = map<string, seq<Neighbor>>

  predicate NeighborLess(a: Neighbor, b: Neighbor) {
    if a.objectId != b.objectId then LexLess(a.objectId, b.objectId) else LexLess(a.relationshipId, b.relationshipId)
  }

  lemma NeighborOrder()
    ensures StrictWeak(NeighborLess)
  {
    forall x: Neighbor, y: Neighbor ensures !(NeighborLess(x, y) && NeighborLess(y, x)) {
      LexTotal(x.objectId, y.objectId);
      LexTotal(x.relationshipId, y.relationshipId);
    }
    forall x: Neighbor, y: Neighbor, z: Neighbor | !NeighborLess(y, x) && !NeighborLess(z, y)
      ensures !NeighborLess(z, x)
    {
      NotLessTransitive(x, y, z);
    }
  }

  lemma NotLessTransitive(x: Neighbor, y: Neighbor, z: Neighbor)
    requires !NeighborLess(y, x) && !NeighborLess(z, y)
    ensures !NeighborLess(z, x)
  {
    hide LexLess;
    LexTotal(x.objectId, y.objectId);
    LexTotal(y.objectId, z.objectId);
    LexTotal(x.objectId, z.objectId);
    LexTotal(x.relationshipId, y.relationshipId);
    LexTotal(y.relationshipId, z.relationshipId);
    LexTotal(x.relationshipId, z.relationshipId);
    if LexLess(x.objectId, y.objectId) && LexLess(y.objectId, z.objectId) {
      LexTransitive(x.objectId, y.objectId, z.objectId);
    }
    if LexLess(x.relationshipId, y.relationshipId) && LexLess(y.relationshipId, z.relationshipId) {
      LexTransitive(x.relationshipId, y.relationshipId, z.relationshipId);
    }
  }

  /** The entries that the relationships put into the list of node x, in order. */
  function Incident(relationships: seq<Relationship>, nodes: set<string>, x: string): seq<Neighbor> {
    if relationships == [] then []
    else
      Incident(relationships[..|relationships| - 1], nodes, x)
      + Contribution(relationships[|relationships| - 1], nodes, x)
  }

  /** A relationship is an edge in both directions, if both of its endpoints are nodes. */
  function Contribution(r: Relationship, nodes: set<string>, x: string): seq<Neighbor> {
    if r.source !in nodes || r.target !in nodes then []
    else
      (if x == r.source then [Neighbor(r.target, r.id, r.kind)] else [])
      + (if x == r.target then [Neighbor(r.source, r.id, r.kind)] else [])
  }

  /** The graph of these objects and relationships. */
  ghost predicate IsGraph(adjacency: Adjacency, nodes: set<string>, relationships: seq<Relationship>) {
    && adjacency.Keys == nodes
    && forall x :: x in nodes ==> Sorted(adjacency[x], NeighborLess)
                                  && multiset(adjacency[x]) == multiset(Incident(relationships, nodes, x))
  }

  ghost predicate Adjacent(adjacency: Adjacency, x: string, y: string) {
    x in adjacency && exists n :: n in adjacency[x] && n.objectId == y
  }

  /** Every list names nodes only. */
  ghost predicate Closed(adjacency: Adjacency) {
    forall x, n :: x in adjacency && n in adjacency[x] ==> n.objectId in adjacency
  }

  ghost predicate Symmetric(adjacency: Adjacency) {
    forall x, y :: Adjacent(adjacency, x, y) ==> Adjacent(adjacency, y, x)
  }

  /** The entries of the lists, both ways, for every relationship between two nodes. */
  lemma {:induction false} IncidentMembers(relationships: seq<Relationship>, nodes: set<string>, x: string, n: Neighbor)
    ensures n in Incident(relationships, nodes, x)
            <==> exists r :: r in relationships && n in Contribution(r, nodes, x)
    decreases |relationships|
  {
    if relationships != [] {
      var last := relationships[|relationships| - 1];
      var before := relationships[..|relationships| - 1];
      IncidentMembers(before, nodes, x, n);
      assert relationships == before + [last];
      assert n in Incident(relationships, nodes, x) <==> n in Incident(before, nodes, x) || n in Contribution(last, nodes, x);
    }
  }

  lemma GraphMembers(adjacency: Adjacency, nodes: set<string>, relationships: seq<Relationship>, x: string, n: Neighbor)
    requires IsGraph(adjacency, nodes, relationships) && x in nodes
    ensures n in adjacency[x] <==> exists r :: r in relationships && n in Contribution(r, nodes, x)
  {
    IncidentMembers(relationships, nodes, x, n);
    assert n in adjacency[x] <==> n in multiset(adjacency[x]);
    assert n in Incident(relationships, nodes, x) <==> n in multiset(Incident(relationships, nodes, x));
  }

  /** Two nodes are adjacent exactly when a relationship joins them. */
  lemma AdjacentMeaning(adjacency: Adjacency, nodes: set<string>, relationships: seq<Relationship>, x: string, y: string)
    requires IsGraph(adjacency, nodes, relationships)
    ensures Adjacent(adjacency, x, y)
            <==> x in nodes && y in nodes
                 && exists r :: r in relationships
                                && ((r.source == x && r.target == y) || (r.source == y && r.target == x))
  {
    hide Incident;
    if x in nodes {
      if n :| n in adjacency[x] && n.objectId == y {
        GraphMembers(adjacency, nodes, relationships, x, n);
      }
      if r :| y in nodes && r in relationships
              && ((r.source == x && r.target == y) || (r.source == y && r.target == x)) {
        var n := Neighbor(y, r.id, r.kind);
        assert n in Contribution(r, nodes, x);
        GraphMembers(adjacency, nodes, relationships, x, n);
      }
    }
  }

  lemma GraphSymmetricClosed(adjacency: Adjacency, nodes: set<string>, relationships: seq<Relationship>)
    requires IsGraph(adjacency, nodes, relationships)
    ensures Symmetric(adjacency) && Closed(adjacency)
  {
    hide IsGraph;
    forall x, y | Adjacent(adjacency, x, y) ensures Adjacent(adjacency, y, x) {
      AdjacentMeaning(adjacency, nodes, relationships, x, y);
      AdjacentMeaning(adjacency, nodes, relationships, y, x);
    }
    forall x, n | x in adjacency && n in adjacency[x] ensures n.objectId in adjacency {
      assert Adjacent(adjacency, x, n.objectId);
      AdjacentMeaning(adjacency, nodes, relationships, x, n.objectId);
      assert Adjacent(adjacency, n.objectId, x);
    }
  }

  /** A walk of n edges from x to y. */
  ghost predicate Walk(adjacency: Adjacency, x: string, n: nat, y: string) {
    if n == 0 then x == y
    else exists m :: Walk(adjacency, x, n - 1, m) && Adjacent(adjacency, m, y)
  }

  ghost predicate Reachable(adjacency: Adjacency, x: string, y: string) {
    exists n: nat :: Walk(adjacency, x, n, y)
  }

  ghost predicate IsDistance(adjacency: Adjacency, x: string, y: string, n: nat) {
    Walk(adjacency, x, n, y) && forall k: nat :: k < n ==> !Walk(adjacency, x, k, y)
  }

  lemma {:induction false} WalkJoin(adjacency: Adjacency, x: string, n: nat, y: string, k: nat, z: string)
    requires Walk(adjacency, x, n, y) && Walk(adjacency, y, k, z)
    ensures Walk(adjacency, x, n + k, z)
    decreases k
  {
    if k > 0 {
      var m :| Walk(adjacency, y, k - 1, m) && Adjacent(adjacency, m, z);
      WalkJoin(adjacency, x, n, y, k - 1, m);
    }
  }

  lemma {:induction false} WalkBack(adjacency: Adjacency, x: string, n: nat, y: string)
    requires Symmetric(adjacency) && Walk(adjacency, x, n, y)
    ensures Walk(adjacency, y, n, x)
    decreases n
  {
    if n > 0 {
      var m :| Walk(adjacency, x, n - 1, m) && Adjacent(adjacency, m, y);
      WalkBack(adjacency, x, n - 1, m);
      assert Walk(adjacency, y, 0, y) && Adjacent(adjacency, y, m);
      assert Walk(adjacency, y, 1, m);
      WalkJoin(adjacency, y, 1, m, n - 1, x);
    }
  }

  /** Reachability is an equivalence relation on a symmetric graph. */
  lemma ReachableEquivalence(adjacency: Adjacency, x: string, y: string, z: string)
    requires Symmetric(adjacency)
    ensures Reachable(adjacency, x, x)
    ensures Reachable(adjacency, x, y) ==> Reachable(adjacency, y, x)
    ensures Reachable(adjacency, x, y) && Reachable(adjacency, y, z) ==> Reachable(adjacency, x, z)
  {
    assert Walk(adjacency, x, 0, x);
    if n: nat :| Walk(adjacency, x, n, y) {
      WalkBack(adjacency, x, n, y);
      if k: nat :| Walk(adjacency, y, k, z) {
        WalkJoin(adjacency, x, n, y, k, z);
      }
    }
  }

  lemma IncidentLast(a: seq<Relationship>, r: Relationship, nodes: set<string>, x: string)
    ensures Incident(a + [r], nodes, x) == Incident(a, nodes, x) + Contribution(r, nodes, x)
  {
    hide Contribution;
    assert (a + [r])[..|a|] == a;
  }

  lemma {:induction false} IncidentJoin(a: seq<Relationship>, b: seq<Relationship>, nodes: set<string>, x: string)
    ensures Incident(a + b, nodes, x) == Incident(a, nodes, x) + Incident(b, nodes, x)
    decreases |b|
  {
    if b == [] {
      assert a + b == a;
    } else {
      hide Contribution, Incident;
      var before, last := b[..|b| - 1], b[|b| - 1];
      assert b == before + [last];
      Regroup(a, before, [last]);
      IncidentJoin(a, before, nodes, x);
      IncidentLast(a + before, last, nodes, x);
      IncidentLast(before, last, nodes, x);
      Regroup(Incident(a, nodes, x), Incident(before, nodes, x), Contribution(last, nodes, x));
    }
  }

  lemma IncidentOne(r: Relationship, nodes: set<string>, x: string)
    ensures Incident([r], nodes, x) == Contribution(r, nodes, x)
  {
    assert [r][..0] == [];
  }

  /** Where an entry stands among the relationships does not matter for the lists as multisets. */
  lemma IncidentInserted(a: seq<Relationship>, r: Relationship, b: seq<Relationship>, nodes: set<string>, x: string)
    ensures multiset(Incident(a + [r] + b, nodes, x))
            == multiset(Incident(a + b, nodes, x)) + multiset(Contribution(r, nodes, x))
  {
    IncidentJoin(a + [r], b, nodes, x);
    IncidentJoin(a, [r], nodes, x);
    IncidentJoin(a, b, nodes, x);
    IncidentOne(r, nodes, x);
    hide Incident, Contribution;
  }

  lemma RemoveOne(a: seq<Relationship>, last: Relationship, b: seq<Relationship>)
    returns (rest: seq<Relationship>, more: seq<Relationship>)
    requires multiset(a + [last]) == multiset(b)
    ensures b == rest + [last] + more
    ensures multiset(a) == multiset(rest + more)
  {
    SameMembers(a + [last], b);
    assert last in a + [last];
    var i :| 0 <= i < |b| && b[i] == last;
    rest, more := b[..i], b[i + 1..];
    assert b == rest + ([last] + more);
    Counts(a, last, rest, more);
  }

  lemma Counts(a: seq<Relationship>, last: Relationship, rest: seq<Relationship>, more: seq<Relationship>)
    requires multiset(a + [last]) == multiset(rest + ([last] + more))
    ensures multiset(a) == multiset(rest + more)
  {
    assert multiset(a + [last]) == multiset(a) + multiset{last};
    assert multiset(rest + ([last] + more)) == multiset(rest) + multiset{last} + multiset(more);
    assert multiset(a + [last]) - multiset{last} == multiset(a);
  }

  lemma {:induction false} IncidentPermuted(a: seq<Relationship>, b: seq<Relationship>, nodes: set<string>, x: string)
    requires multiset(a) == multiset(b)
    ensures multiset(Incident(a, nodes, x)) == multiset(Incident(b, nodes, x))
    decreases |a|
  {
    SameMembers(a, b);
    if a != [] {
      hide Incident, Contribution;
      var before, last := a[..|a| - 1], a[|a| - 1];
      assert a == before + [last];
      var rest, more := RemoveOne(before, last, b);
      IncidentPermuted(before, rest + more, nodes, x);
      IncidentInserted(rest, last, more, nodes, x);
      IncidentLast(before, last, nodes, x);
    }
  }

  /** A listing of relationships with distinct identifiers. */
  ghost predicate IsListing(relationships: seq<Relationship>) {
    forall i, j :: 0 <= i < j < |relationships| ==> relationships[i].id != relationships[j].id
  }

  /** All that a relationship contributes to a list is equal: one entry, or the same twice if it is a loop. */
  lemma OneEntryEach(relationships: seq<Relationship>, nodes: set<string>, x: string, r: Relationship, s: Relationship,
                     n: Neighbor, m: Neighbor)
    requires IsListing(relationships) && r in relationships && s in relationships
    requires n in Contribution(r, nodes, x) && m in Contribution(s, nodes, x) && n.relationshipId == m.relationshipId
    ensures n == m
  {
    var i :| 0 <= i < |relationships| && relationships[i] == r;
    var j :| 0 <= j < |relationships| && relationships[j] == s;
    assert r.id == n.relationshipId && s.id == m.relationshipId;
    assert i == j;
  }

  lemma PairComparable(adjacency: Adjacency, nodes: set<string>, relationships: seq<Relationship>, x: string,
                       n: Neighbor, m: Neighbor)
    requires IsGraph(adjacency, nodes, relationships) && IsListing(relationships) && x in nodes
    requires n in adjacency[x] && m in adjacency[x]
    ensures n == m || NeighborLess(n, m) || NeighborLess(m, n)
  {
    hide LexLess, Contribution, IsListing;
    GraphMembers(adjacency, nodes, relationships, x, n);
    GraphMembers(adjacency, nodes, relationships, x, m);
    LexTotal(n.objectId, m.objectId);
    LexTotal(n.relationshipId, m.relationshipId);
    var r :| r in relationships && n in Contribution(r, nodes, x);
    var s :| s in relationships && m in Contribution(s, nodes, x);
    if n.relationshipId == m.relationshipId {
      OneEntryEach(relationships, nodes, x, r, s, n, m);
    }
  }

  lemma NeighborsComparable(adjacency: Adjacency, nodes: set<string>, relationships: seq<Relationship>, x: string)
    requires IsGraph(adjacency, nodes, relationships) && IsListing(relationships) && x in nodes
    ensures Comparable(adjacency[x], NeighborLess)
  {
    hide Incident, IsListing;
    forall n, m | n in adjacency[x] && m in adjacency[x] ensures n == m || NeighborLess(n, m) || NeighborLess(m, n) {
      PairComparable(adjacency, nodes, relationships, x, n, m);
    }
  }

  /** The same stores give the same graph, whatever the order of enumeration. */
  lemma GraphUnique(a: Adjacency, b: Adjacency, nodes: set<string>, first: seq<Relationship>, second: seq<Relationship>)
    requires IsGraph(a, nodes, first) && IsGraph(b, nodes, second)
    requires multiset(first) == multiset(second) && IsListing(first)
    ensures a == b
  {
    hide Incident, NeighborLess;
    NeighborOrder();
    forall x | x in nodes ensures a[x] == b[x] {
      IncidentPermuted(first, second, nodes, x);
      NeighborsComparable(a, nodes, first, x);
      SortedUnique(a[x], b[x], NeighborLess);
    }
  }

  /** Every list ascends by the identifier of the neighbor, and for one neighbor by that of the relationship. */
  lemma NeighborsAscend(adjacency: Adjacency, nodes: set<string>, relationships: seq<Relationship>, x: string, i: nat,
                        j: nat)
    requires IsGraph(adjacency, nodes, relationships) && x in nodes && i < j < |adjacency[x]|
    ensures var a, b := adjacency[x][i], adjacency[x][j];
            && NotAfter(a.objectId, b.objectId)
            && (a.objectId == b.objectId ==> NotAfter(a.relationshipId, b.relationshipId))
  {
    hide LexLess;
    var a, b := adjacency[x][i], adjacency[x][j];
    assert !NeighborLess(b, a);
    NotLess(a.objectId, b.objectId);
    NotLess(a.relationshipId, b.relationshipId);
    LexTotal(a.objectId, b.objectId);
  }
}
