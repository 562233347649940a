/** The graph engine: building the adjacency lists, breadth-first and depth-first traversal, path queries. */
module GraphEngine {
  import opened Listing
  import opened Options
  import opened Records
  import opened Sequences
  import opened Sorting
  import opened Graph
  import opened StoreModel
  import S = Stores

  function NeighborIds(list: seq<Neighbor>): seq<string> {
    seq(|list|, i requires 0 <= i < |list| => list[i].objectId)
  }

  /** order lists exactly the nodes reachable from start, each once. */
  ghost predicate ListsReachable(adjacency: Adjacency, start: string, order: seq<string>) {
    NoDuplicates(order) && forall y :: y in order <==> Reachable(adjacency, start, y)
  }

  ghost function Members(s: seq<string>): set<string> {
    set x | x in s
  }

  /** The recursive depth-first search: visit the nodes of todo in turn, each with everything reachable through
      nodes not seen before, and list them in the order of their first visit. */
  ghost function Preorder(adjacency: Adjacency, todo: seq<string>, seen: set<string>): (order: seq<string>)
    requires Closed(adjacency) && Nodes(adjacency, todo)
    decreases adjacency.Keys - seen, |todo|
  {
    if todo == [] then []
    else if todo[0] in seen then Preorder(adjacency, todo[1..], seen)
    else
      var first := Visit(adjacency, todo[0], seen);
      assert todo[0] in first;
      first + Preorder(adjacency, todo[1..], seen + Members(first))
  }

  ghost function Visit(adjacency: Adjacency, x: string, seen: set<string>): (order: seq<string>)
    requires Closed(adjacency) && x in adjacency && x !in seen
    ensures order != [] && order[0] == x
    decreases adjacency.Keys - seen, 0
  {
    [x] + Preorder(adjacency, NeighborIds(adjacency[x]), seen + {x})
  }

  ghost predicate Nodes(adjacency: Adjacency, todo: seq<string>) {
    forall x :: x in todo ==> x in adjacency
  }

  lemma MembersJoin(a: seq<string>, b: seq<string>)
    ensures Members(a + b) == Members(a) + Members(b)
  {
  }

  /** One list after the other. */
  lemma {:induction false} PreorderJoin(adjacency: Adjacency, a: seq<string>, b: seq<string>, seen: set<string>)
    requires Closed(adjacency) && Nodes(adjacency, a) && Nodes(adjacency, b)
    ensures Nodes(adjacency, a + b)
    ensures var first := Preorder(adjacency, a, seen);
            Preorder(adjacency, a + b, seen) == first + Preorder(adjacency, b, seen + Members(first))
    decreases adjacency.Keys - seen, |a|
  {
    if a == [] {
      assert a + b == b && seen + Members([]) == seen;
    } else {
      assert (a + b)[0] == a[0] && (a + b)[1..] == a[1..] + b;
      if a[0] in seen {
        PreorderJoin(adjacency, a[1..], b, seen);
      } else {
        var first := Visit(adjacency, a[0], seen);
        assert a[0] in first;
        PreorderJoin(adjacency, a[1..], b, seen + Members(first));
        var rest := Preorder(adjacency, a[1..], seen + Members(first));
        MembersJoin(first, rest);
        assert seen + Members(first) + Members(rest) == seen + Members(first + rest);
      }
    }
  }

  /** The entries not seen yet, in order. */
  function Unseen(s: seq<string>, seen: set<string>): seq<string> {
    if s == [] then []
    else if s[0] in seen then Unseen(s[1..], seen)
    else [s[0]] + Unseen(s[1..], seen)
  }

  lemma {:induction false} UnseenSubset(s: seq<string>, seen: set<string>)
    ensures forall x :: x in Unseen(s, seen) ==> x in s
  {
    if s != [] { UnseenSubset(s[1..], seen); }
  }

  /** It makes no difference whether seen nodes are left out when they are listed or skipped when their turn
      comes. */
  lemma {:induction false} UnseenSuffice(adjacency: Adjacency, a: seq<string>, seen: set<string>, now: set<string>)
    requires Closed(adjacency) && Nodes(adjacency, a) && seen <= now
    ensures Nodes(adjacency, Unseen(a, seen))
    ensures Preorder(adjacency, Unseen(a, seen), now) == Preorder(adjacency, a, now)
    decreases |a|
  {
    UnseenSubset(a, seen);
    if a != [] {
      if a[0] in now {
        UnseenSuffice(adjacency, a[1..], seen, now);
      } else {
        UnseenSuffice(adjacency, a[1..], seen, now + Members(Visit(adjacency, a[0], now)));
      }
      assert a[0] !in seen ==> Unseen(a, seen)[1..] == Unseen(a[1..], seen);
    }
  }

  /** One turn of the loop over the stack, whose entries from the top down are [x] + rest. */
  lemma VisitTop(adjacency: Adjacency, x: string, rest: seq<string>, seen: set<string>)
    requires Closed(adjacency) && x in adjacency && x !in seen && Nodes(adjacency, rest)
    ensures var pushed := Unseen(NeighborIds(adjacency[x]), seen + {x});
            && Nodes(adjacency, pushed + rest)
            && Preorder(adjacency, [x] + rest, seen) == [x] + Preorder(adjacency, pushed + rest, seen + {x})
  {
    var ids, now := NeighborIds(adjacency[x]), seen + {x};
    var pushed := Unseen(ids, now);
    UnseenSuffice(adjacency, ids, now, now);
    var below := Preorder(adjacency, ids, now);
    PreorderJoin(adjacency, pushed, rest, now);
    MembersJoin([x], below);
    assert Members([x]) == {x};
    assert seen + Members([x] + below) == now + Members(below);
    assert ([x] + rest)[1..] == rest;
    assert Visit(adjacency, x, seen) == [x] + below;
  }

  /** What the recursive search lists: new nodes only, each once, all of todo, with every neighbor, and nothing
      that is not reachable from todo. */
  ghost predicate ListsFrom(adjacency: Adjacency, todo: seq<string>, seen: set<string>, order: seq<string>) {
    && NoDuplicates(order)
    && (forall x :: x in order ==> x in adjacency && x !in seen)
    && (forall x :: x in todo ==> x in seen || x in order)
    && (forall x, y :: x in order && Adjacent(adjacency, x, y) ==> y in seen || y in order)
    && (forall y :: y in order ==> exists x :: x in todo && Reachable(adjacency, x, y))
  }

  lemma {:induction false} PreorderLists(adjacency: Adjacency, todo: seq<string>, seen: set<string>)
    requires Closed(adjacency) && Nodes(adjacency, todo)
    ensures ListsFrom(adjacency, todo, seen, Preorder(adjacency, todo, seen))
    decreases adjacency.Keys - seen, |todo|
  {
    if todo == [] {
    } else if todo[0] in seen {
      PreorderLists(adjacency, todo[1..], seen);
      ListsMore(adjacency, todo, seen, Preorder(adjacency, todo, seen));
    } else {
      var first := Visit(adjacency, todo[0], seen);
      VisitLists(adjacency, todo[0], seen);
      assert todo[0] in first;
      PreorderLists(adjacency, todo[1..], seen + Members(first));
      ListsJoin(adjacency, todo, seen, first, Preorder(adjacency, todo[1..], seen + Members(first)));
    }
  }

  lemma NeighborListed(adjacency: Adjacency, x: string, y: string)
    requires x in adjacency
    ensures y in NeighborIds(adjacency[x]) <==> Adjacent(adjacency, x, y)
  {
    if n :| n in adjacency[x] && n.objectId == y {
      var i :| 0 <= i < |adjacency[x]| && adjacency[x][i] == n;
      assert NeighborIds(adjacency[x])[i] == y;
    }
  }

  lemma SelfReachable(adjacency: Adjacency, x: string)
    ensures Reachable(adjacency, x, x)
  {
    assert Walk(adjacency, x, 0, x);
  }

  lemma ReachableThrough(adjacency: Adjacency, x: string, z: string, y: string)
    requires Adjacent(adjacency, x, z) && Reachable(adjacency, z, y)
    ensures Reachable(adjacency, x, y)
  {
    var n: nat :| Walk(adjacency, z, n, y);
    assert Walk(adjacency, x, 0, x);
    assert Walk(adjacency, x, 1, z);
    WalkJoin(adjacency, x, 1, z, n, y);
  }

  lemma {:induction false} VisitLists(adjacency: Adjacency, x: string, seen: set<string>)
    requires Closed(adjacency) && x in adjacency && x !in seen
    ensures ListsFrom(adjacency, [x], seen, Visit(adjacency, x, seen))
    decreases adjacency.Keys - seen, 0
  {
    var ids := NeighborIds(adjacency[x]);
    PreorderLists(adjacency, ids, seen + {x});
    var below := Preorder(adjacency, ids, seen + {x});
    assert Visit(adjacency, x, seen) == [x] + below;
    hide Preorder, Visit, Adjacent, Reachable, NeighborIds, Closed;
    SelfReachable(adjacency, x);
    forall y | y in below ensures Reachable(adjacency, x, y) {
      var z :| z in ids && Reachable(adjacency, z, y);
      NeighborListed(adjacency, x, z);
      ReachableThrough(adjacency, x, z, y);
    }
    forall y | Adjacent(adjacency, x, y) ensures y in ids {
      NeighborListed(adjacency, x, y);
    }
  }

  lemma ListsMore(adjacency: Adjacency, todo: seq<string>, seen: set<string>, order: seq<string>)
    requires todo != [] && todo[0] in seen && ListsFrom(adjacency, todo[1..], seen, order)
    ensures ListsFrom(adjacency, todo, seen, order)
  {
    hide Adjacent, Reachable;
    assert todo == [todo[0]] + todo[1..];
  }

  lemma ListsJoin(adjacency: Adjacency, todo: seq<string>, seen: set<string>, first: seq<string>, rest: seq<string>)
    requires todo != [] && ListsFrom(adjacency, [todo[0]], seen, first)
    requires ListsFrom(adjacency, todo[1..], seen + Members(first), rest)
    ensures ListsFrom(adjacency, todo, seen, first + rest)
  {
    hide Adjacent, Reachable;
    assert todo == [todo[0]] + todo[1..];
    forall x | x in todo ensures x in seen || x in first + rest {
      assert x in [todo[0]] || x in todo[1..];
    }
    assert NoDuplicates(first + rest) by {
      forall j | 0 <= j < |rest| ensures rest[j] !in first {
        assert rest[j] in rest;
      }
    }
    forall x, y | x in first + rest && Adjacent(adjacency, x, y) ensures y in seen || y in first + rest {
      assert x in first || x in rest;
    }
    forall y | y in first + rest ensures exists x :: x in todo && Reachable(adjacency, x, y) {
      if y in first {
        assert todo[0] in todo;
      }
    }
  }

  /** The recursive search from one node. */
  lemma PreorderReachable(adjacency: Adjacency, start: string)
    requires Closed(adjacency) && start in adjacency
    ensures ListsReachable(adjacency, start, Preorder(adjacency, [start], {}))
  {
    hide Preorder, Walk;
    PreorderLists(adjacency, [start], {});
    var order := Preorder(adjacency, [start], {});
    forall y ensures y in order <==> Reachable(adjacency, start, y) {
      if n: nat :| Walk(adjacency, start, n, y) {
        ClosedUnderWalks(adjacency, order, start, n, y);
      }
    }
  }

  lemma {:induction false} ClosedUnderWalks(adjacency: Adjacency, order: seq<string>, x: string, n: nat, y: string)
    requires x in order && Walk(adjacency, x, n, y)
    requires forall x, y :: x in order && Adjacent(adjacency, x, y) ==> y in order
    ensures y in order
    decreases n
  {
    if n > 0 {
      var m :| Walk(adjacency, x, n - 1, m) && Adjacent(adjacency, m, y);
      ClosedUnderWalks(adjacency, order, x, n - 1, m);
    }
  }

  /** The nodes of a list come in non-decreasing distance from start. */
  ghost predicate ByDistance(adjacency: Adjacency, start: string, order: seq<string>) {
    forall i, j, m, n ::
      0 <= i < j < |order| && IsDistance(adjacency, start, order[i], m) && IsDistance(adjacency, start, order[j], n)
      ==> m <= n
  }

  /** All neighbors of x are found, at most one edge further away. */
  ghost predicate Expanded(adjacency: Adjacency, dist: map<string, nat>, x: string)
    requires x in dist
  {
    forall y :: Adjacent(adjacency, x, y) ==> y in dist && dist[y] <= dist[x] + 1
  }

  /** The nodes found so far, in the order found, each with the length of a walk to it. */
  ghost predicate Found(adjacency: Adjacency, start: string, line: seq<string>, dist: map<string, nat>) {
    && NoDuplicates(line)
    && (forall y :: y in dist <==> y in line)
    && start in dist && dist[start] == 0
    && (forall y :: y in dist ==> y in adjacency && Walk(adjacency, start, dist[y], y))
    && (forall i, j :: 0 <= i < j < |line| ==> dist[line[i]] <= dist[line[j]])
  }

  /** Breadth-first search with the first head nodes of the line expanded. */
  ghost predicate Searched(adjacency: Adjacency, start: string, line: seq<string>, head: nat, dist: map<string, nat>) {
    && Found(adjacency, start, line, dist) && head <= |line|
    && (forall i :: 0 <= i < head ==> Expanded(adjacency, dist, line[i]))
    && (head < |line| ==> dist[line[|line| - 1]] <= dist[line[head]] + 1)
  }

  lemma StartSearch(adjacency: Adjacency, start: string)
    requires start in adjacency
    ensures Searched(adjacency, start, [] + [start], 0, map[start := 0])
  {
    assert [] + [start] == [start] && Walk(adjacency, start, 0, start);
  }

  /** The node at the head moves from the queue to the end of the order. */
  lemma TakeNext(adjacency: Adjacency, start: string, order: seq<string>, queue: seq<string>, dist: map<string, nat>)
    requires Searched(adjacency, start, order + queue, |order|, dist) && queue != []
    ensures queue[0] in adjacency && queue[0] !in order
    ensures order + [queue[0]] + queue[1..] == order + queue
  {
    var line := order + queue;
    assert line[|order|] == queue[0];
    assert forall i :: 0 <= i < |order| ==> order[i] == line[i];
  }

  /** A neighbor of the node at the head is found. */
  lemma FindNeighbor(adjacency: Adjacency, start: string, line: seq<string>, head: nat, dist: map<string, nat>, y: string)
    requires Searched(adjacency, start, line, head, dist) && head < |line|
    requires Adjacent(adjacency, line[head], y) && y in adjacency && y !in dist
    ensures Searched(adjacency, start, line + [y], head, dist[y := dist[line[head]] + 1])
  {
    assert Walk(adjacency, start, dist[line[head]] + 1, y);
    hide Walk, Adjacent;
    var more := dist[y := dist[line[head]] + 1];
    forall i | 0 <= i < head ensures Expanded(adjacency, more, (line + [y])[i]) {
      assert Expanded(adjacency, dist, line[i]);
    }
  }

  lemma HeadFound(adjacency: Adjacency, start: string, order: seq<string>, queue: seq<string>, dist: map<string, nat>)
    requires order != [] && Searched(adjacency, start, order + queue, |order| - 1, dist)
    ensures order[|order| - 1] in dist && order[|order| - 1] in adjacency
  {
    assert (order + queue)[|order| - 1] in order + queue;
  }

  /** Whatever was found before lies at most one edge beyond the head. */
  lemma CloseEnough(adjacency: Adjacency, start: string, line: seq<string>, head: nat, dist: map<string, nat>, y: string)
    requires Searched(adjacency, start, line, head, dist) && head < |line| && y in dist
    ensures line[head] in dist && dist[y] <= dist[line[head]] + 1
  {
    var i :| 0 <= i < |line| && line[i] == y;
    assert i < |line| - 1 ==> dist[line[i]] <= dist[line[|line| - 1]];
  }

  /** Once all its neighbors are found, the node at the head is expanded. */
  lemma HeadExpanded(adjacency: Adjacency, start: string, line: seq<string>, head: nat, dist: map<string, nat>)
    requires Searched(adjacency, start, line, head, dist) && head < |line|
    requires Expanded(adjacency, dist, line[head])
    ensures Searched(adjacency, start, line, head + 1, dist)
  {
  }

  lemma {:induction false} SearchComplete(adjacency: Adjacency, start: string, line: seq<string>, dist: map<string, nat>,
                                          n: nat, y: string)
    requires Searched(adjacency, start, line, |line|, dist) && Walk(adjacency, start, n, y)
    ensures y in dist && dist[y] <= n
    decreases n
  {
    if n > 0 {
      var m :| Walk(adjacency, start, n - 1, m) && Adjacent(adjacency, m, y);
      SearchComplete(adjacency, start, line, dist, n - 1, m);
      var i :| 0 <= i < |line| && line[i] == m;
      assert Expanded(adjacency, dist, line[i]);
    }
  }

  /** A finished search has found every reachable node, in the order of its distance. */
  lemma SearchFinished(adjacency: Adjacency, start: string, line: seq<string>, dist: map<string, nat>)
    requires Searched(adjacency, start, line, |line|, dist)
    ensures ListsReachable(adjacency, start, line) && ByDistance(adjacency, start, line)
  {
    hide Walk;
    forall y ensures y in line <==> Reachable(adjacency, start, y) {
      if n: nat :| Walk(adjacency, start, n, y) {
        SearchComplete(adjacency, start, line, dist, n, y);
      }
    }
    forall i, m | 0 <= i < |line| && IsDistance(adjacency, start, line[i], m) ensures m == dist[line[i]] {
      SearchComplete(adjacency, start, line, dist, m, line[i]);
    }
  }

  lemma ListedIds(list: seq<EngineeringObject>, m: Objects)
    requires Lists(list, m, ObjectId) && forall k :: k in m ==> m[k].id == k
    ensures (set o | o in list :: o.id) == m.Keys
  {
    forall k | k in m ensures exists o :: o in list && o.id == k {
      assert m[k] in list;
    }
  }

  /** The graph is a function of the stores: the order of enumeration leaves no trace. */
  lemma GraphDetermined(a: Adjacency, b: Adjacency, nodes: set<string>, m: Relationships,
                        first: seq<Relationship>, second: seq<Relationship>)
    requires (forall k :: k in m ==> m[k].id == k)
    requires Lists(first, m, RelationshipId) && Lists(second, m, RelationshipId)
    requires IsGraph(a, nodes, first) && IsGraph(b, nodes, second)
    ensures a == b
  {
    SameElements(first, second);
    forall i, j | 0 <= i < j < |first| ensures first[i].id != first[j].id {
      assert first[i] in first && first[j] in first;
    }
    hide IsGraph;
    GraphUnique(a, b, nodes, first, second);
  }

  lemma NoneUnseen(visited: set<string>, rest: seq<string>)
    ensures Unseen([], visited) + rest == rest
  {
    assert Unseen([], visited) == [];
  }

  lemma UnseenStep(ids: seq<string>, k: nat, visited: set<string>, rest: seq<string>)
    requires k < |ids|
    ensures Unseen(ids[k..], visited) + rest
            == if ids[k] in visited then Unseen(ids[k + 1..], visited) + rest
               else [ids[k]] + (Unseen(ids[k + 1..], visited) + rest)
  {
    assert ids[k..][1..] == ids[k + 1..];
  }

  /** todo lists the stack from the top down. */
  ghost predicate TopDown(stack: seq<string>, todo: seq<string>) {
    |stack| == |todo| && forall i :: 0 <= i < |todo| ==> todo[i] == stack[|stack| - 1 - i]
  }

  lemma SkipTop(adjacency: Adjacency, x: string, rest: seq<string>, seen: set<string>)
    requires Closed(adjacency) && x in seen && Nodes(adjacency, [x] + rest)
    ensures Nodes(adjacency, rest)
    ensures Preorder(adjacency, [x] + rest, seen) == Preorder(adjacency, rest, seen)
  {
    assert ([x] + rest)[1..] == rest;
    assert forall y :: y in rest ==> y in [x] + rest;
  }

  lemma NothingLeft(adjacency: Adjacency, seen: set<string>)
    requires Closed(adjacency)
    ensures Preorder(adjacency, [], seen) == []
  {
  }

  class GraphEngine {
    var adjacency: Adjacency

    constructor ()
      ensures adjacency == map[]
    {
      adjacency := map[];
    }

    /** From the stores, which enumerate their records in whatever order they like. */
    method BuildGraph(objects: S.ObjectStore, relationships: S.RelationshipStore) returns (ghost listed: seq<Relationship>)
      requires Keyed(Stores(objects.records, relationships.records))
      modifies this
      ensures Lists(listed, relationships.records, RelationshipId)
      ensures IsGraph(adjacency, objects.records.Keys, listed) && Valid()
    {
      var objectList := ListAll(objects.records, ObjectId);
      AddNodes(objectList);
      ListedIds(objectList, objects.records);
      var list := ListAll(relationships.records, RelationshipId);
      listed := list;
      AddEdges(list);
      SortLists(list);
      GraphSymmetricClosed(adjacency, objects.records.Keys, list);
    }

    method AddEdges(relationships: seq<Relationship>)
      requires forall x :: x in adjacency ==> adjacency[x] == []
      modifies this
      ensures adjacency.Keys == old(adjacency.Keys)
      ensures forall x :: x in adjacency ==> adjacency[x] == Incident(relationships, adjacency.Keys, x)
    {
      ghost var nodes := adjacency.Keys;
      for i := 0 to |relationships|
        invariant adjacency.Keys == nodes
        invariant forall x :: x in nodes ==> adjacency[x] == Incident(relationships[..i], nodes, x)
      {
        var r := relationships[i];
        assert relationships[..i + 1][..i] == relationships[..i] && relationships[..i + 1][i] == r;
        AddEdge(r);
      }
      assert relationships[..|relationships|] == relationships;
    }

    /** Every object is a node, even if isolated. */
    method AddNodes(objects: seq<EngineeringObject>)
      modifies this
      ensures adjacency.Keys == set o | o in objects :: o.id
      ensures forall x :: x in adjacency ==> adjacency[x] == []
    {
      adjacency := map[];
      for i := 0 to |objects|
        invariant adjacency.Keys == set o | o in objects[..i] :: o.id
        invariant forall x :: x in adjacency ==> adjacency[x] == []
      {
        assert objects[..i + 1] == objects[..i] + [objects[i]];
        adjacency := adjacency[objects[i].id := []];
      }
      assert objects[..|objects|] == objects;
    }

    method AddEdge(r: Relationship)
      modifies this
      ensures adjacency.Keys == old(adjacency.Keys)
      ensures forall x :: x in adjacency ==> adjacency[x] == old(adjacency)[x] + Contribution(r, adjacency.Keys, x)
    {
      if r.source !in adjacency || r.target !in adjacency {
        return;
      }
      adjacency := adjacency[r.source := adjacency[r.source] + [Neighbor(r.target, r.id, r.kind)]];
      adjacency := adjacency[r.target := adjacency[r.target] + [Neighbor(r.source, r.id, r.kind)]];
    }

    method SortLists(ghost relationships: seq<Relationship>)
      requires forall x :: x in adjacency ==> adjacency[x] == Incident(relationships, adjacency.Keys, x)
      modifies this
      ensures IsGraph(adjacency, old(adjacency.Keys), relationships)
    {
      NeighborOrder();
      hide Incident;
      var left := adjacency.Keys;
      while left != {}
        invariant adjacency.Keys == old(adjacency.Keys) && left <= adjacency.Keys
        invariant forall x :: x in adjacency ==> multiset(adjacency[x]) == multiset(old(adjacency)[x])
        invariant forall x :: x in adjacency && x !in left ==> Sorted(adjacency[x], NeighborLess)
      {
        var x :| x in left;
        var list := Sort(adjacency[x], NeighborLess);
        adjacency := adjacency[x := list];
        left := left - {x};
      }
    }

    function GetNeighbors(x: string): Option<seq<Neighbor>>
      reads this
    {
      if x in adjacency then Some(adjacency[x]) else None
    }

    ghost predicate Valid()
      reads this
    {
      Closed(adjacency) && Symmetric(adjacency)
    }

    method TraverseBreadthFirst(start: string) returns (r: Option<seq<string>>)
      requires Valid()
      ensures r.Some? <==> start in adjacency
      ensures r.Some? ==> ListsReachable(adjacency, start, r.value) && ByDistance(adjacency, start, r.value)
    {
      hide Walk, Symmetric, Searched;
      if start !in adjacency {
        return None;
      }
      var order: seq<string>, visited, queue := [], {start}, [start];
      ghost var dist: map<string, nat> := map[start := 0];
      StartSearch(adjacency, start);
      while queue != []
        invariant visited == dist.Keys
        invariant Searched(adjacency, start, order + queue, |order|, dist)
        decreases adjacency.Keys - set x | x in order
      {
        TakeNext(adjacency, start, order, queue, dist);
        var current := queue[0];
        assert current in adjacency.Keys - set x | x in order;
        queue := queue[1..];
        order := order + [current];
        assert current in set x | x in order;
        queue, visited, dist := Expand(start, order, queue, visited, dist);
      }
      assert order + [] == order;
      SearchFinished(adjacency, start, order, dist);
      r := Some(order);
    }

    /** The loop over the neighbors of the last node of order. */
    method Expand(start: string, order: seq<string>, queue0: seq<string>, visited0: set<string>,
                  ghost dist0: map<string, nat>)
      returns (queue: seq<string>, visited: set<string>, ghost dist: map<string, nat>)
      requires Valid() && visited0 == dist0.Keys && order != []
      requires Searched(adjacency, start, order + queue0, |order| - 1, dist0)
      ensures visited == dist.Keys
      ensures Searched(adjacency, start, order + queue, |order|, dist)
    {
      hide Walk, Symmetric, Searched;
      var current := order[|order| - 1];
      HeadFound(adjacency, start, order, queue0, dist0);
      queue, visited, dist := queue0, visited0, dist0;
      for k := 0 to |adjacency[current]|
        invariant visited == dist.Keys && current in dist
        invariant Searched(adjacency, start, order + queue, |order| - 1, dist)
        invariant forall i :: 0 <= i < k ==> var y := adjacency[current][i].objectId;
                                             y in dist && dist[y] <= dist[current] + 1
      {
        var y := adjacency[current][k].objectId;
        assert Adjacent(adjacency, current, y);
        if y !in visited {
          FindNeighbor(adjacency, start, order + queue, |order| - 1, dist, y);
          assert order + (queue + [y]) == order + queue + [y];
          visited, queue, dist := visited + {y}, queue + [y], dist[y := dist[current] + 1];
        } else {
          CloseEnough(adjacency, start, order + queue, |order| - 1, dist, y);
        }
      }
      HeadExpanded(adjacency, start, order + queue, |order| - 1, dist);
    }

    method TraverseDepthFirst(start: string) returns (r: Option<seq<string>>)
      requires Valid()
      ensures r.Some? <==> start in adjacency
      ensures r.Some? ==> r.value == Preorder(adjacency, [start], {}) && ListsReachable(adjacency, start, r.value)
    {
      hide Preorder, Closed, Symmetric, Unseen;
      if start !in adjacency {
        return None;
      }
      var order: seq<string>, visited: set<string>, stack := [], {}, [start];
      ghost var todo := [start];
      while stack != []
        invariant TopDown(stack, todo) && Nodes(adjacency, todo)
        invariant Preorder(adjacency, [start], {}) == order + Preorder(adjacency, todo, visited)
        decreases adjacency.Keys - visited, |stack|
      {
        var current := stack[|stack| - 1];
        ghost var rest := todo[1..];
        assert todo == [current] + rest;
        stack := stack[..|stack| - 1];
        todo := rest;
        if current in visited {
          SkipTop(adjacency, current, rest, visited);
          continue;
        }
        VisitTop(adjacency, current, rest, visited);
        assert current in adjacency.Keys - visited;
        visited := visited + {current};
        order := order + [current];
        stack, todo := PushUnseen(current, stack, rest, visited);
      }
      NothingLeft(adjacency, visited);
      assert todo == [];
      PreorderReachable(adjacency, start);
      r := Some(order);
    }

    /** Pushes the unvisited neighbors from the last to the first, so that the first ends up on top. */
    method PushUnseen(current: string, stack0: seq<string>, ghost rest: seq<string>, visited: set<string>)
      returns (stack: seq<string>, ghost todo: seq<string>)
      requires current in adjacency && TopDown(stack0, rest)
      ensures TopDown(stack, todo) && todo == Unseen(NeighborIds(adjacency[current]), visited) + rest
    {
      hide Unseen;
      var neighbors := adjacency[current];
      ghost var ids := NeighborIds(neighbors);
      stack, todo := stack0, rest;
      NoneUnseen(visited, rest);
      assert ids[|ids|..] == [];
      for k := |neighbors| downto 0
        invariant TopDown(stack, todo) && todo == Unseen(ids[k..], visited) + rest
      {
        var y := neighbors[k].objectId;
        assert ids[k] == y;
        UnseenStep(ids, k, visited, rest);
        if y !in visited {
          stack := stack + [y];
          todo := [y] + todo;
        }
      }
      assert ids[0..] == ids;
    }

    /** Breadth-first search decides whether the objects are connected. */
    method PathExists(source: string, target: string) returns (r: Option<bool>)
      requires Valid()
      ensures r.Some? <==> source in adjacency && target in adjacency
      ensures r.Some? ==> (r.value <==> Reachable(adjacency, source, target))
    {
      if source !in adjacency || target !in adjacency {
        return None;
      }
      if source == target {
        SelfReachable(adjacency, source);
        return Some(true);
      }
      var reachable := TraverseBreadthFirst(source);
      r := Some(target in reachable.value);
    }
  }

  /** The two traversals list the same nodes. */
  lemma TraversalsAgree(adjacency: Adjacency, start: string, breadth: seq<string>, depth: seq<string>)
    requires ListsReachable(adjacency, start, breadth) && ListsReachable(adjacency, start, depth)
    ensures multiset(breadth) == multiset(depth)
  {
    SameElements(breadth, depth);
  }
}
