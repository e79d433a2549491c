/** The order in which a traversal of the memory graph visits nodes, told from the
    places of the edges in the list (crates/abigail-memory/src/graph.rs). */
module DiscoveryOrder {
  import opened MemoryGraphModel

  /** The edge at `e` leads from the `x`-th of the nodes to `n`. */
  ghost predicate Finds(edges: seq<MemoryEdge>, order: seq<string>, n: string, x: nat, e: nat) {
    x < |order| && e < |edges| && edges[e].fromId == order[x] && edges[e].toId == n
  }

  /** The first of the nodes with an edge to `n`, and the first of its edges to it. */
  ghost predicate FindsFirst(edges: seq<MemoryEdge>, order: seq<string>, n: string, x: nat, e: nat) {
    && Finds(edges, order, n, x, e)
    && forall y: nat, f: nat :: Finds(edges, order, n, y, f) ==> !Earlier((y, f), (x, e))
  }

  predicate Earlier(a: (nat, nat), b: (nat, nat)) {
    a.0 < b.0 || (a.0 == b.0 && a.1 < b.1)
  }

  // ---- The places of the edges ----

  /** The places of the edges that leave `id`. */
  function Places(edges: seq<MemoryEdge>, id: string): (ps: seq<nat>)
    ensures forall e: nat :: e in ps <==> e < |edges| && edges[e].fromId == id
    ensures forall i, j :: 0 <= i < j < |ps| ==> ps[i] < ps[j]
  {
    if edges == [] then []
    else
      var n := |edges| - 1;
      var before := Places(edges[..n], id);
      assert forall i :: 0 <= i < |before| ==> before[i] in before;
      before + if edges[n].fromId == id then [n] else []
  }

  lemma {:induction false} EdgesFromOneMore(edges: seq<MemoryEdge>, edge: MemoryEdge, id: string)
    ensures EdgesFrom(edges + [edge], id) == EdgesFrom(edges, id) + if edge.fromId == id then [edge] else []
  {
    if edges == [] {
      assert [] + [edge] == [edge] && [edge][1..] == [];
    } else {
      assert (edges + [edge])[1..] == edges[1..] + [edge];
      EdgesFromOneMore(edges[1..], edge, id);
    }
  }

  lemma NoEdges(id: string)
    ensures EdgesFrom([], id) == []
  {
  }

  lemma PlacesOneMore(edges: seq<MemoryEdge>, edge: MemoryEdge, id: string)
    ensures Places(edges + [edge], id) == Places(edges, id) + if edge.fromId == id then [|edges|] else []
  {
    assert (edges + [edge])[..|edges|] == edges;
  }

  lemma {:induction false} EdgesFromPlaces(edges: seq<MemoryEdge>, id: string)
    ensures |EdgesFrom(edges, id)| == |Places(edges, id)|
    ensures forall i :: 0 <= i < |Places(edges, id)| ==>
              Places(edges, id)[i] < |edges| && EdgesFrom(edges, id)[i] == edges[Places(edges, id)[i]]
  {
    hide EdgesFrom, Places;
    if edges == [] {
      NoEdges(id);
      NoPlaces(id);
    } else {
      var n := |edges| - 1;
      assert edges[..n] + [edges[n]] == edges;
      EdgesFromPlaces(edges[..n], id);
      EdgesFromOneMore(edges[..n], edges[n], id);
      PlacesOneMore(edges[..n], edges[n], id);
    }
  }

  lemma NoPlaces(id: string)
    ensures Places([], id) == []
  {
  }

  // ---- Removing a memory's edges ----

  /** The places of the edges that do not touch `id`. */
  function PlacesWithout(edges: seq<MemoryEdge>, id: string): (ps: seq<nat>)
    ensures forall e: nat :: e in ps <==> e < |edges| && edges[e].fromId != id && edges[e].toId != id
    ensures forall i, j :: 0 <= i < j < |ps| ==> ps[i] < ps[j]
  {
    if edges == [] then []
    else
      var n := |edges| - 1;
      var before := PlacesWithout(edges[..n], id);
      assert forall i :: 0 <= i < |before| ==> before[i] in before;
      before + if edges[n].fromId != id && edges[n].toId != id then [n] else []
  }

  lemma {:induction false} WithoutOneMore(edges: seq<MemoryEdge>, edge: MemoryEdge, id: string)
    ensures Without(edges + [edge], id)
         == Without(edges, id) + if edge.fromId != id && edge.toId != id then [edge] else []
  {
    if edges == [] {
      assert [] + [edge] == [edge] && [edge][1..] == [];
    } else {
      assert (edges + [edge])[1..] == edges[1..] + [edge];
      WithoutOneMore(edges[1..], edge, id);
    }
  }

  lemma PlacesWithoutOneMore(edges: seq<MemoryEdge>, edge: MemoryEdge, id: string)
    ensures PlacesWithout(edges + [edge], id)
         == PlacesWithout(edges, id) + if edge.fromId != id && edge.toId != id then [|edges|] else []
  {
    assert (edges + [edge])[..|edges|] == edges;
  }

  lemma NothingWithout(id: string)
    ensures Without([], id) == [] && PlacesWithout([], id) == []
  {
  }

  /** Every edge that does not touch the removed memory stays, as often as it was there and
      in the old order. */
  lemma {:induction false} RemovalKeepsOrder(edges: seq<MemoryEdge>, id: string)
    ensures |Without(edges, id)| == |PlacesWithout(edges, id)|
    ensures forall i :: 0 <= i < |PlacesWithout(edges, id)| ==>
              PlacesWithout(edges, id)[i] < |edges| && Without(edges, id)[i] == edges[PlacesWithout(edges, id)[i]]
  {
    hide Without, PlacesWithout;
    if edges == [] {
      NothingWithout(id);
    } else {
      var n := |edges| - 1;
      assert edges[..n] + [edges[n]] == edges;
      RemovalKeepsOrder(edges[..n], id);
      WithoutOneMore(edges[..n], edges[n], id);
      PlacesWithoutOneMore(edges[..n], edges[n], id);
    }
  }

  // ---- Who finds what ----

  /** Who finds what, node by node and edge by edge. */
  function Hits(edges: seq<MemoryEdge>, nodes: seq<string>): seq<(nat, nat)> {
    if nodes == [] then []
    else
      var m := |nodes| - 1;
      Hits(edges, nodes[..m]) + HitsOf(m, Places(edges, nodes[m]))
  }

  function HitsOf(x: nat, ps: seq<nat>): (hs: seq<(nat, nat)>)
    ensures |hs| == |ps| && forall i :: 0 <= i < |ps| ==> hs[i] == (x, ps[i])
  {
    seq(|ps|, i requires 0 <= i < |ps| => (x, ps[i]))
  }

  lemma {:induction false} HitsAreEdges(edges: seq<MemoryEdge>, nodes: seq<string>, x: nat, e: nat)
    ensures (x, e) in Hits(edges, nodes) <==> x < |nodes| && e < |edges| && edges[e].fromId == nodes[x]
  {
    if nodes != [] {
      var m := |nodes| - 1;
      var ps := Places(edges, nodes[m]);
      HitsAreEdges(edges, nodes[..m], x, e);
      if x == m && e in ps {
        var i :| 0 <= i < |ps| && ps[i] == e;
        assert HitsOf(m, ps)[i] == (x, e);
      }
    }
  }

  lemma {:induction false} HitsAreSorted(edges: seq<MemoryEdge>, nodes: seq<string>, q: nat, r: nat)
    requires q < r < |Hits(edges, nodes)|
    ensures Earlier(Hits(edges, nodes)[q], Hits(edges, nodes)[r])
  {
    var m := |nodes| - 1;
    var before := Hits(edges, nodes[..m]);
    if r < |before| {
      HitsAreSorted(edges, nodes[..m], q, r);
    } else if q < |before| {
      assert before[q] in before;
      HitsAreEdges(edges, nodes[..m], before[q].0, before[q].1);
    }
  }

  /** The targets of the nodes are what the hits find. */
  lemma {:induction false} TargetsAreHits(edges: seq<MemoryEdge>, nodes: seq<string>)
    ensures |Targets(edges, nodes)| == |Hits(edges, nodes)|
    ensures forall q :: 0 <= q < |Hits(edges, nodes)| ==>
              Hits(edges, nodes)[q].1 < |edges| && Targets(edges, nodes)[q] == edges[Hits(edges, nodes)[q].1].toId
  {
    hide Targets, Successors, Places, HitsOf;
    if nodes == [] {
      NoTargets(edges);
    } else {
      var m := |nodes| - 1;
      TargetsAreHits(edges, nodes[..m]);
      assert nodes == nodes[..m] + [nodes[m]];
      TargetsOfConcat(edges, nodes[..m], [nodes[m]]);
      TargetsOfOne(edges, nodes[m]);
      SuccessorsAreHits(edges, nodes[m], m);
    }
  }

  lemma NoTargets(edges: seq<MemoryEdge>)
    ensures Targets(edges, []) == [] && Hits(edges, []) == []
  {
  }

  lemma SuccessorsAreHits(edges: seq<MemoryEdge>, n: string, x: nat)
    ensures var hs := HitsOf(x, Places(edges, n));
            && |Successors(edges, n)| == |hs|
            && forall i :: 0 <= i < |hs| ==> hs[i].1 < |edges| && Successors(edges, n)[i] == edges[hs[i].1].toId
  {
    hide EdgesFrom, Places;
    EdgesFromPlaces(edges, n);
  }

  // ---- First appearances ----

  function FirstIn(ts: seq<string>, t: string): (q: nat)
    requires t in ts
    ensures q < |ts| && ts[q] == t && forall r :: 0 <= r < q ==> ts[r] != t
  {
    if ts[0] == t then 0 else FirstIn(ts[1..], t) + 1
  }

  lemma FirstInRest(ts: seq<string>, t: string)
    requires ts != [] && t in ts[1..] && t != ts[0]
    ensures t in ts && FirstIn(ts, t) == FirstIn(ts[1..], t) + 1
  {
  }

  lemma FreshStep(ts: seq<string>, seen: seq<string>)
    requires ts != []
    ensures Fresh(ts, seen) == if ts[0] in seen then Fresh(ts[1..], seen)
                               else [ts[0]] + Fresh(ts[1..], seen + [ts[0]])
  {
  }

  lemma FreshIsIn(ts: seq<string>, seen: seq<string>, i: nat)
    requires i < |Fresh(ts, seen)|
    ensures Fresh(ts, seen)[i] in ts && Fresh(ts, seen)[i] !in seen
  {
    hide Fresh;
    FreshMembers(ts, seen);
    assert Fresh(ts, seen)[i] in Fresh(ts, seen);
  }

  /** Fresh nodes come in the order in which they first appear. */
  lemma {:induction false} FreshOrder(ts: seq<string>, seen: seq<string>, i: nat, j: nat)
    requires i < j < |Fresh(ts, seen)|
    ensures Fresh(ts, seen)[i] in ts && Fresh(ts, seen)[j] in ts
    ensures FirstIn(ts, Fresh(ts, seen)[i]) < FirstIn(ts, Fresh(ts, seen)[j])
    decreases ts
  {
    hide Fresh;
    FreshIsIn(ts, seen, i);
    FreshIsIn(ts, seen, j);
    FreshStep(ts, seen);
    var a, b := Fresh(ts, seen)[i], Fresh(ts, seen)[j];
    if ts[0] in seen {
      FreshOrder(ts[1..], seen, i, j);
      FirstInRest(ts, a);
      FirstInRest(ts, b);
    } else {
      FreshIsIn(ts[1..], seen + [ts[0]], j - 1);
      FirstInRest(ts, b);
      if 0 < i {
        FreshIsIn(ts[1..], seen + [ts[0]], i - 1);
        FreshOrder(ts[1..], seen + [ts[0]], i - 1, j - 1);
        FirstInRest(ts, a);
      }
    }
  }

  /** The nodes visited after the start are the fresh targets of those visited within one
      step less. */
  lemma {:induction false} TraversalIsFresh(edges: seq<MemoryEdge>, s: string, d: nat)
    ensures Traversal(edges, s, d + 1) == [s] + Fresh(Targets(edges, Traversal(edges, s, d)), [s])
  {
    hide Fresh, Targets;
    var l := LayerAt(edges, s, d);
    assert Traversal(edges, s, d + 1) == l.All() + Fresh(Targets(edges, l.level), l.All());
    if d == 0 {
      assert l.All() == [s];
    } else {
      var before := Traversal(edges, s, d - 1);
      TraversalIsFresh(edges, s, d - 1);
      assert l.All() == before + l.level;
      TargetsOfConcat(edges, before, l.level);
      FreshOfConcat(Targets(edges, before), Targets(edges, l.level), [s]);
    }
  }

  lemma StartIsAlone(edges: seq<MemoryEdge>, s: string)
    ensures Traversal(edges, s, 0) == [s]
  {
  }

  // ---- The order ----

  /** Where a node visited after the start first appears among the targets. */
  lemma FoundAt(edges: seq<MemoryEdge>, s: string, d: nat, j: nat) returns (q: nat)
    requires 0 < j < |Traversal(edges, s, d + 1)|
    ensures var n, ts := Traversal(edges, s, d + 1)[j], Targets(edges, Traversal(edges, s, d));
            n in ts && q == FirstIn(ts, n)
  {
    hide Fresh, Targets, Traversal;
    TraversalIsFresh(edges, s, d);
    var ts := Targets(edges, Traversal(edges, s, d));
    FreshMembers(ts, [s]);
    var n := Traversal(edges, s, d + 1)[j];
    assert n == Fresh(ts, [s])[j - 1] && n in Fresh(ts, [s]);
    q := FirstIn(ts, n);
  }

  /** That appearance is the first find of the node. */
  lemma FirstFindIs(edges: seq<MemoryEdge>, s: string, d: nat, j: nat, q: nat)
    requires 0 < j < |Traversal(edges, s, d + 1)|
    requires var n, ts := Traversal(edges, s, d + 1)[j], Targets(edges, Traversal(edges, s, d));
             n in ts && q == FirstIn(ts, n)
    ensures q < |Hits(edges, Traversal(edges, s, d))|
    ensures var (x, e) := Hits(edges, Traversal(edges, s, d))[q];
            var order := Traversal(edges, s, d + 1);
            x < |Traversal(edges, s, d)| && FindsFirst(edges, order, order[j], x, e)
  {
    hide Targets, Traversal, Hits;
    var nodes, order := Traversal(edges, s, d), Traversal(edges, s, d + 1);
    TraversalExtends(edges, s, d, d + 1);
    TargetsAreHits(edges, nodes);
    var hits := Hits(edges, nodes);
    var (x, e) := hits[q];
    assert (x, e) in hits;
    HitsAreEdges(edges, nodes, x, e);
    forall y: nat, f: nat | Finds(edges, order, order[j], y, f)
      ensures !Earlier((y, f), (x, e))
    {
      if y < |nodes| {
        HitsAreEdges(edges, nodes, y, f);
        var r :| 0 <= r < |hits| && hits[r] == (y, f);
        if q < r {
          HitsAreSorted(edges, nodes, q, r);
        }
      }
    }
  }

  lemma FirstFindIsOne(edges: seq<MemoryEdge>, order: seq<string>, n: string, x: nat, e: nat, y: nat, f: nat)
    requires FindsFirst(edges, order, n, x, e) && FindsFirst(edges, order, n, y, f)
    ensures (x, e) == (y, f)
  {
  }

  /** Nodes after the start come in the order of their first finds: by the node that found
      them first, in the order of the visits, and then by its edges, in the order of the
      list. */
  lemma VisitsFollowFinds(edges: seq<MemoryEdge>, s: string, d: nat, i: nat, j: nat, x: nat, e: nat, y: nat, f: nat)
    requires 0 < i < |Traversal(edges, s, d)| && 0 < j < |Traversal(edges, s, d)|
    requires FindsFirst(edges, Traversal(edges, s, d), Traversal(edges, s, d)[i], x, e)
    requires FindsFirst(edges, Traversal(edges, s, d), Traversal(edges, s, d)[j], y, f)
    ensures i < j <==> Earlier((x, e), (y, f))
  {
    hide Traversal, FindsFirst;
    StartIsAlone(edges, s);
    if i == j {
      FirstFindIsOne(edges, Traversal(edges, s, d), Traversal(edges, s, d)[i], x, e, y, f);
    } else {
      VisitsInOrder(edges, s, d - 1, i, j, x, e, y, f);
    }
  }

  lemma VisitsInOrder(edges: seq<MemoryEdge>, s: string, d: nat, i: nat, j: nat, x: nat, e: nat, y: nat, f: nat)
    requires 0 < i < |Traversal(edges, s, d + 1)| && 0 < j < |Traversal(edges, s, d + 1)|
    requires FindsFirst(edges, Traversal(edges, s, d + 1), Traversal(edges, s, d + 1)[i], x, e)
    requires FindsFirst(edges, Traversal(edges, s, d + 1), Traversal(edges, s, d + 1)[j], y, f)
    requires i != j
    ensures i < j <==> Earlier((x, e), (y, f))
  {
    hide Targets, Traversal, Hits, Fresh, FirstIn, FindsFirst;
    var nodes, order := Traversal(edges, s, d), Traversal(edges, s, d + 1);
    var q := FoundAt(edges, s, d, i);
    var r := FoundAt(edges, s, d, j);
    FirstFindIs(edges, s, d, i, q);
    FirstFindIs(edges, s, d, j, r);
    FirstFindIsOne(edges, order, order[i], x, e, Hits(edges, nodes)[q].0, Hits(edges, nodes)[q].1);
    FirstFindIsOne(edges, order, order[j], y, f, Hits(edges, nodes)[r].0, Hits(edges, nodes)[r].1);
    TraversalIsFresh(edges, s, d);
    var ts := Targets(edges, nodes);
    if i < j {
      FreshOrder(ts, [s], i - 1, j - 1);
      HitsAreSorted(edges, nodes, q, r);
    } else {
      FreshOrder(ts, [s], j - 1, i - 1);
      HitsAreSorted(edges, nodes, r, q);
    }
  }

  /** Every node after the start is first found by one visited before it. */
  lemma EveryVisitIsFound(edges: seq<MemoryEdge>, s: string, d: nat, j: nat)
    requires 0 < j < |Traversal(edges, s, d)|
    ensures exists x: nat, e: nat :: x < j && FindsFirst(edges, Traversal(edges, s, d), Traversal(edges, s, d)[j], x, e)
  {
    hide Targets, Traversal, Hits, FindsFirst;
    var k := LevelOf(edges, s, d, j);
    TraversalExtends(edges, s, k + 1, d);
    var q := FoundAt(edges, s, k, j);
    FirstFindIs(edges, s, k, j, q);
    var (x, e) := Hits(edges, Traversal(edges, s, k))[q];
    FirstInLonger(edges, Traversal(edges, s, k + 1), Traversal(edges, s, d), j, x, e);
  }

  lemma FirstInLonger(edges: seq<MemoryEdge>, order: seq<string>, more: seq<string>, j: nat, x: nat, e: nat)
    requires order <= more && j < |order| && FindsFirst(edges, order, order[j], x, e)
    ensures FindsFirst(edges, more, more[j], x, e)
  {
    forall y: nat, f: nat | Finds(edges, more, more[j], y, f)
      ensures !Earlier((y, f), (x, e))
    {
      if y < |order| {
        assert Finds(edges, order, order[j], y, f);
      }
    }
  }

  /** The bound that first reaches a visited node. */
  lemma {:induction false} LevelOf(edges: seq<MemoryEdge>, s: string, d: nat, j: nat) returns (k: nat)
    requires 0 < j < |Traversal(edges, s, d)|
    ensures k < d && |Traversal(edges, s, k)| <= j < |Traversal(edges, s, k + 1)|
  {
    hide Traversal;
    StartIsAlone(edges, s);
    if |Traversal(edges, s, d - 1)| <= j {
      k := d - 1;
    } else {
      k := LevelOf(edges, s, d - 1, j);
    }
  }
}
