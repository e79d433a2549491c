/** The in-memory graph of related memories and its bounded breadth-first
    traversal (crates/abigail-memory/src/graph.rs). */
module MemoryGraphModel {
  datatype EdgeType = DerivedFrom | CritiquedBy | RefinedTo

  datatype MemoryEdge = MemoryEdge(id: string, fromId: string, toId: string, edgeType: EdgeType,
                                   weight: real, createdAt: string)

  // ---- Reachability: the specification ----

  ghost predicate HasEdge(edges: seq<MemoryEdge>, a: string, b: string) {
    exists e :: e in edges && e.fromId == a && e.toId == b
  }

  /** `p` is a walk along the edges. */
  ghost predicate IsPath(edges: seq<MemoryEdge>, p: seq<string>) {
    p != [] && forall i :: 0 < i < |p| ==> HasEdge(edges, p[i - 1], p[i])
  }

  /** `p` leads from `a` to `b` in at most `d` steps. */
  ghost predicate Leads(edges: seq<MemoryEdge>, p: seq<string>, a: string, b: string, d: nat) {
    IsPath(edges, p) && p[0] == a && p[|p| - 1] == b && |p| <= d + 1
  }

  ghost predicate Within(edges: seq<MemoryEdge>, a: string, b: string, d: nat) {
    exists p :: Leads(edges, p, a, b, d)
  }

  // ---- Edge lookup ----

  function EdgesFrom(edges: seq<MemoryEdge>, id: string): (es: seq<MemoryEdge>)
    ensures forall e :: e in es <==> e in edges && e.fromId == id
  {
    if edges == [] then []
    else
      assert edges == [edges[0]] + edges[1..];
      (if edges[0].fromId == id then [edges[0]] else []) + EdgesFrom(edges[1..], id)
  }

  function Without(edges: seq<MemoryEdge>, id: string): (es: seq<MemoryEdge>)
    ensures forall e :: e in es <==> e in edges && e.fromId != id && e.toId != id
  {
    if edges == [] then []
    else
      assert edges == [edges[0]] + edges[1..];
      (if edges[0].fromId != id && edges[0].toId != id then [edges[0]] else [])
      + Without(edges[1..], id)
  }

  // ---- The order of discovery, level by level ----

  /** The endpoints of the edges leaving `n`, in order. */
  function Successors(edges: seq<MemoryEdge>, n: string): (ts: seq<string>) {
    var es := EdgesFrom(edges, n);
    seq(|es|, i requires 0 <= i < |es| => es[i].toId)
  }

  /** The successors of `nodes`, in order. */
  function Targets(edges: seq<MemoryEdge>, nodes: seq<string>): (ts: seq<string>) {
    if nodes == [] then [] else Successors(edges, nodes[0]) + Targets(edges, nodes[1..])
  }

  /** The members of `ts` not yet in `seen`, each once, in order of appearance. */
  function Fresh(ts: seq<string>, seen: seq<string>): (fs: seq<string>) {
    if ts == [] then []
    else if ts[0] in seen then Fresh(ts[1..], seen)
    else [ts[0]] + Fresh(ts[1..], seen + [ts[0]])
  }

  lemma SuccessorsMembers(edges: seq<MemoryEdge>, n: string)
    ensures forall t :: t in Successors(edges, n) <==> HasEdge(edges, n, t)
  {
    var es, ts := EdgesFrom(edges, n), Successors(edges, n);
    forall t | t in ts
      ensures HasEdge(edges, n, t)
    {
      var i :| 0 <= i < |ts| && ts[i] == t;
      assert es[i] in es;
    }
    forall t | HasEdge(edges, n, t)
      ensures t in ts
    {
      var e :| e in edges && e.fromId == n && e.toId == t;
      var i :| 0 <= i < |es| && es[i] == e;
      assert ts[i] == t;
    }
  }

  lemma {:induction false} TargetsMembers(edges: seq<MemoryEdge>, nodes: seq<string>, t: string)
    ensures t in Targets(edges, nodes) <==> exists n :: n in nodes && HasEdge(edges, n, t)
  {
    if nodes != [] {
      SuccessorsMembers(edges, nodes[0]);
      TargetsMembers(edges, nodes[1..], t);
      assert nodes == [nodes[0]] + nodes[1..];
    }
  }

  ghost predicate NoDuplicates(s: seq<string>) {
    forall i, j :: 0 <= i < j < |s| ==> s[i] != s[j]
  }

  lemma {:induction false} FreshMembers(ts: seq<string>, seen: seq<string>)
    ensures forall t :: t in Fresh(ts, seen) <==> t in ts && t !in seen
    ensures NoDuplicates(Fresh(ts, seen))
  {
    if ts != [] {
      assert ts == [ts[0]] + ts[1..];
      if ts[0] in seen {
        FreshMembers(ts[1..], seen);
      } else {
        var rest := Fresh(ts[1..], seen + [ts[0]]);
        FreshMembers(ts[1..], seen + [ts[0]]);
        assert forall i :: 0 <= i < |rest| ==> rest[i] in rest;
      }
    }
  }

  /** The nodes discovered before a level, and those discovered at it. */
  datatype Layer = Layer(before: seq<string>, level: seq<string>) {
    function All(): seq<string> {
      before + level
    }
  }

  function LayerAt(edges: seq<MemoryEdge>, s: string, k: nat): Layer
  {
    if k == 0 then Layer([], [s]) else NextLayer(edges, LayerAt(edges, s, k - 1))
  }

  function NextLayer(edges: seq<MemoryEdge>, l: Layer): Layer {
    Layer(l.All(), Fresh(Targets(edges, l.level), l.All()))
  }

  /** The specification of `traverse`. */
  function Traversal(edges: seq<MemoryEdge>, s: string, maxDepth: nat): seq<string> {
    LayerAt(edges, s, maxDepth).All()
  }

  // ---- What the order contains ----

  lemma SourceIsWithin(edges: seq<MemoryEdge>, s: string, d: nat)
    ensures Within(edges, s, s, d)
  {
    assert Leads(edges, [s], s, s, d);
  }

  lemma WithinStep(edges: seq<MemoryEdge>, s: string, n: string, t: string, d: nat)
    requires Within(edges, s, n, d) && HasEdge(edges, n, t)
    ensures Within(edges, s, t, d + 1)
  {
    var p :| Leads(edges, p, s, n, d);
    assert Leads(edges, p + [t], s, t, d + 1);
  }

  lemma WithinMonotone(edges: seq<MemoryEdge>, s: string, n: string, d: nat, d': nat)
    requires Within(edges, s, n, d) && d <= d'
    ensures Within(edges, s, n, d')
  {
    var p :| Leads(edges, p, s, n, d);
    assert Leads(edges, p, s, n, d');
  }

  /** A node within `d + 1` steps but not within `d` follows one within `d`. */
  lemma WithinLastStep(edges: seq<MemoryEdge>, s: string, t: string, d: nat) returns (n: string)
    requires Within(edges, s, t, d + 1) && !Within(edges, s, t, d)
    ensures Within(edges, s, n, d) && HasEdge(edges, n, t)
    ensures 0 < d ==> !Within(edges, s, n, d - 1)
  {
    var p :| Leads(edges, p, s, t, d + 1);
    assert !Leads(edges, p, s, t, d);
    n := p[d];
    assert Leads(edges, p[..d + 1], s, n, d);
    assert HasEdge(edges, p[d], p[d + 1]);
    if 0 < d && Within(edges, s, n, d - 1) {
      WithinStep(edges, s, n, t, d - 1);
    }
  }

  /** One level further reaches exactly the successors not reached before. */
  lemma NextLayerContents(edges: seq<MemoryEdge>, l: Layer, n: string)
    ensures n in NextLayer(edges, l).level <==>
            n !in l.All() && exists m :: m in l.level && HasEdge(edges, m, n)
    ensures n in NextLayer(edges, l).All() <==>
            n in l.All() || n in NextLayer(edges, l).level
  {
    FreshMembers(Targets(edges, l.level), l.All());
    TargetsMembers(edges, l.level, n);
  }

  /** A level holds exactly the nodes at that distance, and the order so far all
      nodes up to it. */
  lemma {:induction false} LayerIsDistance(edges: seq<MemoryEdge>, s: string, k: nat)
    ensures forall n :: n in LayerAt(edges, s, k).All() <==> Within(edges, s, n, k)
    ensures forall n :: n in LayerAt(edges, s, k).level <==>
            Within(edges, s, n, k) && (0 < k ==> !Within(edges, s, n, k - 1))
  {
    if k == 0 {
      SourceIsWithin(edges, s, 0);
      forall n, p | Leads(edges, p, s, n, 0)
        ensures n == s
      {
        assert p == [s];
      }
    } else {
      LayerIsDistance(edges, s, k - 1);
      var l := LayerAt(edges, s, k - 1);
      forall n
        ensures n in NextLayer(edges, l).All() <==> Within(edges, s, n, k)
        ensures n in NextLayer(edges, l).level <==>
                Within(edges, s, n, k) && !Within(edges, s, n, k - 1)
      {
        NextLayerContents(edges, l, n);
        NextLevelIsDistance(edges, s, k - 1, l, n);
      }
    }
  }

  lemma NextLevelIsDistance(edges: seq<MemoryEdge>, s: string, k: nat, l: Layer, n: string)
    requires forall m :: m in l.level <==>
               Within(edges, s, m, k) && (0 < k ==> !Within(edges, s, m, k - 1))
    ensures Within(edges, s, n, k) ==> Within(edges, s, n, k + 1)
    ensures !Within(edges, s, n, k) ==>
              (Within(edges, s, n, k + 1) <==> exists m :: m in l.level && HasEdge(edges, m, n))
  {
    if Within(edges, s, n, k) {
      WithinMonotone(edges, s, n, k, k + 1);
    } else {
      if m :| m in l.level && HasEdge(edges, m, n) {
        WithinStep(edges, s, m, n, k);
      }
      if Within(edges, s, n, k + 1) {
        var m := WithinLastStep(edges, s, n, k);
      }
    }
  }

  lemma FreshKeepsNoDuplicates(ts: seq<string>, seen: seq<string>)
    requires NoDuplicates(seen)
    ensures NoDuplicates(seen + Fresh(ts, seen))
  {
    var fs := Fresh(ts, seen);
    FreshMembers(ts, seen);
    forall i, j | 0 <= i < |seen| && 0 <= j < |fs|
      ensures seen[i] != fs[j]
    {
      assert fs[j] in fs;
    }
  }

  lemma {:induction false} TraversalHasNoDuplicates(edges: seq<MemoryEdge>, s: string, d: nat)
    ensures NoDuplicates(Traversal(edges, s, d)) && [s] <= Traversal(edges, s, d)
  {
    if 0 < d {
      TraversalHasNoDuplicates(edges, s, d - 1);
      var l := LayerAt(edges, s, d - 1);
      FreshKeepsNoDuplicates(Targets(edges, l.level), l.All());
    }
  }

  /** The traversal visits exactly the nodes within the bound, each once. */
  lemma TraversalIsExact(edges: seq<MemoryEdge>, s: string, d: nat)
    ensures forall n :: n in Traversal(edges, s, d) <==> Within(edges, s, n, d)
    ensures NoDuplicates(Traversal(edges, s, d)) && [s] <= Traversal(edges, s, d)
  {
    TraversalHasNoDuplicates(edges, s, d);
    LayerIsDistance(edges, s, d);
  }

  /** A deeper traversal only adds nodes at the end. */
  lemma {:induction false} TraversalExtends(edges: seq<MemoryEdge>, s: string, d: nat, d': nat)
    requires d <= d'
    ensures Traversal(edges, s, d) <= Traversal(edges, s, d')
  {
    if d < d' {
      TraversalExtends(edges, s, d, d' - 1);
      assert Traversal(edges, s, d') == Traversal(edges, s, d' - 1) + LayerAt(edges, s, d').level;
    }
  }

  /** Nodes come in order of distance: whatever bound reaches a node reaches
      every node visited before it. */
  lemma TraversalIsSorted(edges: seq<MemoryEdge>, s: string, d: nat, i: nat, j: nat, k: nat)
    requires i <= j < |Traversal(edges, s, d)|
    requires Within(edges, s, Traversal(edges, s, d)[j], k)
    ensures Within(edges, s, Traversal(edges, s, d)[i], k)
  {
    var o := Traversal(edges, s, d);
    TraversalIsExact(edges, s, d);
    if d <= k {
      assert o[i] in o;
      WithinMonotone(edges, s, o[i], d, k);
    } else {
      var o' := Traversal(edges, s, k);
      TraversalExtends(edges, s, k, d);
      TraversalIsExact(edges, s, k);
      var x :| 0 <= x < |o'| && o'[x] == o[j];
      assert o[x] == o[j];
      assert o[i] == o'[i];
    }
  }

  // ---- Removing a node's edges ----

  lemma WithoutKeepsEdges(edges: seq<MemoryEdge>, m: string, a: string, b: string)
    ensures HasEdge(Without(edges, m), a, b) <==> HasEdge(edges, a, b) && a != m && b != m
  {
  }

  /** After a node's edges are removed, another node leads exactly where a path
      avoiding it leads. */
  lemma RemovalAvoids(edges: seq<MemoryEdge>, m: string, s: string, p: seq<string>, n: string, d: nat)
    requires s != m
    ensures Leads(Without(edges, m), p, s, n, d) <==> Leads(edges, p, s, n, d) && m !in p
  {
    forall i | 0 < i < |p|
      ensures HasEdge(Without(edges, m), p[i - 1], p[i]) <==>
              HasEdge(edges, p[i - 1], p[i]) && p[i - 1] != m && p[i] != m
    {
      WithoutKeepsEdges(edges, m, p[i - 1], p[i]);
    }
    if Leads(Without(edges, m), p, s, n, d) {
      forall i | 0 <= i < |p|
        ensures p[i] != m
      {
        if 0 < i {
          assert HasEdge(Without(edges, m), p[i - 1], p[i]);
        }
      }
    }
  }

  lemma TraversalAfterRemoval(edges: seq<MemoryEdge>, m: string, s: string, d: nat, n: string)
    requires s != m
    ensures n in Traversal(Without(edges, m), s, d) <==>
            exists p :: Leads(edges, p, s, n, d) && m !in p
  {
    TraversalIsExact(Without(edges, m), s, d);
    forall p
      ensures Leads(Without(edges, m), p, s, n, d) <==> Leads(edges, p, s, n, d) && m !in p
    {
      RemovalAvoids(edges, m, s, p, n, d);
    }
  }

  // ---- The loop refines the levels ----

  lemma {:induction false} FreshOfConcat(a: seq<string>, b: seq<string>, seen: seq<string>)
    ensures Fresh(a + b, seen) == Fresh(a, seen) + Fresh(b, seen + Fresh(a, seen))
  {
    if a == [] {
      assert a + b == b && seen + [] == seen;
    } else {
      var rest := a[1..];
      assert (a + b)[1..] == rest + b && (a + b)[0] == a[0];
      if a[0] in seen {
        FreshOfConcat(rest, b, seen);
      } else {
        var seen' := seen + [a[0]];
        FreshOfConcat(rest, b, seen');
        assert Fresh(a, seen) == [a[0]] + Fresh(rest, seen');
        assert seen' + Fresh(rest, seen') == seen + Fresh(a, seen);
        assert Fresh(a + b, seen) == [a[0]] + Fresh(rest + b, seen');
      }
    }
  }

  lemma {:induction false} TargetsOfConcat(edges: seq<MemoryEdge>, a: seq<string>, b: seq<string>)
    ensures Targets(edges, a + b) == Targets(edges, a) + Targets(edges, b)
  {
    if a == [] {
      assert a + b == b;
    } else {
      assert (a + b)[1..] == a[1..] + b;
      TargetsOfConcat(edges, a[1..], b);
    }
  }

  /** Once a level is empty, deeper traversals add nothing. */
  lemma {:induction false} EmptyLevelIsLast(edges: seq<MemoryEdge>, s: string, k: nat, d: nat)
    requires k <= d && LayerAt(edges, s, k).level == []
    ensures Traversal(edges, s, d) == LayerAt(edges, s, k).before
    ensures LayerAt(edges, s, d).level == []
  {
    if k < d {
      EmptyLevelIsLast(edges, s, k, d - 1);
    }
  }

  /** Queue entries for `nodes`, all discovered at `depth`. */
  function AtDepth(nodes: seq<string>, depth: nat): (q: seq<(string, nat)>)
    ensures |q| == |nodes|
  {
    seq(|nodes|, i requires 0 <= i < |nodes| => (nodes[i], depth))
  }

  /** What the first `j` nodes of a level discover. */
  ghost function Discovered(edges: seq<MemoryEdge>, layer: Layer, j: nat): seq<string>
    requires j <= |layer.level|
  {
    Fresh(Targets(edges, layer.level[..j]), layer.All())
  }

  lemma TargetsOfOne(edges: seq<MemoryEdge>, n: string)
    ensures Targets(edges, [n]) == Successors(edges, n)
  {
  }

  lemma DiscoverOneMore(edges: seq<MemoryEdge>, layer: Layer, j: nat)
    requires j < |layer.level|
    ensures Discovered(edges, layer, j + 1)
         == Discovered(edges, layer, j)
            + Fresh(Successors(edges, layer.level[j]), layer.All() + Discovered(edges, layer, j))
  {
    var a, b := layer.level[..j], [layer.level[j]];
    assert layer.level[..j + 1] == a + b;
    TargetsOfConcat(edges, a, b);
    TargetsOfOne(edges, layer.level[j]);
    FreshOfConcat(Targets(edges, a), Targets(edges, b), layer.All());
  }

  /** What the traversal has discovered below the level it is working on. */
  ghost function Found(edges: seq<MemoryEdge>, layer: Layer, j: nat, deeper: bool): seq<string>
    requires j <= |layer.level|
  {
    if deeper then Discovered(edges, layer, j) else []
  }

  /** What the traversal loop has visited, has still to visit, and has seen. */
  datatype Search = Search(result: seq<string>, queue: seq<(string, nat)>, seen: seq<string>)

  /** The loop's state when `j` nodes of level `k` are done: the queue is the rest
      of the level, followed by what those `j` nodes discovered. */
  ghost function At(edges: seq<MemoryEdge>, layer: Layer, k: nat, j: nat, deeper: bool): Search
    requires j <= |layer.level|
  {
    var found := Found(edges, layer, j, deeper);
    Search(layer.before + layer.level[..j],
           AtDepth(layer.level[j..], k) + AtDepth(found, k + 1),
           layer.All() + found)
  }

  /** The state after one turn of the loop. */
  ghost function Turned(edges: seq<MemoryEdge>, deeper: bool, st: Search): Search
    requires st.queue != []
  {
    var (current, depth) := st.queue[0];
    var added := if deeper then Fresh(Successors(edges, current), st.seen) else [];
    Search(st.result + [current], st.queue[1..] + AtDepth(added, depth + 1), st.seen + added)
  }

  /** The state on entering a level. */
  lemma LevelStarts(edges: seq<MemoryEdge>, layer: Layer, k: nat, deeper: bool)
    ensures At(edges, layer, k, 0, deeper)
         == Search(layer.before, AtDepth(layer.level, k), layer.All())
  {
  }

  lemma Front(edges: seq<MemoryEdge>, layer: Layer, k: nat, j: nat, deeper: bool)
    requires j < |layer.level|
    ensures At(edges, layer, k, j, deeper).queue != []
    ensures At(edges, layer, k, j, deeper).queue[0] == (layer.level[j], k)
  {
    assert AtDepth(layer.level[j..], k)[0] == (layer.level[j], k);
  }

  /** One turn of the loop within a level. */
  lemma Advance(edges: seq<MemoryEdge>, layer: Layer, k: nat, j: nat, deeper: bool)
    requires j < |layer.level|
    ensures At(edges, layer, k, j, deeper).queue != []
    ensures Turned(edges, deeper, At(edges, layer, k, j, deeper))
         == At(edges, layer, k, j + 1, deeper)
  {
    hide Fresh, Targets, Successors, AtDepth;
    Front(edges, layer, k, j, deeper);
    var st := At(edges, layer, k, j, deeper);
    var current := layer.level[j];
    var added := if deeper then Fresh(Successors(edges, current), st.seen) else [];
    var found, found' := Found(edges, layer, j, deeper), Found(edges, layer, j + 1, deeper);
    if deeper {
      DiscoverOneMore(edges, layer, j);
    }
    assert found' == found + added;
    assert layer.All() + (found + added) == layer.All() + found + added;
    QueueTurn(layer.level, k, j, found, added);
    assert layer.level[..j + 1] == layer.level[..j] + [current];
  }

  lemma QueueTurn(level: seq<string>, k: nat, j: nat, found: seq<string>, added: seq<string>)
    requires j < |level|
    ensures (AtDepth(level[j..], k) + AtDepth(found, k + 1))[1..] + AtDepth(added, k + 1)
         == AtDepth(level[j + 1..], k) + AtDepth(found + added, k + 1)
  {
  }

  /** A finished level is the start of the next one. */
  lemma LevelEnds(edges: seq<MemoryEdge>, layer: Layer, k: nat, deeper: bool)
    ensures At(edges, layer, k, |layer.level|, true)
         == At(edges, NextLayer(edges, layer), k + 1, 0, deeper)
  {
    assert layer.level[..|layer.level|] == layer.level;
    LevelStarts(edges, NextLayer(edges, layer), k + 1, deeper);
  }

  lemma MoreToDo(edges: seq<MemoryEdge>, layer: Layer, k: nat, j: nat, deeper: bool)
    requires j <= |layer.level| && At(edges, layer, k, j, deeper).queue != []
    requires deeper && j == |layer.level| ==> layer.level == []
    ensures j < |layer.level|
  {
  }

  /** The position after a node is done: in its level, or at the start of the next. */
  lemma NextPosition(edges: seq<MemoryEdge>, s: string, maxDepth: nat, k: nat, j: nat, layer: Layer)
    returns (k': nat, j': nat, layer': Layer)
    requires k <= maxDepth && 0 < j <= |layer.level| && layer == LayerAt(edges, s, k)
    ensures k' <= maxDepth && j' <= |layer'.level| && layer' == LayerAt(edges, s, k')
    ensures At(edges, layer', k', j', k' < maxDepth) == At(edges, layer, k, j, k < maxDepth)
    ensures k' < maxDepth && j' == |layer'.level| ==> layer'.level == []
    ensures k < k' || (k' == k && layer' == layer && j' == j)
  {
    k', j', layer' := k, j, layer;
    if j == |layer.level| && k < maxDepth {
      LevelEnds(edges, layer, k, k + 1 < maxDepth);
      k', j', layer' := k + 1, 0, NextLayer(edges, layer);
    }
  }

  lemma Entry(edges: seq<MemoryEdge>, s: string, maxDepth: nat)
    ensures At(edges, LayerAt(edges, s, 0), 0, 0, 0 < maxDepth) == Search([], [(s, 0)], [s])
    ensures LayerAt(edges, s, 0).level == [s] && SetOf([s]) == {s}
  {
  }

  lemma Exit(edges: seq<MemoryEdge>, s: string, maxDepth: nat, layer: Layer, k: nat, j: nat)
    requires k <= maxDepth && j <= |layer.level| && layer == LayerAt(edges, s, k)
    requires k < maxDepth && j == |layer.level| ==> layer.level == []
    requires At(edges, layer, k, j, k < maxDepth).queue == []
    ensures At(edges, layer, k, j, k < maxDepth).result == Traversal(edges, s, maxDepth)
  {
    assert |AtDepth(layer.level[j..], k)| == |layer.level| - j;
    assert layer.level[..j] == layer.level;
    if k < maxDepth {
      EmptyLevelIsLast(edges, s, k, maxDepth);
    }
  }

  ghost function SetOf(nodes: seq<string>): set<string> {
    set n | n in nodes
  }

  class MemoryGraph {
    var edges: seq<MemoryEdge>

    constructor ()
      ensures edges == []
    {
      edges := [];
    }

    method AddEdge(edge: MemoryEdge)
      modifies this
      ensures edges == old(edges) + [edge]
    {
      edges := edges + [edge];
    }

    method RemoveEdgesFor(id: string)
      modifies this
      ensures edges == Without(old(edges), id)
    {
      edges := Without(edges, id);
    }

    method Traverse(startId: string, maxDepth: nat) returns (result: seq<string>)
      ensures result == Traversal(edges, startId, maxDepth)
    {
      hide *;  // the lemmas below say what the loop needs
      var visited := {startId};
      var queue: seq<(string, nat)> := [(startId, 0)];
      result := [];
      ghost var k: nat, j: nat := 0, 0;
      ghost var layer, seen := LayerAt(edges, startId, 0), [startId];
      Entry(edges, startId, maxDepth);
      while queue != []
        invariant k <= maxDepth && j <= |layer.level| && layer == LayerAt(edges, startId, k)
        invariant Search(result, queue, seen) == At(edges, layer, k, j, k < maxDepth)
        invariant k < maxDepth && j == |layer.level| ==> layer.level == []
        invariant visited == SetOf(seen)
        decreases maxDepth - k, |layer.level| - j
      {
        var (current, depth) := queue[0];
        MoreToDo(edges, layer, k, j, k < maxDepth);
        Front(edges, layer, k, j, k < maxDepth);
        Advance(edges, layer, k, j, k < maxDepth);
        visited, queue, seen :=
          VisitEdges(current, depth, maxDepth, visited, queue[1..], Search(result, queue, seen));
        result := result + [current];
        k, j, layer := NextPosition(edges, startId, maxDepth, k, j + 1, layer);
      }
      Exit(edges, startId, maxDepth, layer, k, j);
    }

    /** The rest of the loop body of `Traverse`: unless the depth bound is reached,
        enqueue the unvisited successors of `current`. */
    method VisitEdges(current: string, depth: nat, maxDepth: nat, visited0: set<string>,
                      queue0: seq<(string, nat)>, ghost st: Search)
      returns (visited: set<string>, queue: seq<(string, nat)>, ghost seen: seq<string>)
      requires st.queue == [(current, depth)] + queue0 && visited0 == SetOf(st.seen)
      ensures Search(st.result + [current], queue, seen) == Turned(edges, depth < maxDepth, st)
      ensures visited == SetOf(seen)
    {
      visited, queue, seen := visited0, queue0, st.seen;
      if depth >= maxDepth {
        return;
      }
      var es := EdgesFrom(edges, current);
      ghost var ts := Successors(edges, current);
      ghost var added := [];
      for i := 0 to |es|
        invariant added == Fresh(ts[..i], st.seen)
        invariant queue == queue0 + AtDepth(added, depth + 1)
        invariant visited == SetOf(st.seen + added)
      {
        FreshOfConcat(ts[..i], [es[i].toId], st.seen);
        assert ts[..i + 1] == ts[..i] + [es[i].toId];
        if es[i].toId !in visited {
          visited := visited + {es[i].toId};
          queue := queue + [(es[i].toId, depth + 1)];
          added := added + [es[i].toId];
        }
      }
      assert ts[..|es|] == ts;
      seen := st.seen + added;
    }
  }
}
