/**
 * Direct and transitive form dependencies of a node
 * (src/components/modals/PrefillPanelModal.tsx, `findFormDependencies` and
 * `findTransitiveDependencies`).
 *
 * `direct` lists, in incoming-edge order, the form of every one-hop
 * predecessor, repeats included. `transitive` is filled by a depth-first walk
 * backwards along the edges that shares one `visited` set across the whole
 * resolution and keeps at most one form per form id. The functions below
 * define both results; the class `Traversal` and the method
 * `FindFormDependencies` compute them by mutating shared state as the source
 * does, and are proved equal to them.
 */
module DependencyResolver {
  import opened ApiTypes

  /** `edges.filter(edge => edge.target === id)`. */
  function IncomingIn(edges: seq<Edge>, id: string): (r: seq<Edge>)
    ensures |r| <= |edges|
    ensures forall e :: e in r <==> e in edges && e.target == id
  {
    if |edges| == 0 then []
    else (if edges[0].target == id then [edges[0]] else []) + IncomingIn(edges[1..], id)
  }

  function Incoming(g: Graph, id: string): (r: seq<Edge>)
    ensures forall e :: e in r <==> e in g.edges && e.target == id
  {
    IncomingIn(g.edges, id)
  }

  /** The form of the node named `source`: first node with that id, then first form with its `component_id`. */
  function SourceForm(g: Graph, source: string): (r: Option<Form>)
    ensures r.Some? ==> source in NodeIds(g) && r.value in g.forms
  {
    match FindNode(g.nodes, source)
    case None => None
    case Some(node) => FindForm(g.forms, node.data.componentId)
  }

  /** `result.some(f => f.id === id)`. */
  predicate HasFormId(found: seq<Form>, id: string)
  {
    exists k | 0 <= k < |found| :: found[k].id == id
  }

  /** No two forms share an id. */
  ghost predicate DistinctIds(found: seq<Form>)
  {
    forall a, b :: 0 <= a < b < |found| ==> found[a].id != found[b].id
  }

  /** Append `f` unless a form with its id is already there. */
  function AddIfNew(found: seq<Form>, f: Form): (r: seq<Form>)
    ensures found <= r && HasFormId(r, f.id)
    ensures HasFormId(found, f.id) ==> r == found
    ensures !HasFormId(found, f.id) ==> r == found + [f]
    ensures DistinctIds(found) ==> DistinctIds(r)
  {
    if HasFormId(found, f.id) then found
    else
      assert (found + [f])[|found|].id == f.id;
      found + [f]
  }

  // ---------------------------------------------------------------------
  // The result of the walk, as functions

  /** The two pieces of state the walk shares: `result` and `visited`. */
  datatype Walk = Walk(found: seq<Form>, visited: set<string>)

  /**
   * `findTransitiveDependencies(n)`: nothing if `n` was visited; otherwise
   * mark it and walk its incoming edges. Only existing node ids are entered,
   * and each at most once, so the unvisited existing ids decrease.
   */
  function Visit(g: Graph, n: string, w: Walk): (w': Walk)
    requires n in NodeIds(g)
    ensures w.visited + {n} <= w'.visited
    ensures w'.visited <= w.visited + NodeIds(g)
    ensures w.found <= w'.found
    decreases NodeIds(g) - w.visited, 0, 0
  {
    if n in w.visited then w
    else VisitEdges(g, n, 0, Walk(w.found, w.visited + {n}))
  }

  /**
   * The `forEach` over the incoming edges of `t` from the `i`-th on: for an
   * edge whose source node exists, add its form if no form with that id is
   * present, then enter the source node.
   */
  function VisitEdges(g: Graph, t: string, i: nat, w: Walk): (w': Walk)
    requires i <= |Incoming(g, t)|
    ensures w.visited <= w'.visited <= w.visited + NodeIds(g)
    ensures w.found <= w'.found
    decreases NodeIds(g) - w.visited, 1, |Incoming(g, t)| - i
  {
    if i == |Incoming(g, t)| then w
    else
      var source := Incoming(g, t)[i].source;
      if FindNode(g.nodes, source).None? then VisitEdges(g, t, i + 1, w)
      else
        var form := SourceForm(g, source);
        var found := if form.Some? then AddIfNew(w.found, form.value) else w.found;
        VisitEdges(g, t, i + 1, Visit(g, source, Walk(found, w.visited)))
  }

  /** The top-level `forEach` of `findFormDependencies` from the `i`-th incoming edge of `sel`. */
  function WalkFrom(g: Graph, sel: string, i: nat, w: Walk): (w': Walk)
    requires i <= |Incoming(g, sel)|
    ensures w.visited <= w'.visited <= w.visited + NodeIds(g)
    ensures w.found <= w'.found
    decreases |Incoming(g, sel)| - i
  {
    if i == |Incoming(g, sel)| then w
    else
      var source := Incoming(g, sel)[i].source;
      if FindNode(g.nodes, source).None? then WalkFrom(g, sel, i + 1, w)
      else WalkFrom(g, sel, i + 1, Visit(g, source, w))
  }

  /** The forms of the sources of `edges`, in order, repeats kept; unresolved sources are skipped. */
  function DirectOf(g: Graph, edges: seq<Edge>): (r: seq<Form>)
    ensures |r| <= |edges|
  {
    if |edges| == 0 then []
    else
      var last := edges[|edges| - 1];
      DirectOf(g, edges[..|edges| - 1])
        + (if SourceForm(g, last.source).Some? then [SourceForm(g, last.source).value] else [])
  }

  /** `direct` for node `sel`. */
  function Direct(g: Graph, sel: string): (direct: seq<Form>)
    ensures |direct| <= |Incoming(g, sel)|
    ensures forall f :: f in direct ==> f in g.forms
  {
    DirectOfMembers(g, Incoming(g, sel));
    DirectOf(g, Incoming(g, sel))
  }

  /** The whole walk for node `sel`, from an empty result and an empty visited set. */
  function TransitiveWalk(g: Graph, sel: string): Walk
  {
    WalkFrom(g, sel, 0, Walk([], {}))
  }

  /** `transitive` for node `sel`. */
  function Transitive(g: Graph, sel: string): (transitive: seq<Form>)
    ensures DistinctIds(transitive)
  {
    TransitiveWalkCorrect(g, sel);
    TransitiveWalk(g, sel).found
  }

  // ---------------------------------------------------------------------
  // The walk as the source runs it: shared mutable `result` and `visited`

  class Traversal {
    const graph: Graph
    var result: seq<Form>
    var visited: set<string>

    constructor (g: Graph)
      ensures graph == g && result == [] && visited == {}
    {
      graph := g;
      result := [];
      visited := {};
    }

    function State(): Walk
      reads this
    {
      Walk(result, visited)
    }

    /** `findTransitiveDependencies(nodeId, graphData, result, visited)`. */
    method FindTransitiveDependencies(nodeId: string)
      requires nodeId in NodeIds(graph)
      modifies this
      ensures State() == Visit(graph, nodeId, old(State()))
      decreases NodeIds(graph) - visited, 0
    {
      if nodeId in visited {
        return;
      }
      visited := visited + {nodeId};
      var incomingEdges := Incoming(graph, nodeId);
      var i := 0;
      while i < |incomingEdges|
        invariant i <= |incomingEdges|
        invariant old(visited) + {nodeId} <= visited
        invariant VisitEdges(graph, nodeId, i, State()) == Visit(graph, nodeId, old(State()))
      {
        var edge := incomingEdges[i];
        var sourceNode := FindNode(graph.nodes, edge.source);
        if sourceNode.Some? {
          var sourceForm := FindForm(graph.forms, sourceNode.value.data.componentId);
          if sourceForm.Some? && !HasFormId(result, sourceForm.value.id) {
            result := result + [sourceForm.value];
          }
          FindNodeExists(graph, edge.source);
          FindTransitiveDependencies(edge.source);
        }
        i := i + 1;
      }
    }
  }

  /** `findFormDependencies(currentNodeId, graphData)`. */
  method FindFormDependencies(currentNodeId: string, g: Graph) returns (direct: seq<Form>, transitive: seq<Form>)
    ensures direct == Direct(g, currentNodeId)
    ensures transitive == Transitive(g, currentNodeId)
  {
    direct := [];
    var walk := new Traversal(g);
    var incomingEdges := Incoming(g, currentNodeId);
    var i := 0;
    while i < |incomingEdges|
      invariant i <= |incomingEdges|
      invariant walk.graph == g
      invariant direct == DirectOf(g, incomingEdges[..i])
      invariant WalkFrom(g, currentNodeId, i, walk.State()) == TransitiveWalk(g, currentNodeId)
    {
      var edge := incomingEdges[i];
      var sourceNode := FindNode(g.nodes, edge.source);
      if sourceNode.Some? {
        var sourceForm := FindForm(g.forms, sourceNode.value.data.componentId);
        if sourceForm.Some? {
          direct := direct + [sourceForm.value];
        }
        FindNodeExists(g, edge.source);
        walk.FindTransitiveDependencies(edge.source);
      }
      assert incomingEdges[..i + 1][..i] == incomingEdges[..i];
      i := i + 1;
    }
    assert incomingEdges[..i] == incomingEdges;
    transitive := walk.result;
  }

  // ---------------------------------------------------------------------
  // What the walk computes

  /**
   * `p` is a chain of existing nodes leading to `sel`: an edge from each
   * node of `p` to the next, and one from the last to `sel`.
   */
  ghost predicate UpstreamPath(g: Graph, p: seq<string>, sel: string)
  {
    && |p| >= 1
    && (forall k :: 0 <= k < |p| ==> p[k] in NodeIds(g))
    && (forall k :: 0 <= k < |p| - 1 ==> Edge(p[k], p[k + 1]) in g.edges)
    && Edge(p[|p| - 1], sel) in g.edges
  }

  /** `m` reaches `sel` through at least one edge. */
  ghost predicate Upstream(g: Graph, m: string, sel: string)
  {
    exists p :: UpstreamPath(g, p, sel) && p[0] == m
  }

  /** `m` reaches `sel` through at least two edges. */
  ghost predicate Upstream2(g: Graph, m: string, sel: string)
  {
    exists p :: UpstreamPath(g, p, sel) && |p| >= 2 && p[0] == m
  }

  /** Every form found belongs to an existing predecessor of a visited node. */
  ghost predicate FoundSound(g: Graph, w: Walk)
  {
    forall k :: 0 <= k < |w.found| ==>
      exists e :: e in g.edges && e.target in w.visited && SourceForm(g, e.source) == Some(w.found[k])
  }

  /** The source of `e`, when it exists, is visited and its form is present by id. */
  ghost predicate EdgeDone(g: Graph, w: Walk, e: Edge)
  {
    FindNode(g.nodes, e.source).Some? ==>
      && e.source in w.visited
      && (SourceForm(g, e.source).Some? ==> HasFormId(w.found, SourceForm(g, e.source).value.id))
  }

  /** Every incoming edge of `m` has been followed. */
  ghost predicate NodeDone(g: Graph, w: Walk, m: string)
  {
    forall e :: e in g.edges && e.target == m ==> EdgeDone(g, w, e)
  }

  /** Every visited node is upstream of `sel`. */
  ghost predicate Grounded(g: Graph, w: Walk, sel: string)
  {
    forall m :: m in w.visited ==> Upstream(g, m, sel)
  }

  /** The invariant the walk keeps on its shared state. */
  ghost predicate WalkInv(g: Graph, w: Walk, sel: string)
  {
    DistinctIds(w.found) && FoundSound(g, w) && Grounded(g, w, sel)
  }

  /** Following an edge out of an upstream node's predecessor extends its path. */
  lemma {:induction false} ExtendUpstream(g: Graph, src: string, t: string, sel: string)
    requires src in NodeIds(g) && Edge(src, t) in g.edges && Upstream(g, t, sel)
    ensures Upstream(g, src, sel) && Upstream2(g, src, sel)
  {
    var p :| UpstreamPath(g, p, sel) && p[0] == t;
    var q := [src] + p;
    assert forall k :: 1 <= k < |q| ==> q[k] == p[k - 1];
    assert UpstreamPath(g, q, sel);
  }

  /** Growing the walk's state keeps an edge followed. */
  lemma EdgeDoneGrows(g: Graph, w: Walk, w': Walk, e: Edge)
    requires EdgeDone(g, w, e) && w.visited <= w'.visited && w.found <= w'.found
    ensures EdgeDone(g, w', e)
  {
    if FindNode(g.nodes, e.source).Some? && SourceForm(g, e.source).Some? {
      var k :| 0 <= k < |w.found| && w.found[k].id == SourceForm(g, e.source).value.id;
      assert w'.found[k] == w.found[k];
    }
  }

  lemma NodeDoneGrows(g: Graph, w: Walk, w': Walk, m: string)
    requires NodeDone(g, w, m) && w.visited <= w'.visited && w.found <= w'.found
    ensures NodeDone(g, w', m)
  {
    forall e | e in g.edges && e.target == m
      ensures EdgeDone(g, w', e)
    {
      EdgeDoneGrows(g, w, w', e);
    }
  }

  /** Adding the form of an edge's source into a visited node keeps the walk sound. */
  lemma AddKeepsSound(g: Graph, w: Walk, e: Edge)
    requires FoundSound(g, w) && e in g.edges && e.target in w.visited && SourceForm(g, e.source).Some?
    ensures FoundSound(g, Walk(AddIfNew(w.found, SourceForm(g, e.source).value), w.visited))
  {
    var found := AddIfNew(w.found, SourceForm(g, e.source).value);
    forall k | 0 <= k < |found|
      ensures exists e' :: e' in g.edges && e'.target in w.visited && SourceForm(g, e'.source) == Some(found[k])
    {
      if k < |w.found| {
        assert found[k] == w.found[k];
      } else {
        assert found[k] == SourceForm(g, e.source).value;
      }
    }
  }

  /**
   * Entering `n` keeps the invariant, and every node entered during the call
   * has had all its incoming edges followed by the time it returns.
   */
  lemma {:induction false} VisitCorrect(g: Graph, sel: string, n: string, w: Walk)
    requires n in NodeIds(g) && Upstream(g, n, sel) && WalkInv(g, w, sel)
    ensures WalkInv(g, Visit(g, n, w), sel)
    ensures forall m :: m in Visit(g, n, w).visited - w.visited ==> NodeDone(g, Visit(g, n, w), m)
    decreases NodeIds(g) - w.visited, 0, 0
  {
    if n !in w.visited {
      var w1 := Walk(w.found, w.visited + {n});
      var w' := VisitEdges(g, n, 0, w1);
      VisitEdgesCorrect(g, sel, n, 0, w1);
      forall e | e in g.edges && e.target == n
        ensures EdgeDone(g, w', e)
      {
        var j :| 0 <= j < |Incoming(g, n)| && Incoming(g, n)[j] == e;
      }
    }
  }

  /** The `forEach` over the incoming edges of a visited node `t`, from the `i`-th on. */
  lemma {:induction false} VisitEdgesCorrect(g: Graph, sel: string, t: string, i: nat, w: Walk)
    requires i <= |Incoming(g, t)| && t in w.visited && WalkInv(g, w, sel)
    ensures WalkInv(g, VisitEdges(g, t, i, w), sel)
    ensures forall j :: i <= j < |Incoming(g, t)| ==> EdgeDone(g, VisitEdges(g, t, i, w), Incoming(g, t)[j])
    ensures forall m :: m in VisitEdges(g, t, i, w).visited - w.visited ==> NodeDone(g, VisitEdges(g, t, i, w), m)
    decreases NodeIds(g) - w.visited, 1, |Incoming(g, t)| - i
  {
    if i < |Incoming(g, t)| {
      var e := Incoming(g, t)[i];
      var source := e.source;
      if FindNode(g.nodes, source).None? {
        VisitEdgesCorrect(g, sel, t, i + 1, w);
      } else {
        var form := SourceForm(g, source);
        var found := if form.Some? then AddIfNew(w.found, form.value) else w.found;
        var w1 := Walk(found, w.visited);
        if form.Some? {
          AddKeepsSound(g, w, e);
        }
        FindNodeExists(g, source);
        assert e == Edge(source, t);
        ExtendUpstream(g, source, t, sel);
        VisitCorrect(g, sel, source, w1);
        var w2 := Visit(g, source, w1);
        VisitEdgesCorrect(g, sel, t, i + 1, w2);
        var w3 := VisitEdges(g, t, i + 1, w2);
        assert w3 == VisitEdges(g, t, i, w);
        forall m | m in w3.visited - w.visited
          ensures NodeDone(g, w3, m)
        {
          if m in w2.visited {
            NodeDoneGrows(g, w2, w3, m);
          }
        }
        EdgeDoneGrows(g, Walk(found, w2.visited), w3, e);
      }
    }
  }

  /** The top-level loop keeps the invariant, leaves every visited node done, and enters every one-hop predecessor. */
  lemma {:induction false} WalkFromCorrect(g: Graph, sel: string, i: nat, w: Walk)
    requires i <= |Incoming(g, sel)| && WalkInv(g, w, sel)
    requires forall m :: m in w.visited ==> NodeDone(g, w, m)
    ensures WalkInv(g, WalkFrom(g, sel, i, w), sel)
    ensures forall m :: m in WalkFrom(g, sel, i, w).visited ==> NodeDone(g, WalkFrom(g, sel, i, w), m)
    ensures forall j :: i <= j < |Incoming(g, sel)| && FindNode(g.nodes, Incoming(g, sel)[j].source).Some? ==>
              Incoming(g, sel)[j].source in WalkFrom(g, sel, i, w).visited
    decreases |Incoming(g, sel)| - i
  {
    if i < |Incoming(g, sel)| {
      var source := Incoming(g, sel)[i].source;
      if FindNode(g.nodes, source).None? {
        WalkFromCorrect(g, sel, i + 1, w);
      } else {
        FindNodeExists(g, source);
        assert UpstreamPath(g, [source], sel);
        VisitCorrect(g, sel, source, w);
        var w2 := Visit(g, source, w);
        forall m | m in w2.visited
          ensures NodeDone(g, w2, m)
        {
          if m in w.visited {
            NodeDoneGrows(g, w, w2, m);
          }
        }
        WalkFromCorrect(g, sel, i + 1, w2);
      }
    }
  }

  /** The state at the end of the whole resolution. */
  lemma TransitiveWalkCorrect(g: Graph, sel: string)
    ensures WalkInv(g, TransitiveWalk(g, sel), sel)
    ensures forall m :: m in TransitiveWalk(g, sel).visited ==> NodeDone(g, TransitiveWalk(g, sel), m)
    ensures forall e :: e in g.edges && e.target == sel && FindNode(g.nodes, e.source).Some? ==>
              e.source in TransitiveWalk(g, sel).visited
  {
    WalkFromCorrect(g, sel, 0, Walk([], {}));
    forall e | e in g.edges && e.target == sel && FindNode(g.nodes, e.source).Some?
      ensures e.source in TransitiveWalk(g, sel).visited
    {
      var j :| 0 <= j < |Incoming(g, sel)| && Incoming(g, sel)[j] == e;
    }
  }

  /** A set that holds the one-hop predecessors of `sel` and is closed under predecessors holds every upstream node. */
  lemma {:induction false} ClosedHoldsUpstream(g: Graph, sel: string, vis: set<string>, p: seq<string>)
    requires UpstreamPath(g, p, sel)
    requires forall e :: e in g.edges && e.target == sel && FindNode(g.nodes, e.source).Some? ==> e.source in vis
    requires forall e :: e in g.edges && e.target in vis && FindNode(g.nodes, e.source).Some? ==> e.source in vis
    ensures p[0] in vis
    decreases |p|
  {
    FindNodeExists(g, p[0]);
    if |p| == 1 {
      assert Edge(p[0], sel) in g.edges;
    } else {
      assert UpstreamPath(g, p[1..], sel);
      ClosedHoldsUpstream(g, sel, vis, p[1..]);
      assert Edge(p[0], p[1]) in g.edges;
    }
  }

  /** The walk visits exactly the nodes upstream of `sel`: the existing nodes with a path of edges to it. */
  lemma VisitedIsUpstream(g: Graph, sel: string)
    ensures forall m :: m in TransitiveWalk(g, sel).visited <==> Upstream(g, m, sel)
  {
    var w := TransitiveWalk(g, sel);
    TransitiveWalkCorrect(g, sel);
    forall e | e in g.edges && e.target in w.visited && FindNode(g.nodes, e.source).Some?
      ensures e.source in w.visited
    {
      assert EdgeDone(g, w, e);
    }
    forall m | Upstream(g, m, sel)
      ensures m in w.visited
    {
      var p :| UpstreamPath(g, p, sel) && p[0] == m;
      ClosedHoldsUpstream(g, sel, w.visited, p);
    }
  }

  /** Soundness: every form in `transitive` is the form of a node two or more edges upstream of `sel`. */
  lemma TransitiveSound(g: Graph, sel: string)
    ensures forall f :: f in Transitive(g, sel) ==>
              exists m :: Upstream2(g, m, sel) && SourceForm(g, m) == Some(f)
  {
    var w := TransitiveWalk(g, sel);
    TransitiveWalkCorrect(g, sel);
    forall f | f in w.found
      ensures exists m :: Upstream2(g, m, sel) && SourceForm(g, m) == Some(f)
    {
      var k :| 0 <= k < |w.found| && w.found[k] == f;
      var e :| e in g.edges && e.target in w.visited && SourceForm(g, e.source) == Some(w.found[k]);
      assert e == Edge(e.source, e.target);
      ExtendUpstream(g, e.source, e.target, sel);
    }
  }

  /** The second node of a path of two or more nodes is itself upstream, one edge after the first. */
  lemma PathTail(g: Graph, p: seq<string>, sel: string)
    requires UpstreamPath(g, p, sel) && |p| >= 2
    ensures Upstream(g, p[1], sel) && Edge(p[0], p[1]) in g.edges && p[0] in NodeIds(g)
  {
    assert UpstreamPath(g, p[1..], sel);
  }

  /** Completeness: the form of every node two or more edges upstream of `sel` is in `transitive`, by id. */
  lemma TransitiveComplete(g: Graph, sel: string)
    ensures forall m :: Upstream2(g, m, sel) && SourceForm(g, m).Some? ==>
              HasFormId(Transitive(g, sel), SourceForm(g, m).value.id)
  {
    var w := TransitiveWalk(g, sel);
    VisitedIsUpstream(g, sel);
    TransitiveWalkCorrect(g, sel);
    forall m | Upstream2(g, m, sel) && SourceForm(g, m).Some?
      ensures HasFormId(w.found, SourceForm(g, m).value.id)
    {
      var p :| UpstreamPath(g, p, sel) && |p| >= 2 && p[0] == m;
      PathTail(g, p, sel);
      var next := p[1];
      assert next in w.visited;
      assert NodeDone(g, w, next);
      FindNodeExists(g, m);
      assert EdgeDone(g, w, Edge(m, next));
    }
  }

  /** `direct` holds, repeats kept, the forms of the one-hop predecessors of `sel` and nothing else. */
  lemma {:induction false} DirectOfMembers(g: Graph, edges: seq<Edge>)
    ensures forall f :: f in DirectOf(g, edges) <==> exists e :: e in edges && SourceForm(g, e.source) == Some(f)
    decreases |edges|
  {
    if |edges| > 0 {
      var init := edges[..|edges| - 1];
      DirectOfMembers(g, init);
      assert edges == init + [edges[|edges| - 1]];
    }
  }

  /** One edge contributes its source's form exactly when that form resolves. */
  lemma DirectOfOne(g: Graph, e: Edge)
    ensures DirectOf(g, [e]) == if SourceForm(g, e.source).Some? then [SourceForm(g, e.source).value] else []
  {
    assert [e][..0] == [];
  }

  /**
   * `direct` follows the edges: the entries for a concatenation of edge
   * lists are those of the first list followed by those of the second.
   * With `DirectOfOne`, there is one entry per edge with a resolvable
   * source, in edge order, repeats kept.
   */
  lemma {:induction false} DirectOfAppend(g: Graph, a: seq<Edge>, b: seq<Edge>)
    ensures DirectOf(g, a + b) == DirectOf(g, a) + DirectOf(g, b)
    decreases |b|
  {
    if |b| == 0 {
      assert a + b == a;
    } else {
      var init := b[..|b| - 1];
      DirectOfAppend(g, a, init);
      assert (a + b)[..|a + b| - 1] == a + init;
      assert (a + b)[|a + b| - 1] == b[|b| - 1];
    }
  }

  lemma DirectMembers(g: Graph, sel: string)
    ensures forall f :: f in Direct(g, sel) <==>
              exists e :: e in g.edges && e.target == sel && SourceForm(g, e.source) == Some(f)
  {
    DirectOfMembers(g, Incoming(g, sel));
  }

  // ---------------------------------------------------------------------
  // The walk one step at a time

  /** Filtering distributes over concatenation. */
  lemma {:induction false} IncomingAppend(a: seq<Edge>, b: seq<Edge>, id: string)
    ensures IncomingIn(a + b, id) == IncomingIn(a, id) + IncomingIn(b, id)
  {
    if |a| > 0 {
      assert (a + b)[1..] == a[1..] + b;
      IncomingAppend(a[1..], b, id);
    } else {
      assert a + b == b;
    }
  }

  /** A node already visited is not entered again. */
  lemma VisitSeen(g: Graph, n: string, w: Walk)
    requires n in NodeIds(g) && n in w.visited
    ensures Visit(g, n, w) == w
  {
  }

  /** An unvisited node is marked before its incoming edges are walked. */
  lemma VisitEnter(g: Graph, n: string, w: Walk)
    requires n in NodeIds(g) && n !in w.visited
    ensures Visit(g, n, w) == VisitEdges(g, n, 0, Walk(w.found, w.visited + {n}))
  {
  }

  /** An edge whose source has form `f`: the form is added first, then the source is entered. */
  lemma VisitEdgesStep(g: Graph, t: string, i: nat, w: Walk, f: Form)
    requires i < |Incoming(g, t)| && SourceForm(g, Incoming(g, t)[i].source) == Some(f)
    ensures VisitEdges(g, t, i, w)
            == VisitEdges(g, t, i + 1, Visit(g, Incoming(g, t)[i].source, Walk(AddIfNew(w.found, f), w.visited)))
  {
  }

  lemma VisitEdgesEnd(g: Graph, t: string, w: Walk)
    ensures VisitEdges(g, t, |Incoming(g, t)|, w) == w
  {
  }

  /** At the top level an existing source is entered without adding its own form. */
  lemma WalkFromStep(g: Graph, sel: string, i: nat, w: Walk)
    requires i < |Incoming(g, sel)| && Incoming(g, sel)[i].source in NodeIds(g)
    ensures WalkFrom(g, sel, i, w) == WalkFrom(g, sel, i + 1, Visit(g, Incoming(g, sel)[i].source, w))
  {
    FindNodeExists(g, Incoming(g, sel)[i].source);
  }

  lemma WalkFromEnd(g: Graph, sel: string, w: Walk)
    ensures WalkFrom(g, sel, |Incoming(g, sel)|, w) == w
  {
  }

  // ---------------------------------------------------------------------
  // Worked examples: nodes a, b, c, d use forms fa, fb, fc, fd

  const FA: Form := Form("fa", "Form A", None)
  const FB: Form := Form("fb", "Form B", None)
  const FC: Form := Form("fc", "Form C", None)
  const FD: Form := Form("fd", "Form D", None)

  const ExampleNodes: seq<Node> := [
    Node("a", "form", NodeData("a", "fa")), Node("b", "form", NodeData("b", "fb")),
    Node("c", "form", NodeData("c", "fc")), Node("d", "form", NodeData("d", "fd"))]

  const ExampleForms: seq<Form> := [FA, FB, FC, FD]

  lemma ExampleNodeLookups(g: Graph)
    requires g.nodes == ExampleNodes
    ensures FindNode(g.nodes, "a") == Some(g.nodes[0]) && FindNode(g.nodes, "b") == Some(g.nodes[1])
    ensures FindNode(g.nodes, "c") == Some(g.nodes[2]) && FindNode(g.nodes, "d") == Some(g.nodes[3])
    ensures "a" in NodeIds(g) && "b" in NodeIds(g) && "c" in NodeIds(g) && "d" in NodeIds(g)
  {
    assert FindNode(g.nodes, "a") == Some(g.nodes[0]);
    assert FindNode(g.nodes, "b") == Some(g.nodes[1]);
    assert FindNode(g.nodes, "c") == Some(g.nodes[2]);
    assert FindNode(g.nodes, "d") == Some(g.nodes[3]);
  }

  lemma ExampleFormLookups(g: Graph)
    requires g.forms == ExampleForms
    ensures FindForm(g.forms, "fa") == Some(FA) && FindForm(g.forms, "fb") == Some(FB)
    ensures FindForm(g.forms, "fc") == Some(FC) && FindForm(g.forms, "fd") == Some(FD)
  {
    assert FindForm(g.forms, "fa") == Some(FA);
    assert FindForm(g.forms, "fb") == Some(FB);
    FindFormFirst(g.forms, "fc", 2);
    FindFormFirst(g.forms, "fd", 3);
  }

  /** Each example node exists and resolves to its own form. */
  lemma ExampleSourceForms(g: Graph)
    requires g.nodes == ExampleNodes && g.forms == ExampleForms
    ensures SourceForm(g, "a") == Some(FA) && SourceForm(g, "b") == Some(FB)
    ensures SourceForm(g, "c") == Some(FC) && SourceForm(g, "d") == Some(FD)
    ensures "a" in NodeIds(g) && "b" in NodeIds(g) && "c" in NodeIds(g) && "d" in NodeIds(g)
  {
    ExampleNodeLookups(g);
    ExampleFormLookups(g);
  }

  lemma ChainIncoming(g: Graph)
    requires g.edges == [Edge("a", "b"), Edge("b", "c")]
    ensures Incoming(g, "c") == [Edge("b", "c")]
    ensures Incoming(g, "b") == [Edge("a", "b")]
    ensures Incoming(g, "a") == []
  {
    var e1 := g.edges[1];
    assert g.edges[1..] == [e1] && g.edges[1..][1..] == [];
    assert IncomingIn([e1], "c") == [e1];
    assert IncomingIn([e1], "b") == [];
    assert IncomingIn([e1], "a") == [];
  }

  /** `a` has no incoming edge: entering it only marks it. */
  lemma EnterA(g: Graph)
    requires "a" in NodeIds(g) && Incoming(g, "a") == []
    ensures Visit(g, "a", Walk([FA], {"b"})) == Walk([FA], {"a", "b"})
  {
    VisitEnter(g, "a", Walk([FA], {"b"}));
    assert {"b"} + {"a"} == {"a", "b"};
    VisitEdgesEnd(g, "a", Walk([FA], {"a", "b"}));
  }

  /** Entering `b` from scratch, where only `a -> b` leads in, finds the form of `a`. */
  lemma EnterB(g: Graph)
    requires "a" in NodeIds(g) && Incoming(g, "a") == []
    requires "b" in NodeIds(g) && Incoming(g, "b") == [Edge("a", "b")] && SourceForm(g, "a") == Some(FA)
    ensures Visit(g, "b", Walk([], {})) == Walk([FA], {"a", "b"})
  {
    VisitEnter(g, "b", Walk([], {}));
    assert {} + {"b"} == {"b"};
    assert AddIfNew([], FA) == [FA];
    VisitEdgesStep(g, "b", 0, Walk([], {"b"}), FA);
    EnterA(g);
    VisitEdgesEnd(g, "b", Walk([FA], {"a", "b"}));
  }

  /**
   * Chain a -> b -> c with c selected: the direct dependency is the form of
   * b, the transitive one the form of a; the one-hop form is not repeated
   * among the transitive ones.
   */
  lemma ChainExample(g: Graph)
    requires g.nodes == ExampleNodes && g.forms == ExampleForms
    requires g.edges == [Edge("a", "b"), Edge("b", "c")]
    ensures Direct(g, "c") == [FB]
    ensures Transitive(g, "c") == [FA]
  {
    ExampleSourceForms(g);
    ChainIncoming(g);
    EnterB(g);
    WalkFromStep(g, "c", 0, Walk([], {}));
    WalkFromEnd(g, "c", Walk([FA], {"a", "b"}));
    assert DirectOf(g, [Edge("b", "c")]) == DirectOf(g, []) + [FB];
  }

  lemma DiamondIncomingD(g: Graph)
    requires g.edges == [Edge("a", "b"), Edge("a", "c"), Edge("b", "d"), Edge("c", "d")]
    ensures Incoming(g, "d") == [Edge("b", "d"), Edge("c", "d")]
  {
    var e0, e1, e2, e3 := g.edges[0], g.edges[1], g.edges[2], g.edges[3];
    assert g.edges == [e0, e1] + [e2, e3];
    IncomingAppend([e0, e1], [e2, e3], "d");
    assert [e0, e1][1..] == [e1] && [e2, e3][1..] == [e3] && [e3][1..] == [];
    assert IncomingIn([e0, e1], "d") == [];
    assert IncomingIn([e3], "d") == [e3];
    assert IncomingIn([e2, e3], "d") == [e2] + [e3];
  }

  lemma DiamondIncomingABC(g: Graph)
    requires g.edges == [Edge("a", "b"), Edge("a", "c"), Edge("b", "d"), Edge("c", "d")]
    ensures Incoming(g, "b") == [Edge("a", "b")]
    ensures Incoming(g, "c") == [Edge("a", "c")]
    ensures Incoming(g, "a") == []
  {
    var e0, e1, e2, e3 := g.edges[0], g.edges[1], g.edges[2], g.edges[3];
    assert g.edges == [e0, e1] + [e2, e3];
    IncomingAppend([e0, e1], [e2, e3], "b");
    IncomingAppend([e0, e1], [e2, e3], "c");
    IncomingAppend([e0, e1], [e2, e3], "a");
    assert [e0, e1][1..] == [e1] && [e2, e3][1..] == [e3];
  }

  /** Entering `c` after `a` and `b`: the form of `a` is already present and `a` is not re-entered. */
  lemma EnterCAfterB(g: Graph)
    requires "a" in NodeIds(g) && "c" in NodeIds(g)
    requires Incoming(g, "c") == [Edge("a", "c")] && SourceForm(g, "a") == Some(FA)
    ensures Visit(g, "c", Walk([FA], {"a", "b"})) == Walk([FA], {"a", "b", "c"})
  {
    VisitEnter(g, "c", Walk([FA], {"a", "b"}));
    assert {"a", "b"} + {"c"} == {"a", "b", "c"};
    assert HasFormId([FA], FA.id);
    VisitEdgesStep(g, "c", 0, Walk([FA], {"a", "b", "c"}), FA);
    VisitSeen(g, "a", Walk([FA], {"a", "b", "c"}));
    VisitEdgesEnd(g, "c", Walk([FA], {"a", "b", "c"}));
  }

  lemma DiamondWalk(g: Graph)
    requires "a" in NodeIds(g) && "b" in NodeIds(g) && "c" in NodeIds(g)
    requires Incoming(g, "d") == [Edge("b", "d"), Edge("c", "d")]
    requires Incoming(g, "b") == [Edge("a", "b")] && Incoming(g, "c") == [Edge("a", "c")]
    requires Incoming(g, "a") == [] && SourceForm(g, "a") == Some(FA)
    ensures Transitive(g, "d") == [FA]
  {
    EnterB(g);
    EnterCAfterB(g);
    WalkFromStep(g, "d", 0, Walk([], {}));
    WalkFromStep(g, "d", 1, Walk([FA], {"a", "b"}));
    WalkFromEnd(g, "d", Walk([FA], {"a", "b", "c"}));
  }

  lemma DiamondDirect(g: Graph)
    requires Incoming(g, "d") == [Edge("b", "d"), Edge("c", "d")]
    requires SourceForm(g, "b") == Some(FB) && SourceForm(g, "c") == Some(FC)
    ensures Direct(g, "d") == [FB, FC]
  {
    assert [Edge("b", "d"), Edge("c", "d")][..1] == [Edge("b", "d")];
    assert DirectOf(g, [Edge("b", "d")]) == DirectOf(g, []) + [FB];
    assert DirectOf(g, [Edge("b", "d"), Edge("c", "d")]) == DirectOf(g, [Edge("b", "d")]) + [FC];
  }

  /**
   * Diamond a -> b, a -> c, b -> d, c -> d with d selected: both one-hop
   * forms are direct, and the form of a, reached twice, is listed once.
   */
  lemma DiamondExample(g: Graph)
    requires g.nodes == ExampleNodes && g.forms == ExampleForms
    requires g.edges == [Edge("a", "b"), Edge("a", "c"), Edge("b", "d"), Edge("c", "d")]
    ensures Direct(g, "d") == [FB, FC]
    ensures Transitive(g, "d") == [FA]
  {
    ExampleSourceForms(g);
    DiamondIncomingD(g);
    DiamondIncomingABC(g);
    DiamondWalk(g);
    DiamondDirect(g);
  }

  lemma CycleIncoming(g: Graph)
    requires g.edges == [Edge("a", "b"), Edge("b", "a")]
    ensures Incoming(g, "b") == [Edge("a", "b")]
    ensures Incoming(g, "a") == [Edge("b", "a")]
  {
    var e1 := g.edges[1];
    assert g.edges[1..] == [e1] && g.edges[1..][1..] == [];
    assert IncomingIn([e1], "a") == [e1];
    assert IncomingIn([e1], "b") == [];
  }

  /** Inside the cycle, `b` is entered once and `a` is not re-entered. */
  lemma EnterBInCycle(g: Graph)
    requires "a" in NodeIds(g) && "b" in NodeIds(g)
    requires Incoming(g, "b") == [Edge("a", "b")] && SourceForm(g, "a") == Some(FA)
    ensures Visit(g, "b", Walk([FB], {"a"})) == Walk([FB, FA], {"a", "b"})
  {
    var ab := {"a", "b"};
    VisitEnter(g, "b", Walk([FB], {"a"}));
    assert {"a"} + {"b"} == ab;
    assert !HasFormId([FB], FA.id);
    assert AddIfNew([FB], FA) == [FB, FA];
    VisitEdgesStep(g, "b", 0, Walk([FB], ab), FA);
    VisitSeen(g, "a", Walk([FB, FA], ab));
    VisitEdgesEnd(g, "b", Walk([FB, FA], ab));
  }

  lemma EnterAInCycle(g: Graph)
    requires "a" in NodeIds(g) && "b" in NodeIds(g)
    requires Incoming(g, "a") == [Edge("b", "a")] && Incoming(g, "b") == [Edge("a", "b")]
    requires SourceForm(g, "a") == Some(FA) && SourceForm(g, "b") == Some(FB)
    ensures Visit(g, "a", Walk([], {})) == Walk([FB, FA], {"a", "b"})
  {
    VisitEnter(g, "a", Walk([], {}));
    assert {} + {"a"} == {"a"};
    assert AddIfNew([], FB) == [FB];
    VisitEdgesStep(g, "a", 0, Walk([], {"a"}), FB);
    EnterBInCycle(g);
    VisitEdgesEnd(g, "a", Walk([FB, FA], {"a", "b"}));
  }

  /**
   * Cycle a -> b, b -> a with b selected: the walk terminates, and the
   * selected node's own form comes back among its transitive dependencies.
   */
  lemma CycleExample(g: Graph)
    requires g.nodes == ExampleNodes && g.forms == ExampleForms
    requires g.edges == [Edge("a", "b"), Edge("b", "a")]
    ensures Direct(g, "b") == [FA]
    ensures Transitive(g, "b") == [FB, FA]
  {
    ExampleSourceForms(g);
    CycleIncoming(g);
    EnterAInCycle(g);
    WalkFromStep(g, "b", 0, Walk([], {}));
    WalkFromEnd(g, "b", Walk([FB, FA], {"a", "b"}));
    assert DirectOf(g, [Edge("a", "b")]) == DirectOf(g, []) + [FA];
  }

  /** Two nodes on the same form, both leading into `c`. */
  const SharedNodes: seq<Node> := [
    Node("a", "form", NodeData("a", "fa")), Node("b", "form", NodeData("b", "fa")),
    Node("c", "form", NodeData("c", "fc"))]

  lemma SharedSourceForms(g: Graph)
    requires g.nodes == SharedNodes && g.forms == ExampleForms
    ensures SourceForm(g, "a") == Some(FA) && SourceForm(g, "b") == Some(FA)
  {
    assert FindNode(g.nodes, "a") == Some(g.nodes[0]);
    assert FindNode(g.nodes, "b") == Some(g.nodes[1]);
    assert FindForm(g.forms, "fa") == Some(FA);
  }

  lemma SharedIncoming(g: Graph)
    requires g.edges == [Edge("a", "c"), Edge("b", "c")]
    ensures Incoming(g, "c") == g.edges
  {
    var e0, e1 := g.edges[0], g.edges[1];
    assert g.edges[1..] == [e1] && [e1][1..] == [];
    assert IncomingIn([e1], "c") == [e1];
  }

  lemma SharedDirect(g: Graph)
    requires Incoming(g, "c") == [Edge("a", "c"), Edge("b", "c")]
    requires SourceForm(g, "a") == Some(FA) && SourceForm(g, "b") == Some(FA)
    ensures Direct(g, "c") == [FA, FA]
  {
    DirectOfAppend(g, [Edge("a", "c")], [Edge("b", "c")]);
    DirectOfOne(g, Edge("a", "c"));
    DirectOfOne(g, Edge("b", "c"));
    assert [Edge("a", "c")] + [Edge("b", "c")] == [Edge("a", "c"), Edge("b", "c")];
  }

  /**
   * Nodes a and b on the same form, edges a -> c and b -> c, with c
   * selected: `direct` lists the shared form once per edge.
   */
  lemma SharedFormExample(g: Graph)
    requires g.nodes == SharedNodes && g.forms == ExampleForms
    requires g.edges == [Edge("a", "c"), Edge("b", "c")]
    ensures Direct(g, "c") == [FA, FA]
  {
    SharedSourceForms(g);
    SharedIncoming(g);
    SharedDirect(g);
  }
}
