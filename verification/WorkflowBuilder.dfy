/**
  The builder's edges: dependencies are extended on every `connect` and rebuilt from
  the recorded edges by `build`.
 */
module WorkflowBuilder {
  import opened Prelude

  type Id = string

  datatype Node = Node(id: Id, deps: seq<Id>)

  datatype Edge = Edge(from: Id, to: Id)

  // ----- one edge ------------------------------------------------------------------

  function Extend(n: Node, e: Edge): Node {
    if n.id == e.to && e.from !in n.deps then n.(deps := n.deps + [e.from]) else n
  }

  function ExtendAll(nodes: seq<Node>, e: Edge): seq<Node> {
    if nodes == [] then [] else [Extend(nodes[0], e)] + ExtendAll(nodes[1..], e)
  }

  function ExtendByAll(nodes: seq<Node>, edges: seq<Edge>): seq<Node>
    decreases |edges|
  {
    if edges == [] then nodes else ExtendByAll(ExtendAll(nodes, edges[0]), edges[1..])
  }

  function Cleared(nodes: seq<Node>): seq<Node> {
    if nodes == [] then [] else [nodes[0].(deps := [])] + Cleared(nodes[1..])
  }

  /** What `_apply_connections` leaves. */
  function Rebuilt(nodes: seq<Node>, edges: seq<Edge>): seq<Node> {
    ExtendByAll(Cleared(nodes), edges)
  }

  // ----- the builder in place --------------------------------------------------------

  class Builder {
    var nodes: seq<Node>
    var edges: seq<Edge>

    constructor ()
      ensures nodes == [] && edges == []
    {
      nodes, edges := [], [];
    }

    method AddNode(n: Node)
      modifies this
      ensures nodes == old(nodes) + [n] && edges == old(edges)
    {
      nodes := nodes + [n];
    }

    method Connect(from: Id, to: Id)
      modifies this
      ensures edges == old(edges) + [Edge(from, to)] && nodes == ExtendAll(old(nodes), Edge(from, to))
    {
      edges := edges + [Edge(from, to)];
      ApplyEdge(Edge(from, to));
    }

    /** The inner loop over the nodes, for one edge. */
    method ApplyEdge(e: Edge)
      modifies this`nodes
      ensures nodes == ExtendAll(old(nodes), e)
    {
      var done: seq<Node>, rest := [], nodes;
      while rest != []
        invariant ExtendAll(old(nodes), e) == done + ExtendAll(rest, e)
        decreases |rest|
      {
        var node := rest[0];
        if node.id == e.to {
          if e.from !in node.deps {
            node := node.(deps := node.deps + [e.from]);
          }
        }
        ghost var after := ExtendAll(rest[1..], e);
        assert done + ([node] + after) == (done + [node]) + after;
        done := done + [node];
        rest := rest[1..];
      }
      nodes := done;
    }

    method ApplyConnections()
      modifies this`nodes
      ensures nodes == Rebuilt(old(nodes), edges)
    {
      var cleared: seq<Node>, rest := [], nodes;
      while rest != []
        invariant Cleared(old(nodes)) == cleared + Cleared(rest)
        decreases |rest|
      {
        ghost var after := Cleared(rest[1..]);
        assert cleared + ([rest[0].(deps := [])] + after) == (cleared + [rest[0].(deps := [])]) + after;
        cleared := cleared + [rest[0].(deps := [])];
        rest := rest[1..];
      }
      assert cleared + Cleared([]) == cleared;
      nodes := cleared;
      var todo := edges;
      while todo != []
        invariant Rebuilt(old(nodes), edges) == ExtendByAll(nodes, todo)
        decreases |todo|
      {
        ApplyEdge(todo[0]);
        todo := todo[1..];
      }
    }

    /** The blueprint's nodes: the rebuilt ones. */
    method Build() returns (specs: seq<Node>)
      modifies this`nodes
      ensures nodes == Rebuilt(old(nodes), edges) && specs == nodes
    {
      ApplyConnections();
      return nodes;
    }
  }

  // ----- what the dependencies of a node are ---------------------------------------------

  /** `deps` extended by the sources of the edges into `id`, first occurrences only. */
  function Grown(deps: seq<Id>, edges: seq<Edge>, id: Id): seq<Id>
    decreases |edges|
  {
    if edges == [] then deps
    else
      var e := edges[0];
      Grown(if e.to == id && e.from !in deps then deps + [e.from] else deps, edges[1..], id)
  }

  lemma {:induction false} ExtendAllAt(nodes: seq<Node>, e: Edge, i: nat)
    requires i < |nodes|
    ensures |ExtendAll(nodes, e)| == |nodes| && ExtendAll(nodes, e)[i] == Extend(nodes[i], e)
  {
    if i > 0 {
      ExtendAllAt(nodes[1..], e, i - 1);
    } else if |nodes| > 1 {
      ExtendAllAt(nodes[1..], e, 0);
    }
  }

  lemma {:induction false} ExtendByAllAt(nodes: seq<Node>, edges: seq<Edge>, i: nat)
    requires i < |nodes|
    ensures |ExtendByAll(nodes, edges)| == |nodes|
    ensures ExtendByAll(nodes, edges)[i] == Node(nodes[i].id, Grown(nodes[i].deps, edges, nodes[i].id))
    decreases |edges|
  {
    if edges != [] {
      ExtendAllAt(nodes, edges[0], i);
      ExtendByAllAt(ExtendAll(nodes, edges[0]), edges[1..], i);
    }
  }

  lemma {:induction false} ClearedAt(nodes: seq<Node>, i: nat)
    requires i < |nodes|
    ensures |Cleared(nodes)| == |nodes| && Cleared(nodes)[i] == Node(nodes[i].id, [])
  {
    if i > 0 {
      ClearedAt(nodes[1..], i - 1);
    } else if |nodes| > 1 {
      ClearedAt(nodes[1..], 0);
    }
  }

  lemma {:induction false} ClearedLength(nodes: seq<Node>)
    ensures |Cleared(nodes)| == |nodes|
  {
    if nodes != [] {
      ClearedLength(nodes[1..]);
    }
  }

  lemma {:induction false} ExtendByAllLength(nodes: seq<Node>, edges: seq<Edge>)
    ensures |ExtendByAll(nodes, edges)| == |nodes|
    decreases |edges|
  {
    if edges != [] {
      ExtendAllLength(nodes, edges[0]);
      ExtendByAllLength(ExtendAll(nodes, edges[0]), edges[1..]);
    }
  }

  lemma {:induction false} ExtendAllLength(nodes: seq<Node>, e: Edge)
    ensures |ExtendAll(nodes, e)| == |nodes|
  {
    if nodes != [] {
      ExtendAllLength(nodes[1..], e);
    }
  }

  /** A built node depends on the sources of its edges, whatever it depended on before. */
  lemma RebuiltAt(nodes: seq<Node>, edges: seq<Edge>, i: nat)
    requires i < |nodes|
    ensures |Rebuilt(nodes, edges)| == |nodes|
    ensures Rebuilt(nodes, edges)[i] == Node(nodes[i].id, Grown([], edges, nodes[i].id))
  {
    ClearedAt(nodes, i);
    ExtendByAllAt(Cleared(nodes), edges, i);
  }

  lemma RebuiltLength(nodes: seq<Node>, edges: seq<Edge>)
    ensures |Rebuilt(nodes, edges)| == |nodes|
  {
    ClearedLength(nodes);
    ExtendByAllLength(Cleared(nodes), edges);
  }

  lemma RebuildIsIdempotent(nodes: seq<Node>, edges: seq<Edge>)
    ensures Rebuilt(Rebuilt(nodes, edges), edges) == Rebuilt(nodes, edges)
  {
    RebuiltLength(nodes, edges);
    RebuiltLength(Rebuilt(nodes, edges), edges);
    forall i | 0 <= i < |nodes|
      ensures Rebuilt(Rebuilt(nodes, edges), edges)[i] == Rebuilt(nodes, edges)[i]
    {
      RebuiltAt(nodes, edges, i);
      RebuiltAt(Rebuilt(nodes, edges), edges, i);
    }
  }

  /** An edge `from -> id` occurs, and some edge carries `from` to `id` first. */
  ghost predicate FirstAt(edges: seq<Edge>, k: nat, from: Id, id: Id) {
    k < |edges| && edges[k] == Edge(from, id) && forall j :: 0 <= j < k ==> edges[j] != Edge(from, id)
  }

  /**
    The grown list: duplicate-free, the old dependencies first, then exactly the new
    sources, in the order of their first edges.
   */
  lemma {:induction false} GrownExactly(deps: seq<Id>, edges: seq<Edge>, id: Id)
    requires Distinct(deps)
    ensures Distinct(Grown(deps, edges, id)) && deps <= Grown(deps, edges, id)
    ensures forall x :: x in Grown(deps, edges, id) <==> x in deps || Edge(x, id) in edges
    decreases |edges|
  {
    if edges != [] {
      var e := edges[0];
      assert edges == [e] + edges[1..];
      GrownExactly(if e.to == id && e.from !in deps then deps + [e.from] else deps, edges[1..], id);
    }
  }

  lemma {:induction false} GrownConcat(deps: seq<Id>, a: seq<Edge>, b: seq<Edge>, id: Id)
    ensures Grown(deps, a + b, id) == Grown(Grown(deps, a, id), b, id)
    decreases |a|
  {
    if a == [] {
      assert a + b == b;
    } else {
      assert (a + b)[0] == a[0] && (a + b)[1..] == a[1..] + b;
      GrownConcat(if a[0].to == id && a[0].from !in deps then deps + [a[0].from] else deps, a[1..], b, id);
    }
  }

  /** Sources appear in the order of their first edges. */
  lemma {:induction false} GrownInEdgeOrder(edges: seq<Edge>, id: Id, x: Id, y: Id, j: nat, k: nat)
    requires FirstAt(edges, j, x, id) && FirstAt(edges, k, y, id) && j < k
    ensures exists p, q :: 0 <= p < q < |Grown([], edges, id)| && Grown([], edges, id)[p] == x && Grown([], edges, id)[q] == y
  {
    var early := edges[..k];
    assert edges == early + edges[k..];
    GrownConcat([], early, edges[k..], id);
    GrownExactly([], early, id);
    GrownExactly(Grown([], early, id), edges[k..], id);
    assert early[j] == Edge(x, id);
    assert Edge(y, id) !in early;
    assert edges[k..][0] == Edge(y, id);
    var all := Grown([], edges, id);
    var p :| 0 <= p < |Grown([], early, id)| && Grown([], early, id)[p] == x;
    assert all[p] == x;
    var q :| 0 <= q < |all| && all[q] == y;
    assert q >= |Grown([], early, id)|;
  }

  // ----- incremental against rebuilt ----------------------------------------------------------

  /** A builder session: nodes and edges in any order. */
  datatype Action = Add(node: Node) | Link(edge: Edge)

  function NodesAfter(actions: seq<Action>): seq<Node> {
    if actions == [] then []
    else
      var before := NodesAfter(actions[..|actions| - 1]);
      match actions[|actions| - 1]
      case Add(n) => before + [n]
      case Link(e) => ExtendAll(before, e)
  }

  function EdgesAfter(actions: seq<Action>): seq<Edge> {
    if actions == [] then []
    else
      EdgesAfter(actions[..|actions| - 1]) +
      (match actions[|actions| - 1] case Add(_) => [] case Link(e) => [e])
  }

  /** Nodes come with no dependencies. */
  ghost predicate BareNodes(actions: seq<Action>) {
    forall i :: 0 <= i < |actions| && actions[i].Add? ==> actions[i].node.deps == []
  }

  /** No edge leads to a node that is added later. */
  ghost predicate EdgesFollowNodes(actions: seq<Action>) {
    forall i, j :: 0 <= i < j < |actions| && actions[i].Link? && actions[j].Add? ==>
      actions[i].edge.to != actions[j].node.id
  }

  lemma {:induction false} EdgeOrigin(actions: seq<Action>)
    ensures forall e :: e in EdgesAfter(actions) ==> exists i :: 0 <= i < |actions| && actions[i] == Link(e)
  {
    if actions != [] {
      var init, last := actions[..|actions| - 1], actions[|actions| - 1];
      EdgeOrigin(init);
      forall e | e in EdgesAfter(actions)
        ensures exists i :: 0 <= i < |actions| && actions[i] == Link(e)
      {
        if e in EdgesAfter(init) {
          var i :| 0 <= i < |init| && init[i] == Link(e);
          assert actions[i] == Link(e);
        } else {
          assert actions[|actions| - 1] == Link(e);
        }
      }
    }
  }

  lemma {:induction false} GrownUntouched(deps: seq<Id>, edges: seq<Edge>, id: Id)
    requires forall e :: e in edges ==> e.to != id
    ensures Grown(deps, edges, id) == deps
    decreases |edges|
  {
    if edges != [] {
      assert edges[0] in edges;
      GrownUntouched(deps, edges[1..], id);
    }
  }

  /**
    In such a session the dependencies kept up to date by `connect` are the ones that
    `build` computes from the edges.
   */
  lemma {:induction false} IncrementalIsRebuilt(actions: seq<Action>)
    requires BareNodes(actions) && EdgesFollowNodes(actions)
    ensures NodesAfter(actions) == Rebuilt(NodesAfter(actions), EdgesAfter(actions))
  {
    var nodes, edges := NodesAfter(actions), EdgesAfter(actions);
    RebuiltLength(nodes, edges);
    forall i | 0 <= i < |nodes|
      ensures nodes[i] == Rebuilt(nodes, edges)[i]
    {
      RebuiltAt(nodes, edges, i);
      NodeDeps(actions, i);
    }
  }

  lemma {:induction false} NodeDeps(actions: seq<Action>, i: nat)
    requires BareNodes(actions) && EdgesFollowNodes(actions) && i < |NodesAfter(actions)|
    ensures NodesAfter(actions)[i].deps == Grown([], EdgesAfter(actions), NodesAfter(actions)[i].id)
    decreases |actions|
  {
    var init, last := actions[..|actions| - 1], actions[|actions| - 1];
    assert actions == init + [last];
    assert forall j :: 0 <= j < |init| ==> init[j] == actions[j];
    match last {
      case Add(n) =>
        assert EdgesAfter(init) + [] == EdgesAfter(init);
        if i < |NodesAfter(init)| {
          NodeDeps(init, i);
        } else {
          EdgeOrigin(init);
          assert actions[|init|] == last;
          forall e | e in EdgesAfter(init)
            ensures e.to != n.id
          {
            var j :| 0 <= j < |init| && init[j] == Link(e);
            assert actions[j] == Link(e);
          }
          GrownUntouched([], EdgesAfter(init), n.id);
        }
      case Link(e) =>
        ExtendAllLength(NodesAfter(init), e);
        ExtendAllAt(NodesAfter(init), e, i);
        NodeDeps(init, i);
        GrownConcat([], EdgesAfter(init), [e], NodesAfter(init)[i].id);
        assert [e][1..] == [];
    }
  }

  lemma {:induction false} EdgesConcat(a: seq<Action>, b: seq<Action>)
    ensures EdgesAfter(a + b) == EdgesAfter(a) + EdgesAfter(b)
    decreases |b|
  {
    if b == [] {
      assert a + b == a;
      assert EdgesAfter(a) + [] == EdgesAfter(a);
    } else {
      var init, last := b[..|b| - 1], b[|b| - 1];
      assert (a + b)[..|a + b| - 1] == a + init && (a + b)[|a + b| - 1] == last;
      EdgesConcat(a, init);
      var drawn := match last case Add(_) => [] case Link(e) => [e];
      assert (EdgesAfter(a) + EdgesAfter(init)) + drawn == EdgesAfter(a) + (EdgesAfter(init) + drawn);
    }
  }

  /** A node's dependencies grow by the edges that come after it. */
  lemma {:induction false} LaterEdgesGrow(a: seq<Action>, b: seq<Action>, i: nat)
    requires i < |NodesAfter(a)|
    ensures i < |NodesAfter(a + b)|
    ensures var n := NodesAfter(a)[i]; NodesAfter(a + b)[i] == Node(n.id, Grown(n.deps, EdgesAfter(b), n.id))
    decreases |b|
  {
    if b == [] {
      assert a + b == a;
    } else {
      var init, last := b[..|b| - 1], b[|b| - 1];
      assert (a + b)[..|a + b| - 1] == a + init && (a + b)[|a + b| - 1] == last;
      LaterEdgesGrow(a, init, i);
      match last {
        case Add(_) =>
          assert EdgesAfter(init) + [] == EdgesAfter(init);
        case Link(e) =>
          ExtendAllLength(NodesAfter(a + init), e);
          ExtendAllAt(NodesAfter(a + init), e, i);
          GrownConcat(NodesAfter(a)[i].deps, EdgesAfter(init), [e], NodesAfter(a)[i].id);
          assert [e][1..] == [];
      }
    }
  }

  lemma {:induction false} LinkIsEdge(actions: seq<Action>, i: nat)
    requires i < |actions| && actions[i].Link?
    ensures actions[i].edge in EdgesAfter(actions)
    decreases |actions|
  {
    if i < |actions| - 1 {
      LinkIsEdge(actions[..|actions| - 1], i);
    }
  }

  /** A node that comes after an edge into it lacks that edge's source for good. */
  lemma LacksSource(a: seq<Action>, b: seq<Action>, p: nat, e: Edge)
    requires p < |NodesAfter(a)| && NodesAfter(a)[p] == Node(e.to, [])
    requires e in EdgesAfter(a) && Distinct(EdgesAfter(a + b))
    ensures NodesAfter(a + b) != Rebuilt(NodesAfter(a + b), EdgesAfter(a + b))
  {
    hide Grown, Rebuilt, NodesAfter, EdgesAfter;
    LaterEdgesGrow(a, b, p);
    EdgesConcat(a, b);
    OnOneSide(EdgesAfter(a), EdgesAfter(b), e);
    GrownExactly([], EdgesAfter(b), e.to);
    GrownExactly([], EdgesAfter(a + b), e.to);
    RebuiltAt(NodesAfter(a + b), EdgesAfter(a + b), p);
    assert e.from in Rebuilt(NodesAfter(a + b), EdgesAfter(a + b))[p].deps;
    assert e.from !in NodesAfter(a + b)[p].deps;
  }

  lemma LateNodeLacksSource(actions: seq<Action>, i: nat, j: nat)
    requires Distinct(EdgesAfter(actions)) && i < j < |actions|
    requires actions[i].Link? && actions[j] == Add(Node(actions[i].edge.to, []))
    ensures NodesAfter(actions) != Rebuilt(NodesAfter(actions), EdgesAfter(actions))
  {
    hide Rebuilt, Distinct, NodesAfter, EdgesAfter;
    var upto, after := actions[..j + 1], actions[j + 1..];
    var p := AddedNode(actions, j);
    assert upto[i] == actions[i];
    LinkIsEdge(upto, i);
    assert actions == upto + after;
    LacksSource(upto, after, p, actions[i].edge);
  }

  lemma OnOneSide(a: seq<Edge>, b: seq<Edge>, e: Edge)
    requires Distinct(a + b) && e in a
    ensures e !in b && e in a + b
  {
    var k :| 0 <= k < |a| && a[k] == e;
    assert (a + b)[k] == e;
    forall l | 0 <= l < |b|
      ensures b[l] != e
    {
      assert (a + b)[|a| + l] == b[l];
    }
  }

  /** The place of a node that was just added. */
  lemma AddedNode(actions: seq<Action>, j: nat) returns (p: nat)
    requires j < |actions| && actions[j].Add?
    ensures p < |NodesAfter(actions[..j + 1])| && NodesAfter(actions[..j + 1])[p] == actions[j].node
  {
    assert actions[..j + 1][..j] == actions[..j];
    p := |NodesAfter(actions[..j])|;
  }

  /**
    When nodes come without dependencies and no edge is drawn twice, the incremental
    dependencies are the rebuilt ones exactly when no edge leads to a later node.
   */
  lemma IncrementalExactly(actions: seq<Action>)
    requires BareNodes(actions) && Distinct(EdgesAfter(actions))
    ensures NodesAfter(actions) == Rebuilt(NodesAfter(actions), EdgesAfter(actions)) <==> EdgesFollowNodes(actions)
  {
    if EdgesFollowNodes(actions) {
      IncrementalIsRebuilt(actions);
    } else {
      var i, j :| 0 <= i < j < |actions| && actions[i].Link? && actions[j].Add?
        && actions[i].edge.to == actions[j].node.id;
      LateNodeLacksSource(actions, i, j);
    }
  }

  /** A node added after an edge into it misses that dependency until the build. */
  lemma LateNodeMissesEdge(a: Id, b: Id)
    ensures var actions := [Link(Edge(a, b)), Add(Node(b, []))];
      NodesAfter(actions) == [Node(b, [])]
      && Rebuilt(NodesAfter(actions), EdgesAfter(actions)) == [Node(b, [a])]
  {
    var first := [Link(Edge(a, b))];
    var actions := [Link(Edge(a, b)), Add(Node(b, []))];
    assert actions[..1] == first && first[..0] == [];
    assert NodesAfter(first) == [] && EdgesAfter(first) == [Edge(a, b)];
    assert NodesAfter(actions) == [Node(b, [])] && EdgesAfter(actions) == [Edge(a, b)];
    RebuiltAt([Node(b, [])], [Edge(a, b)], 0);
    assert Grown([], [Edge(a, b)], b) == Grown([a], [], b);
    assert [Edge(a, b)][1..] == [];
  }
}
