/**
  Cycles through recursive nodes.

  The graph check lets a cycle through only if it holds a recursive node.  Before
  levels are assigned, every edge at a recursive node that lies on a cycle is taken
  out.  What is left has no cycle at all, so the topological sort never fails and
  the fallback levelling after it is never used; an acyclic graph loses no edge.
  The branch resolver, however, follows the cycles and does not return.
 */
module WorkflowCycles {
  import opened Prelude
  import opened WorkflowModel

  datatype Edge = Edge(from: Id, to: Id)

  type Graph = set<Edge>

  function EdgeSet(edges: seq<Edge>): Graph {
    set e | e in edges
  }

  ghost predicate Walk(g: Graph, p: seq<Id>) {
    p != [] && forall i :: 0 <= i < |p| - 1 ==> Edge(p[i], p[i + 1]) in g
  }

  ghost predicate Reaches(g: Graph, u: Id, v: Id) {
    exists p :: Walk(g, p) && p[0] == u && p[|p| - 1] == v
  }

  /** No edge can be closed to a cycle. */
  ghost predicate Acyclic(g: Graph) {
    forall e :: e in g ==> !Reaches(g, e.to, e.from)
  }

  predicate Touches(e: Edge, recursive: set<Id>) {
    e.from in recursive || e.to in recursive
  }

  /** The edges between nodes that are not recursive. */
  function PlainPart(g: Graph, recursive: set<Id>): Graph {
    set e | e in g && !Touches(e, recursive)
  }

  lemma ReachesMore(g: Graph, h: Graph, u: Id, v: Id)
    requires g <= h && Reaches(g, u, v)
    ensures Reaches(h, u, v)
  {
    var p :| Walk(g, p) && p[0] == u && p[|p| - 1] == v;
    assert Walk(h, p);
  }

  lemma ReachesOn(g: Graph, u: Id, v: Id, w: Id)
    requires Reaches(g, u, v) && Reaches(g, v, w)
    ensures Reaches(g, u, w)
  {
    var p :| Walk(g, p) && p[0] == u && p[|p| - 1] == v;
    var q :| Walk(g, q) && q[0] == v && q[|q| - 1] == w;
    var r := p + q[1..];
    forall i | 0 <= i < |r| - 1
      ensures Edge(r[i], r[i + 1]) in g
    {
      if i < |p| - 1 {
        assert Edge(p[i], p[i + 1]) in g;
      } else {
        assert Edge(q[i - |p| + 1], q[i - |p| + 2]) in g;
      }
    }
    assert Walk(g, r);
  }

  /** A way back need not use the edge that it closes. */
  lemma {:induction false} WayBack(g: Graph, e: Edge, p: seq<Id>)
    requires Walk(g, p) && p[0] == e.to && p[|p| - 1] == e.from
    ensures Reaches(g - {e}, e.to, e.from)
    decreases |p|
  {
    if i :| 0 <= i < |p| - 1 && p[i] == e.from {
      var q := p[..i + 1];
      assert forall j :: 0 <= j < |q| ==> q[j] == p[j];
      WayBack(g, e, q);
    } else {
      assert Walk(g - {e}, p);
    }
  }

  // ----- taking out the edges -------------------------------------------------------------

  /** No edge of `g` at a recursive node lies on a cycle. */
  ghost predicate Loosened(g: Graph, edges: seq<Edge>, recursive: set<Id>) {
    forall e :: e in edges && e in g && Touches(e, recursive) ==> !Reaches(g, e.to, e.from)
  }

  /**
    `hasPath` is the path search of the graph library.  Broken edges touch a recursive
    node and lie on a cycle of the whole graph; no kept one does both.
   */
  method BreakCycles(edges: seq<Edge>, recursive: set<Id>, hasPath: (Graph, Id, Id) -> bool)
    returns (kept: Graph, broken: Graph)
    requires forall g, u, v :: hasPath(g, u, v) <==> Reaches(g, u, v)
    requires forall i, j :: 0 <= i < j < |edges| ==> edges[i] != edges[j]
    ensures kept + broken == EdgeSet(edges) && kept !! broken
    ensures forall e :: e in broken ==> Touches(e, recursive) && Reaches(EdgeSet(edges), e.to, e.from)
    ensures forall e :: e in kept && Touches(e, recursive) ==> !Reaches(kept, e.to, e.from)
  {
    hide Reaches;
    ghost var all := EdgeSet(edges);
    kept, broken := EdgeSet(edges), {};
    for i := 0 to |edges|
      invariant kept + broken == all && kept !! broken
      invariant forall j :: i <= j < |edges| ==> edges[j] in kept
      invariant forall e :: e in broken ==> Touches(e, recursive) && Reaches(all, e.to, e.from)
      invariant Loosened(kept, edges[..i], recursive)
    {
      var e := edges[i];
      var without := kept - {e};
      assert edges[..i + 1] == edges[..i] + [e];
      if Touches(e, recursive) {
        if hasPath(without, e.to, e.from) {
          ReachesMore(without, all, e.to, e.from);
          LoosenedLess(kept, without, edges[..i], recursive);
          kept, broken := without, broken + {e};
        } else {
          StillClosed(kept, e);
        }
      }
    }
    assert edges[..|edges|] == edges;
  }

  lemma LoosenedLess(g: Graph, h: Graph, edges: seq<Edge>, recursive: set<Id>)
    requires h <= g && Loosened(g, edges, recursive)
    ensures Loosened(h, edges, recursive)
  {
    hide Reaches;
    forall e | e in edges && e in h && Touches(e, recursive)
      ensures !Reaches(h, e.to, e.from)
    {
      if Reaches(h, e.to, e.from) {
        ReachesMore(h, g, e.to, e.from);
      }
    }
  }

  lemma StillClosed(g: Graph, e: Edge)
    requires !Reaches(g - {e}, e.to, e.from)
    ensures !Reaches(g, e.to, e.from)
  {
    if Reaches(g, e.to, e.from) {
      var p :| Walk(g, p) && p[0] == e.to && p[|p| - 1] == e.from;
      WayBack(g, e, p);
    }
  }

  // ----- what is left ------------------------------------------------------------------------

  /**
    If every cycle of the graph holds a recursive node, the kept edges form no cycle:
    the topological sort succeeds.
   */
  lemma KeptIsAcyclic(all: Graph, kept: Graph, recursive: set<Id>)
    requires kept <= all && Acyclic(PlainPart(all, recursive))
    requires forall e :: e in kept && Touches(e, recursive) ==> !Reaches(kept, e.to, e.from)
    ensures Acyclic(kept)
  {
    forall e | e in kept
      ensures !Reaches(kept, e.to, e.from)
    {
      if Reaches(kept, e.to, e.from) {
        var p :| Walk(kept, p) && p[0] == e.to && p[|p| - 1] == e.from;
        forall i | 0 <= i < |p| - 1
          ensures Edge(p[i], p[i + 1]) in PlainPart(all, recursive)
        {
          OnCycle(kept, e, p, i);
        }
        assert Walk(PlainPart(all, recursive), p);
      }
    }
  }

  /** Each edge of a closed walk can itself be closed. */
  lemma OnCycle(g: Graph, e: Edge, p: seq<Id>, i: nat)
    requires e in g && Walk(g, p) && p[0] == e.to && p[|p| - 1] == e.from && i < |p| - 1
    ensures Reaches(g, p[i + 1], p[i])
  {
    var head, tail := p[..i + 1], p[i + 1..];
    assert Walk(g, head) && head[0] == e.to && head[|head| - 1] == p[i];
    assert Walk(g, tail) && tail[0] == p[i + 1] && tail[|tail| - 1] == e.from;
    var step := [e.from, e.to];
    assert Walk(g, step) && step[0] == e.from && step[|step| - 1] == e.to;
    ReachesOn(g, p[i + 1], e.from, e.to);
    ReachesOn(g, p[i + 1], e.to, p[i]);
  }

  /** An acyclic graph loses no edge. */
  lemma AcyclicKeepsAll(all: Graph, broken: Graph)
    requires Acyclic(all) && broken <= all
    requires forall e :: e in broken ==> Reaches(all, e.to, e.from)
    ensures broken == {}
  {
    forall e
      ensures e !in broken
    {
      assert e in broken ==> e in all;
    }
  }

  // ----- the resolver on a cycle ---------------------------------------------------------------

  /** The resolver's recursion over all dependencies, None when it goes deeper than `depth`. */
  function Resolve(nodes: map<Id, Node>, id: Id, depth: nat): Option<bool>
    decreases depth, 1, 0
  {
    if depth == 0 then None
    else ResolveAll(nodes, if id in nodes then nodes[id].deps else [], depth - 1)
  }

  function ResolveAll(nodes: map<Id, Node>, deps: seq<Id>, depth: nat): Option<bool>
    decreases depth, 2, |deps|
  {
    if deps == [] then Some(true)
    else
      match Resolve(nodes, deps[0], depth)
      case Some(true) => ResolveAll(nodes, deps[1..], depth)
      case other => other
  }

  lemma {:induction false} NeverInactive(nodes: map<Id, Node>, deps: seq<Id>, depth: nat)
    ensures ResolveAll(nodes, deps, depth) != Some(false)
    decreases depth, |deps|
  {
    if deps != [] {
      if depth > 0 {
        NeverInactive(nodes, if deps[0] in nodes then nodes[deps[0]].deps else [], depth - 1);
      }
      NeverInactive(nodes, deps[1..], depth);
    }
  }

  ghost predicate Meets(deps: seq<Id>, s: set<Id>) {
    exists d :: d in deps && d in s
  }

  /** A set of nodes that each depend on one of the set, as the nodes of a cycle do. */
  ghost predicate Endless(nodes: map<Id, Node>, s: set<Id>) {
    forall x :: x in s ==> x in nodes && Meets(nodes[x].deps, s)
  }

  /** Asked for a node on a cycle, or for one that depends on it, the resolver never returns. */
  lemma {:induction false} CyclesNeverResolve(nodes: map<Id, Node>, s: set<Id>, id: Id, depth: nat)
    requires Endless(nodes, s) && id in s
    ensures Resolve(nodes, id, depth) == None
    decreases depth, 1, 0
  {
    hide Meets;
    if depth > 0 {
      StuckInside(nodes, s, nodes[id].deps, depth - 1);
    }
  }

  lemma {:induction false} StuckInside(nodes: map<Id, Node>, s: set<Id>, deps: seq<Id>, depth: nat)
    requires Endless(nodes, s) && Meets(deps, s)
    ensures ResolveAll(nodes, deps, depth) == None
    decreases depth, 2, |deps|
  {
    hide Endless;
    if deps[0] in s {
      CyclesNeverResolve(nodes, s, deps[0], depth);
    } else {
      assert Meets(deps[1..], s);
      StuckInside(nodes, s, deps[1..], depth);
      NeverInactive(nodes, deps, depth);
      NeverInactive(nodes, [deps[0]], depth);
    }
  }

  // ----- exactly when the resolver returns ------------------------------------------------------

  function DepsOf(nodes: map<Id, Node>, id: Id): seq<Id> {
    if id in nodes then nodes[id].deps else []
  }

  /** A deeper recursion limit changes no answer. */
  lemma {:induction false} DeeperAll(nodes: map<Id, Node>, deps: seq<Id>, depth: nat, more: nat)
    requires depth <= more && ResolveAll(nodes, deps, depth).Some?
    ensures ResolveAll(nodes, deps, more) == Some(true)
    decreases depth, |deps|
  {
    NeverInactive(nodes, deps, depth);
    if deps != [] {
      assert Resolve(nodes, deps[0], depth) == Some(true);
      DeeperAll(nodes, DepsOf(nodes, deps[0]), depth - 1, more - 1);
      DeeperAll(nodes, deps[1..], depth, more);
    }
  }

  /** At some recursion depth the resolver returns. */
  ghost predicate Resolves(nodes: map<Id, Node>, id: Id) {
    exists depth: nat :: Resolve(nodes, id, depth).Some?
  }

  /** If each dependency resolves at some depth, one depth serves them all. */
  lemma {:induction false} OneDepth(nodes: map<Id, Node>, deps: seq<Id>) returns (depth: nat)
    requires forall d :: d in deps ==> Resolves(nodes, d)
    ensures ResolveAll(nodes, deps, depth) == Some(true)
  {
    hide Resolves;
    if deps == [] {
      depth := 0;
    } else {
      var first := DepthFor(nodes, deps[0]);
      var rest := OneDepth(nodes, deps[1..]);
      depth := if first + 1 < rest then rest else first + 1;
      DeeperAll(nodes, DepsOf(nodes, deps[0]), first, depth - 1);
      DeeperAll(nodes, deps[1..], rest, depth);
    }
  }

  lemma DepthFor(nodes: map<Id, Node>, id: Id) returns (depth: nat)
    requires Resolves(nodes, id)
    ensures ResolveAll(nodes, DepsOf(nodes, id), depth).Some?
  {
    var d: nat :| Resolve(nodes, id, d).Some?;
    depth := d - 1;
  }

  /** The nodes at which the resolver never returns. */
  ghost function Unresolved(nodes: map<Id, Node>): set<Id> {
    set x | x in nodes && !Resolves(nodes, x)
  }

  /** Each of them depends on another one. */
  lemma UnresolvedIsEndless(nodes: map<Id, Node>)
    ensures Endless(nodes, Unresolved(nodes))
  {
    hide Resolves, Meets;
    forall x | x in Unresolved(nodes)
      ensures Meets(nodes[x].deps, Unresolved(nodes))
    {
      SomeDepUnresolved(nodes, x);
    }
  }

  lemma SomeDepUnresolved(nodes: map<Id, Node>, x: Id)
    requires x in nodes && !Resolves(nodes, x)
    ensures Meets(nodes[x].deps, Unresolved(nodes))
  {
    hide Resolves;
    if forall d :: d in nodes[x].deps ==> Resolves(nodes, d) {
      var depth := OneDepth(nodes, nodes[x].deps);
      OneLevelUp(nodes, x, depth);
    } else {
      var d :| d in nodes[x].deps && !Resolves(nodes, d);
      UnknownResolves(nodes, d);
      assert d in Unresolved(nodes);
    }
  }

  lemma UnknownResolves(nodes: map<Id, Node>, id: Id)
    ensures id !in nodes ==> Resolves(nodes, id)
  {
    if id !in nodes {
      assert Resolve(nodes, id, 1) == Some(true);
    }
  }

  lemma OneLevelUp(nodes: map<Id, Node>, id: Id, depth: nat)
    requires ResolveAll(nodes, DepsOf(nodes, id), depth).Some?
    ensures Resolves(nodes, id)
  {
    assert Resolve(nodes, id, depth + 1).Some?;
  }

  /** Some set of nodes without a way out holds `id`: it lies on a cycle or depends on one. */
  ghost predicate Trapped(nodes: map<Id, Node>, id: Id) {
    exists s: set<Id> :: Endless(nodes, s) && id in s
  }

  /** The resolver returns for a node exactly when the node is not trapped. */
  lemma ResolvesExactly(nodes: map<Id, Node>, id: Id)
    ensures Resolves(nodes, id) <==> !Trapped(nodes, id)
  {
    hide Endless;
    if Trapped(nodes, id) {
      var s: set<Id> :| Endless(nodes, s) && id in s;
      forall depth: nat
        ensures Resolve(nodes, id, depth).None?
      {
        CyclesNeverResolve(nodes, s, id, depth);
      }
    } else {
      UnresolvedIsEndless(nodes);
      UnknownResolves(nodes, id);
      assert id !in Unresolved(nodes);
      var depth: nat :| Resolve(nodes, id, depth).Some?;
    }
  }

  // ----- a graph that passes the check and never resolves ------------------------------------------

  /** The dependency edges of the nodes. */
  function DepEdges(nodes: map<Id, Node>): Graph {
    set x, d | x in nodes && d in nodes[x].deps :: Edge(d, x)
  }

  /**
    What the check asks of a cycle: it holds a recursive node, and each recursive node
    on it declares another node of the cycle as a source.
   */
  ghost predicate ValidCycle(nodes: map<Id, Node>, cycle: seq<Id>)
    requires forall x :: x in cycle ==> x in nodes
  {
    && (exists r :: r in cycle && nodes[r].kind.Recursive?)
    && (forall r :: r in cycle && nodes[r].kind.Recursive? ==>
          exists x :: x in cycle && x != r && x in nodes[r].sources)
  }

  /** A node and a recursive node that depend on each other, as a feedback loop would. */
  function Loop(a: Id, r: Id): map<Id, Node> {
    map[a := Node(Plain, [r], map[], []), r := Node(Recursive, [a], map[], [a])]
  }

  lemma LoopPassesButNeverResolves(a: Id, r: Id)
    requires a != r
    ensures ValidCycle(Loop(a, r), [a, r]) && Acyclic(PlainPart(DepEdges(Loop(a, r)), {r}))
    ensures forall depth: nat :: Resolve(Loop(a, r), a, depth) == None && Resolve(Loop(a, r), r, depth) == None
  {
    var nodes := Loop(a, r);
    assert a in [a, r] && r in [a, r] && a in nodes[r].sources;
    assert PlainPart(DepEdges(nodes), {r}) == {};
    assert r in nodes[a].deps && a in nodes[r].deps;
    assert Endless(nodes, {a, r});
    forall depth: nat
      ensures Resolve(nodes, a, depth) == None && Resolve(nodes, r, depth) == None
    {
      CyclesNeverResolve(nodes, {a, r}, a, depth);
      CyclesNeverResolve(nodes, {a, r}, r, depth);
    }
  }
}
