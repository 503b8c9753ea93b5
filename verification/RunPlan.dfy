/**
  The run plan of a blueprint: with a selection, the nodes in the selection's
  dependency closure.  Graphs may be cyclic, ids may repeat, dependencies dangle.
 */
module RunPlan {
  import opened Prelude

  type Id = string

  datatype Node = Node(id: Id, deps: seq<Id>)

  datatype Scope = Graph | Selection

  /** The dependencies filed under an id: those of the last node that has it. */
  function DepsOf(nodes: seq<Node>, id: Id): seq<Id> {
    if nodes == [] then []
    else if nodes[|nodes| - 1].id == id then nodes[|nodes| - 1].deps
    else DepsOf(nodes[..|nodes| - 1], id)
  }

  /** A node's dependencies are filed under its id unless a later node has the same id. */
  lemma {:induction false} DepsOfNode(nodes: seq<Node>, i: nat)
    requires i < |nodes| && forall j :: i < j < |nodes| ==> nodes[j].id != nodes[i].id
    ensures DepsOf(nodes, nodes[i].id) == nodes[i].deps
    decreases |nodes|
  {
    if i < |nodes| - 1 {
      DepsOfNode(nodes[..|nodes| - 1], i);
    }
  }

  lemma {:induction false} DepsOfNobody(nodes: seq<Node>, id: Id)
    requires forall i :: 0 <= i < |nodes| ==> nodes[i].id != id
    ensures DepsOf(nodes, id) == []
  {
    if nodes != [] {
      DepsOfNobody(nodes[..|nodes| - 1], id);
    }
  }

  /** A chain of dependencies from its first id to its last. */
  ghost predicate IsPath(nodes: seq<Node>, path: seq<Id>) {
    && path != []
    && forall i :: 0 <= i < |path| - 1 ==> path[i + 1] in DepsOf(nodes, path[i])
  }

  /** `to` lies in the reflexive-transitive dependency closure of `from`. */
  ghost predicate Reaches(nodes: seq<Node>, from: Id, to: Id) {
    exists path :: IsPath(nodes, path) && path[0] == from && path[|path| - 1] == to
  }

  ghost predicate ClosedUnder(nodes: seq<Node>, s: set<Id>) {
    forall x, d :: x in s && d in DepsOf(nodes, x) ==> d in s
  }

  lemma ReachesItself(nodes: seq<Node>, x: Id)
    ensures Reaches(nodes, x, x)
  {
    assert IsPath(nodes, [x]);
  }

  lemma ReachesOneMore(nodes: seq<Node>, from: Id, x: Id, d: Id)
    requires Reaches(nodes, from, x) && d in DepsOf(nodes, x)
    ensures Reaches(nodes, from, d)
  {
    hide DepsOf;
    var path :| IsPath(nodes, path) && path[0] == from && path[|path| - 1] == x;
    var longer := path + [d];
    forall i | 0 <= i < |longer| - 1
      ensures longer[i + 1] in DepsOf(nodes, longer[i])
    {
      if i < |path| - 1 {
        assert path[i + 1] in DepsOf(nodes, path[i]);
      }
    }
    assert IsPath(nodes, longer);
  }

  /** A closed set that contains the start of a path contains its end. */
  lemma {:induction false} ClosedHoldsPaths(nodes: seq<Node>, s: set<Id>, path: seq<Id>)
    requires ClosedUnder(nodes, s) && IsPath(nodes, path) && path[0] in s
    ensures path[|path| - 1] in s
    decreases |path|
  {
    if |path| > 1 {
      assert path[0 + 1] in DepsOf(nodes, path[0]);
      var rest := path[1..];
      forall i | 0 <= i < |rest| - 1
        ensures rest[i + 1] in DepsOf(nodes, rest[i])
      {
        assert rest[i] == path[i + 1] && rest[i + 1] == path[(i + 1) + 1];
      }
      ClosedHoldsPaths(nodes, s, path[1..]);
    }
  }

  /** The closure is the least closed set around the selection. */
  lemma ClosureIsLeast(nodes: seq<Node>, from: Id, s: set<Id>)
    requires ClosedUnder(nodes, s) && from in s
    ensures forall x :: Reaches(nodes, from, x) ==> x in s
  {
    forall x | Reaches(nodes, from, x)
      ensures x in s
    {
      var path :| IsPath(nodes, path) && path[0] == from && path[|path| - 1] == x;
      ClosedHoldsPaths(nodes, s, path);
    }
  }

  function AllDeps(nodes: seq<Node>): set<Id> {
    set i, j | 0 <= i < |nodes| && 0 <= j < |nodes[i].deps| :: nodes[i].deps[j]
  }

  lemma {:induction false} DepsAmongAll(nodes: seq<Node>, id: Id)
    ensures forall d :: d in DepsOf(nodes, id) ==> d in AllDeps(nodes)
  {
    if nodes != [] {
      var init := nodes[..|nodes| - 1];
      if nodes[|nodes| - 1].id != id {
        DepsAmongAll(init, id);
        forall d | d in AllDeps(init)
          ensures d in AllDeps(nodes)
        {
          var i, j :| 0 <= i < |init| && 0 <= j < |init[i].deps| && init[i].deps[j] == d;
          assert nodes[i].deps[j] == d;
        }
      } else {
        forall d | d in DepsOf(nodes, id)
          ensures d in AllDeps(nodes)
        {
          var j :| 0 <= j < |nodes[|nodes| - 1].deps| && nodes[|nodes| - 1].deps[j] == d;
        }
      }
    }
  }

  /** The dictionary of dependency lists; later nodes overwrite earlier ones. */
  method CollectDeps(nodes: seq<Node>) returns (depsOf: map<Id, seq<Id>>)
    ensures forall id :: (if id in depsOf then depsOf[id] else []) == DepsOf(nodes, id)
  {
    depsOf := map[];
    var i := 0;
    while i < |nodes|
      invariant 0 <= i <= |nodes|
      invariant forall id :: (if id in depsOf then depsOf[id] else []) == DepsOf(nodes[..i], id)
    {
      assert nodes[..i + 1][..i] == nodes[..i];
      depsOf := depsOf[nodes[i].id := nodes[i].deps];
      i := i + 1;
    }
    assert nodes[..i] == nodes;
  }

  /** What the search knows: `seen` is explored but for the ids on the stack. */
  ghost predicate Exploring(nodes: seq<Node>, selection: Id, seen: set<Id>, stack: seq<Id>) {
    && seen <= {selection} + AllDeps(nodes)
    && (forall x :: x in stack ==> x in {selection} + AllDeps(nodes))
    && (forall x :: x in stack || x in seen ==> Reaches(nodes, selection, x))
    && (selection in seen || selection in stack)
    && (forall x, d :: x in seen && d in DepsOf(nodes, x) ==> d in seen || d in stack)
  }

  lemma SkipSeen(nodes: seq<Node>, selection: Id, seen: set<Id>, stack: seq<Id>, cur: Id)
    requires Exploring(nodes, selection, seen, stack + [cur]) && cur in seen
    ensures Exploring(nodes, selection, seen, stack)
  {
    hide Reaches, DepsOf, AllDeps;
    assert forall x :: x in stack ==> x in stack + [cur];
  }

  lemma VisitNew(nodes: seq<Node>, selection: Id, seen: set<Id>, stack: seq<Id>, cur: Id)
    requires Exploring(nodes, selection, seen, stack + [cur])
    ensures cur in {selection} + AllDeps(nodes)
    ensures Exploring(nodes, selection, seen + {cur}, stack + DepsOf(nodes, cur))
  {
    hide Reaches, DepsOf, AllDeps;
    var deps := DepsOf(nodes, cur);
    assert cur in stack + [cur];
    assert forall x :: x in stack ==> x in stack + [cur];
    DepsAmongAll(nodes, cur);
    forall d | d in deps
      ensures Reaches(nodes, selection, d)
    {
      ReachesOneMore(nodes, selection, cur, d);
    }
  }

  lemma SearchDone(nodes: seq<Node>, selection: Id, seen: set<Id>)
    requires Exploring(nodes, selection, seen, [])
    ensures forall id :: id in seen <==> Reaches(nodes, selection, id)
  {
    ClosureIsLeast(nodes, selection, seen);
  }

  /** Everything the stack search visits from `selection`. */
  method Closure(nodes: seq<Node>, selection: Id) returns (seen: set<Id>)
    ensures forall id :: id in seen <==> Reaches(nodes, selection, id)
  {
    hide Reaches, DepsOf, AllDeps;
    var depsOf := CollectDeps(nodes);
    seen := {};
    var stack := [selection];
    ReachesItself(nodes, selection);
    while stack != []
      invariant Exploring(nodes, selection, seen, stack)
      decreases {selection} + AllDeps(nodes) - seen, |stack|
    {
      var cur := stack[|stack| - 1];
      assert stack == stack[..|stack| - 1] + [cur];
      stack := stack[..|stack| - 1];
      if cur in seen {
        SkipSeen(nodes, selection, seen, stack, cur);
      } else {
        VisitNew(nodes, selection, seen, stack, cur);
        ghost var left := {selection} + AllDeps(nodes) - seen;
        assert cur in left;
        seen := seen + {cur};
        var deps := if cur in depsOf then depsOf[cur] else [];
        stack := PushAll(stack, deps);
      }
    }
    SearchDone(nodes, selection, seen);
  }

  method PushAll(base: seq<Id>, deps: seq<Id>) returns (stack: seq<Id>)
    ensures stack == base + deps
  {
    stack := base;
    var i := 0;
    while i < |deps|
      invariant 0 <= i <= |deps| && stack == base + deps[..i]
    {
      stack := stack + [deps[i]];
      i := i + 1;
    }
  }

  /** The ids of the nodes in the closure, in blueprint order. */
  ghost function Selected(nodes: seq<Node>, selection: Id): seq<Id> {
    SelectedFrom(nodes, nodes, selection)
  }

  ghost function SelectedFrom(all: seq<Node>, nodes: seq<Node>, selection: Id): seq<Id> {
    if nodes == [] then []
    else (if Reaches(all, selection, nodes[0].id) then [nodes[0].id] else []) + SelectedFrom(all, nodes[1..], selection)
  }

  function IdsOf(nodes: seq<Node>): seq<Id> {
    seq(|nodes|, i requires 0 <= i < |nodes| => nodes[i].id)
  }

  /** The plan is the blueprint's node list without the nodes outside the closure. */
  lemma {:induction false} SelectedInOrder(all: seq<Node>, nodes: seq<Node>, selection: Id, closure: set<Id>)
    requires forall id :: id in closure <==> Reaches(all, selection, id)
    ensures SelectedFrom(all, nodes, selection) == IdsOf(Filter(nodes, (n: Node) => n.id in closure))
  {
    hide Reaches;
    if nodes != [] {
      SelectedInOrder(all, nodes[1..], selection, closure);
      var kept := Filter(nodes[1..], (n: Node) => n.id in closure);
      assert IdsOf([nodes[0]] + kept) == [nodes[0].id] + IdsOf(kept);
      assert [] + kept == kept;
    }
  }

  /** An empty selection counts as none. */
  method RunPlanFor(nodes: seq<Node>, selection: Option<Id>) returns (expected: seq<Id>, scope: Scope)
    ensures selection.None? || selection.value == "" ==> scope == Graph && expected == IdsOf(nodes)
    ensures selection.Some? && selection.value != "" ==> scope == Selection && expected == Selected(nodes, selection.value)
  {
    if selection.Some? && selection.value != "" {
      var chosen := Closure(nodes, selection.value);
      var rest := nodes;
      expected, scope := [], Selection;
      while rest != []
        invariant SelectedFrom(nodes, nodes, selection.value) == expected + SelectedFrom(nodes, rest, selection.value)
        decreases |rest|
      {
        ghost var after := SelectedFrom(nodes, rest[1..], selection.value);
        if rest[0].id in chosen {
          assert expected + ([rest[0].id] + after) == (expected + [rest[0].id]) + after;
          expected := expected + [rest[0].id];
        } else {
          assert [] + after == after;
        }
        rest := rest[1..];
      }
      return;
    }
    expected, scope := [], Graph;
    var i := 0;
    while i < |nodes|
      invariant 0 <= i <= |nodes| && expected == IdsOf(nodes)[..i]
    {
      expected := expected + [nodes[i].id];
      i := i + 1;
    }
  }

  /**
    When every dependency names a node, a plan is self-contained: it holds every
    dependency of the nodes it holds, and the selection if that is a node.
   */
  lemma PlanIsSelfContained(nodes: seq<Node>, selection: Id, i: nat, d: Id)
    requires i < |nodes| && nodes[i].id in Selected(nodes, selection) && d in DepsOf(nodes, nodes[i].id)
    requires exists j :: 0 <= j < |nodes| && nodes[j].id == d
    ensures d in Selected(nodes, selection)
  {
    SelectedExactly(nodes, nodes, selection, nodes[i].id);
    ReachesOneMore(nodes, selection, nodes[i].id, d);
    SelectedExactly(nodes, nodes, selection, d);
  }

  lemma {:induction false} SelectedExactly(all: seq<Node>, nodes: seq<Node>, selection: Id, id: Id)
    ensures id in SelectedFrom(all, nodes, selection) <==>
      Reaches(all, selection, id) && exists j :: 0 <= j < |nodes| && nodes[j].id == id
  {
    if nodes != [] {
      SelectedExactly(all, nodes[1..], selection, id);
      assert forall j :: 0 < j < |nodes| ==> nodes[1..][j - 1] == nodes[j];
      if j :| 0 <= j < |nodes| && nodes[j].id == id {
        assert j == 0 || nodes[1..][j - 1].id == id;
      }
    }
  }
}
