/**
  How a workflow's nodes get their levels.

  The graph is sorted topologically, and along that order each node is put one
  level above the highest of its dependencies.  Whatever the order, the result is
  the one levelling that places every node as early as possible, and it is what
  the engine assumes of its levels (`Sound`).
 */
module WorkflowLevels {
  import opened Prelude
  import opened WorkflowModel
  import opened WorkflowSequential
  import opened WorkflowCycles

  type Levels = map<Id, nat>

  /** A node without dependencies is on level 0, any other one just above the highest of them. */
  ghost predicate LevelledAt(deps: seq<Id>, level: Levels, n: nat) {
    && (forall d :: d in deps ==> d in level && level[d] < n)
    && (n == 0 || exists d :: d in deps && d in level && level[d] + 1 == n)
  }

  ghost predicate Levelled(c: Chain, level: Levels) {
    && level.Keys == c.nodes.Keys
    && forall id :: id in c.nodes ==> LevelledAt(c.nodes[id].deps, level, level[id])
  }

  /** The dependencies that count for a node's level: those over broken edges do not. */
  function KeptDeps(deps: seq<Id>, id: Id, broken: Graph): seq<Id> {
    Filter(deps, (d: Id) => Edge(d, id) !in broken)
  }

  function Loosen(c: Chain, broken: Graph): Chain {
    c.(nodes := map id | id in c.nodes :: c.nodes[id].(deps := KeptDeps(c.nodes[id].deps, id, broken)))
  }

  lemma {:induction false} FilterNothing(deps: seq<Id>, id: Id)
    ensures KeptDeps(deps, id, {}) == deps
  {
    if deps != [] {
      FilterNothing(deps[1..], id);
    }
  }

  /** An acyclic graph loses no edge (`AcyclicKeepsAll`) and hence no dependency. */
  lemma LoosenNothing(c: Chain)
    ensures Loosen(c, {}) == c
  {
    forall id | id in c.nodes
      ensures KeptDeps(c.nodes[id].deps, id, {}) == c.nodes[id].deps
    {
      FilterNothing(c.nodes[id].deps, id);
    }
    assert Loosen(c, {}).nodes == c.nodes;
  }

  // ----- the level builder -------------------------------------------------------------

  /** The level of a node whose dependencies have theirs. */
  method LevelOf(deps: seq<Id>, level: Levels) returns (n: nat)
    requires forall d :: d in deps ==> d in level
    ensures LevelledAt(deps, level, n)
  {
    n := 0;
    for k := 0 to |deps|
      invariant forall j :: 0 <= j < k ==> level[deps[j]] < n
      invariant n == 0 || exists j :: 0 <= j < k && level[deps[j]] + 1 == n
    {
      if level[deps[k]] >= n {
        n := level[deps[k]] + 1;
      }
    }
  }

  /** `order` is a topological order of what is left after the broken edges are taken out. */
  method AssignLevels(c: Chain, broken: Graph, order: seq<Id>) returns (level: Levels)
    requires Topological(Loosen(c, broken), order)
    ensures Levelled(Loosen(c, broken), level)
  {
    hide LevelledAt, KeptDeps;
    ghost var kept := Loosen(c, broken);
    level := map[];
    var rest := order;
    assert level.Keys == {};
    while rest != []
      invariant InOrder(kept, level.Keys, rest)
      invariant forall id :: id in c.nodes <==> id in level || id in rest
      invariant Placed(kept, level)
      decreases |rest|
    {
      var id := rest[0];
      var n := LevelOf(KeptDeps(c.nodes[id].deps, id, broken), level);
      PlaceNext(kept, level, id, n);
      assert level[id := n].Keys == level.Keys + {id};
      level, rest := level[id := n], rest[1..];
    }
  }

  /** The nodes placed so far stand above their dependencies. */
  ghost predicate Placed(c: Chain, level: Levels) {
    forall id :: id in level && id in c.nodes ==> LevelledAt(c.nodes[id].deps, level, level[id])
  }

  lemma PlaceNext(c: Chain, level: Levels, id: Id, n: nat)
    requires Placed(c, level) && id in c.nodes && id !in level && LevelledAt(c.nodes[id].deps, level, n)
    ensures Placed(c, level[id := n])
  {
    hide LevelledAt;
    var level1 := level[id := n];
    forall x | x in level1 && x in c.nodes
      ensures LevelledAt(c.nodes[x].deps, level1, level1[x])
    {
      LevelledGrows(c.nodes[x].deps, level, id, n, level1[x]);
    }
  }

  /** Placing another node does not move the ones placed before. */
  lemma LevelledGrows(deps: seq<Id>, level: Levels, id: Id, n: nat, m: nat)
    requires LevelledAt(deps, level, m) && id !in level
    ensures LevelledAt(deps, level[id := n], m)
  {
    if m != 0 {
      var d :| d in deps && d in level && level[d] + 1 == m;
      assert d in level[id := n];
    }
  }

  /** The nodes of one level, in the order of the node list. */
  function OnLevel(ids: seq<Id>, level: Levels, k: nat): seq<Id> {
    Filter(ids, (id: Id) => id in level && level[id] == k)
  }

  lemma {:induction false} FilterAppend<T>(s: seq<T>, x: T, p: T -> bool)
    ensures Filter(s + [x], p) == Filter(s, p) + (if p(x) then [x] else [])
  {
    if s == [] {
      assert s + [x] == [x];
    } else {
      assert (s + [x])[0] == s[0] && (s + [x])[1..] == s[1..] + [x];
      FilterAppend(s[1..], x, p);
      var head := if p(s[0]) then [s[0]] else [];
      var tail := if p(x) then [x] else [];
      assert (head + Filter(s[1..], p)) + tail == head + (Filter(s[1..], p) + tail);
    }
  }

  /** The dictionary from levels to nodes. */
  method LevelNodes(ids: seq<Id>, level: Levels) returns (levels: map<nat, seq<Id>>)
    requires forall id :: id in ids ==> id in level
    ensures forall k :: k in levels <==> exists id :: id in ids && level[id] == k
    ensures forall k :: k in levels ==> levels[k] == OnLevel(ids, level, k)
  {
    hide OnLevel;
    levels := map[];
    assert Grouped([], level, levels) by { NothingGrouped(level); }
    for i := 0 to |ids|
      invariant Grouped(ids[..i], level, levels)
    {
      var n := level[ids[i]];
      GroupOneMore(ids[..i], ids[i], level, levels);
      assert ids[..i + 1] == ids[..i] + [ids[i]];
      levels := levels[n := (if n in levels then levels[n] else []) + [ids[i]]];
    }
    assert ids[..|ids|] == ids;
  }

  /** The dictionary of the nodes seen so far. */
  ghost predicate Grouped(ids: seq<Id>, level: Levels, levels: map<nat, seq<Id>>) {
    && (forall k :: k in levels <==> exists id :: id in ids && id in level && level[id] == k)
    && (forall k: nat :: OnLevel(ids, level, k) == if k in levels then levels[k] else [])
  }

  lemma NothingGrouped(level: Levels)
    ensures Grouped([], level, map[])
  {
  }

  lemma GroupOneMore(ids: seq<Id>, x: Id, level: Levels, levels: map<nat, seq<Id>>)
    requires Grouped(ids, level, levels) && x in level
    ensures Grouped(ids + [x], level, levels[level[x] := (if level[x] in levels then levels[level[x]] else []) + [x]])
  {
    var n := level[x];
    var levels1 := levels[n := (if n in levels then levels[n] else []) + [x]];
    forall k: nat
      ensures OnLevel(ids + [x], level, k) == if k in levels1 then levels1[k] else []
    {
      OneMoreOnLevel(ids, x, level, k);
    }
    hide OnLevel;
    forall k
      ensures k in levels1 <==> exists id :: id in ids + [x] && id in level && level[id] == k
    {
      assert x in ids + [x];
      if k in levels {
        var id :| id in ids && id in level && level[id] == k;
        assert id in ids + [x];
      }
    }
  }

  lemma OneMoreOnLevel(ids: seq<Id>, x: Id, level: Levels, k: nat)
    requires x in level
    ensures OnLevel(ids + [x], level, k) == if level[x] == k then OnLevel(ids, level, k) + [x] else OnLevel(ids, level, k)
  {
    FilterAppend(ids, x, (id: Id) => id in level && level[id] == k);
  }

  // ----- the levelling is the earliest one ------------------------------------------------

  /** Every dependency has a smaller rank. */
  ghost predicate Ranked(c: Chain, rank: Levels) {
    && rank.Keys == c.nodes.Keys
    && forall id, d :: id in c.nodes && d in c.nodes[id].deps ==> d in c.nodes && rank[d] < rank[id]
  }

  lemma {:induction false} EarliestLevel(c: Chain, level: Levels, rank: Levels, id: Id)
    requires Levelled(c, level) && Ranked(c, rank) && id in c.nodes
    ensures level[id] <= rank[id]
    decreases level[id]
  {
    if level[id] > 0 {
      var d := HighestDep(c, level, id);
      hide Levelled;
      EarliestLevel(c, level, rank, d);
    }
  }

  lemma HighestDep(c: Chain, level: Levels, id: Id) returns (d: Id)
    requires Levelled(c, level) && id in c.nodes && level[id] > 0
    ensures d in c.nodes[id].deps && d in c.nodes && d in level && level[d] + 1 == level[id]
  {
    assert LevelledAt(c.nodes[id].deps, level, level[id]);
    d :| d in c.nodes[id].deps && d in level && level[d] + 1 == level[id];
  }

  /** No topological order of the graph leads to other levels. */
  lemma LevelsAreUnique(c: Chain, level1: Levels, level2: Levels)
    requires Levelled(c, level1) && Levelled(c, level2)
    ensures level1 == level2
  {
    forall id | id in c.nodes
      ensures level1[id] == level2[id]
    {
      LevelledIsRanked(c, level1);
      LevelledIsRanked(c, level2);
      EarliestLevel(c, level1, level2, id);
      EarliestLevel(c, level2, level1, id);
    }
  }

  lemma LevelledIsRanked(c: Chain, level: Levels)
    requires Levelled(c, level)
    ensures Ranked(c, level)
  {
    forall id | id in c.nodes
      ensures LevelledAt(c.nodes[id].deps, level, level[id])
    {
    }
  }

  // ----- and it is what the engine assumes ---------------------------------------------------

  /** The check of the input mappings: they read direct dependencies only. */
  ghost predicate Aligned(c: Chain) {
    forall id, k :: id in c.nodes && k in c.nodes[id].inputs && c.nodes[id].inputs[k].From? ==>
      c.nodes[id].inputs[k].source in c.nodes[id].deps
  }

  function Height(ids: seq<Id>, level: Levels): nat
    requires forall id :: id in ids ==> id in level
  {
    if ids == [] then 0 else Max(level[ids[0]] + 1, Height(ids[1..], level))
  }

  lemma {:induction false} HeightIs(ids: seq<Id>, level: Levels)
    requires forall id :: id in ids ==> id in level
    ensures forall id :: id in ids ==> level[id] < Height(ids, level)
    ensures ids != [] ==> exists id :: id in ids && level[id] + 1 == Height(ids, level)
  {
    if ids != [] {
      HeightIs(ids[1..], level);
      if Height(ids[1..], level) > level[ids[0]] + 1 {
        var id :| id in ids[1..] && level[id] + 1 == Height(ids[1..], level);
        assert id in ids;
      }
    }
  }

  /** Levels are numbered without gaps: below a node there is one on every level. */
  lemma {:induction false} NoGaps(c: Chain, level: Levels, id: Id, k: nat)
    requires Levelled(c, level) && id in c.nodes && k <= level[id]
    ensures exists x :: x in c.nodes && level[x] == k
    decreases level[id]
  {
    if k < level[id] {
      var d := HighestDep(c, level, id);
      NoGaps(c, level, d, k);
    }
  }

  /** The chain with the levels that the builder made, in ascending order. */
  function Built(c: Chain, ids: seq<Id>, level: Levels): Chain
    requires forall id :: id in ids ==> id in level
  {
    c.(levels := seq(Height(ids, level), (k: nat) => OnLevel(ids, level, k)), rank := level)
  }

  lemma {:induction false} FilterIs<T(!new)>(s: seq<T>, p: T -> bool)
    ensures forall x :: x in Filter(s, p) <==> x in s && p(x)
    ensures Distinct(s) ==> Distinct(Filter(s, p))
  {
    if s != [] {
      FilterIs(s[1..], p);
      if Distinct(s) {
        assert forall j :: 0 <= j < |s[1..]| ==> s[1..][j] == s[j + 1];
        assert s[0] !in s[1..];
      }
    }
  }

  lemma OnLevelIs(ids: seq<Id>, level: Levels, k: nat)
    requires Distinct(ids) && forall id :: id in ids ==> id in level
    ensures Distinct(OnLevel(ids, level, k))
    ensures forall id :: id in OnLevel(ids, level, k) <==> id in ids && level[id] == k
  {
    FilterIs(ids, (id: Id) => id in level && level[id] == k);
  }

  lemma NoEmptyLevel(c: Chain, ids: seq<Id>, level: Levels, k: nat)
    requires Levelled(c, level) && Distinct(ids) && forall id :: id in ids <==> id in c.nodes
    requires k < Height(ids, level)
    ensures OnLevel(ids, level, k) != []
  {
    hide OnLevel, LevelledAt;
    HeightIs(ids, level);
    OnLevelIs(ids, level, k);
    var top :| top in ids && level[top] + 1 == Height(ids, level);
    NoGaps(c, level, top, k);
    var x :| x in c.nodes && level[x] == k;
    assert x in OnLevel(ids, level, k);
  }

  /** The engine's assumption on its levels holds of every levelled, aligned graph. */
  lemma BuiltIsSound(c: Chain, ids: seq<Id>, level: Levels)
    requires Levelled(c, level) && Aligned(c)
    requires Distinct(ids) && forall id :: id in ids <==> id in c.nodes
    ensures Sound(Built(c, ids, level))
    ensures forall k :: 0 <= k < |Built(c, ids, level).levels| ==> Built(c, ids, level).levels[k] != []
  {
    hide OnLevel, Height;
    HeightIs(ids, level);
    LevelledIsRanked(c, level);
    var b := Built(c, ids, level);
    forall k: nat | k < |b.levels|
      ensures Distinct(b.levels[k]) && b.levels[k] != []
      ensures forall id :: id in b.levels[k] <==> id in c.nodes && level[id] == k
    {
      OnLevelIs(ids, level, k);
      NoEmptyLevel(c, ids, level, k);
    }
    SoundByParts(b);
  }

  lemma SoundByParts(b: Chain)
    requires Ranked(b, b.rank) && Aligned(b)
    requires forall id :: id in b.nodes ==> b.rank[id] < |b.levels|
    requires forall k :: 0 <= k < |b.levels| ==> Distinct(b.levels[k])
    requires forall k, id :: 0 <= k < |b.levels| ==> (id in b.levels[k] <==> id in b.nodes && b.rank[id] == k)
    ensures Sound(b)
  {
    hide Distinct;
  }

  /**
    From graph to run: with the levels that the builder makes, the engine records
    what running the nodes one at a time in any topological order records.
   */
  lemma BuiltRunIsSequential(c: Chain, ids: seq<Id>, level: Levels, order: seq<Id>, fuel: nat)
    requires Levelled(c, level) && Aligned(c)
    requires Distinct(ids) && forall id :: id in ids <==> id in c.nodes
    requires NoRecursion(c) && Topological(c, order)
    requires RunSequential(c, order, map[]).Some?
    ensures Sound(Built(c, ids, level)) && ExecuteChain(Built(c, ids, level), fuel).Some?
    ensures var b := Built(c, ids, level);
      var t, m := ExecuteChain(b, fuel).value, RunSequential(c, order, map[]).value;
      NoTokenStop(t.errors) ==>
        && !t.crashed && t.results == Below(b, m, t.begun)
        && (t.begun == |b.levels| ==> t.results == m)
  {
    hide RunSequential, ExecuteChain, Sound, InOrder, Height, OnLevel, Levelled, Aligned, NoRecursion;
    hide DecisionsMatch, Clean, Spent, Flatten, CallIds, Solves, NoTokenStop;
    LevelledIsRanked(c, level);
    var b := Built(c, ids, level);
    BuiltIsSound(c, ids, level);
    SameNodesInOrder(c, b.levels, b.rank, {}, order);
    LevellingIgnored(c, b.levels, b.rank, order, map[]);
    assert NoRecursion(b) by { SameNodes(c, b); }
    LevelRunIsSequential(b, order, fuel);
    SequentialMeaning(b, order);
    var m := RunSequential(c, order, map[]).value;
    RanksInRange(b);
    assert Below(b, m, |b.levels|) == m;
  }

  lemma SameNodes(c: Chain, b: Chain)
    requires NoRecursion(c) && b.nodes == c.nodes
    ensures NoRecursion(b)
  {
  }

  lemma RanksInRange(b: Chain)
    requires Sound(b)
    ensures forall id :: id in b.nodes ==> id in b.rank && b.rank[id] < |b.levels|
  {
  }

  // ----- the sort succeeds -------------------------------------------------------------------

  /** The nodes of `s` from which `x` can be reached. */
  ghost function Upstream(g: Graph, s: set<Id>, x: Id): set<Id> {
    set y | y in s && Reaches(g, y, x)
  }

  lemma {:induction false} SubsetSize(a: set<Id>, b: set<Id>)
    requires a <= b
    ensures |a| <= |b|
  {
    if a != {} {
      var x :| x in a;
      SubsetSize(a - {x}, b - {x});
    }
  }

  /** One step against an edge leaves fewer nodes upstream. */
  lemma UpstreamShrinks(g: Graph, s: set<Id>, x: Id, y: Id)
    requires Acyclic(g) && x in s && y in s && Edge(y, x) in g
    ensures |Upstream(g, s, y)| < |Upstream(g, s, x)|
  {
    var up, down := Upstream(g, s, y), Upstream(g, s, x);
    assert Walk(g, [y, x]) && [y, x][0] == y && [y, x][|[y, x]| - 1] == x;
    assert Walk(g, [x]) && [x][0] == x && [x][|[x]| - 1] == x;
    hide Walk, Reaches;
    assert x in down && x !in up;
    forall w | w in up
      ensures w in down
    {
      ReachesOn(g, w, y, x);
    }
    assert up <= down - {x};
    SubsetSize(up, down - {x});
  }

  /** A set of nodes of an acyclic graph holds one without a predecessor in the set. */
  lemma {:induction false} FindSource(g: Graph, s: set<Id>, x: Id) returns (z: Id)
    requires Acyclic(g) && x in s
    ensures z in s && forall y :: y in s ==> Edge(y, z) !in g
    decreases |Upstream(g, s, x)|
  {
    hide Acyclic, Upstream;
    if y :| y in s && Edge(y, x) in g {
      UpstreamShrinks(g, s, x, y);
      z := FindSource(g, s, y);
    } else {
      z := x;
    }
  }

  /** Every dependency is a node of the chain, as the graph builder demands. */
  ghost predicate DepsKnown(c: Chain) {
    forall id, d :: id in c.nodes && d in c.nodes[id].deps ==> d in c.nodes
  }

  lemma {:induction false} SortRest(c: Chain, placed: set<Id>, rest: set<Id>) returns (order: seq<Id>)
    requires DepsKnown(c) && Acyclic(DepEdges(c.nodes))
    requires placed !! rest && placed + rest == c.nodes.Keys
    ensures InOrder(c, placed, order) && forall id :: id in order <==> id in rest
    decreases |rest|
  {
    hide Acyclic;
    if rest == {} {
      order := [];
    } else {
      var x :| x in rest;
      var z := FindSource(DepEdges(c.nodes), rest, x);
      forall d | d in c.nodes[z].deps
        ensures d in placed
      {
        assert Edge(d, z) in DepEdges(c.nodes);
      }
      var later := SortRest(c, placed + {z}, rest - {z});
      order := [z] + later;
      assert order[1..] == later;
    }
  }

  lemma LoosenedEdges(c: Chain, broken: Graph)
    ensures DepEdges(Loosen(c, broken).nodes) == DepEdges(c.nodes) - broken
    ensures DepsKnown(c) ==> DepsKnown(Loosen(c, broken))
  {
    hide Filter;
    forall id | id in c.nodes
      ensures forall d :: d in KeptDeps(c.nodes[id].deps, id, broken) <==> d in c.nodes[id].deps && Edge(d, id) !in broken
    {
      FilterIs(c.nodes[id].deps, (d: Id) => Edge(d, id) !in broken);
    }
  }

  /**
    Every graph that the check lets through has an order for `AssignLevels` once its
    cycles are broken.
   */
  lemma CheckedGraphSorts(c: Chain, kept: Graph, broken: Graph, recursive: set<Id>) returns (order: seq<Id>)
    requires DepsKnown(c) && kept + broken == DepEdges(c.nodes) && kept !! broken
    requires Acyclic(PlainPart(DepEdges(c.nodes), recursive))
    requires forall e :: e in kept && Touches(e, recursive) ==> !Reaches(kept, e.to, e.from)
    ensures Topological(Loosen(c, broken), order)
  {
    hide Acyclic, Reaches, DepEdges, DepsKnown, KeptDeps;
    KeptIsAcyclic(DepEdges(c.nodes), kept, recursive);
    LoosenedEdges(c, broken);
    assert DepEdges(c.nodes) - broken == kept;
    order := SortRest(Loosen(c, broken), {}, c.nodes.Keys);
  }
}
