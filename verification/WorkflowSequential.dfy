/**
  The level-parallel run means the same as executing the nodes one at a time.

  Throughout no node is recursive, so that a first run calls every node at most
  once.  Raised exceptions are kept: the sequential interpreter stops at one, the
  engine crashes at one.
 */
module WorkflowSequential {
  import opened Prelude
  import opened WorkflowModel

  ghost predicate NoRecursion(c: Chain) {
    forall id :: id in c.nodes ==> !c.nodes[id].kind.Recursive?
  }

  /** Exception texts are never node ids. */
  ghost predicate ForeignTexts(c: Chain) {
    && (forall id, ctx, h :: c.exec(id, ctx, h).Raised? ==> c.exec(id, ctx, h).text !in c.nodes)
    && (forall id :: id in c.nodes ==> ContextErrorText(id) !in c.nodes)
  }

  /** Each node of `rest` is new and comes after all its dependencies. */
  ghost predicate InOrder(c: Chain, placed: set<Id>, rest: seq<Id>)
    decreases |rest|
  {
    rest == [] ||
    (&& rest[0] in c.nodes && rest[0] !in placed
     && (forall d :: d in c.nodes[rest[0]].deps ==> d in placed)
     && InOrder(c, placed + {rest[0]}, rest[1..]))
  }

  ghost predicate Topological(c: Chain, order: seq<Id>) {
    InOrder(c, {}, order) && forall id :: id in order <==> id in c.nodes
  }

  ghost predicate NoTokenStop(errors: seq<Error>) {
    TokenGuardAborted !in errors && TokenCeilingExceeded !in errors
  }

  /** What node `id` does when it reads `results`. */
  function OutcomeOf(c: Chain, id: Id, results: map<Id, Result>): Outcome
    requires id in c.nodes
  {
    match BuildContext(c, id, results)
    case None => Raised(ContextErrorText(id))
    case Some(ctx) => c.exec(id, ctx, [])
  }

  /** One node at a time; None when a node raises. */
  function RunSequential(c: Chain, order: seq<Id>, results: map<Id, Result>): Option<map<Id, Result>>
    requires forall id :: id in order ==> id in c.nodes
  {
    if order == [] then Some(results)
    else
      match OutcomeOf(c, order[0], results)
      case Raised(_) => None
      case Returned(r) => RunSequential(c, order[1..], results[order[0] := r])
  }

  /** `m` gives each of its nodes the result that the node computes from `m`. */
  ghost predicate Solves(c: Chain, m: map<Id, Result>) {
    && m.Keys <= c.nodes.Keys
    && forall id :: id in m ==> OutcomeOf(c, id, m) == Returned(m[id])
  }

  ghost predicate AgreeOn(ids: seq<Id>, m1: map<Id, Result>, m2: map<Id, Result>) {
    forall d :: d in ids ==> (d in m1 <==> d in m2) && (d in m1 ==> m1[d] == m2[d])
  }

  /** The results of the nodes on levels below `k`. */
  ghost function Below(c: Chain, m: map<Id, Result>, k: nat): map<Id, Result> {
    map id | id in m && id in c.rank && c.rank[id] < k :: m[id]
  }

  function Flatten(levels: seq<seq<Id>>): seq<Id> {
    if levels == [] then [] else Flatten(levels[..|levels| - 1]) + levels[|levels| - 1]
  }

  // ----- a context reads only the dependencies --------------------------------

  lemma {:induction false} ExposeLocal(deps: seq<Id>, m1: map<Id, Result>, m2: map<Id, Result>, ctx: Ctx)
    requires AgreeOn(deps, m1, m2)
    ensures Expose(deps, m1, ctx) == Expose(deps, m2, ctx)
  {
    if deps != [] {
      var d := deps[0];
      assert d in deps;
      assert Exposed(d, m1) == Exposed(d, m2);
      ExposeLocal(deps[1..], m1, m2, if Exposed(d, m1) && d !in ctx then ctx[d := m1[d].output] else ctx);
    }
  }

  lemma OutcomeLocal(c: Chain, id: Id, m1: map<Id, Result>, m2: map<Id, Result>)
    requires Sound(c) && id in c.nodes && AgreeOn(c.nodes[id].deps, m1, m2)
    ensures OutcomeOf(c, id, m1) == OutcomeOf(c, id, m2)
  {
    hide Expose, Sound, MappedInputs, WithMetadata, AgreeOn;
    var node := c.nodes[id];
    assert forall k :: k in node.inputs && node.inputs[k].From? ==> node.inputs[k].source in node.deps by {
      MappingsReadDeps(c, id);
    }
    InputsLocal(c, node, m1, m2);
    if MappedInputs(c, node, m1).Some? {
      ExposeLocal(node.deps, m1, m2, MappedInputs(c, node, m1).value);
    }
  }

  lemma MappingsReadDeps(c: Chain, id: Id)
    requires Sound(c) && id in c.nodes
    ensures var node := c.nodes[id];
      forall k :: k in node.inputs && node.inputs[k].From? ==> node.inputs[k].source in node.deps
  {
  }

  lemma InputsLocal(c: Chain, node: Node, m1: map<Id, Result>, m2: map<Id, Result>)
    requires AgreeOn(node.deps, m1, m2)
    requires forall k :: k in node.inputs && node.inputs[k].From? ==> node.inputs[k].source in node.deps
    ensures MappedInputs(c, node, m1) == MappedInputs(c, node, m2)
  {
    forall k | k in node.inputs
      ensures MappingValue(c, node.inputs[k], m1) == MappingValue(c, node.inputs[k], m2)
    {
    }
    var in1, in2 := MappedInputs(c, node, m1), MappedInputs(c, node, m2);
    if in1.Some? && in2.Some? {
      assert in1.value == in2.value;
    }
  }

  // ----- sequential runs --------------------------------------------------------

  /** Every dependency of a node of `m` is in `m` as well. */
  ghost predicate Closed(c: Chain, m: map<Id, Result>) {
    m.Keys <= c.nodes.Keys && forall x, d :: x in m && d in c.nodes[x].deps ==> d in m
  }

  /** Placing one more node keeps a partial solution a solution. */
  lemma ExtendSolution(c: Chain, acc: map<Id, Result>, id: Id, r: Result)
    requires Sound(c) && Solves(c, acc) && Closed(c, acc)
    requires id in c.nodes && id !in acc && OutcomeOf(c, id, acc) == Returned(r)
    ensures Solves(c, acc[id := r])
  {
    hide OutcomeOf, Sound;
    var acc1 := acc[id := r];
    forall x | x in acc1
      ensures OutcomeOf(c, x, acc1) == Returned(acc1[x])
    {
      DepsAreLower(c, x);
      OutcomeLocal(c, x, acc, acc1);
    }
  }

  lemma {:induction false} SequentialSolves(c: Chain, rest: seq<Id>, acc: map<Id, Result>)
    requires Sound(c) && InOrder(c, acc.Keys, rest) && Solves(c, acc) && Closed(c, acc)
    requires forall id :: id in rest ==> id in c.nodes
    requires RunSequential(c, rest, acc).Some?
    ensures Solves(c, RunSequential(c, rest, acc).value)
    ensures forall id :: id in RunSequential(c, rest, acc).value <==> id in acc || id in rest
    decreases |rest|
  {
    hide OutcomeOf, Sound;
    if rest != [] {
      var id := rest[0];
      var r := OutcomeOf(c, id, acc).result;
      ExtendSolution(c, acc, id, r);
      assert acc[id := r].Keys == acc.Keys + {id};
      SequentialSolves(c, rest[1..], acc[id := r]);
    }
  }

  /** What a sequential run of the whole chain computes, whatever the order. */
  lemma SequentialMeaning(c: Chain, order: seq<Id>)
    requires Sound(c) && Topological(c, order) && RunSequential(c, order, map[]).Some?
    ensures Solves(c, RunSequential(c, order, map[]).value)
    ensures RunSequential(c, order, map[]).value.Keys == c.nodes.Keys
  {
    var none: map<Id, Result> := map[];
    assert none.Keys == {};
    SequentialSolves(c, order, none);
  }

  lemma {:induction false} SolutionIsSequential(c: Chain, rest: seq<Id>, m: map<Id, Result>, acc: map<Id, Result>)
    requires Sound(c) && InOrder(c, acc.Keys, rest) && Solves(c, m)
    requires forall id :: id in rest ==> id in c.nodes
    requires forall id :: id in m <==> id in acc || id in rest
    requires forall id :: id in acc ==> acc[id] == m[id]
    ensures RunSequential(c, rest, acc) == Some(m)
    decreases |rest|
  {
    hide OutcomeOf, Sound;
    if rest == [] {
      assert acc == m;
    } else {
      var id := rest[0];
      OutcomeLocal(c, id, acc, m);
      assert acc[id := m[id]].Keys == acc.Keys + {id};
      SolutionIsSequential(c, rest[1..], m, acc[id := m[id]]);
    }
  }

  /** Every topological order gives the same results, or raises in all of them. */
  lemma OrdersAgree(c: Chain, order1: seq<Id>, order2: seq<Id>)
    requires Sound(c) && Topological(c, order1) && Topological(c, order2)
    ensures RunSequential(c, order1, map[]) == RunSequential(c, order2, map[])
  {
    SequentialRunsMeet(c, order1, order2);
    SequentialRunsMeet(c, order2, order1);
  }

  lemma SequentialRunsMeet(c: Chain, order1: seq<Id>, order2: seq<Id>)
    requires Sound(c) && Topological(c, order1) && Topological(c, order2)
    ensures RunSequential(c, order1, map[]).Some? ==>
      RunSequential(c, order1, map[]) == RunSequential(c, order2, map[])
  {
    if RunSequential(c, order1, map[]).Some? {
      SequentialMeaning(c, order1);
      var none: map<Id, Result> := map[];
      assert none.Keys == {};
      SolutionIsSequential(c, order2, RunSequential(c, order1, none).value, none);
    }
  }

  // ----- one level ------------------------------------------------------------------

  /** None of `ids` has been called so far. */
  ghost predicate Unused(log: seq<Call>, ids: seq<Id>) {
    forall k :: 0 <= k < |log| ==> log[k].id !in ids
  }

  lemma {:induction false} NoHistory(log: seq<Call>, id: Id)
    requires Unused(log, [id])
    ensures History(log, id) == []
  {
    if log != [] {
      assert log[|log| - 1].id !in [id];
      NoHistory(log[..|log| - 1], id);
    }
  }

  /** A node that was not called before does what `OutcomeOf` says. */
  lemma InvokeFirst(c: Chain, id: Id, results: map<Id, Result>, log: seq<Call>)
    requires id in c.nodes && Unused(log, [id])
    ensures var (o, log1) := Invoke(c, id, map[], results, log);
      && o == OutcomeOf(c, id, results)
      && (log1 == log || log1 == log + [Call(id, o)])
      && (BuildContext(c, id, results).Some? ==> CallIds(log1) == CallIds(log) + [id])
  {
    hide BuildContext;
    NoHistory(log, id);
    if BuildContext(c, id, results).Some? {
      var ctx := BuildContext(c, id, results).value;
      assert ctx + map[] == ctx;
    }
  }

  /** The first node of a level, and what its call leaves for the others. */
  lemma InvokeHead(c: Chain, ids: seq<Id>, results: map<Id, Result>, log: seq<Call>)
    requires ids != [] && Distinct(ids) && ids[0] in c.nodes && Unused(log, ids)
    ensures var (o, log1) := Invoke(c, ids[0], map[], results, log);
      && o == OutcomeOf(c, ids[0], results)
      && Distinct(ids[1..]) && Unused(log1, ids[1..])
      && (BuildContext(c, ids[0], results).Some? ==> CallIds(log1) == CallIds(log) + [ids[0]])
  {
    hide Invoke, BuildContext, OutcomeOf, CallIds;
    assert ids[0] in ids;
    InvokeFirst(c, ids[0], results, log);
    var rest := ids[1..];
    assert forall j :: 0 <= j < |rest| ==> rest[j] == ids[j + 1];
    assert forall x :: x in rest ==> x in ids;
    assert ids[0] !in rest;
  }

  lemma {:induction false} LevelOutcomesAre(c: Chain, ids: seq<Id>, results: map<Id, Result>, log: seq<Call>)
    requires Distinct(ids) && Unused(log, ids) && forall id :: id in ids ==> id in c.nodes
    ensures forall j :: 0 <= j < |ids| ==>
      LevelOutcomes(c, ids, results, log).0[j] == (ids[j], OutcomeOf(c, ids[j], results))
  {
    hide Invoke, OutcomeOf, Distinct, Unused;
    if ids != [] {
      InvokeHead(c, ids, results, log);
      LevelOutcomesAre(c, ids[1..], results, Invoke(c, ids[0], map[], results, log).1);
      assert forall j :: 0 < j < |ids| ==> ids[j] == ids[1..][j - 1];
    }
  }

  lemma {:induction false} LevelCalls(c: Chain, ids: seq<Id>, results: map<Id, Result>, log: seq<Call>)
    requires Distinct(ids) && Unused(log, ids)
    requires forall id :: id in ids ==> id in c.nodes && BuildContext(c, id, results).Some?
    ensures CallIds(LevelOutcomes(c, ids, results, log).1) == CallIds(log) + ids
  {
    hide Invoke, OutcomeOf, Distinct, Unused, BuildContext;
    if ids != [] {
      InvokeHead(c, ids, results, log);
      LevelCalls(c, ids[1..], results, Invoke(c, ids[0], map[], results, log).1);
      assert (CallIds(log) + [ids[0]]) + ids[1..] == CallIds(log) + ids;
    } else {
      assert CallIds(log) + ids == CallIds(log);
    }
  }

  lemma {:induction false} PutAppends(d: seq<Entry>, k: Id, v: Result)
    requires !HasKey(d, k)
    ensures Put(d, k, v) == d + [Entry(k, v)]
  {
    if d != [] {
      assert d[0].key != k;
      assert forall i :: 0 <= i < |d[1..]| ==> d[1..][i] == d[i + 1];
      PutAppends(d[1..], k, v);
    }
  }

  lemma {:induction false} PutKeys(d: seq<Entry>, k: Id, v: Result)
    ensures forall x :: HasKey(Put(d, k, v), x) <==> x == k || HasKey(d, x)
  {
    if d == [] {
      assert Put(d, k, v)[0].key == k;
    } else if d[0].key == k {
      forall x
        ensures HasKey(Put(d, k, v), x) <==> x == k || HasKey(d, x)
      {
        assert Put(d, k, v)[0].key == k;
        assert forall i :: 0 < i < |d| ==> Put(d, k, v)[i] == d[i];
      }
    } else {
      PutKeys(d[1..], k, v);
      var p, q := Put(d[1..], k, v), Put(d, k, v);
      forall x
        ensures HasKey(q, x) <==> x == k || HasKey(d, x)
      {
        ConsKeys(d[0], p, x);
        ConsKeys(d[0], d[1..], x);
        assert [d[0]] + d[1..] == d;
      }
    }
  }

  lemma ConsKeys(e: Entry, d: seq<Entry>, x: Id)
    ensures HasKey([e] + d, x) <==> e.key == x || HasKey(d, x)
  {
    if e.key == x {
      assert ([e] + d)[0].key == x;
    }
    if HasKey(d, x) {
      var i :| 0 <= i < |d| && d[i].key == x;
      assert ([e] + d)[i + 1].key == x;
    }
    if HasKey([e] + d, x) && e.key != x {
      var i :| 0 <= i < |[e] + d| && ([e] + d)[i].key == x;
      assert d[i - 1].key == x;
    }
  }

  /** Every outcome of a level ends up under its key, raised ones included. */
  lemma {:induction false} CollectKeys(outs: seq<(Id, Outcome)>, d: seq<Entry>, x: Id)
    ensures HasKey(Collect(outs, d), x) <==>
      HasKey(d, x) || exists j :: 0 <= j < |outs| && Filed(outs[j].0, outs[j].1).key == x
  {
    if outs != [] {
      var e := Filed(outs[0].0, outs[0].1);
      PutKeys(d, e.key, e.val);
      CollectKeys(outs[1..], Put(d, e.key, e.val), x);
      assert forall j :: 0 < j < |outs| ==> outs[j] == outs[1..][j - 1];
      if j :| 0 <= j < |outs| && Filed(outs[j].0, outs[j].1).key == x {
        assert j == 0 || outs[1..][j - 1] == outs[j];
      }
    }
  }

  function Returns(ids: seq<Id>, m: map<Id, Result>): seq<(Id, Outcome)>
    requires forall id :: id in ids ==> id in m
  {
    if ids == [] then [] else [(ids[0], Returned(m[ids[0]]))] + Returns(ids[1..], m)
  }

  function LevelEntries(ids: seq<Id>, m: map<Id, Result>): seq<Entry>
    requires forall id :: id in ids ==> id in m
  {
    if ids == [] then [] else [Entry(ids[0], m[ids[0]])] + LevelEntries(ids[1..], m)
  }

  lemma {:induction false} LevelReturns(c: Chain, ids: seq<Id>, results: map<Id, Result>, log: seq<Call>, m: map<Id, Result>)
    requires Distinct(ids) && Unused(log, ids)
    requires forall id :: id in ids ==> id in c.nodes && id in m && OutcomeOf(c, id, results) == Returned(m[id])
    ensures LevelOutcomes(c, ids, results, log).0 == Returns(ids, m)
  {
    hide Invoke, OutcomeOf, Distinct, Unused;
    if ids != [] {
      InvokeHead(c, ids, results, log);
      LevelReturns(c, ids[1..], results, Invoke(c, ids[0], map[], results, log).1, m);
    }
  }

  /** A level whose nodes all return is recorded node by node, in order. */
  lemma {:induction false} CollectReturns(ids: seq<Id>, m: map<Id, Result>, d: seq<Entry>)
    requires Distinct(ids) && forall id :: id in ids ==> id in m && !HasKey(d, id)
    ensures Collect(Returns(ids, m), d) == d + LevelEntries(ids, m)
  {
    if ids != [] {
      var e := Entry(ids[0], m[ids[0]]);
      PutAppends(d, e.key, e.val);
      PutKeys(d, e.key, e.val);
      assert forall j :: 0 <= j < |ids[1..]| ==> ids[1..][j] == ids[j + 1];
      CollectReturns(ids[1..], m, d + [e]);
      assert (d + [e]) + LevelEntries(ids[1..], m) == d + ([e] + LevelEntries(ids[1..], m));
    }
  }

  lemma {:induction false} NothingRequested(c: Chain, entries: seq<Entry>)
    requires NoRecursion(c)
    ensures Requests(c, entries) == []
  {
    if entries != [] {
      NothingRequested(c, entries[1..]);
    }
  }

  // ----- recording --------------------------------------------------------------------

  function Assign(results: map<Id, Result>, entries: seq<Entry>): map<Id, Result>
    decreases |entries|
  {
    if entries == [] then results
    else Assign(results[entries[0].key := entries[0].val], entries[1..])
  }

  lemma {:induction false} AssignLevel(results: map<Id, Result>, ids: seq<Id>, m: map<Id, Result>)
    requires Distinct(ids) && forall id :: id in ids ==> id in m
    ensures var r := Assign(results, LevelEntries(ids, m));
      && (forall id :: id in r <==> id in results || id in ids)
      && (forall id :: id in r ==> r[id] == if id in ids then m[id] else results[id])
    decreases |ids|
  {
    if ids != [] {
      assert forall j :: 0 <= j < |ids[1..]| ==> ids[1..][j] == ids[j + 1];
      AssignLevel(results[ids[0] := m[ids[0]]], ids[1..], m);
    }
  }

  /** Recording never takes an error back. */
  lemma {:induction false} RecordErrorsGrow(c: Chain, entries: seq<Entry>, s: Run)
    ensures s.errors <= Record(c, entries, s).errors
  {
    if entries != [] {
      var (s1, stop) := RecordEntry(c, entries[0], s);
      RecordErrorsGrow(c, entries[1..], s1);
    }
  }

  lemma FailedAppend(errors: seq<Error>, e: Error)
    ensures FailedIds(errors + [e]) == FailedIds(errors) + (if e.NodeFailed? then {e.id} else {})
  {
    var all := errors + [e];
    if e.NodeFailed? {
      assert all[|errors|] == e;
    }
    forall x
      ensures x in FailedIds(all) <==> x in FailedIds(errors) + (if e.NodeFailed? then {e.id} else {})
    {
      if i :| 0 <= i < |errors| && errors[i].NodeFailed? && errors[i].id == x {
        assert all[i] == errors[i];
      }
    }
  }

  /** Every recorded id is marked as failed exactly when its result failed, with the result's error. */
  ghost predicate FailuresMatch(s: Run) {
    && (forall id :: id in FailedIds(s.errors) <==> id in s.results && !s.results[id].success)
    && (forall e :: e in s.errors && e.NodeFailed? ==> e.id in s.results && e.text == s.results[e.id].error)
  }

  /** The branch decision that a recorded result stands for. */
  function Decision(c: Chain, id: Id, r: Result): Option<bool> {
    if id in c.nodes && c.nodes[id].kind.Condition? && r.output.Dict? && "result" in r.output.fields
    then Some(Truthy(r.output.fields["result"]))
    else None
  }

  /** The decisions are those of the recorded condition nodes, and no others. */
  ghost predicate DecisionsMatch(c: Chain, s: Run) {
    forall id :: if id in s.results && Decision(c, id, s.results[id]).Some?
                 then id in s.decisions && s.decisions[id] == Decision(c, id, s.results[id]).value
                 else id !in s.decisions
  }

  function UsageOf(r: Result): nat {
    if r.success && r.usage.Some? then r.usage.value else 0
  }

  /** Tokens of the successful results in a list of entries. */
  function Spending(entries: seq<Entry>): nat {
    if entries == [] then 0 else UsageOf(entries[0].val) + Spending(entries[1..])
  }

  /** Tokens of the successful results that `m` gives to `ids`. */
  function Spent(ids: seq<Id>, m: map<Id, Result>): nat {
    if ids == [] then 0 else (if ids[0] in m then UsageOf(m[ids[0]]) else 0) + Spent(ids[1..], m)
  }

  lemma {:induction false} LevelSpending(ids: seq<Id>, m: map<Id, Result>)
    requires forall id :: id in ids ==> id in m
    ensures Spending(LevelEntries(ids, m)) == Spent(ids, m)
  {
    if ids != [] {
      LevelSpending(ids[1..], m);
    }
  }

  lemma {:induction false} SpentConcat(a: seq<Id>, b: seq<Id>, m: map<Id, Result>)
    ensures Spent(a + b, m) == Spent(a, m) + Spent(b, m)
  {
    if a == [] {
      assert a + b == b;
    } else {
      assert (a + b)[1..] == a[1..] + b;
      SpentConcat(a[1..], b, m);
    }
  }

  /** Without a token stop a level is recorded whole, or crashes at a foreign key. */
  lemma {:induction false} RecordWhole(c: Chain, entries: seq<Entry>, s: Run)
    requires !s.crashed && NoTokenStop(Record(c, entries, s).errors)
    ensures var t := Record(c, entries, s);
      && t.log == s.log && t.begun == s.begun
      && (t.crashed <==> exists j :: 0 <= j < |entries| && entries[j].key !in c.nodes)
      && (!t.crashed ==> t.results == Assign(s.results, entries) && t.tokens == s.tokens + Spending(entries))
  {
    if entries != [] {
      StepUnstopped(c, entries, s);
      if entries[0].key in c.nodes {
        RecordWhole(c, entries[1..], RecordEntry(c, entries[0], s).0);
        assert forall j :: 0 < j < |entries| ==> entries[1..][j - 1] == entries[j];
      }
    }
  }

  /** One recording step that is not a token stop. */
  lemma StepUnstopped(c: Chain, entries: seq<Entry>, s: Run)
    requires entries != [] && !s.crashed && NoTokenStop(Record(c, entries, s).errors)
    ensures var e, s1 := entries[0], RecordEntry(c, entries[0], s).0;
      && s1.log == s.log && s1.begun == s.begun && s1.results == s.results[e.key := e.val]
      && s1.crashed == (e.key !in c.nodes)
      && s1.tokens == s.tokens + UsageOf(e.val)
      && (!s1.crashed ==> s1.decisions == match Decision(c, e.key, e.val)
                                          case None => s.decisions
                                          case Some(b) => s.decisions[e.key := b])
      && RecordEntry(c, e, s).1 == s1.crashed
      && (!s1.crashed ==> s1.errors == if e.val.success then s.errors else s.errors + [NodeFailed(e.key, e.val.error)])
  {
    var (s1, stop) := RecordEntry(c, entries[0], s);
    forall x: Error
      ensures x in s.errors + [x]
    {
    }
    assert stop ==> Record(c, entries, s) == s1;
  }

  lemma {:induction false} RecordFailures(c: Chain, entries: seq<Entry>, s: Run)
    requires !s.crashed && NoTokenStop(Record(c, entries, s).errors) && !Record(c, entries, s).crashed
    requires DistinctKeys(entries) && FailuresMatch(s)
    requires forall j :: 0 <= j < |entries| ==> entries[j].key !in s.results
    ensures FailuresMatch(Record(c, entries, s))
  {
    if entries != [] {
      StepUnstopped(c, entries, s);
      var e, rest := entries[0], entries[1..];
      var s1 := RecordEntry(c, e, s).0;
      FailedAppend(s.errors, NodeFailed(e.key, e.val.error));
      assert FailuresMatch(s1);
      assert forall j :: 0 <= j < |rest| ==> rest[j] == entries[j + 1];
      RecordFailures(c, rest, s1);
    }
  }

  lemma {:induction false} RecordDecisions(c: Chain, entries: seq<Entry>, s: Run)
    requires !s.crashed && NoTokenStop(Record(c, entries, s).errors) && !Record(c, entries, s).crashed
    requires DistinctKeys(entries) && DecisionsMatch(c, s)
    requires forall j :: 0 <= j < |entries| ==> entries[j].key !in s.results
    ensures DecisionsMatch(c, Record(c, entries, s))
  {
    hide Decision, RecordEntry;
    if entries != [] {
      StepUnstopped(c, entries, s);
      var e, rest := entries[0], entries[1..];
      var s1 := RecordEntry(c, e, s).0;
      assert DecisionsMatch(c, s1);
      assert forall j :: 0 <= j < |rest| ==> rest[j] == entries[j + 1];
      RecordDecisions(c, rest, s1);
    }
  }

  ghost predicate DistinctKeys(d: seq<Entry>) {
    forall i, j :: 0 <= i < j < |d| ==> d[i].key != d[j].key
  }

  // ----- the level loop -------------------------------------------------------------------

  /** The invariant of a run whose first `i` levels were recorded whole. */
  ghost predicate AtLevel(c: Chain, i: nat, s: Run) {
    && i <= |c.levels| && s.begun == i && !s.crashed
    && (forall id :: id in s.results <==> id in c.nodes && id in c.rank && c.rank[id] < i)
    && (forall k :: 0 <= k < |s.log| ==> s.log[k].id in c.rank && c.rank[s.log[k].id] < i)
    && FailuresMatch(s) && DecisionsMatch(c, s)
  }

  lemma FreshAtLevel(c: Chain)
    ensures AtLevel(c, 0, FRESH)
  {
  }

  /** A level's nodes are called for the first time when the level is begun. */
  lemma LevelUnused(c: Chain, i: nat, s: Run)
    requires Sound(c) && i < |c.levels| && AtLevel(c, i, s)
    ensures Unused(s.log, c.levels[i])
  {
    hide FailuresMatch, DecisionsMatch;
    LevelInNodes(c, i);
  }

  /** What every node of level `i` reads is settled once the lower levels are. */
  lemma LowerLevelsSettle(c: Chain, i: nat, id: Id, m1: map<Id, Result>, m2: map<Id, Result>)
    requires Sound(c) && i < |c.levels| && id in c.levels[i]
    requires forall x :: x in c.nodes && x in c.rank && c.rank[x] < i ==> x in m1 && x in m2 && m1[x] == m2[x]
    ensures OutcomeOf(c, id, m1) == OutcomeOf(c, id, m2)
  {
    OutcomeLocal(c, id, m1, m2);
  }

  /** The state in which a level's entries are recorded. */
  function BeforeRecord(c: Chain, i: nat, s: Run): Run
    requires i < |c.levels| && forall id :: id in c.levels[i] ==> id in c.nodes
  {
    s.(log := LevelOutcomes(c, c.levels[i], s.results, s.log).1, begun := s.begun + 1)
  }

  function EntriesOf(c: Chain, i: nat, s: Run): seq<Entry>
    requires i < |c.levels| && forall id :: id in c.levels[i] ==> id in c.nodes
  {
    Collect(LevelOutcomes(c, c.levels[i], s.results, s.log).0, [])
  }

  /** Without recursive nodes a level is: run all its nodes, record all entries. */
  lemma PlainLevel(c: Chain, fuel: nat, i: nat, s: Run)
    requires Sound(c) && NoRecursion(c) && i < |c.levels|
    ensures RunLevel(c, fuel, c.levels[i], s) == Some(Record(c, EntriesOf(c, i, s), BeforeRecord(c, i, s)))
  {
    AllActive(c, c.levels[i]);
    NothingRequested(c, EntriesOf(c, i, s));
  }

  /** A level all of whose nodes return `r` files and calls exactly its nodes. */
  lemma ReturningEntries(c: Chain, i: nat, s: Run, r: map<Id, Result>)
    requires Sound(c) && i < |c.levels| && Unused(s.log, c.levels[i])
    requires forall id :: id in c.levels[i] ==> id in r && OutcomeOf(c, id, s.results) == Returned(r[id])
    ensures EntriesOf(c, i, s) == LevelEntries(c.levels[i], r)
    ensures CallIds(BeforeRecord(c, i, s).log) == CallIds(s.log) + c.levels[i]
  {
    hide OutcomeOf, Sound;
    var ids := c.levels[i];
    LevelInNodes(c, i);
    LevelReturns(c, ids, s.results, s.log, r);
    ReturningContexts(c, ids, s.results, r);
    LevelCalls(c, ids, s.results, s.log);
    CollectReturns(ids, r, []);
  }

  /** Recording such a level whole. */
  lemma RecordReturning(c: Chain, i: nat, u: Run, r: map<Id, Result>)
    requires Sound(c) && i < |c.levels|
    requires u.begun == i + 1 && !u.crashed && FailuresMatch(u) && DecisionsMatch(c, u)
    requires forall id :: id in u.results <==> id in c.nodes && id in c.rank && c.rank[id] < i
    requires forall k :: 0 <= k < |u.log| ==> u.log[k].id in c.rank && c.rank[u.log[k].id] < i + 1
    requires forall id :: id in c.levels[i] ==> id in r
    requires NoTokenStop(Record(c, LevelEntries(c.levels[i], r), u).errors)
    ensures var t := Record(c, LevelEntries(c.levels[i], r), u);
      && AtLevel(c, i + 1, t)
      && (forall id :: id in c.levels[i] ==> id in t.results && t.results[id] == r[id])
      && (forall id :: id in u.results ==> id in t.results && t.results[id] == u.results[id])
      && t.log == u.log && t.tokens == u.tokens + Spent(c.levels[i], r)
  {
    hide Record, Sound, Decision, Spending;
    LevelInNodes(c, i);
    var entries := LevelEntries(c.levels[i], r);
    EntryKeys(c.levels[i], r);
    RecordWhole(c, entries, u);
    AssignLevel(u.results, c.levels[i], r);
    LevelSpending(c.levels[i], r);
    RecordFailures(c, entries, u);
    RecordDecisions(c, entries, u);
  }

  /** The calls of level `i` have its rank. */
  lemma CallRanks(c: Chain, i: nat, log: seq<Call>, log1: seq<Call>)
    requires Sound(c) && i < |c.levels| && CallIds(log1) == CallIds(log) + c.levels[i]
    requires forall k :: 0 <= k < |log| ==> log[k].id in c.rank && c.rank[log[k].id] < i
    ensures forall k :: 0 <= k < |log1| ==> log1[k].id in c.rank && c.rank[log1[k].id] < i + 1
  {
    hide Sound;
    LevelInNodes(c, i);
    forall k | 0 <= k < |log1|
      ensures log1[k].id in c.rank && c.rank[log1[k].id] < i + 1
    {
      var id := CallIds(log1)[k];
      if k < |log| {
        assert id == CallIds(log)[k];
      } else {
        assert id == c.levels[i][k - |log|];
      }
    }
  }

  lemma ReturningLevel(c: Chain, i: nat, s: Run, r: map<Id, Result>)
    requires Sound(c) && i < |c.levels| && AtLevel(c, i, s)
    requires forall id :: id in c.levels[i] ==> id in r && OutcomeOf(c, id, s.results) == Returned(r[id])
    requires NoTokenStop(Record(c, EntriesOf(c, i, s), BeforeRecord(c, i, s)).errors)
    ensures var t := Record(c, EntriesOf(c, i, s), BeforeRecord(c, i, s));
      && AtLevel(c, i + 1, t)
      && (forall id :: id in c.levels[i] ==> id in t.results && t.results[id] == r[id])
      && (forall id :: id in s.results ==> id in t.results && t.results[id] == s.results[id])
      && CallIds(t.log) == CallIds(s.log) + c.levels[i]
      && t.tokens == s.tokens + Spent(c.levels[i], r)
  {
    hide OutcomeOf, Record, Sound, EntriesOf, LevelOutcomes, Decision, Spent;
    LevelInNodes(c, i);
    LevelUnused(c, i, s);
    ReturningEntries(c, i, s, r);
    CallRanks(c, i, s.log, BeforeRecord(c, i, s).log);
    RecordReturning(c, i, BeforeRecord(c, i, s), r);
  }

  lemma ReturningContexts(c: Chain, ids: seq<Id>, results: map<Id, Result>, r: map<Id, Result>)
    requires forall id :: id in ids ==> id in c.nodes && id in r && OutcomeOf(c, id, results) == Returned(r[id])
    ensures forall id :: id in ids ==> BuildContext(c, id, results).Some?
  {
  }

  lemma {:induction false} EntryKeys(ids: seq<Id>, r: map<Id, Result>)
    requires forall id :: id in ids ==> id in r
    ensures |LevelEntries(ids, r)| == |ids|
    ensures forall j :: 0 <= j < |ids| ==> LevelEntries(ids, r)[j] == Entry(ids[j], r[ids[j]])
  {
    if ids != [] {
      EntryKeys(ids[1..], r);
    }
  }

  /** A level in which some node raises crashes the run. */
  lemma RaisingLevel(c: Chain, i: nat, s: Run, id: Id)
    requires Sound(c) && ForeignTexts(c) && i < |c.levels| && AtLevel(c, i, s)
    requires id in c.levels[i] && OutcomeOf(c, id, s.results).Raised?
    requires NoTokenStop(Record(c, EntriesOf(c, i, s), BeforeRecord(c, i, s)).errors)
    ensures Record(c, EntriesOf(c, i, s), BeforeRecord(c, i, s)).crashed
  {
    hide Record, Sound, BuildContext;
    LevelInNodes(c, i);
    var ids := c.levels[i];
    var outs := LevelOutcomes(c, ids, s.results, s.log).0;
    LevelUnused(c, i, s);
    LevelOutcomesAre(c, ids, s.results, s.log);
    var j :| 0 <= j < |ids| && ids[j] == id;
    var text := Filed(outs[j].0, outs[j].1).key;
    assert text !in c.nodes;
    CollectKeys(outs, [], text);
    var k :| 0 <= k < |EntriesOf(c, i, s)| && EntriesOf(c, i, s)[k].key == text;
    RecordWhole(c, EntriesOf(c, i, s), BeforeRecord(c, i, s));
  }

  // ----- whole runs -----------------------------------------------------------------------

  lemma ErrorsStay(c: Chain, i: nat, s: Run)
    requires i < |c.levels| && forall id :: id in c.levels[i] ==> id in c.nodes
    ensures BeforeRecord(c, i, s).errors == s.errors
  {
  }

  lemma {:induction false} ErrorsGrow(c: Chain, fuel: nat, i: nat, s: Run)
    requires Sound(c) && NoRecursion(c) && i <= |c.levels|
    ensures RunLevels(c, fuel, i, s).Some? && s.errors <= RunLevels(c, fuel, i, s).value.errors
    decreases |c.levels| - i
  {
    hide Record, Sound, RunLevel, EntriesOf, BeforeRecord, NoRecursion;
    if i < |c.levels| && DepthStop(c, i + 1).None? {
      LevelInNodes(c, i);
      PlainLevel(c, fuel, i, s);
      ErrorsStay(c, i, s);
      RecordErrorsGrow(c, EntriesOf(c, i, s), BeforeRecord(c, i, s));
      ErrorsGrow(c, fuel, i + 1, RunLevel(c, fuel, c.levels[i], s).value);
    }
  }

  ghost predicate MatchesBelow(c: Chain, i: nat, s: Run, m: map<Id, Result>) {
    && AtLevel(c, i, s)
    && (forall id :: id in s.results ==> id in m && s.results[id] == m[id])
    && i <= |c.levels| && CallIds(s.log) == Flatten(c.levels[..i])
    && s.tokens == Spent(Flatten(c.levels[..i]), m)
  }

  lemma NextLevelMatches(c: Chain, fuel: nat, i: nat, s: Run, m: map<Id, Result>)
    requires Sound(c) && NoRecursion(c) && i < |c.levels|
    requires Solves(c, m) && m.Keys == c.nodes.Keys && MatchesBelow(c, i, s, m)
    requires RunLevel(c, fuel, c.levels[i], s).Some? && NoTokenStop(RunLevel(c, fuel, c.levels[i], s).value.errors)
    ensures MatchesBelow(c, i + 1, RunLevel(c, fuel, c.levels[i], s).value, m)
  {
    hide OutcomeOf, Record, Sound, RunLevel, EntriesOf, BeforeRecord;
    LevelInNodes(c, i);
    PlainLevel(c, fuel, i, s);
    forall id | id in c.levels[i]
      ensures OutcomeOf(c, id, s.results) == Returned(m[id])
    {
      LowerLevelsSettle(c, i, id, s.results, m);
    }
    ReturningLevel(c, i, s, m);
    assert c.levels[..i + 1][..i] == c.levels[..i];
    assert Flatten(c.levels[..i + 1]) == Flatten(c.levels[..i]) + c.levels[i];
    SpentConcat(Flatten(c.levels[..i]), c.levels[i], m);
    var t := RunLevel(c, fuel, c.levels[i], s).value;
    NewResultsMatch(c, i, s, t, m);
  }

  lemma NewResultsMatch(c: Chain, i: nat, s: Run, t: Run, m: map<Id, Result>)
    requires Sound(c) && i < |c.levels| && AtLevel(c, i, s) && AtLevel(c, i + 1, t)
    requires forall id :: id in c.levels[i] ==> id in m && id in t.results && t.results[id] == m[id]
    requires forall id :: id in s.results ==> id in m && id in t.results && t.results[id] == s.results[id] == m[id]
    ensures forall id :: id in t.results ==> id in m && t.results[id] == m[id]
  {
    LevelInNodes(c, i);
    forall id | id in t.results
      ensures id in m && t.results[id] == m[id]
    {
      assert c.rank[id] < i ==> id in s.results;
      assert c.rank[id] == i ==> id in c.levels[i];
    }
  }

  lemma {:induction false} RunMatches(c: Chain, fuel: nat, i: nat, s: Run, m: map<Id, Result>)
    requires Sound(c) && NoRecursion(c) && i <= |c.levels|
    requires Solves(c, m) && m.Keys == c.nodes.Keys && MatchesBelow(c, i, s, m)
    requires RunLevels(c, fuel, i, s).Some? && NoTokenStop(RunLevels(c, fuel, i, s).value.errors)
    ensures var t := RunLevels(c, fuel, i, s).value;
      && MatchesBelow(c, t.begun, t, m)
      && (t.begun < |c.levels| ==> t.errors != [])
    decreases |c.levels| - i
  {
    hide OutcomeOf, Record, Sound, RunLevel, AtLevel;
    var t := RunLevels(c, fuel, i, s).value;
    if i < |c.levels| {
      if DepthStop(c, i + 1).Some? {
        DepthStopMatches(c, i, s, DepthStop(c, i + 1).value, m);
      } else {
        LevelInNodes(c, i);
        var s1 := RunLevel(c, fuel, c.levels[i], s).value;
        ErrorsGrow(c, fuel, i + 1, s1);
        NextLevelMatches(c, fuel, i, s, m);
        if Proceeds(c, s1) {
          RunMatches(c, fuel, i + 1, s1, m);
        } else {
          StoppedLevel(c, i + 1, s1);
        }
      }
    } else {
      StoppedLevel(c, i, s);
    }
  }

  lemma StoppedLevel(c: Chain, i: nat, s: Run)
    requires AtLevel(c, i, s)
    ensures s.begun == i && !s.crashed
  {
  }

  lemma DepthStopMatches(c: Chain, i: nat, s: Run, e: Error, m: map<Id, Result>)
    requires MatchesBelow(c, i, s, m) && !e.NodeFailed?
    ensures var t := s.(errors := s.errors + [e]);
      MatchesBelow(c, i, t, m) && t.begun == i && t.errors != []
  {
    FailedAppend(s.errors, e);
  }

  /**
    Main theorem.  Whatever the policy and the depth limits, as long as no token
    limit fires the engine does not crash where the sequential interpreter does
    not raise; it calls exactly the nodes of the levels it begins, level by level,
    and records for them the sequential results, their tokens and their decisions.
   */
  lemma LevelRunIsSequential(c: Chain, order: seq<Id>, fuel: nat)
    requires Sound(c) && NoRecursion(c) && Topological(c, order)
    requires RunSequential(c, order, map[]).Some?
    ensures ExecuteChain(c, fuel).Some?
    ensures var t, m := ExecuteChain(c, fuel).value, RunSequential(c, order, map[]).value;
      NoTokenStop(t.errors) ==>
        && !t.crashed && t.begun <= |c.levels|
        && t.results == Below(c, m, t.begun)
        && CallIds(t.log) == Flatten(c.levels[..t.begun])
        && t.tokens == Spent(Flatten(c.levels[..t.begun]), m)
        && DecisionsMatch(c, t)
        && (t.errors == [] <==> t.begun == |c.levels| && Clean(t))
  {
    hide RunLevels, OutcomeOf, RunSequential, Sound, InOrder, NoRecursion, Solves;
    SequentialMeaning(c, order);
    ErrorsGrow(c, fuel, 0, FRESH);
    RunFromFresh(c, fuel, RunSequential(c, order, map[]).value);
  }

  lemma RunFromFresh(c: Chain, fuel: nat, m: map<Id, Result>)
    requires Sound(c) && NoRecursion(c)
    requires Solves(c, m) && m.Keys == c.nodes.Keys && ExecuteChain(c, fuel).Some?
    ensures var t := ExecuteChain(c, fuel).value;
      NoTokenStop(t.errors) ==>
        && !t.crashed && t.begun <= |c.levels|
        && t.results == Below(c, m, t.begun)
        && CallIds(t.log) == Flatten(c.levels[..t.begun])
        && t.tokens == Spent(Flatten(c.levels[..t.begun]), m)
        && DecisionsMatch(c, t)
        && (t.errors == [] <==> t.begun == |c.levels| && Clean(t))
  {
    hide RunLevels, OutcomeOf, Sound, NoRecursion, Solves;
    var t := ExecuteChain(c, fuel).value;
    if NoTokenStop(t.errors) {
      assert MatchesBelow(c, 0, FRESH, m);
      RunMatches(c, fuel, 0, FRESH, m);
      AllBelow(c, m, t);
      if Clean(t) {
        OnlyFailuresLeft(t.errors);
      }
    }
  }

  /** No depth limit was hit and every recorded node succeeded. */
  ghost predicate Clean(t: Run) {
    && DepthGuardAborted !in t.errors && DepthCeilingReached !in t.errors
    && forall id :: id in t.results ==> t.results[id].success
  }

  lemma AllBelow(c: Chain, m: map<Id, Result>, t: Run)
    requires AtLevel(c, t.begun, t) && m.Keys == c.nodes.Keys
    requires forall id :: id in t.results ==> t.results[id] == m[id]
    ensures t.results == Below(c, m, t.begun)
    ensures t.errors == [] ==> forall id :: id in t.results ==> t.results[id].success
    ensures (exists id :: id in FailedIds(t.errors)) ==> exists id :: id in t.results && !t.results[id].success
  {
  }

  lemma OnlyFailuresLeft(errors: seq<Error>)
    requires NoTokenStop(errors) && DepthGuardAborted !in errors && DepthCeilingReached !in errors
    ensures errors != [] ==> exists id :: id in FailedIds(errors)
  {
    if errors != [] {
      var e := errors[0];
      assert e in errors;
      assert e.id in FailedIds(errors);
    }
  }

  // ----- and back: a completed run is a solution ---------------------------------------------

  lemma NextLevelSolves(c: Chain, fuel: nat, i: nat, s: Run)
    requires Sound(c) && NoRecursion(c) && ForeignTexts(c) && i < |c.levels|
    requires AtLevel(c, i, s) && Solves(c, s.results)
    requires RunLevel(c, fuel, c.levels[i], s).Some?
    requires var t := RunLevel(c, fuel, c.levels[i], s).value; NoTokenStop(t.errors) && !t.crashed
    ensures var t := RunLevel(c, fuel, c.levels[i], s).value; AtLevel(c, i + 1, t) && Solves(c, t.results)
  {
    hide OutcomeOf, Record, Sound, RunLevel, EntriesOf, BeforeRecord;
    LevelInNodes(c, i);
    PlainLevel(c, fuel, i, s);
    forall id | id in c.levels[i]
      ensures OutcomeOf(c, id, s.results).Returned?
    {
      if OutcomeOf(c, id, s.results).Raised? {
        RaisingLevel(c, i, s, id);
      }
    }
    var r := map id | id in c.levels[i] :: OutcomeOf(c, id, s.results).result;
    ReturningLevel(c, i, s, r);
    var t := RunLevel(c, fuel, c.levels[i], s).value;
    forall id | id in t.results
      ensures OutcomeOf(c, id, t.results) == Returned(t.results[id])
    {
      StillReads(c, i, id, s.results, t.results);
      assert id in s.results || id in c.levels[i];
    }
  }

  /** New results on level `i` do not change what nodes up to level `i` read. */
  lemma StillReads(c: Chain, i: nat, id: Id, m1: map<Id, Result>, m2: map<Id, Result>)
    requires Sound(c) && i < |c.levels| && id in c.nodes && c.rank[id] <= i
    requires forall x :: x in m1 ==> x in m2 && m2[x] == m1[x]
    requires forall x :: x in c.nodes && x in c.rank && c.rank[x] < i ==> x in m1
    ensures OutcomeOf(c, id, m1) == OutcomeOf(c, id, m2)
  {
    OutcomeLocal(c, id, m1, m2);
  }

  lemma {:induction false} CompletedRunSolves(c: Chain, fuel: nat, i: nat, s: Run)
    requires Sound(c) && NoRecursion(c) && ForeignTexts(c)
    requires i <= |c.levels| && AtLevel(c, i, s) && Solves(c, s.results)
    requires RunLevels(c, fuel, i, s).Some?
    requires var t := RunLevels(c, fuel, i, s).value;
      !t.crashed && t.begun == |c.levels| && NoTokenStop(t.errors)
    ensures Solves(c, RunLevels(c, fuel, i, s).value.results)
    ensures RunLevels(c, fuel, i, s).value.results.Keys == c.nodes.Keys
    decreases |c.levels| - i
  {
    hide OutcomeOf, Record, RunLevel, NoRecursion, ForeignTexts, Solves;
    if i < |c.levels| && DepthStop(c, i + 1).None? {
      var s1 := RunLevel(c, fuel, c.levels[i], s).value;
      ErrorsGrow(c, fuel, i + 1, s1);
      if !s1.crashed {
        NextLevelSolves(c, fuel, i, s);
        if Proceeds(c, s1) {
          CompletedRunSolves(c, fuel, i + 1, s1);
        }
      }
    }
  }

  /**
    A run that begins every level without a token stop crashes exactly when the
    sequential interpreter raises.
   */
  lemma CrashesExactlyWhenRaising(c: Chain, order: seq<Id>, fuel: nat)
    requires Sound(c) && NoRecursion(c) && ForeignTexts(c) && Topological(c, order)
    requires ExecuteChain(c, fuel).Some?
    requires var t := ExecuteChain(c, fuel).value; NoTokenStop(t.errors) && (t.begun == |c.levels| || t.crashed)
    ensures ExecuteChain(c, fuel).value.crashed <==> RunSequential(c, order, map[]).None?
    ensures !ExecuteChain(c, fuel).value.crashed ==>
      RunSequential(c, order, map[]) == Some(ExecuteChain(c, fuel).value.results)
  {
    hide OutcomeOf, RunSequential, RunLevels, Sound, NoRecursion, ForeignTexts;
    var t := ExecuteChain(c, fuel).value;
    var none: map<Id, Result> := map[];
    assert none.Keys == {};
    if t.crashed {
      if RunSequential(c, order, map[]).Some? {
        LevelRunIsSequential(c, order, fuel);
      }
    } else {
      CompletedRunSolves(c, fuel, 0, FRESH);
      SolutionIsSequential(c, order, t.results, none);
    }
  }

  /** The run reports success: it returned, and without an error message. */
  ghost predicate Successful(t: Run) {
    !t.crashed && t.errors == []
  }

  lemma {:induction false} SuccessfulRunsComplete(c: Chain, fuel: nat, i: nat, s: Run)
    requires Sound(c) && NoRecursion(c) && i <= |c.levels| && s.begun == i && !s.crashed
    requires RunLevels(c, fuel, i, s).Some? && Successful(RunLevels(c, fuel, i, s).value)
    ensures RunLevels(c, fuel, i, s).value.begun == |c.levels|
    decreases |c.levels| - i
  {
    hide Record, Sound, RunLevel;
    if i < |c.levels| && DepthStop(c, i + 1).None? {
      LevelInNodes(c, i);
      var s1 := RunLevel(c, fuel, c.levels[i], s).value;
      PlainLevel(c, fuel, i, s);
      ErrorsGrow(c, fuel, i + 1, s1);
      if Proceeds(c, s1) {
        assert s1.errors == [];
        RecordWhole(c, EntriesOf(c, i, s), BeforeRecord(c, i, s));
        SuccessfulRunsComplete(c, fuel, i + 1, s1);
      }
    }
  }

  /** A run reported successful holds the sequential result of every node. */
  lemma SuccessMeansSequential(c: Chain, order: seq<Id>, fuel: nat)
    requires Sound(c) && NoRecursion(c) && ForeignTexts(c) && Topological(c, order)
    requires ExecuteChain(c, fuel).Some? && Successful(ExecuteChain(c, fuel).value)
    ensures RunSequential(c, order, map[]) == Some(ExecuteChain(c, fuel).value.results)
  {
    hide RunLevels, RunSequential, OutcomeOf, Sound, InOrder;
    SuccessfulRunsComplete(c, fuel, 0, FRESH);
    CrashesExactlyWhenRaising(c, order, fuel);
  }

  // ----- levellings --------------------------------------------------------------------------

  lemma {:induction false} InOrderConcat(c: Chain, placed: set<Id>, a: seq<Id>, b: seq<Id>)
    requires InOrder(c, placed, a) && InOrder(c, placed + (set x | x in a), b)
    ensures InOrder(c, placed, a + b)
    decreases |a|
  {
    if a == [] {
      assert a + b == b;
      assert placed + (set x | x in a) == placed;
    } else {
      assert placed + (set x | x in a) == (placed + {a[0]}) + (set x | x in a[1..]);
      InOrderConcat(c, placed + {a[0]}, a[1..], b);
      assert (a + b)[1..] == a[1..] + b;
    }
  }

  /** Nodes of one level are in order in any arrangement. */
  lemma {:induction false} LevelInOrder(c: Chain, placed: set<Id>, rest: seq<Id>)
    requires Distinct(rest)
    requires forall id :: id in rest ==> id in c.nodes && id !in placed && forall d :: d in c.nodes[id].deps ==> d in placed
    ensures InOrder(c, placed, rest)
    decreases |rest|
  {
    if rest != [] {
      assert forall j :: 0 <= j < |rest[1..]| ==> rest[1..][j] == rest[j + 1];
      LevelInOrder(c, placed + {rest[0]}, rest[1..]);
    }
  }

  /** The first `k` levels list exactly the nodes below `k`. */
  lemma {:induction false} FlattenHolds(c: Chain, k: nat)
    requires Sound(c) && k <= |c.levels|
    ensures forall id :: id in Flatten(c.levels[..k]) <==> id in c.nodes && id in c.rank && c.rank[id] < k
    decreases k
  {
    hide Sound;
    if k > 0 {
      assert c.levels[..k][..k - 1] == c.levels[..k - 1];
      LevelInNodes(c, k - 1);
      FlattenHolds(c, k - 1);
    }
  }

  lemma {:induction false} LevelsInOrder(c: Chain, k: nat)
    requires Sound(c) && k <= |c.levels|
    ensures InOrder(c, {}, Flatten(c.levels[..k]))
    decreases k
  {
    hide Sound, InOrder;
    if k > 0 {
      assert c.levels[..k][..k - 1] == c.levels[..k - 1];
      LevelsInOrder(c, k - 1);
      var before := Flatten(c.levels[..k - 1]);
      NextLevelInOrder(c, k - 1, before);
      assert {} + (set x | x in before) == (set x | x in before);
      InOrderConcat(c, {}, before, c.levels[k - 1]);
    } else {
      assert InOrder(c, {}, []) by { NothingInOrder(c); }
    }
  }

  lemma NothingInOrder(c: Chain)
    ensures InOrder(c, {}, [])
  {
  }

  lemma NextLevelInOrder(c: Chain, k: nat, before: seq<Id>)
    requires Sound(c) && k < |c.levels| && before == Flatten(c.levels[..k])
    ensures InOrder(c, (set x | x in before), c.levels[k])
  {
    hide Sound, InOrder, Flatten, Distinct;
    var placed := set x | x in before;
    FlattenHolds(c, k);
    LevelInNodes(c, k);
    forall id | id in c.levels[k]
      ensures id in c.nodes && id !in placed && forall d :: d in c.nodes[id].deps ==> d in placed
    {
      DepsAreLower(c, id);
    }
    LevelInOrder(c, placed, c.levels[k]);
  }

  /**
    The call order of the engine (`LevelRunIsSequential`) is itself topological:
    each node is called once, after all its dependencies.
   */
  lemma LevelOrderIsTopological(c: Chain)
    requires Sound(c)
    ensures Topological(c, Flatten(c.levels))
  {
    LevelsInOrder(c, |c.levels|);
    FlattenHolds(c, |c.levels|);
    assert c.levels[..|c.levels|] == c.levels;
  }

  /** The same chain under another levelling. */
  function Relevelled(c: Chain, levels: seq<seq<Id>>, rank: map<Id, nat>): Chain {
    c.(levels := levels, rank := rank)
  }

  lemma RelevelledOutcome(c: Chain, levels: seq<seq<Id>>, rank: map<Id, nat>, id: Id, m: map<Id, Result>)
    requires id in c.nodes
    ensures OutcomeOf(Relevelled(c, levels, rank), id, m) == OutcomeOf(c, id, m)
  {
    var c2 := Relevelled(c, levels, rank);
    assert forall mp :: MappingValue(c2, mp, m) == MappingValue(c, mp, m);
    var in1, in2 := MappedInputs(c, c.nodes[id], m), MappedInputs(c2, c.nodes[id], m);
    if in1.Some? && in2.Some? {
      assert in1.value == in2.value;
    }
  }

  lemma {:induction false} LevellingIgnored(c: Chain, levels: seq<seq<Id>>, rank: map<Id, nat>, order: seq<Id>, acc: map<Id, Result>)
    requires forall id :: id in order ==> id in c.nodes
    ensures RunSequential(Relevelled(c, levels, rank), order, acc) == RunSequential(c, order, acc)
    decreases |order|
  {
    if order != [] {
      var o := OutcomeOf(c, order[0], acc);
      RelevelledOutcome(c, levels, rank, order[0], acc);
      if o.Returned? {
        LevellingIgnored(c, levels, rank, order[1..], acc[order[0] := o.result]);
      }
    }
  }

  lemma {:induction false} SameNodesInOrder(c: Chain, levels: seq<seq<Id>>, rank: map<Id, nat>, placed: set<Id>, rest: seq<Id>)
    requires InOrder(c, placed, rest)
    ensures InOrder(Relevelled(c, levels, rank), placed, rest)
    decreases |rest|
  {
    if rest != [] {
      SameNodesInOrder(c, levels, rank, placed + {rest[0]}, rest[1..]);
    }
  }

  /** The run began every level, and neither a crash nor a token limit cut one short. */
  ghost predicate Complete(c: Chain, t: Run) {
    !t.crashed && t.begun == |c.levels| && NoTokenStop(t.errors)
  }

  /** Complete runs under two valid levellings record the same results, failed ones included. */
  lemma LevellingsAgree(c: Chain, levels: seq<seq<Id>>, rank: map<Id, nat>, fuel1: nat, fuel2: nat)
    requires Sound(c) && Sound(Relevelled(c, levels, rank))
    requires NoRecursion(c) && ForeignTexts(c)
    requires ExecuteChain(c, fuel1).Some? && Complete(c, ExecuteChain(c, fuel1).value)
    requires ExecuteChain(Relevelled(c, levels, rank), fuel2).Some?
    requires Complete(Relevelled(c, levels, rank), ExecuteChain(Relevelled(c, levels, rank), fuel2).value)
    ensures ExecuteChain(Relevelled(c, levels, rank), fuel2).value.results == ExecuteChain(c, fuel1).value.results
  {
    hide ExecuteChain, RunSequential, OutcomeOf, Sound, InOrder;
    var order := Flatten(c.levels);
    LevelOrderIsTopological(c);
    SameNodesInOrder(c, levels, rank, {}, order);
    LevellingIgnored(c, levels, rank, order, map[]);
    CrashesExactlyWhenRaising(c, order, fuel1);
    CrashesExactlyWhenRaising(Relevelled(c, levels, rank), order, fuel2);
  }
}
