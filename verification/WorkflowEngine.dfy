/**
  The engine as it runs: one object whose fields the level loop, the recursive
  flows and the branch resolver update in place.  Every method is proved to end
  in the state that the functions of WorkflowModel.dfy prescribe.
 */
module WorkflowEngine {
  import opened Prelude
  import opened WorkflowModel

  class Workflow {
    const chain: Chain
    var results: map<Id, Result>
    var log: seq<Call>
    var errors: seq<Error>
    var totalTokens: nat
    var branchDecisions: map<Id, bool>
    var activeCache: map<Id, bool>
    var begun: nat
    var crashed: bool

    function State(): Run
      reads this
    {
      Run(results, log, errors, totalTokens, branchDecisions, begun, crashed)
    }

    /** The chain is levelled and the memo of the branch resolver is right. */
    ghost predicate Valid()
      reads this
    {
      && Sound(chain)
      && forall id :: id in activeCache ==> id in chain.nodes && activeCache[id] == Active(chain, id)
    }

    constructor (c: Chain)
      requires Sound(c)
      ensures Valid() && chain == c && State() == FRESH
    {
      chain := c;
      results, log, errors, totalTokens := map[], [], [], 0;
      branchDecisions, activeCache, begun, crashed := map[], map[], 0, false;
    }

    method RecordDecision(id: Id, decision: bool)
      requires Valid()
      modifies this`branchDecisions, this`activeCache
      ensures Valid() && branchDecisions == old(branchDecisions)[id := decision]
    {
      branchDecisions := branchDecisions[id := decision];
      activeCache := map[];
    }

    method IsNodeActive(id: Id) returns (active: bool)
      requires Valid() && id in chain.nodes
      modifies this`activeCache
      ensures Valid() && active == Active(chain, id)
      decreases chain.rank[id]
    {
      hide Sound;
      if id in activeCache {
        return activeCache[id];
      }
      DepsAreLower(chain, id);
      var deps := chain.nodes[id].deps;
      var i := 0;
      while i < |deps|
        invariant 0 <= i <= |deps| && Valid()
        invariant forall d :: d in deps[..i] ==> Active(chain, d)
      {
        var a := IsNodeActive(deps[i]);
        if !a {
          activeCache := activeCache[id := false];
          return false;
        }
        i := i + 1;
      }
      assert deps[..i] == deps;
      activeCache := activeCache[id := true];
      return true;
    }

    method BuildNodeContext(id: Id) returns (ctx: Option<Ctx>)
      requires id in chain.nodes
      ensures ctx == BuildContext(chain, id, results)
    {
      var node := chain.nodes[id];
      var inputs: Ctx := map[];
      var ok := true;
      var todo := node.inputs.Keys;
      while todo != {}
        invariant todo <= node.inputs.Keys && inputs.Keys <= node.inputs.Keys - todo
        invariant ok <==> forall k :: k in node.inputs.Keys - todo ==> MappingValue(chain, node.inputs[k], results).Some?
        invariant ok ==> inputs.Keys == node.inputs.Keys - todo
        invariant forall k :: k in inputs ==> Some(inputs[k]) == MappingValue(chain, node.inputs[k], results)
        decreases todo
      {
        var k :| k in todo;
        todo := todo - {k};
        match MappingValue(chain, node.inputs[k], results) {
          case Some(v) => inputs := inputs[k := v];
          case None => ok := false;
        }
      }
      if !ok {
        return None;
      }
      assert inputs == map k | k in node.inputs :: MappingValue(chain, node.inputs[k], results).value;
      assert Some(inputs) == MappedInputs(chain, node, results);
      var exposed, i := inputs, 0;
      while i < |node.deps|
        invariant 0 <= i <= |node.deps|
        invariant Expose(node.deps, results, inputs) == Expose(node.deps[i..], results, exposed)
      {
        var d := node.deps[i];
        if Exposed(d, results) && d !in exposed {
          exposed := exposed[d := results[d].output];
        }
        i := i + 1;
      }
      return Some(WithMetadata(chain.metadata, exposed));
    }

    method InvokeNode(id: Id, extra: Ctx) returns (o: Outcome)
      requires id in chain.nodes
      modifies this`log
      ensures (o, log) == Invoke(chain, id, extra, results, old(log))
    {
      var ctx := BuildNodeContext(id);
      match ctx {
        case None => o := Raised(ContextErrorText(id));
        case Some(base) =>
          o := chain.exec(id, base + extra, History(log, id));
          log := log + [Call(id, o)];
      }
    }

    /** Run the nodes of a level; all of them read the same `results`. */
    method Gather(ids: seq<Id>) returns (gathered: seq<(Id, Outcome)>)
      requires forall id :: id in ids ==> id in chain.nodes
      modifies this`log
      ensures (gathered, log) == LevelOutcomes(chain, ids, results, old(log))
    {
      ghost var goal := LevelOutcomes(chain, ids, results, log);
      var rest := ids;
      gathered := [];
      assert gathered + goal.0 == goal.0;
      while rest != []
        invariant forall id :: id in rest ==> id in chain.nodes
        invariant goal.0 == gathered + LevelOutcomes(chain, rest, results, log).0
        invariant goal.1 == LevelOutcomes(chain, rest, results, log).1
        decreases |rest|
      {
        ghost var before := LevelOutcomes(chain, rest, results, log);
        var o := InvokeNode(rest[0], map[]);
        ghost var after := LevelOutcomes(chain, rest[1..], results, log);
        assert before == ([(rest[0], o)] + after.0, after.1);
        assert gathered + ([(rest[0], o)] + after.0) == (gathered + [(rest[0], o)]) + after.0;
        gathered := gathered + [(rest[0], o)];
        rest := rest[1..];
      }
      assert gathered + [] == gathered;
    }

    /** The level's results, with its recursive flows already played out. */
    method ExecuteLevel(ids: seq<Id>, ghost fuel: nat) returns (entries: seq<Entry>)
      requires Sound(chain) && forall id :: id in ids ==> id in chain.nodes
      requires PlayLevel(chain, fuel, ids, results, log).Some?
      modifies this`log, this`results
      ensures Some((entries, Mem(results, log))) == old(PlayLevel(chain, fuel, ids, results, log))
    {
      var gathered := Gather(ids);
      var rest := gathered;
      entries := [];
      while rest != []
        invariant Collect(gathered, []) == Collect(rest, entries)
        decreases |rest|
      {
        var e := Filed(rest[0].0, rest[0].1);
        entries := Put(entries, e.key, e.val);
        rest := rest[1..];
      }
      HandleRecursiveFlows(entries, fuel);
    }

    /** The sources that the entries of a level ask for, in schedule order. */
    method ScheduleFlows(entries: seq<Entry>) returns (pending: seq<Request>)
      ensures pending == Requests(chain, entries)
    {
      var rest := entries;
      pending := [];
      while rest != []
        invariant Requests(chain, entries) == pending + Requests(chain, rest)
        decreases |rest|
      {
        var e := rest[0];
        if Asks(chain, e.key, e.val) {
          var more := ScheduleSources(chain.nodes[e.key].sources, e.val.output.fields);
          pending := pending + more;
        }
        rest := rest[1..];
      }
    }

    method ScheduleSources(sources: seq<Id>, extra: Ctx) returns (pending: seq<Request>)
      ensures pending == SourceRequests(chain, sources, extra)
    {
      var rest := sources;
      pending := [];
      while rest != []
        invariant SourceRequests(chain, sources, extra) == pending + SourceRequests(chain, rest, extra)
        decreases |rest|
      {
        if rest[0] in chain.nodes {
          pending := pending + [Request(rest[0], extra)];
        }
        rest := rest[1..];
      }
    }

    method HandleRecursiveFlows(entries: seq<Entry>, ghost fuel: nat)
      requires RunRequests(chain, fuel, Requests(chain, entries), Mem(results, log)).Some?
      modifies this`log, this`results
      ensures Some(Mem(results, log)) == old(RunRequests(chain, fuel, Requests(chain, entries), Mem(results, log)))
      decreases fuel, 1
    {
      var pending := ScheduleFlows(entries);
      ghost var goal := RunRequests(chain, fuel, pending, Mem(results, log));
      while pending != []
        invariant forall q :: q in pending ==> q.id in chain.nodes
        invariant goal.Some? && goal == RunRequests(chain, fuel, pending, Mem(results, log))
        decreases |pending|
      {
        ExecuteRecursiveNode(pending[0], fuel);
        pending := pending[1..];
      }
    }

    method ExecuteRecursiveNode(q: Request, ghost fuel: nat)
      requires q.id in chain.nodes
      requires RunRequest(chain, fuel, q, Mem(results, log)).Some?
      modifies this`log, this`results
      ensures Some(Mem(results, log)) == old(RunRequest(chain, fuel, q, Mem(results, log)))
      decreases fuel, 0
    {
      var o := InvokeNode(q.id, q.extra);
      match o {
        case Raised(text) =>
          results := results[q.id := Failure(text)];
        case Returned(r) =>
          results := results[q.id := r];
          if Asks(chain, q.id, r) {
            HandleRecursiveFlows([Entry(q.id, r)], fuel - 1);
          }
      }
    }

    /** The bookkeeping of one recorded result; `stop` leaves the level's loop. */
    method RecordResult(key: Id, r: Result) returns (stop: bool)
      requires Valid() && !crashed
      modifies this
      ensures Valid()
      ensures (State(), stop) == RecordEntry(chain, Entry(key, r), old(State()))
    {
      hide Sound, Active, Note;
      results := results[key := r];
      if r.success && r.usage.Some? {
        totalTokens := totalTokens + r.usage.value;
        if !chain.tokenGuard(totalTokens, chain.tokenCeiling) {
          errors := errors + [TokenGuardAborted];
          return true;
        }
        if chain.tokenCeiling.Some? && totalTokens > chain.tokenCeiling.value {
          errors := errors + [TokenCeilingExceeded];
          return true;
        }
      }
      NoteResult(key, r);
      return crashed;
    }

    /** Branch decision and failure message of one recorded result. */
    method NoteResult(key: Id, r: Result)
      requires Valid() && !crashed
      modifies this
      ensures Valid() && State() == Note(chain, Entry(key, r), old(State()))
    {
      if key !in chain.nodes {
        crashed := true;
        return;
      }
      if chain.nodes[key].kind.Condition? && r.output.Dict? && "result" in r.output.fields {
        RecordDecision(key, Truthy(r.output.fields["result"]));
      }
      if !r.success {
        errors := errors + [NodeFailed(key, r.error)];
      }
    }

    method RecordLevel(entries: seq<Entry>)
      requires Valid() && !crashed
      modifies this
      ensures Valid() && State() == Record(chain, entries, old(State()))
    {
      ghost var goal := Record(chain, entries, State());
      var rest := entries;
      while rest != []
        invariant Valid() && !crashed
        invariant goal == Record(chain, rest, State())
        decreases |rest|
      {
        var stop := RecordResult(rest[0].key, rest[0].val);
        if stop {
          return;
        }
        rest := rest[1..];
      }
    }

    /** The nodes of a level that the branch resolver lets through. */
    method ActiveNodes(ids: seq<Id>) returns (active: seq<Id>)
      requires Valid() && forall id :: id in ids ==> id in chain.nodes
      modifies this`activeCache
      ensures Valid() && active == ActiveIds(chain, ids)
    {
      hide Active, Sound;
      var rest := ids;
      active := [];
      while rest != []
        invariant Valid() && forall id :: id in rest ==> id in chain.nodes
        invariant ActiveIds(chain, ids) == active + ActiveIds(chain, rest)
        decreases |rest|
      {
        ghost var after := ActiveIds(chain, rest[1..]);
        var a := IsNodeActive(rest[0]);
        if a {
          assert active + ([rest[0]] + after) == (active + [rest[0]]) + after;
          active := active + [rest[0]];
        } else {
          assert [] + after == after;
        }
        rest := rest[1..];
      }
    }

    /** Run level `i`: gate, execute, record. */
    method RunOneLevel(i: nat, ghost fuel: nat)
      requires Valid() && !crashed && i < |chain.levels|
      requires RunLevel(chain, fuel, chain.levels[i], State()).Some?
      modifies this
      ensures Valid() && Some(State()) == RunLevel(chain, fuel, chain.levels[i], old(State()))
    {
      hide LevelOutcomes, RunRequests, Record, ActiveIds;
      ghost var before := State();
      var active := ActiveNodes(chain.levels[i]);
      begun := begun + 1;
      var entries := ExecuteLevel(active, fuel);
      assert PlayLevel(chain, fuel, active, before.results, before.log) == Some((entries, Mem(results, log)));
      assert State() == before.(results := results, log := log, begun := before.begun + 1);
      RecordLevel(entries);
    }

    /**
      One whole run; `fuel` only bounds the nesting of recursive flows.  Results and
      errors start empty; the token total and the decisions stay with the object.
     */
    method Execute(ghost fuel: nat)
      requires Valid()
      requires RunLevels(chain, fuel, 0, Restarted(State())).Some?
      modifies this
      ensures Valid() && Some(State()) == RunLevels(chain, fuel, 0, Restarted(old(State())))
      ensures old(State()) == FRESH ==> Some(State()) == ExecuteChain(chain, fuel)
    {
      hide RunLevel, ShouldContinue, Active, ActiveIds, Sound;
      ghost var goal := RunLevels(chain, fuel, 0, Restarted(State()));
      results, errors, begun, crashed := map[], [], 0, false;
      var i := 0;
      while i < |chain.levels|
        invariant 0 <= i <= |chain.levels| && Valid() && !crashed
        invariant goal == RunLevels(chain, fuel, i, State())
      {
        if !chain.depthGuard(i + 1, chain.depthCeiling) {
          errors := errors + [DepthGuardAborted];
          return;
        }
        if chain.depthCeiling.Some? && i + 1 > chain.depthCeiling.value {
          errors := errors + [DepthCeilingReached];
          return;
        }
        RunOneLevel(i, fuel);
        if crashed || (errors != [] && !ShouldContinue(chain, errors)) {
          return;
        }
        i := i + 1;
      }
    }

    /** The `output` field of the run: one JSON value per recorded result. */
    method Serialize() returns (out: map<Id, Json>)
      ensures out.Keys == results.Keys
      ensures forall id :: id in results ==> out[id] == Serialized(results[id])
    {
      out := map[];
      var todo := results.Keys;
      while todo != {}
        invariant todo <= results.Keys && out.Keys == results.Keys - todo
        invariant forall id :: id in out ==> out[id] == Serialized(results[id])
        decreases todo
      {
        var id :| id in todo;
        todo := todo - {id};
        var r := results[id];
        if r.success && r.output != Null {
          out := out[id := r.output];
        } else {
          var merged: Ctx := map[];
          if r.output.Dict? {
            merged := r.output.fields;
          }
          merged := merged + map["success" := Bool(false),
                                 "error" := Str(if r.error != "" then r.error else "Unknown error")];
          out := out[id := Dict(merged)];
        }
      }
    }
  }
}
