/**
  A failing node can take the whole run down.

  The gathering step means to turn every exception into a failed result of its
  node, but it files it under the exception's text.  A node whose mapped
  dependency failed raises while its context is built, so the recording loop then
  looks up an id that does not exist.
 */
module WorkflowCrash {
  import opened Prelude
  import opened WorkflowModel
  import opened WorkflowSequential

  /** A context cannot be built exactly when some mapping cannot be served. */
  lemma ContextFailsExactly(c: Chain, id: Id, results: map<Id, Result>)
    requires id in c.nodes
    ensures BuildContext(c, id, results).None? <==>
      exists k :: k in c.nodes[id].inputs && Unserved(c, c.nodes[id].inputs[k], results)
  {
    var node := c.nodes[id];
    assert forall k :: k in node.inputs ==>
      (Unserved(c, node.inputs[k], results) <==> MappingValue(c, node.inputs[k], results).None?);
  }

  /** The mapping's source is missing or failed, or its output lacks the path. */
  predicate Unserved(c: Chain, mp: Mapping, results: map<Id, Result>) {
    && mp.From?
    && (mp.source !in results || !results[mp.source].success
        || c.resolve(results[mp.source].output, mp.path).None?)
  }

  /**
    Once a level is reached in which some node's mapping cannot be served, the run
    crashes (unless a token limit fires on an earlier entry of the level).
   */
  lemma UnservedMappingCrashes(c: Chain, fuel: nat, i: nat, s: Run, id: Id, k: string)
    requires Sound(c) && NoRecursion(c) && ForeignTexts(c)
    requires i < |c.levels| && AtLevel(c, i, s) && id in c.levels[i] && DepthStop(c, i + 1).None?
    requires k in c.nodes[id].inputs && Unserved(c, c.nodes[id].inputs[k], s.results)
    requires RunLevels(c, fuel, i, s).Some? && NoTokenStop(RunLevels(c, fuel, i, s).value.errors)
    ensures RunLevels(c, fuel, i, s).value.crashed
  {
    hide Record, Sound, RunLevel, EntriesOf, BeforeRecord, BuildContext;
    LevelInNodes(c, i);
    ContextFailsExactly(c, id, s.results);
    PlainLevel(c, fuel, i, s);
    ErrorsGrow(c, fuel, i + 1, RunLevel(c, fuel, c.levels[i], s).value);
    RaisingLevel(c, i, s, id);
  }

  const BAD := Result(false, Null, "boom", None)

  /** Node `a` fails and `bb` maps an input from it; nothing stops the run between the levels. */
  function Example(): Chain {
    Chain(map["a" := Node(Plain, [], map[], []), "bb" := Node(Plain, ["a"], map["x" := From("a", "x")], [])],
          [["a"], ["bb"]], map["a" := 0, "bb" := 1], map[], Always, None, None,
          (id: Id, ctx: Ctx, h: seq<Outcome>) => Returned(BAD),
          (j: Json, path: string) => None,
          (t: nat, ceiling: Option<int>) => true, (d: nat, ceiling: Option<int>) => true)
  }

  lemma TwoLevelsAreSound(c: Chain, a: Id, b: Id)
    requires a != b && c.levels == [[a], [b]] && c.rank == map[a := 0, b := 1]
    requires c.nodes.Keys == {a, b} && c.nodes[a].deps == [] && c.nodes[a].inputs == map[] && c.nodes[b].deps == [a]
    requires forall k :: k in c.nodes[b].inputs && c.nodes[b].inputs[k].From? ==> c.nodes[b].inputs[k].source == a
    ensures Sound(c)
  {
  }

  lemma ExampleIsSound()
    ensures Sound(Example())
  {
    hide Sound;
    TwoLevelsAreSound(Example(), "a", "bb");
  }

  lemma ExampleIsPlain()
    ensures NoRecursion(Example()) && ForeignTexts(Example())
  {
    assert forall id :: |ContextErrorText(id)| > 3;
  }

  lemma ExampleFirstLevel()
    ensures Sound(Example()) && RunLevel(Example(), 0, ["a"], FRESH).Some?
    ensures AtLevel(Example(), 1, RunLevel(Example(), 0, ["a"], FRESH).value)
    ensures NoTokenStop(RunLevel(Example(), 0, ["a"], FRESH).value.errors)
    ensures RunLevel(Example(), 0, ["a"], FRESH).value.results == map["a" := BAD]
  {
    hide Record, Sound, EntriesOf, LevelOutcomes, RunLevel, Spent, Decision, FailuresMatch, DecisionsMatch;
    var c := Example();
    ExampleIsSound();
    ExampleIsPlain();
    PlainLevel(c, 0, 0, FRESH);
    NoTokenLimitRecord(c, EntriesOf(c, 0, FRESH), BeforeRecord(c, 0, FRESH));
    FreshAtLevel(c);
    var r := map["a" := BAD];
    ReturningLevel(c, 0, FRESH, r);
  }

  /** Under the policy that always continues, a failed dependency crashes the run. */
  lemma FailedDependencyCrashesRun()
    ensures Sound(Example()) && ExecuteChain(Example(), 0).Some?
    ensures ExecuteChain(Example(), 0).value.crashed
  {
    hide Record, RunLevel, Sound;
    var c := Example();
    ExampleIsSound();
    ExampleIsPlain();
    ExampleFirstLevel();
    var s := RunLevel(c, 0, c.levels[0], FRESH).value;
    ErrorsGrow(c, 0, 1, s);
    NoTokenLimit(c, 0, 1, s);
    UnservedMappingCrashes(c, 0, 1, s, "bb", "x");
    assert ExecuteChain(c, 0) == RunLevels(c, 0, 1, s);
  }

  /** Without a ceiling and with a permissive guard no token error ever appears. */
  lemma {:induction false} NoTokenLimit(c: Chain, fuel: nat, i: nat, s: Run)
    requires Sound(c) && NoRecursion(c) && i <= |c.levels| && NoTokenStop(s.errors)
    requires forall t :: TokenStop(c, t).None?
    requires RunLevels(c, fuel, i, s).Some?
    ensures NoTokenStop(RunLevels(c, fuel, i, s).value.errors)
    decreases |c.levels| - i
  {
    hide Sound, Record, RunLevel;
    if i < |c.levels| && DepthStop(c, i + 1).None? {
      LevelInNodes(c, i);
      PlainLevel(c, fuel, i, s);
      NoTokenLimitRecord(c, EntriesOf(c, i, s), BeforeRecord(c, i, s));
      ErrorsGrow(c, fuel, i + 1, RunLevel(c, fuel, c.levels[i], s).value);
      NoTokenLimit(c, fuel, i + 1, RunLevel(c, fuel, c.levels[i], s).value);
    }
  }

  lemma {:induction false} NoTokenLimitRecord(c: Chain, entries: seq<Entry>, s: Run)
    requires NoTokenStop(s.errors) && forall t :: TokenStop(c, t).None?
    ensures NoTokenStop(Record(c, entries, s).errors)
  {
    if entries != [] {
      NoTokenLimitRecord(c, entries[1..], RecordEntry(c, entries[0], s).0);
    }
  }
}
