/**
  What one run of the level-parallel engine means, as functions on values.

  A chain is a set of nodes arranged in levels.  Levels run in order; every node
  of a level reads the results recorded before that level.  The class in
  WorkflowEngine.dfy runs these steps in place and is proved equal to them.
 */
module WorkflowModel {
  import opened Prelude

  type Id = string
  type Ctx = map<string, Json>

  datatype Json =
    | Null
    | Bool(b: bool)
    | Num(n: int)
    | Str(s: string)
    | List(items: seq<Json>)
    | Dict(fields: map<string, Json>)

  /** Python truthiness of a JSON value. */
  predicate Truthy(j: Json) {
    match j
    case Null => false
    case Bool(b) => b
    case Num(n) => n != 0
    case Str(s) => s != ""
    case List(items) => items != []
    case Dict(fields) => fields != map[]
  }

  predicate Flag(fields: Ctx, key: string) {
    key in fields && Truthy(fields[key])
  }

  /** A node's result; `usage` is the token count when the node reported one. */
  datatype Result = Result(success: bool, output: Json, error: string, usage: Option<nat>)

  datatype Outcome = Returned(result: Result) | Raised(text: string)

  datatype Mapping = Literal(value: Json) | From(source: Id, path: string)

  datatype Kind = Plain | Condition | Recursive

  datatype Node = Node(kind: Kind, deps: seq<Id>, inputs: map<string, Mapping>, sources: seq<Id>)

  datatype Policy = Halt | ContinuePossible | Always

  /** One call of the node executor. */
  datatype Call = Call(id: Id, outcome: Outcome)

  /**
    The immutable part of a workflow.  `exec` stands for the node executor: its
    last argument is the list of outcomes the same node produced earlier in the
    run, so an executor may keep state per node.  `resolve` follows a dotted path
    into an output and may fail.
   */
  datatype Chain = Chain(
    nodes: map<Id, Node>,
    levels: seq<seq<Id>>,
    rank: map<Id, nat>,
    metadata: Ctx,
    policy: Policy,
    tokenCeiling: Option<int>,
    depthCeiling: Option<int>,
    exec: (Id, Ctx, seq<Outcome>) -> Outcome,
    resolve: (Json, string) -> Option<Json>,
    tokenGuard: (nat, Option<int>) -> bool,
    depthGuard: (nat, Option<int>) -> bool
  )

  /**
    What the dependency graph and the schema check guarantee before a run: the
    levels list every node exactly once, dependencies lie at strictly lower
    levels, and input mappings read direct dependencies only.
   */
  ghost predicate Sound(c: Chain) {
    && c.rank.Keys == c.nodes.Keys
    && (forall id :: id in c.nodes ==> c.rank[id] < |c.levels| && id in c.levels[c.rank[id]])
    && (forall i, id :: 0 <= i < |c.levels| && id in c.levels[i] ==> id in c.nodes && c.rank[id] == i)
    && (forall i :: 0 <= i < |c.levels| ==> Distinct(c.levels[i]))
    && (forall id, d :: id in c.nodes && d in c.nodes[id].deps ==> d in c.nodes && c.rank[d] < c.rank[id])
    && (forall id, k :: id in c.nodes && k in c.nodes[id].inputs && c.nodes[id].inputs[k].From? ==>
          c.nodes[id].inputs[k].source in c.nodes[id].deps)
  }

  // ----- contexts ----------------------------------------------------------

  function MappingValue(c: Chain, mp: Mapping, results: map<Id, Result>): Option<Json> {
    match mp
    case Literal(v) => Some(v)
    case From(src, path) =>
      if src in results && results[src].success then c.resolve(results[src].output, path) else None
  }

  /** The explicit inputs of a node, or None when the context builder raises. */
  function MappedInputs(c: Chain, node: Node, results: map<Id, Result>): Option<Ctx> {
    if forall k | k in node.inputs :: MappingValue(c, node.inputs[k], results).Some? then
      Some(map k | k in node.inputs :: MappingValue(c, node.inputs[k], results).value)
    else
      None
  }

  predicate Exposed(id: Id, results: map<Id, Result>) {
    id in results && results[id].success && results[id].output != Null
  }

  /** Dependency outputs under their node ids; keys already present win. */
  function Expose(deps: seq<Id>, results: map<Id, Result>, ctx: Ctx): Ctx {
    if deps == [] then ctx
    else
      var d := deps[0];
      Expose(deps[1..], results,
             if Exposed(d, results) && d !in ctx then ctx[d := results[d].output] else ctx)
  }

  /** Session metadata below everything else, its `inputs` also flattened. */
  function WithMetadata(md: Ctx, ctx: Ctx): Ctx {
    if "inputs" in md && md["inputs"].Dict? then
      map["inputs" := md["inputs"]] + md["inputs"].fields + md + ctx
    else
      md + ctx
  }

  function BuildContext(c: Chain, id: Id, results: map<Id, Result>): Option<Ctx>
    requires id in c.nodes
  {
    match MappedInputs(c, c.nodes[id], results)
    case None => None
    case Some(inputs) => Some(WithMetadata(c.metadata, Expose(c.nodes[id].deps, results, inputs)))
  }

  function ContextErrorText(id: Id): string {
    "Node '" + id + "' context validation failed"
  }

  // ----- calls of the executor ----------------------------------------------

  function History(log: seq<Call>, id: Id): seq<Outcome> {
    if log == [] then []
    else
      var last := log[|log| - 1];
      History(log[..|log| - 1], id) + (if last.id == id then [last.outcome] else [])
  }

  function CallIds(log: seq<Call>): seq<Id> {
    seq(|log|, i requires 0 <= i < |log| => log[i].id)
  }

  /** Build the context and, if that does not raise, call the executor. */
  function Invoke(c: Chain, id: Id, extra: Ctx, results: map<Id, Result>, log: seq<Call>): (r: (Outcome, seq<Call>))
    requires id in c.nodes
  {
    match BuildContext(c, id, results)
    case None => (Raised(ContextErrorText(id)), log)
    case Some(ctx) =>
      var o := c.exec(id, ctx + extra, History(log, id));
      (o, log + [Call(id, o)])
  }

  // ----- one level ------------------------------------------------------------

  /** The branch resolver: a node is active when all its dependencies are. */
  predicate Active(c: Chain, id: Id)
    requires Sound(c) && id in c.nodes
    decreases c.rank[id]
  {
    forall d | d in c.nodes[id].deps :: Active(c, d)
  }

  function ActiveIds(c: Chain, ids: seq<Id>): (r: seq<Id>)
    requires Sound(c) && forall id | id in ids :: id in c.nodes
    ensures forall id :: id in r ==> id in ids
  {
    if ids == [] then []
    else (if Active(c, ids[0]) then [ids[0]] else []) + ActiveIds(c, ids[1..])
  }

  /** Outcomes of the nodes `ids`, all reading the same `results`. */
  function LevelOutcomes(c: Chain, ids: seq<Id>, results: map<Id, Result>, log: seq<Call>): (r: (seq<(Id, Outcome)>, seq<Call>))
    requires forall id | id in ids :: id in c.nodes
    ensures |r.0| == |ids|
  {
    if ids == [] then ([], log)
    else
      var (o, log1) := Invoke(c, ids[0], map[], results, log);
      var (rest, log2) := LevelOutcomes(c, ids[1..], results, log1);
      ([(ids[0], o)] + rest, log2)
  }

  /** An entry of the insertion-ordered dictionary of level results. */
  datatype Entry = Entry(key: Id, val: Result)

  predicate HasKey(d: seq<Entry>, k: Id) {
    exists i :: 0 <= i < |d| && d[i].key == k
  }

  /** Dictionary assignment: overwrite in place, or append. */
  function Put(d: seq<Entry>, k: Id, v: Result): seq<Entry> {
    if d == [] then [Entry(k, v)]
    else if d[0].key == k then [Entry(k, v)] + d[1..]
    else [d[0]] + Put(d[1..], k, v)
  }

  /** A raised exception is filed under its own text, not under its node. */
  function Filed(id: Id, o: Outcome): Entry {
    match o
    case Returned(r) => Entry(id, r)
    case Raised(text) => Entry(text, Result(false, Null, "Unexpected gather payload: " + text, None))
  }

  function Collect(outs: seq<(Id, Outcome)>, d: seq<Entry>): seq<Entry> {
    if outs == [] then d
    else
      var e := Filed(outs[0].0, outs[0].1);
      Collect(outs[1..], Put(d, e.key, e.val))
  }

  // ----- recursive flows ------------------------------------------------------

  /** Does this result ask the engine to run the node's recursive sources? */
  predicate Asks(c: Chain, id: Id, r: Result) {
    && id in c.nodes
    && c.nodes[id].kind.Recursive?
    && r.output.Dict?
    && Flag(r.output.fields, "_can_recurse")
    && !Flag(r.output.fields, "converged")
  }

  datatype Request = Request(id: Id, extra: Ctx)

  function SourceRequests(c: Chain, sources: seq<Id>, extra: Ctx): (r: seq<Request>)
    ensures |r| <= |sources|
    ensures forall q :: q in r ==> q.id in c.nodes && q.id in sources && q.extra == extra
  {
    if sources == [] then []
    else (if sources[0] in c.nodes then [Request(sources[0], extra)] else []) + SourceRequests(c, sources[1..], extra)
  }

  function Requests(c: Chain, entries: seq<Entry>): (r: seq<Request>)
    ensures forall q :: q in r ==> q.id in c.nodes
  {
    if entries == [] then []
    else
      var e := entries[0];
      (if Asks(c, e.key, e.val) then SourceRequests(c, c.nodes[e.key].sources, e.val.output.fields) else [])
      + Requests(c, entries[1..])
  }

  datatype Mem = Mem(results: map<Id, Result>, log: seq<Call>)

  /**
    Execute the scheduled sources in order, each followed by the flows it asks
    for itself.  None means that the nesting went deeper than `fuel`; a run that
    ends does so with the same answer for every larger fuel.
   */
  function RunRequests(c: Chain, fuel: nat, reqs: seq<Request>, m: Mem): Option<Mem>
    requires forall q :: q in reqs ==> q.id in c.nodes
    decreases fuel, 1, |reqs|
  {
    if reqs == [] then Some(m)
    else
      match RunRequest(c, fuel, reqs[0], m)
      case None => None
      case Some(m1) => RunRequests(c, fuel, reqs[1..], m1)
  }

  function Failure(text: string): Result {
    Result(false, Null, text, None)
  }

  function RunRequest(c: Chain, fuel: nat, q: Request, m: Mem): Option<Mem>
    requires q.id in c.nodes
    decreases fuel, 0, 0
  {
    var (o, log) := Invoke(c, q.id, q.extra, m.results, m.log);
    match o
    case Raised(text) => Some(Mem(m.results[q.id := Failure(text)], log))
    case Returned(r) =>
      var m1 := Mem(m.results[q.id := r], log);
      if !Asks(c, q.id, r) then Some(m1)
      else if fuel == 0 then None
      else RunRequests(c, fuel - 1, Requests(c, [Entry(q.id, r)]), m1)
  }

  // ----- recording and the main loop --------------------------------------------

  datatype Error =
    | DepthGuardAborted
    | DepthCeilingReached
    | TokenGuardAborted
    | TokenCeilingExceeded
    | NodeFailed(id: Id, text: string)

  /** `begun` counts the levels entered; `crashed` is an escaping KeyError. */
  datatype Run = Run(
    results: map<Id, Result>,
    log: seq<Call>,
    errors: seq<Error>,
    tokens: nat,
    decisions: map<Id, bool>,
    begun: nat,
    crashed: bool
  )

  const FRESH := Run(map[], [], [], 0, map[], 0, false)

  /** The token error raised by a total of `tokens`, if any. */
  function TokenStop(c: Chain, tokens: nat): Option<Error> {
    if !c.tokenGuard(tokens, c.tokenCeiling) then Some(TokenGuardAborted)
    else if c.tokenCeiling.Some? && tokens > c.tokenCeiling.value then Some(TokenCeilingExceeded)
    else None
  }

  /** Branch decision and failure bookkeeping for one recorded entry. */
  function Note(c: Chain, e: Entry, s: Run): Run {
    if e.key !in c.nodes then s.(crashed := true)
    else
      var s1 := if c.nodes[e.key].kind.Condition? && e.val.output.Dict? && "result" in e.val.output.fields
                then s.(decisions := s.decisions[e.key := Truthy(e.val.output.fields["result"])])
                else s;
      if e.val.success then s1 else s1.(errors := s1.errors + [NodeFailed(e.key, e.val.error)])
  }

  /** Record one entry; the flag is true when the recording loop ends here. */
  function RecordEntry(c: Chain, e: Entry, s: Run): (Run, bool) {
    var s1 := s.(results := s.results[e.key := e.val]);
    var counted := e.val.success && e.val.usage.Some?;
    var s2 := if counted then s1.(tokens := s1.tokens + e.val.usage.value) else s1;
    if counted && TokenStop(c, s2.tokens).Some? then
      (s2.(errors := s2.errors + [TokenStop(c, s2.tokens).value]), true)
    else
      var s3 := Note(c, e, s2);
      (s3, s3.crashed)
  }

  /** Record a level's entries in order; a token stop drops the remaining ones. */
  function Record(c: Chain, entries: seq<Entry>, s: Run): Run {
    if entries == [] then s
    else
      var (s1, stop) := RecordEntry(c, entries[0], s);
      if stop then s1 else Record(c, entries[1..], s1)
  }

  function FailedIds(errors: seq<Error>): set<Id> {
    set i | 0 <= i < |errors| && errors[i].NodeFailed? :: errors[i].id
  }

  /** ChainValidator.should_continue */
  predicate ShouldContinue(c: Chain, errors: seq<Error>) {
    || errors == []
    || c.policy == Always
    || (c.policy == ContinuePossible &&
        exists i, id {:trigger id in c.levels[i]} | 0 <= i < |c.levels| && id in c.levels[i] ::
          && id !in FailedIds(errors)
          && (id in c.nodes ==> forall d | d in c.nodes[id].deps :: d !in FailedIds(errors)))
  }

  /** The entries of a level, and the memory after its recursive flows. */
  function PlayLevel(c: Chain, fuel: nat, ids: seq<Id>, results: map<Id, Result>, log: seq<Call>): Option<(seq<Entry>, Mem)>
    requires forall id | id in ids :: id in c.nodes
  {
    var (outs, log1) := LevelOutcomes(c, ids, results, log);
    var entries := Collect(outs, []);
    match RunRequests(c, fuel, Requests(c, entries), Mem(results, log1))
    case None => None
    case Some(m) => Some((entries, m))
  }

  function RunLevel(c: Chain, fuel: nat, ids: seq<Id>, s: Run): Option<Run>
    requires Sound(c) && forall id | id in ids :: id in c.nodes
  {
    match PlayLevel(c, fuel, ActiveIds(c, ids), s.results, s.log)
    case None => None
    case Some((entries, m)) =>
      Some(Record(c, entries, s.(results := m.results, log := m.log, begun := s.begun + 1)))
  }

  /** The depth error that keeps level number `idx` (from 1) from starting. */
  function DepthStop(c: Chain, idx: nat): Option<Error> {
    if !c.depthGuard(idx, c.depthCeiling) then Some(DepthGuardAborted)
    else if c.depthCeiling.Some? && idx > c.depthCeiling.value then Some(DepthCeilingReached)
    else None
  }

  predicate Proceeds(c: Chain, s: Run) {
    !s.crashed && (s.errors == [] || ShouldContinue(c, s.errors))
  }

  function RunLevels(c: Chain, fuel: nat, i: nat, s: Run): Option<Run>
    requires Sound(c) && i <= |c.levels|
    decreases |c.levels| - i
  {
    if i == |c.levels| then Some(s)
    else if DepthStop(c, i + 1).Some? then Some(s.(errors := s.errors + [DepthStop(c, i + 1).value]))
    else
      match RunLevel(c, fuel, c.levels[i], s)
      case None => None
      case Some(s1) => if Proceeds(c, s1) then RunLevels(c, fuel, i + 1, s1) else Some(s1)
  }

  /** The state in which a run of the same object starts. */
  function Restarted(s: Run): Run {
    FRESH.(log := s.log, tokens := s.tokens, decisions := s.decisions)
  }

  /** A first run. */
  function ExecuteChain(c: Chain, fuel: nat): Option<Run>
    requires Sound(c)
  {
    RunLevels(c, fuel, 0, FRESH)
  }

  /** A result as the `output` field of the run shows it. */
  function Serialized(r: Result): Json {
    if r.success && r.output != Null then r.output
    else
      Dict((if r.output.Dict? then r.output.fields else map[])
           + map["success" := Bool(false), "error" := Str(if r.error != "" then r.error else "Unknown error")])
  }

  /** A result is shown as its output, or as a failure that its own fields cannot hide. */
  lemma SerializedShows(r: Result)
    ensures r.success && r.output != Null ==> Serialized(r) == r.output
    ensures !(r.success && r.output != Null) ==>
      && Serialized(r).Dict?
      && var shown := Serialized(r).fields;
      && "success" in shown && shown["success"] == Bool(false)
      && "error" in shown && shown["error"] == Str(if r.error == "" then "Unknown error" else r.error)
      && forall k :: k !in {"success", "error"} ==>
           if r.output.Dict? && k in r.output.fields then k in shown && shown[k] == r.output.fields[k] else k !in shown
  {
    assert "success" != "error";
  }

  /** Only null, false, zero and empty values are not truthy. */
  lemma FalsyExactly(j: Json)
    ensures !Truthy(j) <==>
      j == Null || j == Bool(false) || j == Num(0) || j == Str("") || j == List([]) || j == Dict(map[])
  {
  }

  /** Branch gating never gates: on a levelled graph every node is active. */
  lemma {:induction false} EveryNodeActive(c: Chain, id: Id)
    requires Sound(c) && id in c.nodes
    ensures Active(c, id)
    decreases c.rank[id]
  {
    forall d | d in c.nodes[id].deps
      ensures Active(c, d)
    {
      EveryNodeActive(c, d);
    }
  }

  lemma {:induction false} AllActive(c: Chain, ids: seq<Id>)
    requires Sound(c) && forall id | id in ids :: id in c.nodes
    ensures ActiveIds(c, ids) == ids
  {
    if ids != [] {
      EveryNodeActive(c, ids[0]);
      AllActive(c, ids[1..]);
      assert ids == [ids[0]] + ids[1..];
    }
  }

  lemma DepsAreLower(c: Chain, id: Id)
    requires Sound(c) && id in c.nodes
    ensures forall d :: d in c.nodes[id].deps ==> d in c.nodes && d in c.rank && c.rank[d] < c.rank[id]
  {
  }

  lemma LevelInNodes(c: Chain, i: nat)
    requires Sound(c) && i < |c.levels|
    ensures Distinct(c.levels[i])
    ensures forall id :: id in c.levels[i] ==> id in c.nodes && id in c.rank && c.rank[id] == i
    ensures forall id :: id in c.nodes && id in c.rank && c.rank[id] == i ==> id in c.levels[i]
  {
  }

  /** Recording changes neither the call log nor the level count. */
  lemma {:induction false} RecordFrame(c: Chain, entries: seq<Entry>, s: Run)
    ensures Record(c, entries, s).log == s.log && Record(c, entries, s).begun == s.begun
  {
    if entries != [] {
      RecordFrame(c, entries[1..], RecordEntry(c, entries[0], s).0);
    }
  }
}
