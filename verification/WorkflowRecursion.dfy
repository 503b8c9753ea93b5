/**
  Recursive flows: when they end, what they cost and what they touch.

  A recursive node asks to continue by its output; the engine then runs the
  node's sources, which may be recursive themselves.  Nothing here assumes that
  the executor is stateless.
 */
module WorkflowRecursion {
  import opened Prelude
  import opened WorkflowModel
  import opened WorkflowSequential
  import opened WorkflowContext

  predicate AskingOutcome(c: Chain, id: Id, o: Outcome) {
    o.Returned? && Asks(c, id, o.result)
  }

  function AskCount(c: Chain, id: Id, h: seq<Outcome>): nat {
    if h == [] then 0
    else AskCount(c, id, h[..|h| - 1]) + (if AskingOutcome(c, id, h[|h| - 1]) then 1 else 0)
  }

  function Asked(c: Chain, id: Id, log: seq<Call>): nat {
    AskCount(c, id, History(log, id))
  }

  /** Node `id` asks to continue at most `b[id]` times in a run. */
  ghost predicate Bounded(c: Chain, b: map<Id, nat>) {
    && b.Keys == c.nodes.Keys
    && forall id, ctx, h :: id in c.nodes && AskingOutcome(c, id, c.exec(id, ctx, h)) ==> AskCount(c, id, h) < b[id]
  }

  ghost predicate InBudget(c: Chain, b: map<Id, nat>, log: seq<Call>) {
    b.Keys == c.nodes.Keys && forall id :: id in c.nodes ==> Asked(c, id, log) <= b[id]
  }

  /** `ids` names every node; the sums below run over it. */
  ghost predicate Covers(c: Chain, ids: seq<Id>) {
    forall id :: id in ids <==> id in c.nodes
  }

  /** What one more ask of `id` costs: its sources, or (in units) itself. */
  function Weight(c: Chain, id: Id, units: bool): nat
    requires id in c.nodes
  {
    if units then 1 else |c.nodes[id].sources|
  }

  /** The asks still available, weighted. */
  function Potential(c: Chain, b: map<Id, nat>, log: seq<Call>, ids: seq<Id>, units: bool): nat
    requires forall id :: id in ids ==> id in c.nodes && id in b && Asked(c, id, log) <= b[id]
  {
    if ids == [] then 0
    else (b[ids[0]] - Asked(c, ids[0], log)) * Weight(c, ids[0], units) + Potential(c, b, log, ids[1..], units)
  }

  lemma AskedAppend(c: Chain, id: Id, log: seq<Call>, call: Call)
    ensures Asked(c, id, log + [call]) ==
      Asked(c, id, log) + (if call.id == id && AskingOutcome(c, id, call.outcome) then 1 else 0)
  {
    assert (log + [call])[..|log|] == log;
    var h := History(log, id);
    assert (h + [call.outcome])[..|h|] == h;
    assert h + [] == h;
  }

  lemma {:induction false} PotentialDrops(c: Chain, b: map<Id, nat>, log: seq<Call>, call: Call, ids: seq<Id>, units: bool)
    requires call.id in c.nodes
    requires forall id :: id in ids ==> id in c.nodes && id in b && Asked(c, id, log + [call]) <= b[id]
    requires forall id :: id in ids ==> Asked(c, id, log) <= b[id]
    ensures Potential(c, b, log + [call], ids, units)
      + (if call.id in ids && AskingOutcome(c, call.id, call.outcome) then Weight(c, call.id, units) else 0)
      <= Potential(c, b, log, ids, units)
  {
    hide Asked, AskingOutcome;
    if ids != [] {
      AskedAppend(c, ids[0], log, call);
      PotentialDrops(c, b, log, call, ids[1..], units);
      var w := Weight(c, ids[0], units);
      var left := b[ids[0]] - Asked(c, ids[0], log);
      assert (left - 1) * w == left * w - w;
    }
  }

  ghost function Units(c: Chain, b: map<Id, nat>, log: seq<Call>, ids: seq<Id>): nat
    requires InBudget(c, b, log) && Covers(c, ids)
  {
    Potential(c, b, log, ids, true)
  }

  ghost function Sources(c: Chain, b: map<Id, nat>, log: seq<Call>, ids: seq<Id>): nat
    requires InBudget(c, b, log) && Covers(c, ids)
  {
    Potential(c, b, log, ids, false)
  }

  /** One call of the executor pays for what it asks. */
  lemma InvokePays(c: Chain, b: map<Id, nat>, ids: seq<Id>, id: Id, extra: Ctx, results: map<Id, Result>, log: seq<Call>)
    requires Bounded(c, b) && InBudget(c, b, log) && Covers(c, ids) && id in c.nodes
    ensures var (o, log1) := Invoke(c, id, extra, results, log);
      && InBudget(c, b, log1) && log <= log1 && |log1| <= |log| + 1
      && Units(c, b, log1, ids) + (if AskingOutcome(c, id, o) then 1 else 0) <= Units(c, b, log, ids)
      && Sources(c, b, log1, ids) + (if AskingOutcome(c, id, o) then |c.nodes[id].sources| else 0) <= Sources(c, b, log, ids)
  {
    hide BuildContext;
    var (o, log1) := Invoke(c, id, extra, results, log);
    if BuildContext(c, id, results).Some? {
      CallPays(c, b, ids, log, Call(id, o));
    }
  }

  lemma CallPays(c: Chain, b: map<Id, nat>, ids: seq<Id>, log: seq<Call>, call: Call)
    requires InBudget(c, b, log) && Covers(c, ids) && call.id in c.nodes
    requires AskingOutcome(c, call.id, call.outcome) ==> Asked(c, call.id, log) < b[call.id]
    ensures InBudget(c, b, log + [call])
    ensures var paid := AskingOutcome(c, call.id, call.outcome);
      && Units(c, b, log + [call], ids) + (if paid then 1 else 0) <= Units(c, b, log, ids)
      && Sources(c, b, log + [call], ids) + (if paid then |c.nodes[call.id].sources| else 0) <= Sources(c, b, log, ids)
  {
    hide Asked, AskingOutcome;
    forall id | id in c.nodes
      ensures Asked(c, id, log + [call]) <= b[id]
    {
      AskedAppend(c, id, log, call);
    }
    PotentialDrops(c, b, log, call, ids, true);
    PotentialDrops(c, b, log, call, ids, false);
  }

  /** The balance of a stretch of recursive flow that was owed `due` calls. */
  ghost predicate Balanced(c: Chain, b: map<Id, nat>, ids: seq<Id>, due: nat, m: Mem, m1: Mem)
    requires Covers(c, ids)
  {
    && InBudget(c, b, m.log) && InBudget(c, b, m1.log)
    && m.log <= m1.log
    && Units(c, b, m1.log, ids) <= Units(c, b, m.log, ids)
    && |m1.log| + Sources(c, b, m1.log, ids) <= |m.log| + due + Sources(c, b, m.log, ids)
  }

  /** Scheduled flows end once `fuel` covers the asks that are left. */
  lemma {:induction false} RequestsEnd(c: Chain, b: map<Id, nat>, ids: seq<Id>, fuel: nat, reqs: seq<Request>, m: Mem)
    requires Bounded(c, b) && InBudget(c, b, m.log) && Covers(c, ids)
    requires forall q :: q in reqs ==> q.id in c.nodes
    requires fuel >= Units(c, b, m.log, ids)
    ensures RunRequests(c, fuel, reqs, m).Some?
    ensures Balanced(c, b, ids, |reqs|, m, RunRequests(c, fuel, reqs, m).value)
    decreases fuel, 1, |reqs|
  {
    hide Bounded, InBudget, Covers, Invoke, RunRequest, Units, Sources;
    if reqs != [] {
      RequestEnds(c, b, ids, fuel, reqs[0], m);
      RequestsEnd(c, b, ids, fuel, reqs[1..], RunRequest(c, fuel, reqs[0], m).value);
    }
  }

  lemma {:induction false} RequestEnds(c: Chain, b: map<Id, nat>, ids: seq<Id>, fuel: nat, q: Request, m: Mem)
    requires Bounded(c, b) && InBudget(c, b, m.log) && Covers(c, ids)
    requires q.id in c.nodes
    requires fuel >= Units(c, b, m.log, ids)
    ensures RunRequest(c, fuel, q, m).Some?
    ensures Balanced(c, b, ids, 1, m, RunRequest(c, fuel, q, m).value)
    decreases fuel, 0, 0
  {
    hide Bounded, InBudget, Covers, Invoke, RunRequests, Units, Sources, Asks, Requests;
    InvokePays(c, b, ids, q.id, q.extra, m.results, m.log);
    var (o, log) := Invoke(c, q.id, q.extra, m.results, m.log);
    if o.Returned? && Asks(c, q.id, o.result) {
      var nested := Requests(c, [Entry(q.id, o.result)]);
      OneEntryRequests(c, Entry(q.id, o.result));
      RequestsEnd(c, b, ids, fuel - 1, nested, Mem(m.results[q.id := o.result], log));
    }
  }

  lemma OneEntryRequests(c: Chain, e: Entry)
    requires e.key in c.nodes
    ensures |Requests(c, [e])| <= |c.nodes[e.key].sources|
    ensures forall q :: q in Requests(c, [e]) ==>
      q.id in c.nodes && q.id in c.nodes[e.key].sources && e.val.output.Dict? && q.extra == e.val.output.fields
  {
    assert Requests(c, []) == [];
    if Asks(c, e.key, e.val) {
      var r := SourceRequests(c, c.nodes[e.key].sources, e.val.output.fields);
      assert Requests(c, [e]) == r + [];
      assert r + [] == r;
    }
  }

  // ----- levels and whole runs --------------------------------------------------------

  /** What a list of outcomes asks for: the sources of its asking nodes. */
  function Owed(c: Chain, outs: seq<(Id, Outcome)>): nat {
    if outs == [] then 0
    else (if AskingOutcome(c, outs[0].0, outs[0].1) then |c.nodes[outs[0].0].sources| else 0) + Owed(c, outs[1..])
  }

  lemma {:induction false} LevelPays(c: Chain, b: map<Id, nat>, ids: seq<Id>, level: seq<Id>, results: map<Id, Result>, log: seq<Call>)
    requires Bounded(c, b) && InBudget(c, b, log) && Covers(c, ids)
    requires forall id :: id in level ==> id in c.nodes
    ensures var (outs, log1) := LevelOutcomes(c, level, results, log);
      && InBudget(c, b, log1) && log <= log1 && |log1| <= |log| + |level|
      && Units(c, b, log1, ids) <= Units(c, b, log, ids)
      && Owed(c, outs) + Sources(c, b, log1, ids) <= Sources(c, b, log, ids)
  {
    hide Bounded, InBudget, Covers, Invoke, Units, Sources, AskingOutcome;
    if level != [] {
      InvokePays(c, b, ids, level[0], map[], results, log);
      LevelPays(c, b, ids, level[1..], results, Invoke(c, level[0], map[], results, log).1);
    }
  }

  lemma {:induction false} PutRequests(c: Chain, d: seq<Entry>, k: Id, v: Result)
    ensures |Requests(c, Put(d, k, v))| <= |Requests(c, d)| + (if Asks(c, k, v) then |c.nodes[k].sources| else 0)
  {
    hide Asks;
    if d == [] {
      assert Requests(c, []) == [];
      assert [Entry(k, v)][1..] == [];
    } else if d[0].key == k {
      assert Put(d, k, v)[1..] == d[1..];
    } else {
      PutRequests(c, d[1..], k, v);
      assert Put(d, k, v)[1..] == Put(d[1..], k, v);
    }
  }

  /** The flows scheduled for a level are among those its outcomes ask for. */
  lemma {:induction false} CollectRequests(c: Chain, outs: seq<(Id, Outcome)>, d: seq<Entry>)
    ensures |Requests(c, Collect(outs, d))| <= |Requests(c, d)| + Owed(c, outs)
  {
    hide Asks, Requests, Put;
    if outs != [] {
      var e := Filed(outs[0].0, outs[0].1);
      PutRequests(c, d, e.key, e.val);
      RaisedAsksNothing(c, outs[0].0, outs[0].1);
      CollectRequests(c, outs[1..], Put(d, e.key, e.val));
    }
  }

  lemma RaisedAsksNothing(c: Chain, id: Id, o: Outcome)
    ensures var e := Filed(id, o);
      Asks(c, e.key, e.val) <==> AskingOutcome(c, id, o)
    ensures AskingOutcome(c, id, o) ==> Filed(id, o).key == id
  {
  }

  lemma PlayBalanced(c: Chain, b: map<Id, nat>, ids: seq<Id>, fuel: nat, level: seq<Id>, results: map<Id, Result>, log: seq<Call>)
    requires Bounded(c, b) && InBudget(c, b, log) && Covers(c, ids)
    requires forall id :: id in level ==> id in c.nodes
    requires fuel >= Units(c, b, log, ids)
    ensures PlayLevel(c, fuel, level, results, log).Some?
    ensures Balanced(c, b, ids, |level|, Mem(results, log), PlayLevel(c, fuel, level, results, log).value.1)
  {
    hide Bounded, InBudget, Covers, Units, Sources, Requests, LevelOutcomes, RunRequests, Collect;
    var (outs, log1) := LevelOutcomes(c, level, results, log);
    LevelPays(c, b, ids, level, results, log);
    CollectRequests(c, outs, []);
    assert |Requests(c, [])| == 0 by { NoRequests(c); }
    RequestsEnd(c, b, ids, fuel, Requests(c, Collect(outs, [])), Mem(results, log1));
  }

  lemma NoRequests(c: Chain)
    ensures Requests(c, []) == []
  {
  }

  /** How many nodes the levels `i .. n` list. */
  function LevelCount(c: Chain, i: nat, n: nat): nat
    requires i <= n <= |c.levels|
    decreases n - i
  {
    if i == n then 0 else |c.levels[i]| + LevelCount(c, i + 1, n)
  }

  lemma LevelBalanced(c: Chain, b: map<Id, nat>, ids: seq<Id>, fuel: nat, i: nat, s: Run)
    requires Sound(c) && Bounded(c, b) && InBudget(c, b, s.log) && Covers(c, ids)
    requires i < |c.levels| && fuel >= Units(c, b, s.log, ids)
    ensures forall id :: id in c.levels[i] ==> id in c.nodes
    ensures RunLevel(c, fuel, c.levels[i], s).Some?
    ensures var t := RunLevel(c, fuel, c.levels[i], s).value;
      t.begun == s.begun + 1
      && Balanced(c, b, ids, |c.levels[i]|, Mem(s.results, s.log), Mem(t.results, t.log))
  {
    hide Bounded, Covers, Units, Sources, PlayLevel, Record, InBudget;
    AllActive(c, c.levels[i]);
    PlayBalanced(c, b, ids, fuel, c.levels[i], s.results, s.log);
    var (entries, m) := PlayLevel(c, fuel, c.levels[i], s.results, s.log).value;
    RecordFrame(c, entries, s.(results := m.results, log := m.log, begun := s.begun + 1));
  }

  lemma {:induction false} LevelsEnd(c: Chain, b: map<Id, nat>, ids: seq<Id>, fuel: nat, i: nat, s: Run)
    requires Sound(c) && Bounded(c, b) && InBudget(c, b, s.log) && Covers(c, ids)
    requires i <= |c.levels| && s.begun == i && fuel >= Units(c, b, s.log, ids)
    ensures RunLevels(c, fuel, i, s).Some?
    ensures var t := RunLevels(c, fuel, i, s).value;
      i <= t.begun <= |c.levels|
      && |t.log| <= |s.log| + LevelCount(c, i, t.begun) + Sources(c, b, s.log, ids)
    decreases |c.levels| - i
  {
    hide Bounded, Covers, Units, Sources, RunLevel, Sound, InBudget;
    if i < |c.levels| && DepthStop(c, i + 1).None? {
      LevelBalanced(c, b, ids, fuel, i, s);
      var t := RunLevel(c, fuel, c.levels[i], s).value;
      if Proceeds(c, t) {
        LevelsEnd(c, b, ids, fuel, i + 1, t);
      } else {
        assert LevelCount(c, i + 1, i + 1) == 0;
      }
    }
  }

  /** The sum over `ids` of `b[id]` times the node's weight. */
  function Total(c: Chain, b: map<Id, nat>, ids: seq<Id>, units: bool): nat
    requires forall id :: id in ids ==> id in c.nodes && id in b
  {
    if ids == [] then 0 else b[ids[0]] * Weight(c, ids[0], units) + Total(c, b, ids[1..], units)
  }

  lemma {:induction false} TotalIsPotential(c: Chain, b: map<Id, nat>, ids: seq<Id>, units: bool)
    requires forall id :: id in ids ==> id in c.nodes && id in b
    ensures Potential(c, b, [], ids, units) == Total(c, b, ids, units)
  {
    if ids != [] {
      TotalIsPotential(c, b, ids[1..], units);
    }
  }

  /**
    If every node asks to continue at most `b` times, the run ends (nesting at most
    the sum of all `b`), and beside one call per listed node it makes at most the
    sum of `b[id] * |sources(id)|` calls.
   */
  lemma RecursionEnds(c: Chain, b: map<Id, nat>, ids: seq<Id>, fuel: nat)
    requires Sound(c) && Bounded(c, b) && Covers(c, ids)
    requires fuel >= Total(c, b, ids, true)
    ensures ExecuteChain(c, fuel).Some?
    ensures var t := ExecuteChain(c, fuel).value;
      t.begun <= |c.levels| && |t.log| <= LevelCount(c, 0, t.begun) + Total(c, b, ids, false)
  {
    hide Total, RunLevels, Potential;
    TotalIsPotential(c, b, ids, true);
    TotalIsPotential(c, b, ids, false);
    assert InBudget(c, b, []);
    LevelsEnd(c, b, ids, fuel, 0, FRESH);
  }

  // ----- more fuel changes nothing ------------------------------------------------------

  lemma {:induction false} MoreFuelRequests(c: Chain, fuel: nat, more: nat, reqs: seq<Request>, m: Mem)
    requires fuel <= more && forall q :: q in reqs ==> q.id in c.nodes
    requires RunRequests(c, fuel, reqs, m).Some?
    ensures RunRequests(c, more, reqs, m) == RunRequests(c, fuel, reqs, m)
    decreases fuel, 1, |reqs|
  {
    hide Invoke, RunRequest;
    if reqs != [] {
      MoreFuelRequest(c, fuel, more, reqs[0], m);
      MoreFuelRequests(c, fuel, more, reqs[1..], RunRequest(c, fuel, reqs[0], m).value);
    }
  }

  lemma {:induction false} MoreFuelRequest(c: Chain, fuel: nat, more: nat, q: Request, m: Mem)
    requires fuel <= more && q.id in c.nodes && RunRequest(c, fuel, q, m).Some?
    ensures RunRequest(c, more, q, m) == RunRequest(c, fuel, q, m)
    decreases fuel, 0, 0
  {
    hide Invoke, RunRequests, Requests, Asks;
    var (o, log) := Invoke(c, q.id, q.extra, m.results, m.log);
    if o.Returned? && Asks(c, q.id, o.result) {
      MoreFuelRequests(c, fuel - 1, more - 1, Requests(c, [Entry(q.id, o.result)]), Mem(m.results[q.id := o.result], log));
    }
  }

  lemma {:induction false} MoreFuelLevels(c: Chain, fuel: nat, more: nat, i: nat, s: Run)
    requires Sound(c) && fuel <= more && i <= |c.levels| && RunLevels(c, fuel, i, s).Some?
    ensures RunLevels(c, more, i, s) == RunLevels(c, fuel, i, s)
    decreases |c.levels| - i
  {
    hide LevelOutcomes, Record, RunRequests, Collect, Requests, ActiveIds, Sound;
    if i < |c.levels| && DepthStop(c, i + 1).None? {
      LevelInNodes(c, i);
      var (outs, log) := LevelOutcomes(c, ActiveIds(c, c.levels[i]), s.results, s.log);
      MoreFuelRequests(c, fuel, more, Requests(c, Collect(outs, [])), Mem(s.results, log));
      var t := RunLevel(c, fuel, c.levels[i], s).value;
      if Proceeds(c, t) {
        MoreFuelLevels(c, fuel, more, i + 1, t);
      }
    }
  }

  /** The meaning of a run that ends does not depend on the nesting bound. */
  lemma MoreFuel(c: Chain, fuel: nat, more: nat)
    requires Sound(c) && fuel <= more && ExecuteChain(c, fuel).Some?
    ensures ExecuteChain(c, more) == ExecuteChain(c, fuel)
  {
    MoreFuelLevels(c, fuel, more, 0, FRESH);
  }

  // ----- what recursive flows touch ---------------------------------------------------------

  /** `region` holds the sources (known to the chain) of its recursive nodes. */
  ghost predicate SourceClosed(c: Chain, region: set<Id>) {
    forall id, x :: id in region && id in c.nodes && c.nodes[id].kind.Recursive? && x in c.nodes[id].sources && x in c.nodes ==> x in region
  }

  /** Results outside the region stay, no result disappears, all new calls are inside. */
  ghost predicate Confined(region: set<Id>, m: Mem, m1: Mem) {
    && (forall id :: id in m.results ==> id in m1.results)
    && (forall id :: id in m1.results && id !in region ==> id in m.results && m1.results[id] == m.results[id])
    && m.log <= m1.log
    && (forall i :: |m.log| <= i < |m1.log| ==> m1.log[i].id in region)
  }

  lemma ConfinedTransitive(region: set<Id>, m: Mem, m1: Mem, m2: Mem)
    requires Confined(region, m, m1) && Confined(region, m1, m2)
    ensures Confined(region, m, m2)
  {
    forall i | |m.log| <= i < |m2.log|
      ensures m2.log[i].id in region
    {
      assert i < |m1.log| ==> m2.log[i] == m1.log[i];
    }
  }

  /** Scheduled flows stay inside every source-closed region that contains them. */
  lemma {:induction false} FlowsConfined(c: Chain, fuel: nat, reqs: seq<Request>, m: Mem, region: set<Id>)
    requires SourceClosed(c, region) && forall q :: q in reqs ==> q.id in c.nodes && q.id in region
    requires RunRequests(c, fuel, reqs, m).Some?
    ensures Confined(region, m, RunRequests(c, fuel, reqs, m).value)
    decreases fuel, 1, |reqs|
  {
    hide Invoke, RunRequest, Confined, SourceClosed;
    if reqs == [] {
      assert Confined(region, m, m) by { ConfinedSelf(region, m); }
    } else {
      FlowConfined(c, fuel, reqs[0], m, region);
      var m1 := RunRequest(c, fuel, reqs[0], m).value;
      FlowsConfined(c, fuel, reqs[1..], m1, region);
      ConfinedTransitive(region, m, m1, RunRequests(c, fuel, reqs, m).value);
    }
  }

  lemma ConfinedSelf(region: set<Id>, m: Mem)
    ensures Confined(region, m, m)
  {
  }

  lemma {:induction false} FlowConfined(c: Chain, fuel: nat, q: Request, m: Mem, region: set<Id>)
    requires SourceClosed(c, region) && q.id in c.nodes && q.id in region
    requires RunRequest(c, fuel, q, m).Some?
    ensures Confined(region, m, RunRequest(c, fuel, q, m).value)
    decreases fuel, 0, 0
  {
    hide BuildContext, RunRequests, Requests;
    var (o, log) := Invoke(c, q.id, q.extra, m.results, m.log);
    assert m.log <= log && |log| <= |m.log| + 1;
    assert forall i :: |m.log| <= i < |log| ==> log[i].id == q.id;
    if o.Returned? {
      var m1 := Mem(m.results[q.id := o.result], log);
      assert Confined(region, m, m1);
      if Asks(c, q.id, o.result) {
        var nested := Requests(c, [Entry(q.id, o.result)]);
        OneEntryRequests(c, Entry(q.id, o.result));
        FlowsConfined(c, fuel - 1, nested, m1, region);
        ConfinedTransitive(region, m, m1, RunRequests(c, fuel - 1, nested, m1).value);
      }
    }
  }

  // ----- what recursive flows leave behind -----------------------------------------------------

  /** What the engine keeps of an outcome of a recursive flow. */
  function Kept(o: Outcome): Result {
    match o
    case Returned(r) => r
    case Raised(text) => Result(false, Null, text, None)
  }

  /**
    Between `m` and `m1` the result of `id` is that of its last new call, the note
    that its context could not be built, or unchanged when it was not called.
   */
  ghost predicate HoldsLast(id: Id, m: Mem, m1: Mem) {
    var h, h1 := History(m.log, id), History(m1.log, id);
    && h <= h1
    && (|| (id in m1.results && m1.results[id] == Kept(Raised(ContextErrorText(id))))
        || (|h1| > |h| && id in m1.results && m1.results[id] == Kept(h1[|h1| - 1]))
        || (h1 == h && (id in m1.results <==> id in m.results) && (id in m.results ==> m1.results[id] == m.results[id])))
  }

  lemma HoldsLastTransitive(id: Id, m: Mem, m1: Mem, m2: Mem)
    requires HoldsLast(id, m, m1) && HoldsLast(id, m1, m2)
    ensures HoldsLast(id, m, m2)
  {
  }

  lemma {:induction false} FlowsHoldLast(c: Chain, fuel: nat, reqs: seq<Request>, m: Mem, id: Id)
    requires forall q :: q in reqs ==> q.id in c.nodes
    requires RunRequests(c, fuel, reqs, m).Some?
    ensures HoldsLast(id, m, RunRequests(c, fuel, reqs, m).value)
    decreases fuel, 1, |reqs|
  {
    hide Invoke, RunRequest, History;
    if reqs != [] {
      FlowHoldsLast(c, fuel, reqs[0], m, id);
      var m1 := RunRequest(c, fuel, reqs[0], m).value;
      FlowsHoldLast(c, fuel, reqs[1..], m1, id);
      HoldsLastTransitive(id, m, m1, RunRequests(c, fuel, reqs, m).value);
    }
  }

  lemma HistoryAppend(log: seq<Call>, call: Call, id: Id)
    ensures History(log + [call], id) == History(log, id) + (if call.id == id then [call.outcome] else [])
  {
    assert (log + [call])[..|log|] == log;
  }

  /** One call, before it is followed by the flows that it asks for. */
  lemma InvokeHoldsLast(c: Chain, q: Request, m: Mem, id: Id)
    requires q.id in c.nodes
    ensures var (o, log) := Invoke(c, q.id, q.extra, m.results, m.log);
      HoldsLast(id, m, Mem(m.results[q.id := Kept(o)], log))
  {
    hide BuildContext, History;
    var (o, log) := Invoke(c, q.id, q.extra, m.results, m.log);
    if BuildContext(c, q.id, m.results).Some? {
      HistoryAppend(m.log, Call(q.id, o), id);
    }
  }

  lemma {:induction false} FlowHoldsLast(c: Chain, fuel: nat, q: Request, m: Mem, id: Id)
    requires q.id in c.nodes && RunRequest(c, fuel, q, m).Some?
    ensures HoldsLast(id, m, RunRequest(c, fuel, q, m).value)
    decreases fuel, 0, 0
  {
    hide Invoke, RunRequests, Requests, HoldsLast, Asks;
    var (o, log) := Invoke(c, q.id, q.extra, m.results, m.log);
    InvokeHoldsLast(c, q, m, id);
    if o.Returned? && Asks(c, q.id, o.result) {
      var m1 := Mem(m.results[q.id := o.result], log);
      var nested := Requests(c, [Entry(q.id, o.result)]);
      FlowsHoldLast(c, fuel - 1, nested, m1, id);
      HoldsLastTransitive(id, m, m1, RunRequests(c, fuel - 1, nested, m1).value);
    }
  }

  lemma {:induction false} PutDistinct(d: seq<Entry>, k: Id, v: Result)
    requires DistinctKeys(d)
    ensures DistinctKeys(Put(d, k, v))
  {
    if d != [] && d[0].key != k {
      assert forall j :: 0 <= j < |d[1..]| ==> d[1..][j] == d[j + 1];
      PutDistinct(d[1..], k, v);
      var p := Put(d[1..], k, v);
      forall j | 0 <= j < |p|
        ensures p[j].key != d[0].key
      {
        PutKeys(d[1..], k, v);
        assert HasKey(p, p[j].key);
      }
    }
  }

  lemma {:induction false} CollectDistinct(outs: seq<(Id, Outcome)>, d: seq<Entry>)
    requires DistinctKeys(d)
    ensures DistinctKeys(Collect(outs, d))
  {
    hide DistinctKeys, Put, Filed;
    if outs != [] {
      var e := Filed(outs[0].0, outs[0].1);
      PutDistinct(d, e.key, e.val);
      CollectDistinct(outs[1..], Put(d, e.key, e.val));
    }
  }

  lemma {:induction false} AssignWins(results: map<Id, Result>, entries: seq<Entry>)
    requires DistinctKeys(entries)
    ensures var r := Assign(results, entries);
      && (forall e :: e in entries ==> e.key in r && r[e.key] == e.val)
      && (forall id :: !HasKey(entries, id) ==> (id in r <==> id in results) && (id in r ==> r[id] == results[id]))
    decreases |entries|
  {
    if entries != [] {
      var e, rest := entries[0], entries[1..];
      assert forall j :: 0 <= j < |rest| ==> rest[j] == entries[j + 1];
      AssignWins(results[e.key := e.val], rest);
      assert !HasKey(rest, e.key);
      forall id | !HasKey(entries, id)
        ensures id != e.key && !HasKey(rest, id)
      {
        ConsKeys(e, rest, id);
        assert [e] + rest == entries;
      }
    }
  }

  /**
    Unless a token limit or a crash cuts the level short, the level's own results
    are written over whatever its recursive flows stored for the same nodes; for
    all other nodes the flows have the last word.
   */
  lemma LevelResultsWin(c: Chain, fuel: nat, i: nat, s: Run)
    requires Sound(c) && i < |c.levels| && !s.crashed
    requires RunLevel(c, fuel, c.levels[i], s).Some?
    requires var t := RunLevel(c, fuel, c.levels[i], s).value; !t.crashed && NoTokenStop(t.errors)
    ensures PlayLevel(c, fuel, c.levels[i], s.results, s.log).Some?
    ensures var t, (entries, m) := RunLevel(c, fuel, c.levels[i], s).value, PlayLevel(c, fuel, c.levels[i], s.results, s.log).value;
      && t.log == m.log && t.begun == s.begun + 1
      && (forall e :: e in entries ==> e.key in t.results && t.results[e.key] == e.val)
      && (forall id :: !HasKey(entries, id) ==>
            (id in t.results <==> id in m.results) && (id in m.results ==> t.results[id] == m.results[id]))
  {
    hide Record, LevelOutcomes, RunRequests, Requests, HasKey, Assign;
    AllActive(c, c.levels[i]);
    var (outs, log1) := LevelOutcomes(c, c.levels[i], s.results, s.log);
    var (entries, m) := PlayLevel(c, fuel, c.levels[i], s.results, s.log).value;
    RecordWhole(c, entries, s.(results := m.results, log := m.log, begun := s.begun + 1));
    CollectDistinct(outs, []);
    AssignWins(m.results, entries);
  }

  // ----- what is scheduled, and that it runs ---------------------------------------------------

  lemma {:induction false} SourceRequestsAre(c: Chain, sources: seq<Id>, extra: Ctx)
    ensures var reqs, known := SourceRequests(c, sources, extra), Filter(sources, (x: Id) => x in c.nodes);
      |reqs| == |known| && forall j :: 0 <= j < |reqs| ==> reqs[j] == Request(known[j], extra)
  {
    if sources != [] {
      SourceRequestsAre(c, sources[1..], extra);
    }
  }

  /**
    A recursive node whose output says `_can_recurse` and not `converged` has all of
    its sources that are nodes scheduled, in order and with the output's fields; any
    other entry schedules nothing.
   */
  lemma RequestsOfEntry(c: Chain, e: Entry)
    ensures
      if e.key in c.nodes && c.nodes[e.key].kind == Recursive && e.val.output.Dict?
         && "_can_recurse" in e.val.output.fields && Truthy(e.val.output.fields["_can_recurse"])
         && ("converged" in e.val.output.fields ==> !Truthy(e.val.output.fields["converged"]))
      then
        var reqs, known := Requests(c, [e]), Filter(c.nodes[e.key].sources, (x: Id) => x in c.nodes);
        |reqs| == |known| && forall j :: 0 <= j < |reqs| ==> reqs[j] == Request(known[j], e.val.output.fields)
      else Requests(c, [e]) == []
  {
    assert [e][1..] == [];
    if Asks(c, e.key, e.val) {
      var reqs := SourceRequests(c, c.nodes[e.key].sources, e.val.output.fields);
      assert reqs + [] == reqs;
      SourceRequestsAre(c, c.nodes[e.key].sources, e.val.output.fields);
    }
  }

  /** Entries are scheduled one after the other. */
  lemma {:induction false} RequestsConcat(c: Chain, a: seq<Entry>, b: seq<Entry>)
    ensures Requests(c, a + b) == Requests(c, a) + Requests(c, b)
  {
    hide SourceRequests;
    if a == [] {
      assert a + b == b;
      assert [] + Requests(c, b) == Requests(c, b);
    } else {
      assert (a + b)[0] == a[0] && (a + b)[1..] == a[1..] + b;
      RequestsConcat(c, a[1..], b);
      var head := if Asks(c, a[0].key, a[0].val) then SourceRequests(c, c.nodes[a[0].key].sources, a[0].val.output.fields) else [];
      assert (head + Requests(c, a[1..])) + Requests(c, b) == head + (Requests(c, a[1..]) + Requests(c, b));
    }
  }

  /** Node `x` was called at place `from` of the log or later, or its context could not be built. */
  ghost predicate RanSince(m: Mem, from: nat, x: Id) {
    || (exists k :: from <= k < |m.log| && m.log[k].id == x)
    || (x in m.results && m.results[x] == Kept(Raised(ContextErrorText(x))))
  }

  /** Every ask among the calls from place `from` on was followed by its sources. */
  ghost predicate AsksAnswered(c: Chain, m: Mem, from: nat) {
    forall i, x :: from <= i < |m.log| && AsksFor(c, m.log[i], x) ==> RanSince(m, i + 1, x)
  }

  /** The outcome of the call asks for node `x` to run. */
  predicate AsksFor(c: Chain, call: Call, x: Id) {
    AskingOutcome(c, call.id, call.outcome) && x in c.nodes[call.id].sources && x in c.nodes
  }

  lemma {:induction false} LongerHistory(log: seq<Call>, log1: seq<Call>, x: Id)
    requires log <= log1 && |History(log1, x)| > |History(log, x)|
    ensures exists k :: |log| <= k < |log1| && log1[k].id == x
    decreases |log1|
  {
    if log == log1 {
      assert false;
    } else {
      var last, init := log1[|log1| - 1], log1[..|log1| - 1];
      if last.id != x {
        assert History(init, x) + [] == History(init, x);
        LongerHistory(log, init, x);
        var k :| |log| <= k < |init| && init[k].id == x;
        assert log1[k].id == x;
      }
    }
  }

  /** What ran stays so while further flows are played out. */
  lemma RanStays(m: Mem, m1: Mem, from: nat, x: Id)
    requires RanSince(m, from, x) && m.log <= m1.log && HoldsLast(x, m, m1) && from <= |m.log|
    ensures RanSince(m1, from, x)
  {
    hide History;
    if k :| from <= k < |m.log| && m.log[k].id == x {
      assert m1.log[k].id == x;
    } else if |History(m1.log, x)| > |History(m.log, x)| {
      LongerHistory(m.log, m1.log, x);
    }
  }

  lemma AnsweredStays(c: Chain, fuel: nat, reqs: seq<Request>, m: Mem, from: nat)
    requires forall q :: q in reqs ==> q.id in c.nodes
    requires RunRequests(c, fuel, reqs, m).Some? && from <= |m.log|
    requires var m1 := RunRequests(c, fuel, reqs, m).value;
      AsksAnswered(c, m, from) && m.log <= m1.log && AsksAnswered(c, m1, |m.log|)
    ensures AsksAnswered(c, RunRequests(c, fuel, reqs, m).value, from)
  {
    hide RunRequests, RanSince, AsksFor;
    var m1 := RunRequests(c, fuel, reqs, m).value;
    forall i, x | from <= i < |m1.log| && AsksFor(c, m1.log[i], x)
      ensures RanSince(m1, i + 1, x)
    {
      if i < |m.log| {
        assert m1.log[i] == m.log[i];
        FlowsHoldLast(c, fuel, reqs, m, x);
        RanStays(m, m1, i + 1, x);
      }
    }
  }

  /**
    Every scheduled flow runs, or its context cannot be built, and every ask that a
    flow makes on the way is followed by the sources it asks for.
   */
  lemma {:induction false} FlowsRun(c: Chain, fuel: nat, reqs: seq<Request>, m: Mem)
    requires forall q :: q in reqs ==> q.id in c.nodes
    requires RunRequests(c, fuel, reqs, m).Some?
    ensures var m1 := RunRequests(c, fuel, reqs, m).value;
      && m.log <= m1.log && AsksAnswered(c, m1, |m.log|)
      && forall q :: q in reqs ==> RanSince(m1, |m.log|, q.id)
    decreases fuel, 1, |reqs|
  {
    hide RunRequest, AsksAnswered, RanSince, HoldsLast;
    if reqs == [] {
      assert AsksAnswered(c, m, |m.log|) by { NothingAsked(c, m); }
    } else {
      var m1 := RunRequest(c, fuel, reqs[0], m).value;
      FlowRuns(c, fuel, reqs[0], m);
      FlowsRun(c, fuel, reqs[1..], m1);
      var m2 := RunRequests(c, fuel, reqs[1..], m1).value;
      AnsweredStays(c, fuel, reqs[1..], m1, |m.log|);
      FlowsHoldLast(c, fuel, reqs[1..], m1, reqs[0].id);
      RanStays(m1, m2, |m.log|, reqs[0].id);
      forall q | q in reqs
        ensures RanSince(m2, |m.log|, q.id)
      {
        if q in reqs[1..] {
          RanEarlier(m2, |m.log|, |m1.log|, q.id);
        }
      }
    }
  }

  lemma NothingAsked(c: Chain, m: Mem)
    ensures AsksAnswered(c, m, |m.log|)
  {
  }

  lemma RanEarlier(m: Mem, from: nat, later: nat, x: Id)
    requires RanSince(m, later, x) && from <= later
    ensures RanSince(m, from, x)
  {
  }

  /** The call of a flow, with the asking output's fields over the node's own context. */
  lemma FlowCalls(c: Chain, q: Request, m: Mem)
    requires q.id in c.nodes
    ensures var (o, log) := Invoke(c, q.id, q.extra, m.results, m.log);
      match BuildContext(c, q.id, m.results)
      case None => o == Raised(ContextErrorText(q.id)) && log == m.log
      case Some(ctx) => log == m.log + [Call(q.id, c.exec(q.id, ctx + q.extra, History(m.log, q.id)))] && o == log[|m.log|].outcome
  {
    hide BuildContext;
  }

  lemma {:induction false} FlowRuns(c: Chain, fuel: nat, q: Request, m: Mem)
    requires q.id in c.nodes && RunRequest(c, fuel, q, m).Some?
    ensures var m1 := RunRequest(c, fuel, q, m).value;
      m.log <= m1.log && AsksAnswered(c, m1, |m.log|) && RanSince(m1, |m.log|, q.id)
    decreases fuel, 0, 0
  {
    hide Invoke, RunRequests, Requests, AsksAnswered, RanSince, HoldsLast, BuildContext, Asks;
    var (o, log) := Invoke(c, q.id, q.extra, m.results, m.log);
    var first := Mem(m.results[q.id := Kept(o)], log);
    FlowCalls(c, q, m);
    CallRan(c, q, m, first);
    if o.Returned? && Asks(c, q.id, o.result) {
      var nested := Requests(c, [Entry(q.id, o.result)]);
      var m1 := RunRequests(c, fuel - 1, nested, first).value;
      FlowsRun(c, fuel - 1, nested, first);
      FlowsHoldLast(c, fuel - 1, nested, first, q.id);
      RanStays(first, m1, |m.log|, q.id);
      AskAnswered(c, q.id, o.result, m, first, m1);
    } else {
      NoAskYet(c, q.id, m, first, o);
    }
  }

  /** A flow whose context can be built starts with a call of its node, asked-for fields on top. */
  lemma FlowStartsWithCall(c: Chain, fuel: nat, q: Request, m: Mem)
    requires q.id in c.nodes && RunRequest(c, fuel, q, m).Some? && BuildContext(c, q.id, m.results).Some?
    ensures var m1, ctx := RunRequest(c, fuel, q, m).value, BuildContext(c, q.id, m.results).value;
      |m1.log| > |m.log| && m1.log[|m.log|] == Call(q.id, c.exec(q.id, ctx + q.extra, History(m.log, q.id)))
  {
    hide Invoke, RunRequests, Requests, BuildContext, Asks, History;
    var (o, log) := Invoke(c, q.id, q.extra, m.results, m.log);
    FlowCalls(c, q, m);
    if o.Returned? && Asks(c, q.id, o.result) {
      FlowsRun(c, fuel - 1, Requests(c, [Entry(q.id, o.result)]), Mem(m.results[q.id := o.result], log));
    }
  }

  lemma CallRan(c: Chain, q: Request, m: Mem, first: Mem)
    requires q.id in c.nodes
    requires var (o, log) := Invoke(c, q.id, q.extra, m.results, m.log); first == Mem(m.results[q.id := Kept(o)], log)
    ensures RanSince(first, |m.log|, q.id)
  {
    hide BuildContext;
    FlowCalls(c, q, m);
    if BuildContext(c, q.id, m.results).Some? {
      assert first.log[|m.log|].id == q.id;
    }
  }

  lemma NoAskYet(c: Chain, id: Id, m: Mem, first: Mem, o: Outcome)
    requires first.log == m.log || first.log == m.log + [Call(id, o)]
    requires !AskingOutcome(c, id, o)
    ensures AsksAnswered(c, first, |m.log|)
  {
  }

  /** The ask of the call itself is answered by the nested flows. */
  lemma AskAnswered(c: Chain, id: Id, r: Result, m: Mem, first: Mem, m1: Mem)
    requires id in c.nodes && Asks(c, id, r) && first.log <= m1.log
    requires first.log == m.log || first.log == m.log + [Call(id, Returned(r))]
    requires AsksAnswered(c, m1, |first.log|)
    requires forall q :: q in Requests(c, [Entry(id, r)]) ==> RanSince(m1, |first.log|, q.id)
    ensures AsksAnswered(c, m1, |m.log|)
  {
    hide RanSince, Requests;
    forall i, x | |m.log| <= i < |m1.log| && AsksFor(c, m1.log[i], x)
      ensures RanSince(m1, i + 1, x)
    {
      if i < |first.log| {
        assert m1.log[i] == first.log[i];
        SourceIsRequested(c, Entry(id, r), x);
      }
    }
  }

  /** After a level, every source that one of its entries asks for has run since its nodes did. */
  lemma LevelFlowsRun(c: Chain, fuel: nat, ids: seq<Id>, results: map<Id, Result>, log: seq<Call>, e: Entry, x: Id)
    requires forall id :: id in ids ==> id in c.nodes
    requires PlayLevel(c, fuel, ids, results, log).Some?
    requires e in PlayLevel(c, fuel, ids, results, log).value.0
    requires Asks(c, e.key, e.val) && x in c.nodes[e.key].sources && x in c.nodes
    ensures var m, start := PlayLevel(c, fuel, ids, results, log).value.1, LevelOutcomes(c, ids, results, log).1;
      start <= m.log && RanSince(m, |start|, x) && AsksAnswered(c, m, |start|)
  {
    hide LevelOutcomes, Collect, RunRequests, Requests, RanSince, AsksAnswered;
    var (outs, start) := LevelOutcomes(c, ids, results, log);
    var entries := Collect(outs, []);
    FlowsRun(c, fuel, Requests(c, entries), Mem(results, start));
    var j :| 0 <= j < |entries| && entries[j] == e;
    assert entries == entries[..j] + ([e] + entries[j + 1..]);
    RequestsConcat(c, entries[..j], [e] + entries[j + 1..]);
    RequestsConcat(c, [e], entries[j + 1..]);
    SourceIsRequested(c, e, x);
    var q :| q in Requests(c, [e]) && q.id == x;
    assert q in Requests(c, entries);
  }

  lemma SourceIsRequested(c: Chain, e: Entry, x: Id)
    requires Asks(c, e.key, e.val) && x in c.nodes[e.key].sources && x in c.nodes
    ensures exists q :: q in Requests(c, [e]) && q.id == x
  {
    hide Requests, SourceRequests;
    RequestsOfEntry(c, e);
    var known := Filter(c.nodes[e.key].sources, (x: Id) => x in c.nodes);
    FilterHolds(c.nodes[e.key].sources, (x: Id) => x in c.nodes, x);
    var j :| 0 <= j < |known| && known[j] == x;
    assert Requests(c, [e])[j] in Requests(c, [e]);
  }

  lemma {:induction false} FilterHolds<T>(s: seq<T>, p: T -> bool, x: T)
    requires x in s && p(x)
    ensures x in Filter(s, p)
  {
    if s[0] != x {
      FilterHolds(s[1..], p, x);
    }
  }

  // ----- iteration counters --------------------------------------------------------------------

  const COUNTER := "_recursive_iteration"

  function Iteration(ctx: Ctx): int {
    if COUNTER in ctx && ctx[COUNTER].Num? then ctx[COUNTER].n else 0
  }

  /**
    The contract the built-in recursive executor keeps: a node asks to continue
    only below the iteration limit, and hands on the increased iteration.
   */
  ghost predicate CountsIterations(c: Chain, limit: nat) {
    forall id, ctx, h :: AskingOutcome(c, id, c.exec(id, ctx, h)) ==>
      && Iteration(ctx) < limit
      && c.exec(id, ctx, h).result.output.Dict?
      && HandsOn(c.exec(id, ctx, h).result.output.fields, Iteration(ctx) + 1)
  }

  predicate HandsOn(fields: Ctx, n: int) {
    COUNTER in fields && fields[COUNTER] == Num(n)
  }

  /** The calls of a full flow tree: `width` children per node, `depth` levels. */
  function Tree(width: nat, depth: nat): nat {
    if depth == 0 then 1 else 1 + width * Tree(width, depth - 1)
  }

  lemma {:induction false} TreeGrows(width: nat, depth: nat)
    ensures Tree(width, depth) >= 1
  {
  }

  ghost predicate SourcesWithin(c: Chain, width: nat) {
    forall id :: id in c.nodes ==> |c.nodes[id].sources| <= width
  }

  /**
    Flows started at iteration `n` or later end under a nesting of `limit - n` and
    each costs at most a full tree of that depth.
   */
  lemma {:induction false} CountedFlowsEnd(c: Chain, limit: nat, width: nat, n: int, fuel: nat, reqs: seq<Request>, m: Mem)
    requires CountsIterations(c, limit) && SourcesWithin(c, width) && n <= limit && fuel >= limit - n
    requires forall q :: q in reqs ==> q.id in c.nodes && HandsOn(q.extra, n)
    ensures RunRequests(c, fuel, reqs, m).Some?
    ensures |RunRequests(c, fuel, reqs, m).value.log| <= |m.log| + |reqs| * Tree(width, limit - n)
    decreases fuel, 1, |reqs|
  {
    hide CountsIterations, SourcesWithin, RunRequest, Tree;
    if reqs != [] {
      CountedFlowEnds(c, limit, width, n, fuel, reqs[0], m);
      CountedFlowsEnd(c, limit, width, n, fuel, reqs[1..], RunRequest(c, fuel, reqs[0], m).value);
      assert |reqs| * Tree(width, limit - n) == Tree(width, limit - n) + |reqs[1..]| * Tree(width, limit - n);
    }
  }

  lemma InvokeCounts(c: Chain, limit: nat, n: int, q: Request, m: Mem)
    requires CountsIterations(c, limit) && q.id in c.nodes && HandsOn(q.extra, n)
    ensures var (o, log) := Invoke(c, q.id, q.extra, m.results, m.log);
      && |log| <= |m.log| + 1
      && (AskingOutcome(c, q.id, o) ==> n < limit && o.result.output.Dict? && HandsOn(o.result.output.fields, n + 1))
  {
    hide BuildContext;
    match BuildContext(c, q.id, m.results) {
      case None =>
      case Some(ctx) =>
        assert Iteration(ctx + q.extra) == n;
    }
  }

  lemma {:induction false} CountedFlowEnds(c: Chain, limit: nat, width: nat, n: int, fuel: nat, q: Request, m: Mem)
    requires CountsIterations(c, limit) && SourcesWithin(c, width) && n <= limit && fuel >= limit - n
    requires q.id in c.nodes && HandsOn(q.extra, n)
    ensures RunRequest(c, fuel, q, m).Some?
    ensures |RunRequest(c, fuel, q, m).value.log| <= |m.log| + Tree(width, limit - n)
    decreases fuel, 0, 0
  {
    hide CountsIterations, RunRequests, Invoke, Requests, HandsOn;
    InvokeCounts(c, limit, n, q, m);
    TreeGrows(width, limit - n);
    var (o, log) := Invoke(c, q.id, q.extra, m.results, m.log);
    if o.Returned? && Asks(c, q.id, o.result) {
      var nested := Requests(c, [Entry(q.id, o.result)]);
      OneEntryRequests(c, Entry(q.id, o.result));
      CountedFlowsEnd(c, limit, width, n + 1, fuel - 1, nested, Mem(m.results[q.id := o.result], log));
      TreeGrows(width, limit - n - 1);
      MulMonotone(|nested|, width, Tree(width, limit - n - 1));
    }
  }

  lemma MulMonotone(a: nat, b: nat, x: nat)
    requires a <= b
    ensures a * x <= b * x
  {
  }

  // ----- the built-in executor of recursive nodes ------------------------------------------------

  datatype RecursiveConfig = RecursiveConfig(id: Id, maxIterations: int, contextKey: string, preserveContext: bool)

  function Stopped(cfg: RecursiveConfig, ctx: Ctx, converged: bool): Outcome {
    Returned(Result(true,
                    Dict(map["converged" := Bool(converged),
                             "reason" := Str(if converged then "condition_met" else "max_iterations_reached"),
                             "iterations" := Num(Iteration(ctx)),
                             "final_context" := if cfg.contextKey in ctx then ctx[cfg.contextKey] else Dict(map[])]),
                    "", None))
  }

  function Broken(text: string): Outcome {
    Returned(Result(false, Dict(map["error" := Str(text)]), text, None))
  }

  /**
    One execution of a recursive node: `converged` is the value of its convergence
    condition, `inner` what the wrapped agent or workflow did.  Exceptions become
    failed results.
   */
  function RecursiveExecutor(cfg: RecursiveConfig, ctx: Ctx, converged: bool, inner: Outcome): Outcome {
    if COUNTER in ctx && !ctx[COUNTER].Num? then Broken("iteration")
    else
      var iteration := Iteration(ctx);
      if iteration >= cfg.maxIterations then Stopped(cfg, ctx, false)
      else if converged then Stopped(cfg, ctx, true)
      else if cfg.preserveContext && !CanKeep(cfg, ctx) then Broken("context")
      else
        match inner
        case Raised(text) => Broken(text)
        case Returned(r) =>
          if !r.output.Dict? then inner
          else
            var fields := r.output.fields + map[COUNTER := Num(iteration + 1),
                                                "_can_recurse" := Bool(true),
                                                "_recursive_node_id" := Str(cfg.id)];
            Returned(r.(output := Dict(if cfg.preserveContext
                                       then fields[cfg.contextKey := KeptContext(cfg, ctx)] else fields)))
  }

  /** The kept context must be a dictionary; the counter's own key holds a number. */
  predicate CanKeep(cfg: RecursiveConfig, ctx: Ctx) {
    cfg.contextKey != COUNTER && (cfg.contextKey in ctx ==> ctx[cfg.contextKey].Dict?)
  }

  function KeptContext(cfg: RecursiveConfig, ctx: Ctx): Json {
    var kept := if cfg.contextKey in ctx && ctx[cfg.contextKey].Dict? then ctx[cfg.contextKey].fields else map[];
    Dict(kept["iteration" := Num(Iteration(ctx) + 1)]["node_id" := Str(cfg.id)])
  }

  /** Does this outcome ask for another round? */
  predicate WantsMore(o: Outcome) {
    o.Returned? && o.result.output.Dict?
    && Flag(o.result.output.fields, "_can_recurse") && !Flag(o.result.output.fields, "converged")
  }

  /** The built-in executor asks again only below its limit, and hands on the next iteration. */
  lemma BuiltInCounts(cfg: RecursiveConfig, ctx: Ctx, converged: bool, inner: Outcome)
    requires WantsMore(RecursiveExecutor(cfg, ctx, converged, inner))
    ensures Iteration(ctx) < cfg.maxIterations
    ensures HandsOn(RecursiveExecutor(cfg, ctx, converged, inner).result.output.fields, Iteration(ctx) + 1)
  {
    assert COUNTER != "_can_recurse" by {
      assert COUNTER[1] != "_can_recurse"[1];
    }
  }

  /**
    It asks again exactly if the counter is a number below the limit, the condition is
    not met, the context can be kept, and the inner run returned a dictionary that does
    not itself claim convergence.
   */
  lemma BuiltInAsksExactly(cfg: RecursiveConfig, ctx: Ctx, converged: bool, inner: Outcome)
    ensures WantsMore(RecursiveExecutor(cfg, ctx, converged, inner)) <==>
      && (COUNTER in ctx ==> ctx[COUNTER].Num?) && Iteration(ctx) < cfg.maxIterations && !converged
      && (cfg.preserveContext ==>
            cfg.contextKey != COUNTER && (cfg.contextKey in ctx ==> ctx[cfg.contextKey].Dict?) && cfg.contextKey != "converged")
      && inner.Returned? && inner.result.output.Dict?
      && ("converged" in inner.result.output.fields ==> !Truthy(inner.result.output.fields["converged"]))
  {
    hide Truthy, KeptContext;
    assert "converged" != "_can_recurse" && "converged" != COUNTER && "converged" != "_recursive_node_id" by {
      assert "converged"[0] != '_';
    }
    assert "_can_recurse" != "_recursive_node_id" && "_can_recurse" != COUNTER by {
      assert "_can_recurse"[1] == 'c' && "_recursive_node_id"[1] == 'r' && COUNTER[1] == 'r';
    }
    TruthyKept(cfg, ctx);
  }

  lemma TruthyKept(cfg: RecursiveConfig, ctx: Ctx)
    ensures Truthy(KeptContext(cfg, ctx)) && Truthy(Bool(true))
  {
    assert "iteration" in KeptContext(cfg, ctx).fields;
  }

  /** What it hands on: the inner output, the counter, and the kept context with its own entries. */
  lemma BuiltInHandsOn(cfg: RecursiveConfig, ctx: Ctx, converged: bool, inner: Outcome, k: string)
    requires WantsMore(RecursiveExecutor(cfg, ctx, converged, inner))
    requires k !in {COUNTER, "_can_recurse", "_recursive_node_id"}
    ensures inner.Returned? && inner.result.output.Dict?
    ensures var fields, own := RecursiveExecutor(cfg, ctx, converged, inner).result.output.fields, inner.result.output.fields;
      if cfg.preserveContext && k == cfg.contextKey then
        && k in fields && fields[k].Dict?
        && "iteration" in fields[k].fields && fields[k].fields["iteration"] == Num(Iteration(ctx) + 1)
        && "node_id" in fields[k].fields && fields[k].fields["node_id"] == Str(cfg.id)
        && forall x :: x !in {"iteration", "node_id"} ==>
             if k in ctx && x in ctx[k].fields then x in fields[k].fields && fields[k].fields[x] == ctx[k].fields[x]
             else x !in fields[k].fields
      else if k in own then k in fields && fields[k] == own[k]
      else k !in fields
  {
    assert "iteration" != "node_id";
  }

  /** Without another round it reports why: met condition, exhausted limit, or a failure. */
  lemma BuiltInStops(cfg: RecursiveConfig, ctx: Ctx, converged: bool, inner: Outcome)
    requires COUNTER in ctx ==> ctx[COUNTER].Num?
    requires converged || Iteration(ctx) >= cfg.maxIterations
    ensures var o := RecursiveExecutor(cfg, ctx, converged, inner);
      && o.Returned? && o.result.success && o.result.output.Dict?
      && var out := o.result.output.fields;
      && "converged" in out && out["converged"] == Bool(Iteration(ctx) < cfg.maxIterations)
      && "iterations" in out && out["iterations"] == Num(Iteration(ctx))
      && "final_context" in out
      && out["final_context"] == if cfg.contextKey in ctx then ctx[cfg.contextKey] else Dict(map[])
  {
    assert "converged"[0] != "iterations"[0] && "converged"[0] != "reason"[0] && "converged"[0] != "final_context"[0];
    assert "iterations"[0] != "reason"[0] && "iterations"[0] != "final_context"[0] && "reason"[0] != "final_context"[0];
  }

  /** Every recursive node runs the built-in executor, with a limit of at most `limit`. */
  ghost predicate RunsBuiltIn(c: Chain, cfgs: map<Id, RecursiveConfig>, limit: nat) {
    forall id, ctx, h :: id in c.nodes && c.nodes[id].kind.Recursive? ==>
      id in cfgs && cfgs[id].maxIterations <= limit
      && exists converged, inner :: c.exec(id, ctx, h) == RecursiveExecutor(cfgs[id], ctx, converged, inner)
  }

  /** Such a chain keeps the contract of counting executors. */
  lemma BuiltInChainCounts(c: Chain, cfgs: map<Id, RecursiveConfig>, limit: nat)
    requires RunsBuiltIn(c, cfgs, limit)
    ensures CountsIterations(c, limit)
  {
    hide RecursiveExecutor, HandsOn, Iteration;
    forall id, ctx, h | AskingOutcome(c, id, c.exec(id, ctx, h))
      ensures Iteration(ctx) < limit
      ensures c.exec(id, ctx, h).result.output.Dict?
      ensures HandsOn(c.exec(id, ctx, h).result.output.fields, Iteration(ctx) + 1)
    {
      var converged, inner :| c.exec(id, ctx, h) == RecursiveExecutor(cfgs[id], ctx, converged, inner);
      BuiltInCounts(cfgs[id], ctx, converged, inner);
    }
  }

  // ----- whole runs of counting executors ---------------------------------------------------------

  /** Nothing but a recursive flow puts a counter into a context. */
  ghost predicate NoCounter(c: Chain) {
    && COUNTER !in c.metadata && !Flattened(c.metadata, COUNTER)
    && forall id :: id in c.nodes ==> COUNTER !in c.nodes[id].inputs && COUNTER !in c.nodes[id].deps
  }

  /** An outcome of the level itself asks at iteration 1, and never under a limit of 0. */
  predicate AsksFirst(c: Chain, limit: nat, id: Id, o: Outcome) {
    AskingOutcome(c, id, o) ==> limit > 0 && HandsOn(o.result.output.fields, 1)
  }

  lemma InvokeStarts(c: Chain, limit: nat, id: Id, results: map<Id, Result>, log: seq<Call>)
    requires CountsIterations(c, limit) && NoCounter(c) && id in c.nodes
    ensures var (o, log1) := Invoke(c, id, map[], results, log); |log1| <= |log| + 1 && AsksFirst(c, limit, id, o)
  {
    hide BuildContext, HandsOn;
    match BuildContext(c, id, results) {
      case None =>
      case Some(ctx) =>
        ContextPrecedence(c, id, results, COUNTER);
        assert ctx + map[] == ctx;
        assert Iteration(ctx) == 0;
    }
  }

  lemma {:induction false} LevelStarts(c: Chain, limit: nat, level: seq<Id>, results: map<Id, Result>, log: seq<Call>)
    requires CountsIterations(c, limit) && NoCounter(c) && forall id :: id in level ==> id in c.nodes
    ensures var (outs, log1) := LevelOutcomes(c, level, results, log);
      |log1| <= |log| + |level| && forall p :: p in outs ==> p.0 in level && AsksFirst(c, limit, p.0, p.1)
  {
    hide Invoke, CountsIterations, NoCounter, AsksFirst;
    if level != [] {
      InvokeStarts(c, limit, level[0], results, log);
      LevelStarts(c, limit, level[1..], results, Invoke(c, level[0], map[], results, log).1);
    }
  }

  lemma {:induction false} OwedWithin(c: Chain, limit: nat, width: nat, outs: seq<(Id, Outcome)>)
    requires SourcesWithin(c, width) && forall p :: p in outs ==> p.0 in c.nodes && AsksFirst(c, limit, p.0, p.1)
    ensures Owed(c, outs) <= if limit == 0 then 0 else |outs| * width
  {
    hide HandsOn, Asks;
    if outs != [] {
      assert outs[0] in outs;
      OwedWithin(c, limit, width, outs[1..]);
      assert |outs| * width == width + |outs[1..]| * width;
    }
  }

  predicate EntryStarts(c: Chain, e: Entry) {
    Asks(c, e.key, e.val) ==> HandsOn(e.val.output.fields, 1)
  }

  lemma {:induction false} PutStarts(c: Chain, d: seq<Entry>, k: Id, v: Result)
    requires EntryStarts(c, Entry(k, v)) && forall e :: e in d ==> EntryStarts(c, e)
    ensures forall e :: e in Put(d, k, v) ==> EntryStarts(c, e)
  {
    hide EntryStarts;
    if d != [] && d[0].key != k {
      PutStarts(c, d[1..], k, v);
    }
  }

  lemma {:induction false} CollectStarts(c: Chain, limit: nat, outs: seq<(Id, Outcome)>, d: seq<Entry>)
    requires forall p :: p in outs ==> AsksFirst(c, limit, p.0, p.1)
    requires forall e :: e in d ==> EntryStarts(c, e)
    ensures forall e :: e in Collect(outs, d) ==> EntryStarts(c, e)
  {
    hide Asks, HandsOn, Put;
    if outs != [] {
      assert outs[0] in outs;
      var e := Filed(outs[0].0, outs[0].1);
      RaisedAsksNothing(c, outs[0].0, outs[0].1);
      assert EntryStarts(c, e);
      PutStarts(c, d, e.key, e.val);
      CollectStarts(c, limit, outs[1..], Put(d, e.key, e.val));
    }
  }

  lemma {:induction false} RequestsStart(c: Chain, entries: seq<Entry>)
    requires forall e :: e in entries ==> EntryStarts(c, e)
    ensures forall q :: q in Requests(c, entries) ==> HandsOn(q.extra, 1)
  {
    hide HandsOn, Asks, SourceRequests;
    if entries != [] {
      assert entries[0] in entries;
      RequestsStart(c, entries[1..]);
    }
  }

  /** A level costs at most one full tree per node. */
  lemma LevelCounted(c: Chain, limit: nat, width: nat, fuel: nat, level: seq<Id>, results: map<Id, Result>, log: seq<Call>)
    requires CountsIterations(c, limit) && SourcesWithin(c, width) && NoCounter(c) && fuel >= limit
    requires forall id :: id in level ==> id in c.nodes
    ensures PlayLevel(c, fuel, level, results, log).Some?
    ensures |PlayLevel(c, fuel, level, results, log).value.1.log| <= |log| + |level| * Tree(width, limit)
  {
    hide CountsIterations, SourcesWithin, NoCounter, AsksFirst, LevelOutcomes, Collect, Requests, RunRequests, HandsOn, Tree;
    var (outs, log1) := LevelOutcomes(c, level, results, log);
    var reqs := Requests(c, Collect(outs, []));
    LevelStarts(c, limit, level, results, log);
    OwedWithin(c, limit, width, outs);
    CollectRequests(c, outs, []);
    NoRequests(c);
    if limit == 0 {
      assert reqs == [];
      NothingToRun(c, fuel, Mem(results, log1));
      assert |level| * Tree(width, 0) == |level| by { assert Tree(width, 0) == 1 by { OneTree(width); } }
    } else {
      CollectStarts(c, limit, outs, []);
      RequestsStart(c, Collect(outs, []));
      CountedFlowsEnd(c, limit, width, 1, fuel, reqs, Mem(results, log1));
      LevelTree(|level|, width, limit, |reqs|);
    }
  }

  /** `n` roots with at most `width` flows each, in calls. */
  lemma LevelTree(n: nat, width: nat, limit: nat, flows: nat)
    requires limit > 0 && flows <= n * width
    ensures n + flows * Tree(width, limit - 1) <= n * Tree(width, limit)
  {
    var tree := Tree(width, limit - 1);
    MulMonotone(flows, n * width, tree);
    assert n * (1 + width * tree) == n + (n * width) * tree;
  }

  lemma OneTree(width: nat)
    ensures Tree(width, 0) == 1
  {
  }

  lemma NothingToRun(c: Chain, fuel: nat, m: Mem)
    ensures RunRequests(c, fuel, [], m) == Some(m)
  {
  }

  lemma {:induction false} LevelsCounted(c: Chain, limit: nat, width: nat, fuel: nat, i: nat, s: Run)
    requires Sound(c) && CountsIterations(c, limit) && SourcesWithin(c, width) && NoCounter(c) && fuel >= limit
    requires i <= |c.levels| && s.begun == i
    ensures RunLevels(c, fuel, i, s).Some?
    ensures var t := RunLevels(c, fuel, i, s).value;
      i <= t.begun <= |c.levels| && |t.log| <= |s.log| + LevelCount(c, i, t.begun) * Tree(width, limit)
    decreases |c.levels| - i
  {
    hide CountsIterations, SourcesWithin, NoCounter, RunLevel, Sound, Tree;
    if i < |c.levels| && DepthStop(c, i + 1).None? {
      OneLevelCounted(c, limit, width, fuel, i, s);
      var t := RunLevel(c, fuel, c.levels[i], s).value;
      var tree := Tree(width, limit);
      if Proceeds(c, t) {
        LevelsCounted(c, limit, width, fuel, i + 1, t);
        var n := LevelCount(c, i + 1, RunLevels(c, fuel, i, s).value.begun);
        assert (|c.levels[i]| + n) * tree == |c.levels[i]| * tree + n * tree;
      } else {
        assert LevelCount(c, i + 1, i + 1) == 0;
        assert LevelCount(c, i, i + 1) == |c.levels[i]|;
      }
    }
  }

  lemma OneLevelCounted(c: Chain, limit: nat, width: nat, fuel: nat, i: nat, s: Run)
    requires Sound(c) && CountsIterations(c, limit) && SourcesWithin(c, width) && NoCounter(c) && fuel >= limit
    requires i < |c.levels|
    ensures forall id :: id in c.levels[i] ==> id in c.nodes
    ensures RunLevel(c, fuel, c.levels[i], s).Some?
    ensures var t := RunLevel(c, fuel, c.levels[i], s).value;
      t.begun == s.begun + 1 && |t.log| <= |s.log| + |c.levels[i]| * Tree(width, limit)
  {
    hide CountsIterations, SourcesWithin, NoCounter, PlayLevel, Record, Tree;
    AllActive(c, c.levels[i]);
    LevelCounted(c, limit, width, fuel, c.levels[i], s.results, s.log);
    var (entries, m) := PlayLevel(c, fuel, c.levels[i], s.results, s.log).value;
    RecordFrame(c, entries, s.(results := m.results, log := m.log, begun := s.begun + 1));
  }

  /**
    A run whose recursive nodes count iterations ends, nesting at most `limit` deep,
    and calls at most one full tree per listed node; by `BuiltInChainCounts` this
    holds for the built-in executor.
   */
  lemma CountedRunEnds(c: Chain, limit: nat, width: nat, fuel: nat)
    requires Sound(c) && CountsIterations(c, limit) && SourcesWithin(c, width) && NoCounter(c) && fuel >= limit
    ensures ExecuteChain(c, fuel).Some?
    ensures var t := ExecuteChain(c, fuel).value;
      t.begun <= |c.levels| && |t.log| <= LevelCount(c, 0, t.begun) * Tree(width, limit)
  {
    LevelsCounted(c, limit, width, fuel, 0, FRESH);
  }
}
