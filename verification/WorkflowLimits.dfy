/**
  Depth and token limits of a run, for every executor, guard, policy and for
  chains with recursive nodes.
 */
module WorkflowLimits {
  import opened Prelude
  import opened WorkflowModel
  import opened WorkflowSequential

  /** No single result reports more than `u` tokens. */
  ghost predicate UsageBound(c: Chain, u: nat) {
    forall id, ctx, h :: c.exec(id, ctx, h).Returned? && c.exec(id, ctx, h).result.usage.Some? ==>
      c.exec(id, ctx, h).result.usage.value <= u
  }

  predicate Cheap(r: Result, u: nat) {
    r.usage.Some? ==> r.usage.value <= u
  }

  // ----- tokens of one level ----------------------------------------------------

  lemma InvokeCheap(c: Chain, id: Id, extra: Ctx, results: map<Id, Result>, log: seq<Call>, u: nat)
    requires UsageBound(c, u) && id in c.nodes
    ensures Cheap(Filed(id, Invoke(c, id, extra, results, log).0).val, u)
  {
  }

  lemma {:induction false} OutcomesCheap(c: Chain, ids: seq<Id>, results: map<Id, Result>, log: seq<Call>, u: nat)
    requires UsageBound(c, u) && forall id :: id in ids ==> id in c.nodes
    ensures forall p :: p in LevelOutcomes(c, ids, results, log).0 ==> Cheap(Filed(p.0, p.1).val, u)
  {
    hide Invoke, UsageBound, Cheap, Filed;
    if ids != [] {
      InvokeCheap(c, ids[0], map[], results, log, u);
      OutcomesCheap(c, ids[1..], results, Invoke(c, ids[0], map[], results, log).1, u);
    }
  }

  lemma {:induction false} PutCheap(d: seq<Entry>, k: Id, v: Result, u: nat)
    requires Cheap(v, u) && forall e :: e in d ==> Cheap(e.val, u)
    ensures forall e :: e in Put(d, k, v) ==> Cheap(e.val, u)
  {
    hide Cheap;
    if d != [] && d[0].key != k {
      PutCheap(d[1..], k, v, u);
    }
  }

  lemma {:induction false} CollectCheap(outs: seq<(Id, Outcome)>, d: seq<Entry>, u: nat)
    requires forall p :: p in outs ==> Cheap(Filed(p.0, p.1).val, u)
    requires forall e :: e in d ==> Cheap(e.val, u)
    ensures forall e :: e in Collect(outs, d) ==> Cheap(e.val, u)
  {
    hide Cheap, Filed;
    if outs != [] {
      assert outs[0] in outs;
      var e := Filed(outs[0].0, outs[0].1);
      PutCheap(d, e.key, e.val, u);
      CollectCheap(outs[1..], Put(d, e.key, e.val), u);
    }
  }

  /** The ceiling in force; negative ceilings behave like zero. */
  function Ceiling(c: Chain): nat
    requires c.tokenCeiling.Some?
  {
    Max(0, c.tokenCeiling.value)
  }

  /** Totals above the ceiling have left an error message. */
  ghost predicate Flagged(c: Chain, s: Run)
    requires c.tokenCeiling.Some?
  {
    s.tokens > Ceiling(c) ==> s.errors != []
  }

  /** One level adds at most one result's usage beyond the ceiling or the old total. */
  lemma {:induction false} RecordTokens(c: Chain, entries: seq<Entry>, s: Run, u: nat)
    requires c.tokenCeiling.Some? && Flagged(c, s)
    requires forall e :: e in entries ==> Cheap(e.val, u)
    ensures var t := Record(c, entries, s);
      && s.tokens <= t.tokens <= Max(s.tokens, Ceiling(c)) + u
      && Flagged(c, t)
      && t.begun == s.begun
  {
    if entries != [] {
      var e := entries[0];
      assert e in entries;
      var (s1, stop) := RecordEntry(c, e, s);
      if !stop {
        assert s1.tokens <= Max(s.tokens, Ceiling(c));
        RecordTokens(c, entries[1..], s1, u);
      }
    }
  }

  // ----- whole runs ----------------------------------------------------------------

  lemma LevelTokens(c: Chain, fuel: nat, i: nat, s: Run, u: nat)
    requires Sound(c) && UsageBound(c, u) && c.tokenCeiling.Some? && Flagged(c, s) && i < |c.levels|
    requires RunLevel(c, fuel, c.levels[i], s).Some?
    ensures var t := RunLevel(c, fuel, c.levels[i], s).value;
      s.tokens <= t.tokens <= Max(s.tokens, Ceiling(c)) + u && Flagged(c, t) && t.begun == s.begun + 1
  {
    hide Record, UsageBound;
    var active := ActiveIds(c, c.levels[i]);
    var outs := LevelOutcomes(c, active, s.results, s.log).0;
    OutcomesCheap(c, active, s.results, s.log, u);
    CollectCheap(outs, [], u);
    var (entries, m) := PlayLevel(c, fuel, active, s.results, s.log).value;
    RecordTokens(c, entries, s.(results := m.results, log := m.log, begun := s.begun + 1), u);
  }

  /** How many levels the run from level `i` begins and leaves above the ceiling. */
  function Overruns(c: Chain, fuel: nat, i: nat, s: Run): nat
    requires Sound(c) && c.tokenCeiling.Some? && i <= |c.levels|
    decreases |c.levels| - i
  {
    if i == |c.levels| || DepthStop(c, i + 1).Some? then 0
    else
      match RunLevel(c, fuel, c.levels[i], s)
      case None => 0
      case Some(t) =>
        (if t.tokens > Ceiling(c) then 1 else 0) + (if Proceeds(c, t) then Overruns(c, fuel, i + 1, t) else 0)
  }

  lemma {:induction false} RunTokens(c: Chain, fuel: nat, i: nat, s: Run, u: nat)
    requires Sound(c) && UsageBound(c, u) && c.tokenCeiling.Some? && Flagged(c, s) && i <= |c.levels|
    requires RunLevels(c, fuel, i, s).Some?
    ensures RunLevels(c, fuel, i, s).value.tokens <= Max(s.tokens, Ceiling(c)) + u * Overruns(c, fuel, i, s)
    ensures Overruns(c, fuel, i, s) <= |c.levels| - i
    decreases |c.levels| - i
  {
    hide RunLevel, UsageBound, Sound;
    if i < |c.levels| && DepthStop(c, i + 1).None? {
      LevelInNodes(c, i);
      LevelTokens(c, fuel, i, s, u);
      var t := RunLevel(c, fuel, c.levels[i], s).value;
      var over := if t.tokens > Ceiling(c) then 1 else 0;
      assert Max(t.tokens, Ceiling(c)) <= Max(s.tokens, Ceiling(c)) + u * over;
      if Proceeds(c, t) {
        RunTokens(c, fuel, i + 1, t, u);
        assert u * (over + Overruns(c, fuel, i + 1, t)) == u * over + u * Overruns(c, fuel, i + 1, t);
      }
    }
  }

  lemma {:induction false} HaltTokens(c: Chain, fuel: nat, i: nat, s: Run, u: nat)
    requires Sound(c) && UsageBound(c, u) && c.tokenCeiling.Some? && Flagged(c, s) && i <= |c.levels|
    requires c.policy == Halt && s.errors == []
    requires RunLevels(c, fuel, i, s).Some?
    ensures RunLevels(c, fuel, i, s).value.tokens <= Ceiling(c) + u
    decreases |c.levels| - i
  {
    hide RunLevel, UsageBound, Sound;
    if i < |c.levels| && DepthStop(c, i + 1).None? {
      LevelInNodes(c, i);
      LevelTokens(c, fuel, i, s, u);
      var t := RunLevel(c, fuel, c.levels[i], s).value;
      if Proceeds(c, t) {
        HaltTokens(c, fuel, i + 1, t, u);
      }
    }
  }

  /**
    The recorded total exceeds the ceiling by at most one result's usage per level
    begun from the crossing on; under the halting policy by one result's usage.
   */
  lemma TokenOvershoot(c: Chain, fuel: nat, u: nat)
    requires Sound(c) && UsageBound(c, u) && c.tokenCeiling.Some? && ExecuteChain(c, fuel).Some?
    ensures ExecuteChain(c, fuel).value.tokens <= Ceiling(c) + u * Overruns(c, fuel, 0, FRESH)
    ensures Overruns(c, fuel, 0, FRESH) <= |c.levels|
    ensures c.policy == Halt ==> ExecuteChain(c, fuel).value.tokens <= Ceiling(c) + u
  {
    hide RunLevels, UsageBound, Sound, Overruns;
    RunTokens(c, fuel, 0, FRESH, u);
    if c.policy == Halt {
      HaltTokens(c, fuel, 0, FRESH, u);
    }
  }

  lemma LevelBegun(c: Chain, fuel: nat, i: nat, s: Run)
    requires Sound(c) && i < |c.levels| && RunLevel(c, fuel, c.levels[i], s).Some?
    ensures RunLevel(c, fuel, c.levels[i], s).value.begun == s.begun + 1
  {
    hide Record, PlayLevel, Sound, ActiveIds;
    LevelInNodes(c, i);
    var (entries, m) := PlayLevel(c, fuel, ActiveIds(c, c.levels[i]), s.results, s.log).value;
    RecordFrame(c, entries, s.(results := m.results, log := m.log, begun := s.begun + 1));
  }

  /** No node is worth trying any more: each failed or reads a failed node. */
  ghost predicate Hopeless(c: Chain, errors: seq<Error>) {
    forall id :: id in c.nodes ==>
      id in FailedIds(errors) || exists d :: d in c.nodes[id].deps && d in FailedIds(errors)
  }

  /** What each policy takes as a reason to stop after an error. */
  ghost predicate GivesUp(c: Chain, errors: seq<Error>) {
    match c.policy
    case Halt => errors != []
    case Always => false
    case ContinuePossible => errors != [] && Hopeless(c, errors)
  }

  /** The policy check stops a run exactly when the policy gives up. */
  lemma StopsExactly(c: Chain, errors: seq<Error>)
    requires Sound(c)
    ensures !ShouldContinue(c, errors) <==> GivesUp(c, errors)
  {
    hide FailedIds;
    if c.policy == ContinuePossible && errors != [] {
      if ShouldContinue(c, errors) {
        var i, id :| 0 <= i < |c.levels| && id in c.levels[i]
          && id !in FailedIds(errors)
          && (id in c.nodes ==> forall d | d in c.nodes[id].deps :: d !in FailedIds(errors));
        assert id in c.nodes;
      } else {
        forall id | id in c.nodes
          ensures id in FailedIds(errors) || exists d :: d in c.nodes[id].deps && d in FailedIds(errors)
        {
          assert id in c.levels[c.rank[id]];
        }
      }
    }
  }

  /**
    The check also counts nodes that already ran: while one node without
    dependencies has not failed, the run goes on, even when every node still to
    come depends on a failed one.
   */
  lemma OneRootKeepsGoing(c: Chain, errors: seq<Error>, root: Id)
    requires Sound(c) && c.policy == ContinuePossible
    requires root in c.nodes && c.nodes[root].deps == [] && root !in FailedIds(errors)
    ensures ShouldContinue(c, errors)
  {
    hide FailedIds, ShouldContinue;
    StopsExactly(c, errors);
    assert !Hopeless(c, errors);
  }

  /** Level number `k` (from 1) is within both depth limits. */
  predicate DepthOpen(c: Chain, k: nat) {
    c.depthGuard(k, c.depthCeiling) && (c.depthCeiling.Some? ==> k <= c.depthCeiling.value)
  }

  ghost predicate NoDepthError(errors: seq<Error>) {
    DepthGuardAborted !in errors && DepthCeilingReached !in errors
  }

  lemma {:induction false} RecordAddsNoDepthError(c: Chain, entries: seq<Entry>, s: Run)
    requires NoDepthError(s.errors)
    ensures NoDepthError(Record(c, entries, s).errors)
  {
    if entries != [] {
      RecordAddsNoDepthError(c, entries[1..], RecordEntry(c, entries[0], s).0);
    }
  }

  lemma LevelAddsNoDepthError(c: Chain, fuel: nat, i: nat, s: Run)
    requires Sound(c) && i < |c.levels| && RunLevel(c, fuel, c.levels[i], s).Some? && NoDepthError(s.errors)
    ensures NoDepthError(RunLevel(c, fuel, c.levels[i], s).value.errors)
  {
    hide Record, PlayLevel, Sound, ActiveIds;
    LevelInNodes(c, i);
    var (entries, m) := PlayLevel(c, fuel, ActiveIds(c, c.levels[i]), s.results, s.log).value;
    RecordAddsNoDepthError(c, entries, s.(results := m.results, log := m.log, begun := s.begun + 1));
  }

  /** The limit that keeps the next level from beginning, and the message it leaves. */
  ghost predicate DepthHit(c: Chain, t: Run) {
    && !DepthOpen(c, t.begun + 1)
    && (if !c.depthGuard(t.begun + 1, c.depthCeiling)
        then DepthGuardAborted in t.errors && DepthCeilingReached !in t.errors
        else DepthCeilingReached in t.errors && DepthGuardAborted !in t.errors)
  }

  lemma {:induction false} DepthFrom(c: Chain, fuel: nat, i: nat, s: Run)
    requires Sound(c) && i <= |c.levels| && s.begun == i && NoDepthError(s.errors) && RunLevels(c, fuel, i, s).Some?
    ensures var t := RunLevels(c, fuel, i, s).value;
      && i <= t.begun <= |c.levels|
      && (forall k :: i < k <= t.begun ==> DepthOpen(c, k))
      && (t.begun < |c.levels| ==> t.crashed || DepthHit(c, t) || GivesUp(c, t.errors))
      && (t.begun == |c.levels| ==> NoDepthError(t.errors))
    decreases |c.levels| - i
  {
    hide RunLevel, Sound, GivesUp, ShouldContinue;
    if i < |c.levels| {
      if DepthStop(c, i + 1).Some? {
        var e := DepthStop(c, i + 1).value;
        assert (s.errors + [e])[|s.errors|] == e;
      } else {
        LevelInNodes(c, i);
        LevelBegun(c, fuel, i, s);
        LevelAddsNoDepthError(c, fuel, i, s);
        var t := RunLevel(c, fuel, c.levels[i], s).value;
        StopsExactly(c, t.errors);
        if Proceeds(c, t) {
          DepthFrom(c, fuel, i + 1, t);
        }
      }
    }
  }

  /**
    Every level begun is within the depth limits, so at most `depth_ceiling` levels
    are.  A level is left out for three reasons only: a crash, a depth limit that
    refuses just this level, or a policy that gives up.  A token stop cuts its level
    short but ends the run only by way of the policy.
   */
  lemma DepthBound(c: Chain, fuel: nat)
    requires Sound(c) && ExecuteChain(c, fuel).Some?
    ensures var t := ExecuteChain(c, fuel).value;
      && t.begun <= |c.levels|
      && (forall k :: 1 <= k <= t.begun ==> DepthOpen(c, k))
      && (c.depthCeiling.Some? ==> t.begun <= Max(0, c.depthCeiling.value))
      && (t.begun < |c.levels| ==> t.crashed || DepthHit(c, t) || GivesUp(c, t.errors))
      && (t.begun == |c.levels| ==> NoDepthError(t.errors))
  {
    hide RunLevels, Sound;
    DepthFrom(c, fuel, 0, FRESH);
    var t := ExecuteChain(c, fuel).value;
    if c.depthCeiling.Some? && t.begun > 0 {
      assert DepthOpen(c, t.begun);
    }
  }

  // ----- where a token limit cuts a level ------------------------------------------------------

  /** The total after entry `e` is refused by the guard or above the ceiling. */
  predicate Trips(c: Chain, e: Entry, total: nat) {
    e.val.success && e.val.usage.Some?
    && (!c.tokenGuard(total, c.tokenCeiling) || (c.tokenCeiling.Some? && total > c.tokenCeiling.value))
  }

  /** The token total after the first `j` entries. */
  function TotalAfter(entries: seq<Entry>, tokens: nat, j: nat): nat
    requires j <= |entries|
  {
    tokens + Spending(entries[..j])
  }

  /** The first `n` entries were recorded, and none but the last of them could end the loop. */
  ghost predicate RecordedTo(c: Chain, entries: seq<Entry>, s: Run, t: Run, n: nat) {
    && n <= |entries|
    && t.results == Assign(s.results, entries[..n]) && t.tokens == TotalAfter(entries, s.tokens, n)
    && (forall j :: 0 <= j < n - 1 ==>
          entries[j].key in c.nodes && !Trips(c, entries[j], TotalAfter(entries, s.tokens, j + 1)))
  }

  /** The last recorded entry is the reason why the loop ended, or there was no further one. */
  ghost predicate EndedBy(c: Chain, entries: seq<Entry>, t: Run, n: nat)
    requires n <= |entries|
  {
    if n == 0 then entries == [] && !t.crashed
    else
      var e := entries[n - 1];
      if Trips(c, e, t.tokens) then
        !t.crashed && t.errors != []
        && t.errors[|t.errors| - 1] == if !c.tokenGuard(t.tokens, c.tokenCeiling) then TokenGuardAborted else TokenCeilingExceeded
      else
        (t.crashed <==> e.key !in c.nodes) && (t.crashed || n == |entries|)
  }

  /**
    Recording takes the entries in order and stops at the first one that trips a token
    limit or whose key is no node, and nowhere else.
   */
  lemma {:induction false} RecordedPrefix(c: Chain, entries: seq<Entry>, s: Run) returns (n: nat)
    requires !s.crashed
    ensures RecordedTo(c, entries, s, Record(c, entries, s), n) && EndedBy(c, entries, Record(c, entries, s), n)
  {
    hide RecordedTo, EndedBy, RecordEntry, Trips;
    if entries == [] {
      n := 0;
      NothingRecorded(c, s);
    } else {
      var s1 := RecordEntry(c, entries[0], s).0;
      OneRecorded(c, entries[0], s);
      if RecordEntry(c, entries[0], s).1 || entries[1..] == [] {
        n := 1;
        LastRecorded(c, entries, s);
      } else {
        var m := RecordedPrefix(c, entries[1..], s1);
        n := m + 1;
        MoreRecorded(c, entries, s, m);
      }
    }
  }

  lemma NothingRecorded(c: Chain, s: Run)
    requires !s.crashed
    ensures RecordedTo(c, [], s, Record(c, [], s), 0) && EndedBy(c, [], Record(c, [], s), 0)
  {
  }

  lemma LastRecorded(c: Chain, entries: seq<Entry>, s: Run)
    requires !s.crashed && entries != [] && (RecordEntry(c, entries[0], s).1 || entries[1..] == [])
    ensures var t := Record(c, entries, s); RecordedTo(c, entries, s, t, 1) && EndedBy(c, entries, t, 1)
  {
    hide RecordEntry, Trips;
    var e := entries[0];
    OneRecorded(c, e, s);
    assert entries[..1] == [e] && [e][1..] == [];
    assert Spending([e]) == UsageOf(e.val) + Spending([]);
    assert Assign(s.results, [e]) == Assign(s.results[e.key := e.val], []);
    assert Record(c, entries, s) == RecordEntry(c, e, s).0;
  }

  lemma MoreRecorded(c: Chain, entries: seq<Entry>, s: Run, m: nat)
    requires !s.crashed && |entries| > 1 && !RecordEntry(c, entries[0], s).1
    requires var t, s1 := Record(c, entries, s), RecordEntry(c, entries[0], s).0;
      RecordedTo(c, entries[1..], s1, t, m) && EndedBy(c, entries[1..], t, m)
    ensures var t := Record(c, entries, s); RecordedTo(c, entries, s, t, m + 1) && EndedBy(c, entries, t, m + 1)
  {
    hide Record, RecordEntry, Trips, TotalAfter;
    var e, rest := entries[0], entries[1..];
    var s1 := RecordEntry(c, e, s).0;
    OneRecorded(c, e, s);
    ShiftedTotals(entries, s.tokens, s1.tokens);
    assert entries[..m + 1][0] == e && entries[..m + 1][1..] == rest[..m];
    assert TotalAfter(entries, s.tokens, 1) == s1.tokens by { TotalNothing(rest, s1.tokens); }
    forall j | 0 <= j < m
      ensures entries[j].key in c.nodes && !Trips(c, entries[j], TotalAfter(entries, s.tokens, j + 1))
    {
      if j > 0 {
        assert entries[j] == rest[j - 1];
      }
    }
  }

  lemma TotalNothing(entries: seq<Entry>, tokens: nat)
    ensures TotalAfter(entries, tokens, 0) == tokens
  {
  }

  /** One entry: what it adds, and when it ends the loop. */
  lemma OneRecorded(c: Chain, e: Entry, s: Run)
    requires !s.crashed
    ensures var (s1, stop) := RecordEntry(c, e, s);
      && s1.results == s.results[e.key := e.val] && s1.tokens == s.tokens + UsageOf(e.val)
      && (stop <==> Trips(c, e, s1.tokens) || e.key !in c.nodes)
      && (s1.crashed <==> !Trips(c, e, s1.tokens) && e.key !in c.nodes)
      && (Trips(c, e, s1.tokens) ==>
            && s1.errors != []
            && s1.errors[|s1.errors| - 1]
               == if !c.tokenGuard(s1.tokens, c.tokenCeiling) then TokenGuardAborted else TokenCeilingExceeded)
  {
  }

  lemma ShiftedTotals(entries: seq<Entry>, before: nat, after: nat)
    requires entries != [] && after == before + UsageOf(entries[0].val)
    ensures forall j :: 0 <= j < |entries| ==>
      TotalAfter(entries, before, j + 1) == TotalAfter(entries[1..], after, j)
  {
    forall j | 0 <= j < |entries|
      ensures TotalAfter(entries, before, j + 1) == TotalAfter(entries[1..], after, j)
    {
      assert entries[..j + 1][0] == entries[0] && entries[..j + 1][1..] == entries[1..][..j];
    }
  }

  // ----- running the same object again ------------------------------------------------------------

  lemma {:induction false} RecordKeepsTotals(c: Chain, entries: seq<Entry>, s: Run)
    ensures var t := Record(c, entries, s); t.tokens >= s.tokens && forall id :: id in s.decisions ==> id in t.decisions
  {
    if entries != [] {
      RecordKeepsTotals(c, entries[1..], RecordEntry(c, entries[0], s).0);
    }
  }

  lemma {:induction false} LevelsKeepTotals(c: Chain, fuel: nat, i: nat, s: Run)
    requires Sound(c) && i <= |c.levels| && RunLevels(c, fuel, i, s).Some?
    ensures var t := RunLevels(c, fuel, i, s).value;
      t.tokens >= s.tokens && forall id :: id in s.decisions ==> id in t.decisions
    decreases |c.levels| - i
  {
    hide Record, PlayLevel, Sound, ActiveIds;
    if i < |c.levels| && DepthStop(c, i + 1).None? {
      LevelInNodes(c, i);
      var (entries, m) := PlayLevel(c, fuel, ActiveIds(c, c.levels[i]), s.results, s.log).value;
      RecordKeepsTotals(c, entries, s.(results := m.results, log := m.log, begun := s.begun + 1));
      var t := RunLevel(c, fuel, c.levels[i], s).value;
      if Proceeds(c, t) {
        LevelsKeepTotals(c, fuel, i + 1, t);
      }
    }
  }

  /** A second run of the same object starts with the tokens and decisions of the first. */
  lemma TotalsCarryOver(c: Chain, fuel: nat, s: Run)
    requires Sound(c) && RunLevels(c, fuel, 0, Restarted(s)).Some?
    ensures var t := RunLevels(c, fuel, 0, Restarted(s)).value;
      t.tokens >= s.tokens && forall id :: id in s.decisions ==> id in t.decisions
  {
    hide RunLevels, Sound;
    LevelsKeepTotals(c, fuel, 0, Restarted(s));
  }
}
