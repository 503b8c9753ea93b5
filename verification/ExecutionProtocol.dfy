/**
  The life of one execution record.

  The start route, the background worker, the cancel route and one WebSocket
  subscriber share a record and an event flag; the status is copied to a database
  row and to a cache hash on a best-effort basis.  A step is the code between two
  awaits, so any interleaving of the steps below is a possible run.
 */
module ExecutionProtocol {
  import opened Prelude

  datatype Status = Pending | Running | Completed | Failed

  predicate Finished(st: Status) {
    st == Completed || st == Failed
  }

  function Phase(st: Status): nat {
    match st
    case Pending => 0
    case Running => 1
    case Completed => 2
    case Failed => 2
  }

  /** `version` counts the changes of the record since it was created. */
  datatype Record = Record(status: Status, version: nat)

  datatype Starter = Creating | Inserting | Caching | Started

  datatype Worker =
    | Unborn | Spawned | Aborted
    | RowRunning | CacheRunning | Executing
    | RowFinal | CacheFinal | Ended

  datatype Subscriber = Away | Greeting | Parked | Sending | Closing | Closed | Gone

  datatype State = State(
    record: Option<Record>,
    event: bool,
    row: Option<Status>,
    cache: Option<Status>,
    starter: Starter,
    worker: Worker,
    verdict: Status,       // the final status that the worker persists
    cancels: nat,          // cancel requests between their memory and cache steps
    sub: Subscriber,
    seen: nat              // the version in the subscriber's last snapshot
  )

  const INIT := State(None, false, None, None, Creating, Unborn, Failed, 0, Away, 0)

  /** The flag of a store write says whether the write succeeded. */
  datatype Action =
    | Create | InsertRow(ok: bool) | CachePending(ok: bool)
    | Abort | Begin | WriteRowRunning(ok: bool) | WriteCacheRunning(ok: bool)
    | Finish(success: bool) | WriteRowFinal(ok: bool) | WriteCacheFinal(ok: bool)
    | Cancel | WriteCacheCanceled(ok: bool) | Expire
    | Connect | Greeted | Wake | Sent | Close | Disconnect

  function Change(s: State, st: Status): State
    requires s.record.Some?
  {
    s.(record := Some(Record(st, s.record.value.version + 1)), event := true)
  }

  /** A row is updated only if it exists. */
  function PutRow(s: State, ok: bool, st: Status): State {
    if ok && s.row.Some? then s.(row := Some(st)) else s
  }

  /** Hash fields are set whether or not the hash exists. */
  function PutCache(s: State, ok: bool, st: Status): State {
    if ok then s.(cache := Some(st)) else s
  }

  /** The steps of the start route and of the worker. */
  function WorkStep(s: State, a: Action): Option<State> {
    match a
    case Create =>
      if s.starter == Creating then Some(s.(record := Some(Record(Pending, 0)), starter := Inserting)) else None
    case InsertRow(ok) =>
      if s.starter == Inserting then Some(s.(row := if ok then Some(Pending) else s.row, starter := Caching)) else None
    case CachePending(ok) =>
      if s.starter == Caching then Some(PutCache(s, ok, Pending).(starter := Started, worker := Spawned)) else None
    case Abort =>
      if s.worker == Spawned then Some(s.(worker := Aborted)) else None
    case Begin =>
      if s.worker == Spawned && s.record.Some? then Some(Change(s, Running).(worker := RowRunning)) else None
    case WriteRowRunning(ok) =>
      if s.worker == RowRunning then Some(PutRow(s, ok, Running).(worker := CacheRunning)) else None
    case WriteCacheRunning(ok) =>
      if s.worker == CacheRunning then Some(PutCache(s, ok, Running).(worker := Executing)) else None
    case Finish(success) =>
      if s.worker == Executing && s.record.Some? then
        var st := if success then Completed else Failed;
        Some(Change(s, st).(verdict := st, worker := RowFinal))
      else None
    case WriteRowFinal(ok) =>
      if s.worker == RowFinal then Some(PutRow(s, ok, s.verdict).(worker := CacheFinal)) else None
    case WriteCacheFinal(ok) =>
      if s.worker == CacheFinal then Some(PutCache(s, ok, s.verdict).(worker := Ended)) else None
    case _ => None
  }

  /** The steps of the subscriber. */
  function SubscriberStep(s: State, a: Action): Option<State> {
    match a
    case Connect =>
      if s.sub == Away then
        Some(if s.record.Some? then s.(sub := Greeting, seen := s.record.value.version) else s.(sub := Gone))
      else None
    case Greeted =>
      if s.sub == Greeting then Some(s.(sub := Parked)) else None
    case Wake =>
      if s.sub == Parked && s.event && s.record.Some? then
        Some(s.(event := false, seen := s.record.value.version, sub := Sending))
      else None
    case Sent =>
      if s.sub == Sending && s.record.Some? then
        Some(s.(sub := if Finished(s.record.value.status) then Closing else Parked))
      else None
    case Close =>
      if s.sub == Closing then Some(s.(sub := Closed)) else None
    case Disconnect =>
      if s.sub in {Greeting, Parked, Sending, Closing} then Some(s.(sub := Gone)) else None
    case _ => None
  }

  predicate BySubscriber(a: Action) {
    a.Connect? || a.Greeted? || a.Wake? || a.Sent? || a.Close? || a.Disconnect?
  }

  predicate ByCancel(a: Action) {
    a.Cancel? || a.WriteCacheCanceled?
  }

  function Step(s: State, a: Action): Option<State> {
    match a
    case Cancel =>
      if s.record.Some? then Some(Change(s, Failed).(cancels := s.cancels + 1)) else None
    case WriteCacheCanceled(ok) =>
      if s.cancels > 0 then Some(PutCache(s, ok, Failed).(cancels := s.cancels - 1)) else None
    case Expire => Some(s.(cache := None))
    case _ => if BySubscriber(a) then SubscriberStep(s, a) else WorkStep(s, a)
  }

  /** The state after a run of actions, None if some action is not enabled. */
  function Exec(s: State, trace: seq<Action>): Option<State>
    decreases |trace|
  {
    if trace == [] then Some(s)
    else
      match Step(s, trace[0])
      case None => None
      case Some(s1) => Exec(s1, trace[1..])
  }

  ghost predicate Reachable(s: State) {
    exists trace :: Exec(INIT, trace) == Some(s)
  }

  lemma {:induction false} ExecConcat(s: State, a: seq<Action>, b: seq<Action>)
    ensures Exec(s, a + b) == if Exec(s, a).Some? then Exec(Exec(s, a).value, b) else None
    decreases |a|
  {
    if a == [] {
      assert a + b == b;
    } else {
      assert (a + b)[0] == a[0] && (a + b)[1..] == a[1..] + b;
      if Step(s, a[0]).Some? {
        ExecConcat(Step(s, a[0]).value, a[1..], b);
      }
    }
  }

  /** One more step from a reachable state. */
  lemma Advance(s: State, a: Action) returns (t: State)
    requires Reachable(s) && Step(s, a).Some?
    ensures t == Step(s, a).value && Reachable(t)
  {
    hide Step;
    t := Step(s, a).value;
    var trace :| Exec(INIT, trace) == Some(s);
    ExecConcat(INIT, trace, [a]);
    assert Exec(s, [a]) == Exec(t, []);
    assert Exec(INIT, trace + [a]) == Some(t);
  }

  /** The start route has stored the record everywhere and spawned the worker. */
  lemma Start() returns (s: State)
    ensures Reachable(s)
    ensures s == State(Some(Record(Pending, 0)), false, Some(Pending), Some(Pending), Started, Spawned, Failed, 0, Away, 0)
  {
    assert Exec(INIT, []) == Some(INIT);
    s := Advance(INIT, Create);
    s := Advance(s, InsertRow(true));
    s := Advance(s, CachePending(true));
  }

  // ----- what every reachable state satisfies -----------------------------------------

  predicate Connected(s: State) {
    s.sub in {Greeting, Parked, Sending, Closing}
  }

  predicate HasBegun(w: Worker) {
    w in {RowRunning, CacheRunning, Executing, RowFinal, CacheFinal, Ended}
  }

  ghost predicate Inv(s: State) {
    && (s.record.None? <==> s.starter == Creating)
    && (s.starter != Started <==> s.worker == Unborn)
    && (s.record.None? ==> s.cancels == 0 && !s.event && !Connected(s))
    // an unset flag: the record is new, or the subscriber has seen all of it
    && (s.record.Some? && s.sub in {Away, Greeting} && !s.event ==> s.record.value == Record(Pending, 0))
    && (Connected(s) && !s.event ==> s.seen == s.record.value.version)
    && (s.sub == Parked && !s.event ==> !Finished(s.record.value.status))
    && (Connected(s) ==> s.seen <= s.record.value.version)
    && (s.sub == Sending && s.event ==> s.seen < s.record.value.version)
    && (HasBegun(s.worker) ==> s.record.value.status != Pending)
    && (s.worker in {RowFinal, CacheFinal, Ended} ==> Finished(s.record.value.status) && Finished(s.verdict))
  }

  lemma SubscriberKeepsInv(s: State, a: Action)
    requires Inv(s) && SubscriberStep(s, a).Some?
    ensures Inv(SubscriberStep(s, a).value)
  {
  }

  lemma WorkKeepsInv(s: State, a: Action)
    requires Inv(s) && WorkStep(s, a).Some?
    ensures Inv(WorkStep(s, a).value)
  {
  }

  lemma StepKeepsInv(s: State, a: Action)
    requires Inv(s) && Step(s, a).Some?
    ensures Inv(Step(s, a).value)
  {
    hide SubscriberStep, WorkStep;
    if BySubscriber(a) {
      SubscriberKeepsInv(s, a);
    } else if !ByCancel(a) && !a.Expire? {
      WorkKeepsInv(s, a);
    }
  }

  lemma {:induction false} RunKeepsInv(s: State, trace: seq<Action>)
    requires Inv(s) && Exec(s, trace).Some?
    ensures Inv(Exec(s, trace).value)
    decreases |trace|
  {
    if trace != [] {
      StepKeepsInv(s, trace[0]);
      RunKeepsInv(Step(s, trace[0]).value, trace[1..]);
    }
  }

  lemma ReachableInv(s: State)
    requires Reachable(s)
    ensures Inv(s)
  {
    var trace :| Exec(INIT, trace) == Some(s);
    RunKeepsInv(INIT, trace);
  }

  /** A parked subscriber that nobody has woken has seen the current, unfinished record. */
  lemma ParkedIsUpToDate(s: State)
    requires Reachable(s) && s.sub == Parked && !s.event
    ensures s.record.Some? && s.seen == s.record.value.version && !Finished(s.record.value.status)
  {
    ReachableInv(s);
  }

  // ----- a finished run lets the subscriber close -----------------------------------------

  /** How many of its own steps a connected subscriber still has to make. */
  function StepsToClose(sub: Subscriber): nat {
    match sub
    case Greeting => 4
    case Parked => 3
    case Sending => 2
    case Closing => 1
    case _ => 0
  }

  function CountSubscriber(trace: seq<Action>): nat {
    if trace == [] then 0 else (if BySubscriber(trace[0]) then 1 else 0) + CountSubscriber(trace[1..])
  }

  ghost predicate Settled(s: State) {
    Inv(s) && s.record.Some? && Finished(s.record.value.status) && s.sub != Away
    && (HasBegun(s.worker) || s.worker == Aborted)
  }

  lemma SettledStep(s: State, a: Action)
    requires Settled(s) && Step(s, a).Some?
    ensures Settled(Step(s, a).value)
    ensures StepsToClose(Step(s, a).value.sub) + (if BySubscriber(a) then 1 else 0) <= StepsToClose(s.sub)
  {
    StepKeepsInv(s, a);
  }

  /**
    Once memory is finished and the worker has begun or given up, memory stays finished; a
    connected subscriber always has an enabled step of its own, and after at most
    four of them, whatever the others do in between, it has closed.
   */
  lemma {:induction false} FinishedRunCloses(s: State, trace: seq<Action>)
    requires Settled(s) && Exec(s, trace).Some?
    ensures var t := Exec(s, trace).value;
      && Settled(t)
      && StepsToClose(t.sub) + CountSubscriber(trace) <= StepsToClose(s.sub) <= 4
      && (Connected(t) ==> exists a :: a in {Greeted, Wake, Sent, Close} && Step(t, a).Some?)
    decreases |trace|
  {
    if trace == [] {
      if Connected(s) {
        var a := match s.sub
          case Greeting => Greeted
          case Parked => Wake
          case Sending => Sent
          case _ => Close;
        assert a in {Greeted, Wake, Sent, Close} && Step(s, a).Some?;
      }
    } else {
      SettledStep(s, trace[0]);
      FinishedRunCloses(Step(s, trace[0]).value, trace[1..]);
    }
  }

  /**
    The snapshot that precedes a close is the current one exactly when the flag is
    clear at that moment: the status is read again after the send.
   */
  lemma LastSnapshotCurrent(s: State)
    requires Reachable(s) && s.sub == Sending
    ensures s.record.Some? && (s.seen == s.record.value.version <==> !s.event)
  {
    ReachableInv(s);
  }

  /** A subscriber that was greeted before the worker began is sending `running`. */
  lemma WokenByBegin() returns (s: State)
    ensures Reachable(s)
    ensures s == State(Some(Record(Running, 1)), false, Some(Pending), Some(Pending), Started, RowRunning, Failed, 0, Sending, 1)
  {
    hide Reachable;
    s := Start();
    s := Advance(s, Connect);
    s := Advance(s, Greeted);
    s := Advance(s, Begin);
    s := Advance(s, Wake);
  }

  /** The connection can close without ever having sent the final status. */
  lemma CloseCanMissFinalSnapshot() returns (s: State)
    ensures Reachable(s) && s.sub == Closed
    ensures s.record == Some(Record(Completed, 2)) && s.seen == 1
  {
    hide Reachable;
    s := WokenByBegin();
    s := Advance(s, WriteRowRunning(true));
    s := Advance(s, WriteCacheRunning(true));
    s := Advance(s, Finish(true));
    s := Advance(s, Sent);
    s := Advance(s, Close);
  }

  // ----- the record without cancels ------------------------------------------------------

  predicate NotAhead(copy: Option<Status>, st: Status) {
    copy.Some? ==> Phase(copy.value) <= Phase(st) && (Finished(copy.value) ==> copy.value == st)
  }

  /** Memory follows the worker, and no copy is ahead of memory. */
  ghost predicate Quiet(s: State) {
    && Inv(s) && s.cancels == 0
    && (s.record.None? ==> s.row.None? && s.cache.None?)
    && (s.record.Some? ==>
          && NotAhead(s.row, s.record.value.status)
          && NotAhead(s.cache, s.record.value.status)
          && s.record.value.status == (match s.worker
               case Unborn => Pending
               case Spawned => Pending
               case Aborted => Pending
               case RowRunning => Running
               case CacheRunning => Running
               case Executing => Running
               case _ => s.verdict))
  }

  lemma QuietStep(s: State, a: Action)
    requires Quiet(s) && Step(s, a).Some? && a != Cancel
    ensures Quiet(Step(s, a).value)
    ensures s.record.Some? ==>
      var st, st1 := s.record.value.status, Step(s, a).value.record;
      st1.Some? && Phase(st) <= Phase(st1.value.status) <= Phase(st) + 1 && (Finished(st) ==> st1.value.status == st)
  {
    StepKeepsInv(s, a);
  }

  /**
    Without cancels memory only moves pending, running, finished, and stops there;
    the row and the cache are never ahead of it, whichever writes fail.
   */
  lemma {:induction false} QuietRun(s: State, trace: seq<Action>)
    requires Quiet(s) && Exec(s, trace).Some? && Cancel !in trace
    ensures var t := Exec(s, trace).value;
      && Quiet(t)
      && (s.record.Some? ==>
            && t.record.Some? && Phase(s.record.value.status) <= Phase(t.record.value.status)
            && (Finished(s.record.value.status) ==> t.record.value.status == s.record.value.status))
    decreases |trace|
  {
    if trace != [] {
      QuietStep(s, trace[0]);
      QuietRun(Step(s, trace[0]).value, trace[1..]);
    }
  }

  predicate WriteFails(a: Action) {
    match a
    case InsertRow(ok) => !ok
    case CachePending(ok) => !ok
    case WriteRowRunning(ok) => !ok
    case WriteCacheRunning(ok) => !ok
    case WriteRowFinal(ok) => !ok
    case WriteCacheFinal(ok) => !ok
    case Expire => true
    case _ => false
  }

  /** With successful writes the copies lag memory by exactly the pending writes. */
  ghost predicate InStep(s: State) {
    && Quiet(s)
    && s.row == (match s.worker
         case Unborn => if s.starter == Caching then Some(Pending) else None
         case Spawned => Some(Pending)
         case Aborted => Some(Pending)
         case RowRunning => Some(Pending)
         case CacheRunning => Some(Running)
         case Executing => Some(Running)
         case RowFinal => Some(Running)
         case _ => Some(s.verdict))
    && s.cache == (match s.worker
         case Unborn => None
         case Spawned => Some(Pending)
         case Aborted => Some(Pending)
         case RowRunning => Some(Pending)
         case CacheRunning => Some(Pending)
         case Executing => Some(Running)
         case RowFinal => Some(Running)
         case CacheFinal => Some(Running)
         case Ended => Some(s.verdict))
  }

  /** A fresh process satisfies the premises of the run theorems. */
  lemma InitInStep()
    ensures Inv(INIT) && Quiet(INIT) && InStep(INIT) && MemoryTraced(INIT, false) && CacheTraced(INIT, false) && RowTraced(INIT) && VerdictTraced(INIT, false, false)
  {
  }

  lemma InStepKept(s: State, a: Action)
    requires InStep(s) && Step(s, a).Some? && a != Cancel && !WriteFails(a)
    ensures InStep(Step(s, a).value)
  {
    hide Quiet;
    QuietStep(s, a);
    QuietShape(s);
  }

  lemma QuietShape(s: State)
    requires Quiet(s)
    ensures s.cancels == 0 && (s.starter != Started <==> s.worker == Unborn)
  {
  }

  /** Without cancels and failing writes, all three copies agree once the worker has ended. */
  lemma {:induction false} CopiesAgree(s: State, trace: seq<Action>)
    requires InStep(s) && Exec(s, trace).Some? && Cancel !in trace
    requires forall a :: a in trace ==> !WriteFails(a)
    ensures var t := Exec(s, trace).value;
      InStep(t) && (t.worker == Ended ==> t.record.Some? && t.row == t.cache == Some(t.record.value.status))
    decreases |trace|
  {
    if trace != [] {
      hide Step;
      assert trace[0] in trace;
      InStepKept(s, trace[0]);
      CopiesAgree(Step(s, trace[0]).value, trace[1..]);
    }
  }

  // ----- cancels -----------------------------------------------------------------------------

  /**
    Memory leaves the finished class in exactly one way: a cancel came before the
    worker's first step, which then overwrites it.
   */
  lemma LeavesFinishedExactly(s: State, a: Action)
    requires Reachable(s) && Step(s, a).Some? && s.record.Some? && Finished(s.record.value.status)
    ensures Step(s, a).value.record.Some?
    ensures !Finished(Step(s, a).value.record.value.status) <==> a == Begin
    ensures a == Begin ==> s.worker == Spawned
  {
    ReachableInv(s);
  }

  lemma CanceledRunCanRevive() returns (s: State, t: State)
    ensures Reachable(s) && s.record == Some(Record(Failed, 1))
    ensures Step(s, Begin) == Some(t) && t.record == Some(Record(Running, 2))
  {
    s := Start();
    s := Advance(s, Cancel);
    t := Step(s, Begin).value;
  }

  /** The part of the state that the start route, the worker and the row make up. */
  datatype RowView = RowView(started: bool, row: Option<Status>, starter: Starter, worker: Worker, verdict: Status)

  function RowOf(s: State): RowView {
    RowView(s.record.Some?, s.row, s.starter, s.worker, s.verdict)
  }

  function WorkOnly(trace: seq<Action>): seq<Action> {
    if trace == [] then []
    else
      (if BySubscriber(trace[0]) || ByCancel(trace[0]) || trace[0].Expire? then [] else [trace[0]]) + WorkOnly(trace[1..])
  }

  lemma WorkStepsAlike(s: State, s1: State, a: Action)
    requires RowOf(s) == RowOf(s1) && Step(s, a).Some?
    ensures BySubscriber(a) || ByCancel(a) || a.Expire? ==> RowOf(Step(s, a).value) == RowOf(s1)
    ensures !(BySubscriber(a) || ByCancel(a) || a.Expire?) ==>
      Step(s1, a).Some? && RowOf(Step(s, a).value) == RowOf(Step(s1, a).value)
  {
  }

  /**
    Cancels never reach the database: erasing every cancel, cache and subscriber
    action from a run leaves a run with the same row at the end.
   */
  lemma {:induction false} RowIgnoresCancels(s: State, s1: State, trace: seq<Action>)
    requires RowOf(s) == RowOf(s1) && Exec(s, trace).Some?
    ensures Exec(s1, WorkOnly(trace)).Some?
    ensures RowOf(Exec(s, trace).value) == RowOf(Exec(s1, WorkOnly(trace)).value)
    decreases |trace|
  {
    hide Step, RowOf, BySubscriber, ByCancel;
    if trace != [] {
      var a := trace[0];
      var u := Step(s, a).value;
      WorkStepsAlike(s, s1, a);
      if BySubscriber(a) || ByCancel(a) || a.Expire? {
        assert WorkOnly(trace) == WorkOnly(trace[1..]);
        RowIgnoresCancels(u, s1, trace[1..]);
      } else {
        assert WorkOnly(trace) == [a] + WorkOnly(trace[1..]);
        RowIgnoresCancels(u, Step(s1, a).value, trace[1..]);
      }
    }
  }

  /**
    A run canceled after it completed stays failed in memory and completed in the
    database for ever.
   */
  lemma {:induction false} CancelAfterEndDiverges(s: State, trace: seq<Action>)
    requires Inv(s) && s.worker == Ended && s.row == Some(Completed)
    requires s.record.Some? && s.record.value.status == Failed
    requires Exec(s, trace).Some?
    ensures Exec(s, trace).value.row == Some(Completed)
    ensures Exec(s, trace).value.record.Some? && Exec(s, trace).value.record.value.status == Failed
    decreases |trace|
  {
    if trace != [] {
      StepKeepsInv(s, trace[0]);
      CancelAfterEndDiverges(Step(s, trace[0]).value, trace[1..]);
    }
  }

  // ----- cancels and the copies -------------------------------------------------------------------

  predicate CacheWriteFails(a: Action) {
    a == WriteCacheFinal(false) || a == WriteCacheCanceled(false) || a == Expire
  }

  predicate RowWriteFails(a: Action) {
    a == InsertRow(false) || a == WriteRowFinal(false)
  }

  /** Did a cancel make the last change of memory?  `was` is the answer so far. */
  function MemoryByCancel(trace: seq<Action>, was: bool): bool {
    if trace == [] then was
    else MemoryByCancel(trace[1..], if trace[0].Cancel? then true else was && !trace[0].Begin? && !trace[0].Finish?)
  }

  /** Did a cancel make the last write to the cache? */
  function CacheByCancel(trace: seq<Action>, was: bool): bool {
    if trace == [] then was
    else
      var a := trace[0];
      CacheByCancel(trace[1..], if a.WriteCacheCanceled? then true
                                else was && !a.CachePending? && !a.WriteCacheRunning? && !a.WriteCacheFinal?)
  }

  /** What the three copies hold in terms of the last writers. */
  ghost predicate MemoryTraced(s: State, canceled: bool) {
    Inv(s) && (s.worker in {RowFinal, CacheFinal, Ended} ==>
                 s.record.value.status == if canceled then Failed else s.verdict)
  }

  ghost predicate CacheTraced(s: State, canceled: bool) {
    s.worker == Ended ==> s.cache == Some(if canceled then Failed else s.verdict)
  }

  ghost predicate RowTraced(s: State) {
    && (s.starter in {Caching, Started} ==> s.row.Some?)
    && (s.worker in {CacheFinal, Ended} ==> s.row == Some(s.verdict))
  }

  lemma {:induction false} MemoryFollows(s: State, trace: seq<Action>, was: bool)
    requires MemoryTraced(s, was) && Exec(s, trace).Some?
    ensures MemoryTraced(Exec(s, trace).value, MemoryByCancel(trace, was))
    decreases |trace|
  {
    hide Inv;
    if trace != [] {
      var t := Step(s, trace[0]).value;
      var now := trace[0].Cancel? || (was && !trace[0].Begin? && !trace[0].Finish?);
      StepKeepsInv(s, trace[0]);
      assert MemoryTraced(t, now) by { MemoryStep(s, trace[0], was); }
      MemoryFollows(t, trace[1..], now);
    }
  }

  lemma MemoryStep(s: State, a: Action, was: bool)
    requires MemoryTraced(s, was) && Step(s, a).Some?
    ensures MemoryTraced(Step(s, a).value, a.Cancel? || (was && !a.Begin? && !a.Finish?))
  {
    StepKeepsInv(s, a);
  }

  lemma CacheStep(s: State, a: Action, was: bool)
    requires Inv(s) && CacheTraced(s, was) && Step(s, a).Some? && !CacheWriteFails(a)
    ensures CacheTraced(Step(s, a).value,
                        a.WriteCacheCanceled? || (was && !a.CachePending? && !a.WriteCacheRunning? && !a.WriteCacheFinal?))
  {
  }

  lemma {:induction false} CacheFollows(s: State, trace: seq<Action>, was: bool)
    requires Inv(s) && CacheTraced(s, was) && Exec(s, trace).Some?
    requires forall a :: a in trace ==> !CacheWriteFails(a)
    ensures CacheTraced(Exec(s, trace).value, CacheByCancel(trace, was))
    decreases |trace|
  {
    hide Step, Inv, CacheTraced, CacheWriteFails;
    if trace != [] {
      var a := trace[0];
      assert a in trace;
      StepKeepsInv(s, a);
      CacheStep(s, a, was);
      CacheFollows(Step(s, a).value, trace[1..],
                   a.WriteCacheCanceled? || (was && !a.CachePending? && !a.WriteCacheRunning? && !a.WriteCacheFinal?));
    }
  }

  lemma RowStep(s: State, a: Action)
    requires Inv(s) && RowTraced(s) && Step(s, a).Some? && !RowWriteFails(a)
    ensures RowTraced(Step(s, a).value)
  {
  }

  lemma {:induction false} RowFollows(s: State, trace: seq<Action>)
    requires Inv(s) && RowTraced(s) && Exec(s, trace).Some?
    requires forall a :: a in trace ==> !RowWriteFails(a)
    ensures RowTraced(Exec(s, trace).value)
    decreases |trace|
  {
    hide Step, Inv, RowTraced, RowWriteFails;
    if trace != [] {
      assert trace[0] in trace;
      StepKeepsInv(s, trace[0]);
      RowStep(s, trace[0]);
      RowFollows(Step(s, trace[0]).value, trace[1..]);
    }
  }

  /**
    When the worker has ended and no cache write that matters failed, the cache shows
    the status in memory exactly when the run itself failed, or a cancel was the last
    to write both of them or neither.
   */
  lemma CacheSettlesExactly(trace: seq<Action>)
    requires Exec(INIT, trace).Some? && Exec(INIT, trace).value.worker == Ended
    requires forall a :: a in trace ==> !CacheWriteFails(a)
    ensures var t := Exec(INIT, trace).value;
      t.record.Some?
      && (t.cache == Some(t.record.value.status) <==>
            t.verdict == Failed || (MemoryByCancel(trace, false) <==> CacheByCancel(trace, false)))
  {
    hide Step;
    InitInStep();
    MemoryFollows(INIT, trace, false);
    CacheFollows(INIT, trace, false);
  }

  /**
    When the worker has ended and no row write that matters failed, the row shows the
    status in memory exactly when the run itself failed or no cancel came after the
    worker finished.
   */
  lemma RowSettlesExactly(trace: seq<Action>)
    requires Exec(INIT, trace).Some? && Exec(INIT, trace).value.worker == Ended
    requires forall a :: a in trace ==> !RowWriteFails(a)
    ensures var t := Exec(INIT, trace).value;
      t.record.Some?
      && (t.row == Some(t.record.value.status) <==> t.verdict == Failed || !MemoryByCancel(trace, false))
  {
    hide Step;
    InitInStep();
    MemoryFollows(INIT, trace, false);
    RowFollows(INIT, trace);
  }

  /** The status that the worker persists is the one its run ended with. */
  ghost predicate VerdictTraced(s: State, succeeded: bool, failed: bool) {
    if s.worker in {RowFinal, CacheFinal, Ended}
    then succeeded != failed && s.verdict == if succeeded then Completed else Failed
    else !succeeded && !failed
  }

  lemma VerdictStep(s: State, a: Action, succeeded: bool, failed: bool)
    requires Inv(s) && VerdictTraced(s, succeeded, failed) && Step(s, a).Some?
    ensures VerdictTraced(Step(s, a).value, succeeded || a == Finish(true), failed || a == Finish(false))
  {
  }

  lemma {:induction false} VerdictFollows(s: State, trace: seq<Action>, succeeded: bool, failed: bool)
    requires Inv(s) && VerdictTraced(s, succeeded, failed) && Exec(s, trace).Some?
    ensures VerdictTraced(Exec(s, trace).value, succeeded || Finish(true) in trace, failed || Finish(false) in trace)
    decreases |trace|
  {
    hide Step, Inv, VerdictTraced;
    if trace != [] {
      var a := trace[0];
      StepKeepsInv(s, a);
      VerdictStep(s, a, succeeded, failed);
      VerdictFollows(Step(s, a).value, trace[1..], succeeded || a == Finish(true), failed || a == Finish(false));
      assert forall x :: x in trace <==> x == a || x in trace[1..];
    }
  }

  /** Past its execution the worker persists `completed` after a success and `failed` after a failure. */
  lemma VerdictIsOutcome(trace: seq<Action>)
    requires Exec(INIT, trace).Some? && Exec(INIT, trace).value.worker in {RowFinal, CacheFinal, Ended}
    ensures Exec(INIT, trace).value.verdict == Completed <==> Finish(true) in trace
    ensures Exec(INIT, trace).value.verdict == Failed <==> Finish(false) in trace
  {
    hide Step;
    InitInStep();
    VerdictFollows(INIT, trace, false, false);
  }

  /** A row that was never inserted is never created by an update either. */
  lemma {:induction false} NoRowWithoutInsert(s: State, trace: seq<Action>)
    requires s.row == None && Exec(s, trace).Some? && InsertRow(true) !in trace
    ensures Exec(s, trace).value.row == None
    decreases |trace|
  {
    if trace != [] {
      assert trace[0] in trace;
      NoRowWithoutInsert(Step(s, trace[0]).value, trace[1..]);
    }
  }

  /** Undisturbed, memory, row and cache all end with the status of the run's outcome. */
  lemma EndsAsFinished(trace: seq<Action>)
    requires Exec(INIT, trace).Some? && Exec(INIT, trace).value.worker == Ended
    requires Cancel !in trace && forall a :: a in trace ==> !WriteFails(a)
    ensures var t := Exec(INIT, trace).value;
      && (Finish(true) in trace <==> Finish(false) !in trace)
      && t.record.Some? && t.record.value.status == (if Finish(true) in trace then Completed else Failed)
      && t.row == t.cache == Some(t.record.value.status)
  {
    hide Step;
    InitInStep();
    VerdictFollows(INIT, trace, false, false);
    MemoryFollows(INIT, trace, false);
    NoCancelInMemory(trace, false);
    CopiesAgree(INIT, trace);
  }

  lemma {:induction false} NoCancelInMemory(trace: seq<Action>, was: bool)
    requires Cancel !in trace && !was
    ensures !MemoryByCancel(trace, was)
  {
    if trace != [] {
      assert trace[0] in trace;
      NoCancelInMemory(trace[1..], was);
    }
  }

  /** The worker is executing, with every copy at `running`. */
  lemma Busy() returns (s: State)
    ensures Reachable(s)
    ensures s == State(Some(Record(Running, 1)), true, Some(Running), Some(Running), Started, Executing, Failed, 0, Away, 0)
  {
    hide Reachable;
    s := Start();
    s := Advance(s, Begin);
    s := Advance(s, WriteRowRunning(true));
    s := Advance(s, WriteCacheRunning(true));
  }

  /** A cancel inside the worker's final writes: failed in memory, completed in the cache. */
  lemma CacheMissesCancel() returns (s: State)
    ensures Reachable(s) && s.worker == Ended && s.cancels == 0
    ensures s.record == Some(Record(Failed, 3)) && s.cache == Some(Completed)
  {
    hide Reachable;
    s := Busy();
    s := Advance(s, Finish(true));
    s := Advance(s, Cancel);
    s := Advance(s, WriteCacheCanceled(true));
    s := Advance(s, WriteRowFinal(true));
    s := Advance(s, WriteCacheFinal(true));
  }

  /** A cancel around the worker's final writes: completed in memory, failed in the cache. */
  lemma CacheKeepsCancel() returns (s: State)
    ensures Reachable(s) && s.worker == Ended && s.cancels == 0
    ensures s.record == Some(Record(Completed, 3)) && s.cache == Some(Failed)
  {
    hide Reachable;
    s := Busy();
    s := Advance(s, Cancel);
    s := Advance(s, Finish(true));
    s := Advance(s, WriteRowFinal(true));
    s := Advance(s, WriteCacheFinal(true));
    s := Advance(s, WriteCacheCanceled(true));
  }

  /** A reachable start for `CancelAfterEndDiverges`, with all writes successful. */
  lemma CanceledAfterEnd() returns (s: State)
    ensures Reachable(s) && s.worker == Ended
    ensures s.record == Some(Record(Failed, 3)) && s.row == s.cache == Some(Completed)
  {
    hide Reachable;
    s := Busy();
    s := Advance(s, Finish(true));
    s := Advance(s, WriteRowFinal(true));
    s := Advance(s, WriteCacheFinal(true));
    s := Advance(s, Cancel);
  }
}
