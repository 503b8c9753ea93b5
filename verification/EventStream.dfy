/**
  The event stream of a run: the batched reader of the server-sent-events route
  over a stream that grows while it is read, and the stand-in's own entry ids.
 */
module EventStream {
  /** `finished` marks the event `workflow.finished`. */
  datatype Entry = Entry(id: string, finished: bool, payload: string)

  /** The order in which the store compares ids; `count` bounds a batch (0: no bound). */
  datatype Store = Store(less: (string, string) -> bool, count: nat)

  // ----- the reader in place -------------------------------------------------------------

  /** The first `left` entries with an id greater than `last` (all, if `left` is 0). */
  function Greater(st: Store, stream: seq<Entry>, last: string, left: nat): seq<Entry> {
    if stream == [] then []
    else if !st.less(last, stream[0].id) then Greater(st, stream[1..], last, left)
    else if left == 1 then [stream[0]]
    else [stream[0]] + Greater(st, stream[1..], last, if left == 0 then 0 else left - 1)
  }

  /** The part of a batch that is sent: up to and including the first finished event. */
  function UntilFinished(batch: seq<Entry>): seq<Entry> {
    if batch == [] then []
    else if batch[0].finished then [batch[0]]
    else [batch[0]] + UntilFinished(batch[1..])
  }

  datatype Reader = Reader(last: string, sent: seq<Entry>, done: bool)

  function Deliver(r: Reader, batch: seq<Entry>): Reader {
    var out := UntilFinished(batch);
    if out == [] then r
    else Reader(out[|out| - 1].id, r.sent + out, out[|out| - 1].finished)
  }

  class EventReader {
    var last: string
    var sent: seq<Entry>
    var done: bool

    function State(): Reader
      reads this
    {
      Reader(last, sent, done)
    }

    constructor (start: string)
      ensures State() == Reader(start, [], false)
    {
      last, sent, done := start, [], false;
    }

    /** XREAD on one stream. */
    method XRead(st: Store, stream: seq<Entry>) returns (entries: seq<Entry>)
      ensures entries == Greater(st, stream, last, st.count)
    {
      entries := [];
      var rest := stream;
      while rest != []
        invariant st.count > 0 ==> |entries| < st.count
        invariant Greater(st, stream, last, st.count)
                  == entries + Greater(st, rest, last, if st.count == 0 then 0 else st.count - |entries|)
        decreases |rest|
      {
        if st.less(last, rest[0].id) {
          ghost var before := entries;
          entries := entries + [rest[0]];
          if st.count > 0 && |entries| >= st.count {
            return;
          }
          ghost var after := Greater(st, rest[1..], last, if st.count == 0 then 0 else st.count - |entries|);
          assert before + ([rest[0]] + after) == entries + after;
        }
        rest := rest[1..];
      }
    }

    /** One turn of the generator loop. */
    method Turn(st: Store, stream: seq<Entry>)
      requires !done
      modifies this
      ensures State() == Deliver(old(State()), Greater(st, stream, old(last), st.count))
    {
      var batch := XRead(st, stream);
      var rest := batch;
      ghost var out := UntilFinished(batch);
      ghost var sentBefore := sent;
      assert sent + out == sent + UntilFinished(rest);
      while rest != []
        invariant !done && sentBefore + out == sent + UntilFinished(rest)
        invariant rest == batch ==> sent == sentBefore && last == old(last)
        invariant rest != batch ==> |sent| > |sentBefore| && last == sent[|sent| - 1].id && !sent[|sent| - 1].finished
        decreases |rest|
      {
        var ev := rest[0];
        ghost var tail := UntilFinished(rest[1..]);
        last := ev.id;
        sent := sent + [ev];
        if ev.finished {
          done := true;
          TurnEnds(sentBefore, out, sent);
          return;
        }
        assert (sent[..|sent| - 1]) + ([ev] + tail) == sent + tail;
        rest := rest[1..];
      }
      assert sent + [] == sent;
      if batch != [] {
        TurnEnds(sentBefore, out, sent);
      } else {
        assert sentBefore + [] == sentBefore;
      }
    }
  }

  lemma TurnEnds(before: seq<Entry>, out: seq<Entry>, sent: seq<Entry>)
    requires before + out == sent && |sent| > |before|
    ensures out != [] && out[|out| - 1] == sent[|sent| - 1]
  {
  }

  // ----- runs ------------------------------------------------------------------------------

  /** The workers append entries; the reader takes turns in between. */
  datatype Action = Append(entry: Entry) | Read

  datatype State = State(stream: seq<Entry>, reader: Reader)

  function Step(st: Store, s: State, a: Action): State {
    match a
    case Append(e) => s.(stream := s.stream + [e])
    case Read =>
      if s.reader.done then s
      else s.(reader := Deliver(s.reader, Greater(st, s.stream, s.reader.last, st.count)))
  }

  function Run(st: Store, s: State, trace: seq<Action>): State
    decreases |trace|
  {
    if trace == [] then s else Run(st, Step(st, s, trace[0]), trace[1..])
  }

  /** Later entries have greater ids, and those after `start` are a tail of the stream. */
  ghost predicate Increasing(st: Store, start: string, stream: seq<Entry>) {
    && (forall i, j :: 0 <= i <= j < |stream| ==> !st.less(stream[j].id, stream[i].id))
    && (forall i, j :: 0 <= i < j < |stream| ==> st.less(stream[i].id, stream[j].id))
    && (forall i, j :: 0 <= i < j < |stream| && st.less(start, stream[i].id) ==> st.less(start, stream[j].id))
  }

  /** Everything the reader has to deliver: the entries after `start`, up to the finish. */
  function Due(st: Store, start: string, stream: seq<Entry>): seq<Entry> {
    UntilFinished(Greater(st, stream, start, 0))
  }

  // ----- batches of an increasing stream -------------------------------------------------------

  lemma {:induction false} GreaterSkips(st: Store, stream: seq<Entry>, last: string, k: nat, left: nat)
    requires k <= |stream| && forall i :: 0 <= i < k ==> !st.less(last, stream[i].id)
    ensures Greater(st, stream, last, left) == Greater(st, stream[k..], last, left)
    decreases k
  {
    if k > 0 {
      GreaterSkips(st, stream[1..], last, k - 1, left);
      assert stream[1..][k - 1..] == stream[k..];
    } else {
      assert stream[0..] == stream;
    }
  }

  lemma {:induction false} GreaterTakes(st: Store, stream: seq<Entry>, last: string, left: nat)
    requires forall i :: 0 <= i < |stream| ==> st.less(last, stream[i].id)
    ensures Greater(st, stream, last, left) == if left == 0 || left >= |stream| then stream else stream[..left]
  {
    if stream != [] && left != 1 {
      var rest, next := stream[1..], if left == 0 then 0 else left - 1;
      assert forall i :: 0 <= i < |rest| ==> rest[i] == stream[i + 1];
      GreaterTakes(st, rest, last, next);
      assert Greater(st, stream, last, left) == [stream[0]] + Greater(st, rest, last, next);
      if 0 < left < |stream| {
        assert stream[..left] == [stream[0]] + rest[..next];
      } else {
        assert stream == [stream[0]] + rest;
      }
    }
  }

  lemma GreaterOfTail(st: Store, stream: seq<Entry>, last: string, k: nat, left: nat)
    requires k <= |stream|
    requires forall i :: 0 <= i < k ==> !st.less(last, stream[i].id)
    requires forall i :: k <= i < |stream| ==> st.less(last, stream[i].id)
    ensures Greater(st, stream, last, left) == if left == 0 || left >= |stream| - k then stream[k..] else stream[k..k + left]
  {
    hide Greater;
    GreaterSkips(st, stream, last, k, left);
    GreaterTakes(st, stream[k..], last, left);
    if 0 < left < |stream| - k {
      assert stream[k..][..left] == stream[k..k + left];
    }
  }

  /** Where the entries after `start` begin. */
  ghost predicate StartsAt(st: Store, start: string, stream: seq<Entry>, k: nat) {
    && k <= |stream|
    && (forall i :: 0 <= i < k ==> !st.less(start, stream[i].id))
    && (forall i :: k <= i < |stream| ==> st.less(start, stream[i].id))
  }

  lemma {:induction false} UntilFinishedPrefix(s: seq<Entry>)
    ensures UntilFinished(s) <= s
    ensures s != [] ==> UntilFinished(s) != []
    ensures forall i :: 0 <= i < |UntilFinished(s)| - 1 ==> !s[i].finished
    ensures UntilFinished(s) != s ==> UntilFinished(s) != [] && s[|UntilFinished(s)| - 1].finished
  {
    if s != [] && !s[0].finished {
      UntilFinishedPrefix(s[1..]);
      assert s == [s[0]] + s[1..];
    }
  }

  /** Splitting at an unfinished prefix. */
  lemma {:induction false} UntilFinishedConcat(a: seq<Entry>, b: seq<Entry>)
    requires forall i :: 0 <= i < |a| ==> !a[i].finished
    ensures UntilFinished(a + b) == a + UntilFinished(b)
  {
    if a == [] {
      assert a + b == b;
    } else {
      assert (a + b)[0] == a[0] && (a + b)[1..] == a[1..] + b;
      UntilFinishedConcat(a[1..], b);
      assert [a[0]] + (a[1..] + UntilFinished(b)) == a + UntilFinished(b);
    }
  }

  lemma {:induction false} UntilFinishedStops(a: seq<Entry>, b: seq<Entry>)
    requires a != [] && a[|a| - 1].finished
    ensures UntilFinished(a + b) == UntilFinished(a)
  {
    assert (a + b)[0] == a[0] && (a + b)[1..] == a[1..] + b;
    if !a[0].finished {
      UntilFinishedStops(a[1..], b);
    }
  }

  // ----- the invariant of a run ---------------------------------------------------------------------

  /** The reader has sent the stream from `k` on, `|sent|` entries of it, none of them twice. */
  ghost predicate Following(st: Store, start: string, s: State, k: nat) {
    var r := s.reader;
    && StartsAt(st, start, s.stream, k)
    && k + |r.sent| <= |s.stream| && r.sent == s.stream[k..k + |r.sent|]
    && r.last == (if r.sent == [] then start else r.sent[|r.sent| - 1].id)
    && (forall i :: 0 <= i < |r.sent| - 1 ==> !r.sent[i].finished)
    && (r.done <==> r.sent != [] && r.sent[|r.sent| - 1].finished)
  }

  lemma FollowingIsDue(st: Store, start: string, s: State, k: nat)
    requires Following(st, start, s, k)
    ensures s.reader.sent <= Due(st, start, s.stream)
    ensures s.reader.done <==> s.reader.sent == Due(st, start, s.stream) && s.reader.sent != [] && s.reader.sent[|s.reader.sent| - 1].finished
  {
    var n := |s.reader.sent|;
    GreaterOfTail(st, s.stream, start, k, 0);
    var tail := s.stream[k..];
    assert tail == s.reader.sent + s.stream[k + n..];
    if s.reader.done {
      UntilFinishedStops(s.reader.sent, s.stream[k + n..]);
      UntilFinishedPrefix(s.reader.sent);
    } else {
      UntilFinishedConcat(s.reader.sent, s.stream[k + n..]);
    }
  }

  /** The last sent id separates the sent entries from the outstanding ones. */
  lemma LastSeparates(st: Store, start: string, s: State, k: nat)
    requires Increasing(st, start, s.stream) && Following(st, start, s, k)
    ensures StartsAt(st, s.reader.last, s.stream, k + |s.reader.sent|)
  {
    var p := k + |s.reader.sent|;
    if s.reader.sent != [] {
      assert s.reader.last == s.stream[p - 1].id;
    }
  }

  /** Sending the next stretch of the stream keeps the invariant. */
  lemma DeliverFollows(st: Store, start: string, s: State, k: nat, batch: seq<Entry>)
    requires Following(st, start, s, k) && !s.reader.done
    requires batch <= s.stream[k + |s.reader.sent|..]
    ensures Following(st, start, s.(reader := Deliver(s.reader, batch)), k)
    ensures batch != [] ==> |Deliver(s.reader, batch).sent| > |s.reader.sent|
  {
    hide StartsAt, UntilFinished;
    var r := s.reader;
    var out := UntilFinished(batch);
    UntilFinishedPrefix(batch);
    if out != [] {
      NextStretch(s.stream, k, r.sent, out);
      NoneFinishedYet(r.sent, out);
    }
  }

  lemma NextStretch(stream: seq<Entry>, k: nat, sent: seq<Entry>, out: seq<Entry>)
    requires k + |sent| <= |stream| && sent == stream[k..k + |sent|] && out <= stream[k + |sent|..]
    ensures k + |sent + out| <= |stream| && sent + out == stream[k..k + |sent + out|]
  {
    var p, q := k + |sent|, k + |sent| + |out|;
    assert out == stream[p..][..|out|] == stream[p..q];
    assert stream[k..p] + stream[p..q] == stream[k..q];
  }

  lemma ReadFollows(st: Store, start: string, s: State, k: nat)
    requires Increasing(st, start, s.stream) && Following(st, start, s, k) && !s.reader.done
    ensures var t := Step(st, s, Read);
      Following(st, start, t, k)
      && (k + |s.reader.sent| < |s.stream| ==> |t.reader.sent| > |s.reader.sent|)
  {
    hide Greater, Deliver, Increasing;
    var p := k + |s.reader.sent|;
    LastSeparates(st, start, s, k);
    GreaterOfTail(st, s.stream, s.reader.last, p, st.count);
    DeliverFollows(st, start, s, k, Greater(st, s.stream, s.reader.last, st.count));
  }

  lemma NoneFinishedYet(a: seq<Entry>, b: seq<Entry>)
    requires forall i :: 0 <= i < |a| - 1 ==> !a[i].finished
    requires a != [] ==> !a[|a| - 1].finished
    requires forall i :: 0 <= i < |b| - 1 ==> !b[i].finished
    ensures forall i :: 0 <= i < |a + b| - 1 ==> !(a + b)[i].finished
  {
  }

  lemma AppendFollows(st: Store, start: string, s: State, k: nat, e: Entry) returns (k1: nat)
    requires Following(st, start, s, k) && Increasing(st, start, s.stream + [e])
    ensures Following(st, start, Step(st, s, Append(e)), k1)
  {
    var t := s.stream + [e];
    assert t[|s.stream|] == e;
    assert forall i :: 0 <= i < |s.stream| ==> t[i] == s.stream[i];
    if k == |s.stream| && !st.less(start, e.id) {
      k1 := k + 1;
    } else {
      k1 := k;
      if k < |s.stream| {
        assert st.less(start, t[k].id);
      }
      assert t[k..k + |s.reader.sent|] == s.stream[k..k + |s.reader.sent|];
    }
  }

  lemma {:induction false} StreamGrows(st: Store, s: State, trace: seq<Action>)
    ensures s.stream <= Run(st, s, trace).stream
    decreases |trace|
  {
    if trace != [] {
      StreamGrows(st, Step(st, s, trace[0]), trace[1..]);
    }
  }

  lemma IncreasingPrefix(st: Store, start: string, a: seq<Entry>, b: seq<Entry>)
    requires a <= b && Increasing(st, start, b)
    ensures Increasing(st, start, a)
  {
    assert forall i :: 0 <= i < |a| ==> a[i] == b[i];
  }

  lemma {:induction false} RunFollows(st: Store, start: string, s: State, k: nat, trace: seq<Action>) returns (k1: nat)
    requires Following(st, start, s, k) && Increasing(st, start, Run(st, s, trace).stream)
    ensures Following(st, start, Run(st, s, trace), k1)
    decreases |trace|
  {
    hide Following, Increasing, Step;
    if trace == [] {
      k1 := k;
    } else {
      var s1 := Step(st, s, trace[0]);
      StreamGrows(st, s1, trace[1..]);
      IncreasingPrefix(st, start, s1.stream, Run(st, s, trace).stream);
      var k0 := StepFollows(st, start, s, k, trace[0]);
      k1 := RunFollows(st, start, s1, k0, trace[1..]);
    }
  }

  lemma StepFollows(st: Store, start: string, s: State, k: nat, a: Action) returns (k1: nat)
    requires Following(st, start, s, k) && Increasing(st, start, Step(st, s, a).stream)
    ensures Following(st, start, Step(st, s, a), k1)
  {
    hide Following, Increasing, Deliver, Greater;
    match a {
      case Append(e) => k1 := AppendFollows(st, start, s, k, e);
      case Read =>
        k1 := k;
        if !s.reader.done {
          ReadFollows(st, start, s, k);
        }
    }
  }

  /** What was sent is a part of what is due, done means complete, and reads make progress. */
  ghost predicate Served(st: Store, start: string, s: State) {
    var due := Due(st, start, s.stream);
    && s.reader.sent <= due
    && (s.reader.done <==> s.reader.sent == due && due != [] && due[|due| - 1].finished)
    && (s.reader.sent != due ==> |Step(st, s, Read).reader.sent| > |s.reader.sent|)
  }

  /**
    Main theorem.  If later entries have greater ids, then in every interleaving of
    appends and reads the sent events are a prefix of the due ones: the entries after
    the start id, in order, each once, up to and including the first finished event.
    The reader is done exactly when the finished event has been sent, and a read sends
    something as long as anything is outstanding.
   */
  lemma ReaderDeliversAll(st: Store, start: string, trace: seq<Action>)
    requires Increasing(st, start, Run(st, State([], Reader(start, [], false)), trace).stream)
    ensures Served(st, start, Run(st, State([], Reader(start, [], false)), trace))
  {
    hide Run, Served;
    var s0 := State([], Reader(start, [], false));
    var k := RunFollows(st, start, s0, 0, trace);
    FollowingIsServed(st, start, Run(st, s0, trace), k);
  }

  lemma FollowingIsServed(st: Store, start: string, s: State, k: nat)
    requires Following(st, start, s, k) && Increasing(st, start, s.stream)
    ensures Served(st, start, s)
  {
    hide Greater, Due;
    FollowingIsDue(st, start, s, k);
    if s.reader.sent != Due(st, start, s.stream) {
      OutstandingIsRead(st, start, s, k);
    }
  }

  lemma OutstandingIsRead(st: Store, start: string, s: State, k: nat)
    requires Following(st, start, s, k) && Increasing(st, start, s.stream)
    requires s.reader.sent != Due(st, start, s.stream)
    ensures |Step(st, s, Read).reader.sent| > |s.reader.sent|
  {
    FollowingIsDue(st, start, s, k);
    GreaterOfTail(st, s.stream, start, k, 0);
    UntilFinishedPrefix(s.stream[k..]);
    if !s.reader.done {
      ReadFollows(st, start, s, k);
    }
  }

  // ----- the ids of the in-memory stand-in ---------------------------------------------------------------

  function Digit(n: nat): char
    requires n < 10
  {
    ['0', '1', '2', '3', '4', '5', '6', '7', '8', '9'][n]
  }

  function Decimal(n: nat): (d: string)
    ensures d != [] && (n >= 10 ==> |d| >= 2)
  {
    if n < 10 then [Digit(n)] else Decimal(n / 10) + [Digit(n % 10)]
  }

  /** XADD numbers the entries of a stream from 0. */
  function StubId(n: nat): string {
    Decimal(n) + "-0"
  }

  /** Python's order on strings. */
  predicate TextLess(a: string, b: string) {
    if a == "" then b != ""
    else if b == "" then false
    else if a[0] != b[0] then a[0] < b[0]
    else TextLess(a[1..], b[1..])
  }

  predicate Stubbed(stream: seq<Entry>) {
    forall i :: 0 <= i < |stream| ==> stream[i].id == StubId(i)
  }

  const START := "0-0"

  class StubStream {
    var entries: seq<Entry>

    constructor ()
      ensures entries == []
    {
      entries := [];
    }

    /** Append an event under the next id. */
    method XAdd(finished: bool, payload: string) returns (id: string)
      requires Stubbed(entries)
      modifies this
      ensures id == StubId(|old(entries)|) && entries == old(entries) + [Entry(id, finished, payload)]
      ensures Stubbed(entries)
    {
      id := Decimal(|entries|) + "-0";
      entries := entries + [Entry(id, finished, payload)];
    }
  }

  lemma {:induction false} TextLessIrreflexive(a: string)
    ensures !TextLess(a, a)
  {
    if a != "" {
      TextLessIrreflexive(a[1..]);
    }
  }

  lemma SmallIds(i: nat, j: nat)
    requires i < 10 && j < 10
    ensures TextLess(StubId(i), StubId(j)) <==> i < j
  {
    assert StubId(i)[0] == Digit(i) && StubId(j)[0] == Digit(j);
    if i == j {
      TextLessIrreflexive(StubId(i));
    }
  }

  lemma TenthIdIsSmall()
    ensures !TextLess(StubId(9), StubId(10))
  {
    assert Decimal(10) == Decimal(1) + [Digit(0)];
    assert StubId(10)[0] == '1' && StubId(9)[0] == '9';
  }

  /** The stand-in's ids increase, as the reader needs, exactly for up to ten entries. */
  lemma StubOrderHoldsExactly(count: nat, stream: seq<Entry>)
    requires Stubbed(stream)
    ensures Increasing(Store(TextLess, count), START, stream) <==> |stream| <= 10
  {
    var st := Store(TextLess, count);
    assert START == StubId(0);
    if |stream| <= 10 {
      forall i, j | 0 <= i < |stream| && 0 <= j < |stream|
        ensures st.less(stream[i].id, stream[j].id) <==> i < j
        ensures st.less(START, stream[j].id) <==> 0 < j
      {
        SmallIds(i, j);
        SmallIds(0, j);
      }
    } else {
      TenthIdIsSmall();
      assert !st.less(stream[9].id, stream[10].id);
    }
  }

  lemma {:induction false} LeadingDigit(n: nat)
    requires n > 0
    ensures Decimal(n)[0] > '0'
  {
    if n >= 10 {
      LeadingDigit(n / 10);
    }
  }

  /** Zero is the least id there is: the reader never sees the first entry of a stub stream. */
  lemma FirstStubEntrySkipped(count: nat, stream: seq<Entry>)
    requires Stubbed(stream) && stream != []
    ensures Due(Store(TextLess, count), START, stream) == UntilFinished(stream[1..])
  {
    hide Decimal;
    var st := Store(TextLess, count);
    assert START == StubId(0) by { assert Decimal(0) == [Digit(0)] by { ZeroIsADigit(); } }
    TextLessIrreflexive(START);
    forall i | 0 < i < |stream|
      ensures st.less(START, stream[i].id)
    {
      LeadingDigit(i);
    }
    GreaterOfTail(st, stream, START, 1, 0);
  }

  lemma ZeroIsADigit()
    ensures Decimal(0) == [Digit(0)]
  {
  }

  /**
    A run whose only event is the final one is never reported: the reader turns for
    ever and sends nothing.
   */
  lemma {:induction false} LoneFinishNeverSent(count: nat, e: Entry, turns: nat, r: Reader)
    requires e.id == StubId(0) && r == Reader(START, [], false)
    ensures Run(Store(TextLess, count), State([e], r), seq(turns, _ => Read)).reader == r
  {
    var st := Store(TextLess, count);
    var trace := seq(turns, _ => Read);
    if turns > 0 {
      assert START == StubId(0);
      TextLessIrreflexive(START);
      assert Greater(st, [e], START, count) == Greater(st, [], START, count) == [];
      assert trace[0] == Read && trace[1..] == seq(turns - 1, _ => Read);
      LoneFinishNeverSent(count, e, turns - 1, r);
    }
  }

  // ----- when the reader is right about a stand-in stream ---------------------------------------------------

  /** The stream is short, or finishes early enough. */
  ghost predicate Timely(stream: seq<Entry>) {
    |stream| <= 10 || exists i :: 1 <= i < 10 && stream[i].finished
  }

  function StubRun(count: nat, trace: seq<Action>): State {
    Run(Store(TextLess, count), State([], Reader(START, [], false)), trace)
  }

  /** The state without the entries from the eleventh on. */
  function FirstTen(s: State): State {
    if |s.stream| <= 10 then s else s.(stream := s.stream[..10])
  }

  lemma {:induction false} GreaterSplit(st: Store, a: seq<Entry>, b: seq<Entry>, last: string, left: nat)
    ensures var x := Greater(st, a, last, left);
      && (left > 0 ==> |x| <= left)
      && Greater(st, a + b, last, left) ==
         if left > 0 && |x| == left then x else x + Greater(st, b, last, if left == 0 then 0 else left - |x|)
  {
    if a == [] {
      assert a + b == b;
      assert [] + Greater(st, b, last, left) == Greater(st, b, last, left);
    } else {
      assert (a + b)[0] == a[0] && (a + b)[1..] == a[1..] + b;
      if !st.less(last, a[0].id) {
        GreaterSplit(st, a[1..], b, last, left);
      } else if left != 1 {
        var next := if left == 0 then 0 else left - 1;
        GreaterSplit(st, a[1..], b, last, next);
        var x := Greater(st, a[1..], last, next);
        var y := Greater(st, b, last, if next == 0 then 0 else next - |x|);
        assert [a[0]] + (x + y) == ([a[0]] + x) + y;
      }
    }
  }

  lemma {:induction false} UntilFinishedInside(x: seq<Entry>, y: seq<Entry>, f: nat)
    requires f < |x| && x[f].finished
    ensures UntilFinished(x + y) == UntilFinished(x)
  {
    assert (x + y)[0] == x[0] && (x + y)[1..] == x[1..] + y;
    if !x[0].finished {
      UntilFinishedInside(x[1..], y, f - 1);
    }
  }

  /** While a timely stream is being followed, entries from the eleventh on change no read. */
  lemma SameRead(count: nat, s: State, k: nat)
    requires Stubbed(s.stream) && Timely(s.stream) && !s.reader.done
    requires Following(Store(TextLess, count), START, FirstTen(s), k)
    ensures Step(Store(TextLess, count), s, Read).reader == Step(Store(TextLess, count), FirstTen(s), Read).reader
  {
    hide Greater, UntilFinished, Increasing, StubId, TextLess;
    var st := Store(TextLess, count);
    if |s.stream| > 10 {
      var a, b, last := s.stream[..10], s.stream[10..], s.reader.last;
      assert s.stream == a + b;
      StubOrderHoldsExactly(count, a);
      LastSeparates(st, START, FirstTen(s), k);
      var p := k + |s.reader.sent|;
      GreaterOfTail(st, a, last, p, count);
      GreaterSplit(st, a, b, last, count);
      var x := Greater(st, a, last, count);
      if count == 0 || |x| < count {
        assert x == a[p..];
        var f := FinishAhead(count, s, k);
        assert x[f - p] == a[f];
        UntilFinishedInside(x, Greater(st, b, last, if count == 0 then 0 else count - |x|), f - p);
      }
    }
  }

  /** The early finish has not been sent yet. */
  lemma FinishAhead(count: nat, s: State, k: nat) returns (f: nat)
    requires Stubbed(s.stream) && Timely(s.stream) && !s.reader.done && |s.stream| > 10
    requires Following(Store(TextLess, count), START, FirstTen(s), k)
    ensures k + |s.reader.sent| <= f < 10 && s.stream[f].finished
  {
    hide StubId, TextLess;
    f :| 1 <= f < 10 && s.stream[f].finished;
    var a, sent := s.stream[..10], s.reader.sent;
    assert k <= 1 by {
      assert a[1].id == StubId(1);
      StartIsLeast(1);
    }
    forall i | k <= i < k + |sent|
      ensures !s.stream[i].finished
    {
      assert sent[i - k] == a[i];
    }
  }

  lemma StartIsLeast(i: nat)
    requires 0 < i < 10
    ensures TextLess(START, StubId(i))
  {
    assert START == StubId(0);
    SmallIds(0, i);
  }

  lemma StubStepFollows(count: nat, s: State, k: nat, a: Action) returns (k1: nat)
    requires Following(Store(TextLess, count), START, FirstTen(s), k)
    requires Stubbed(Step(Store(TextLess, count), s, a).stream) && Timely(Step(Store(TextLess, count), s, a).stream)
    ensures Following(Store(TextLess, count), START, FirstTen(Step(Store(TextLess, count), s, a)), k1)
  {
    hide Following, Increasing, Deliver, Greater, StubId, TextLess, Timely;
    var st := Store(TextLess, count);
    var t := Step(st, s, a);
    match a {
      case Append(e) =>
        if |s.stream| >= 10 {
          assert t.stream[..10] == FirstTen(s).stream;
          k1 := k;
        } else {
          StubOrderHoldsExactly(count, t.stream);
          k1 := StepFollows(st, START, s, k, a);
        }
      case Read =>
        StubOrderHoldsExactly(count, FirstTen(s).stream);
        k1 := StepFollows(st, START, FirstTen(s), k, Read);
        if !s.reader.done {
          SameRead(count, s, k);
        }
    }
  }

  lemma TimelyPrefix(a: seq<Entry>, b: seq<Entry>)
    requires a <= b && Stubbed(b) && Timely(b)
    ensures Stubbed(a) && Timely(a)
  {
    assert forall i :: 0 <= i < |a| ==> a[i] == b[i];
  }

  lemma {:induction false} StubRunFollows(count: nat, s: State, k: nat, trace: seq<Action>) returns (k1: nat)
    requires Following(Store(TextLess, count), START, FirstTen(s), k)
    requires Stubbed(Run(Store(TextLess, count), s, trace).stream) && Timely(Run(Store(TextLess, count), s, trace).stream)
    ensures Following(Store(TextLess, count), START, FirstTen(Run(Store(TextLess, count), s, trace)), k1)
    decreases |trace|
  {
    hide Following, Step, Stubbed, Timely, TextLess, FirstTen;
    if trace == [] {
      k1 := k;
    } else {
      var st := Store(TextLess, count);
      var s1 := Step(st, s, trace[0]);
      StreamGrows(st, s1, trace[1..]);
      TimelyPrefix(s1.stream, Run(st, s, trace).stream);
      var k0 := StubStepFollows(count, s, k, trace[0]);
      k1 := StubRunFollows(count, s1, k0, trace[1..]);
    }
  }

  /** Cutting a timely stream after ten entries changes nothing of what is due. */
  lemma SameDue(count: nat, s: State)
    requires Stubbed(s.stream) && Timely(s.stream)
    ensures Due(Store(TextLess, count), START, FirstTen(s).stream) == Due(Store(TextLess, count), START, s.stream)
  {
    hide Due, UntilFinished, StubId;
    if |s.stream| > 10 {
      var a, b := s.stream[..10], s.stream[10..];
      FirstStubEntrySkipped(count, a);
      FirstStubEntrySkipped(count, s.stream);
      var f :| 1 <= f < 10 && s.stream[f].finished;
      assert a[1..][f - 1] == s.stream[f];
      assert s.stream[1..] == a[1..] + b;
      UntilFinishedInside(a[1..], b, f - 1);
    }
  }

  lemma TimelyIsServed(count: nat, trace: seq<Action>)
    requires Stubbed(StubRun(count, trace).stream) && Timely(StubRun(count, trace).stream)
    ensures Served(Store(TextLess, count), START, StubRun(count, trace))
  {
    hide Run, Timely, TextLess, Due, Greater, Increasing, Stubbed, Deliver;
    var st := Store(TextLess, count);
    var s0, s := State([], Reader(START, [], false)), StubRun(count, trace);
    var k := StubRunFollows(count, s0, 0, trace);
    var cut := FirstTen(s);
    assert cut.stream <= s.stream;
    TimelyPrefix(cut.stream, s.stream);
    StubOrderHoldsExactly(count, cut.stream);
    FollowingIsServed(st, START, cut, k);
    SameDue(count, s);
    if !s.reader.done {
      SameRead(count, s, k);
    }
  }

  // ----- and when it is not -------------------------------------------------------------------------------------

  function Appends(es: seq<Entry>): seq<Action> {
    if es == [] then [] else [Append(es[0])] + Appends(es[1..])
  }

  function Reads(turns: nat): seq<Action> {
    if turns == 0 then [] else [Read] + Reads(turns - 1)
  }

  lemma {:induction false} RunConcat(st: Store, s: State, a: seq<Action>, b: seq<Action>)
    ensures Run(st, s, a + b) == Run(st, Run(st, s, a), b)
    decreases |a|
  {
    hide Step;
    if a == [] {
      assert a + b == b;
    } else {
      assert (a + b)[0] == a[0] && (a + b)[1..] == a[1..] + b;
      RunConcat(st, Step(st, s, a[0]), a[1..], b);
    }
  }

  lemma RunFirst(st: Store, s: State, a: Action, b: seq<Action>)
    ensures Run(st, s, [a] + b) == Run(st, Step(st, s, a), b)
  {
    assert ([a] + b)[1..] == b;
  }

  lemma RunNone(st: Store, s: State)
    ensures Run(st, s, []) == s
  {
  }

  lemma {:induction false} RunAppends(st: Store, s: State, es: seq<Entry>)
    ensures Run(st, s, Appends(es)) == s.(stream := s.stream + es)
    decreases |es|
  {
    hide Run;
    if es == [] {
      RunNone(st, s);
      assert s.stream + es == s.stream;
    } else {
      RunFirst(st, s, Append(es[0]), Appends(es[1..]));
      RunAppends(st, Step(st, s, Append(es[0])), es[1..]);
      assert (s.stream + [es[0]]) + es[1..] == s.stream + es;
    }
  }

  /** Enough reads in a row send all of an unfinished stream. */
  lemma {:induction false} CatchUp(st: Store, start: string, s: State, k: nat, turns: nat)
    requires Increasing(st, start, s.stream) && Following(st, start, s, k) && k <= |s.stream|
    requires forall i :: k <= i < |s.stream| ==> !s.stream[i].finished
    requires turns >= |s.stream| - k - |s.reader.sent|
    ensures var t := Run(st, s, Reads(turns));
      t.stream == s.stream && Following(st, start, t, k) && t.reader.sent == s.stream[k..] && !t.reader.done
    decreases turns
  {
    hide Increasing, Step, Following;
    NotDone(st, start, s, k);
    if turns == 0 {
      SentIsStretch(st, start, s, k);
    } else {
      var t := Step(st, s, Read);
      ReadKeepsStream(st, s);
      ReadFollows(st, start, s, k);
      assert t.stream == s.stream;
      assert Reads(turns)[1..] == Reads(turns - 1);
      CatchUp(st, start, t, k, turns - 1);
    }
  }

  lemma SentIsStretch(st: Store, start: string, s: State, k: nat)
    requires Following(st, start, s, k) && k <= |s.stream| && |s.reader.sent| >= |s.stream| - k
    ensures s.reader.sent == s.stream[k..]
  {
  }

  lemma ReadKeepsStream(st: Store, s: State)
    ensures Step(st, s, Read).stream == s.stream && |Step(st, s, Read).reader.sent| >= |s.reader.sent|
  {
  }

  lemma NotDone(st: Store, start: string, s: State, k: nat)
    requires Following(st, start, s, k)
    requires forall i :: k <= i < |s.stream| ==> !s.stream[i].finished
    ensures !s.reader.done
  {
    if s.reader.sent != [] {
      var n := |s.reader.sent| - 1;
      assert s.reader.sent[n] == s.stream[k + n];
    }
  }

  lemma FreshAppends(st: Store, r: Reader, es: seq<Entry>)
    ensures Run(st, State([], r), Appends(es)) == State(es, r)
  {
    RunAppends(st, State([], r), es);
    assert [] + es == es;
  }

  /** Ten entries, of which the reader has read nothing yet. */
  lemma TenAppended(count: nat, ten: seq<Entry>)
    requires Stubbed(ten) && |ten| == 10
    ensures var st := Store(TextLess, count);
      Increasing(st, START, ten) && Following(st, START, State(ten, Reader(START, [], false)), 1)
  {
    hide Increasing, StubId, TextLess;
    var st := Store(TextLess, count);
    StubOrderHoldsExactly(count, ten);
    StartIsZero();
    TextLessIrreflexive(START);
    assert ten[0].id == StubId(0);
    forall i | 1 <= i < 10
      ensures st.less(START, ten[i].id)
    {
      StartIsLeast(i);
    }
  }

  /** The reader has sent the first ten entries (but for the very first) and nothing else. */
  lemma TenSent(count: nat, ten: seq<Entry>)
    requires Stubbed(ten) && |ten| == 10 && forall i :: 1 <= i < 10 ==> !ten[i].finished
    ensures StubRun(count, Appends(ten) + Reads(9)) == State(ten, Reader(StubId(9), ten[1..], false))
  {
    hide StubId, TextLess, Appends, Reads, Run, Increasing, Following;
    var st := Store(TextLess, count);
    var s0, s := State([], Reader(START, [], false)), State(ten, Reader(START, [], false));
    RunConcat(st, s0, Appends(ten), Reads(9));
    FreshAppends(st, Reader(START, [], false), ten);
    TenAppended(count, ten);
    CatchUp(st, START, s, 1, 9);
    LastOfTen(count, ten, Run(st, s, Reads(9)));
  }

  lemma LastOfTen(count: nat, ten: seq<Entry>, t: State)
    requires Stubbed(ten) && |ten| == 10 && t.stream == ten && t.reader.sent == ten[1..]
    requires Following(Store(TextLess, count), START, t, 1)
    ensures t.reader.last == StubId(9)
  {
    hide StubId, TextLess;
    assert ten[1..][8] == ten[9];
  }

  lemma StartIsZero()
    ensures START == StubId(0)
  {
  }

  /** A batch holds only entries with a greater id. */
  lemma {:induction false} BatchIsGreater(st: Store, stream: seq<Entry>, last: string, left: nat)
    ensures forall e :: e in Greater(st, stream, last, left) ==> st.less(last, e.id)
  {
    if stream != [] {
      BatchIsGreater(st, stream[1..], last, if !st.less(last, stream[0].id) then left else if left == 0 then 0 else left - 1);
    }
  }

  /** The run that appends ten entries, reads them all, appends the rest and reads once more. */
  lemma UntimelyFails(count: nat, stream: seq<Entry>) returns (trace: seq<Action>)
    requires Stubbed(stream) && !Timely(stream)
    ensures StubRun(count, trace).stream == stream
    ensures !Served(Store(TextLess, count), START, StubRun(count, trace))
  {
    hide Run, Greater, Due, StubId, TextLess, Stubbed, Appends, Reads, UntilFinished;
    var st := Store(TextLess, count);
    var s0 := State([], Reader(START, [], false));
    var ten, rest := stream[..10], stream[10..];
    var early := Appends(ten) + Reads(9);
    assert Stubbed(ten) by { StubbedPrefix(stream); }
    TenSent(count, ten);
    RunConcat(st, s0, early, Appends(rest));
    RunAppends(st, StubRun(count, early), rest);
    assert ten + rest == stream;
    var s := State(stream, Reader(StubId(9), ten[1..], false));
    trace := early + Appends(rest) + [Read];
    RunConcat(st, s0, early + Appends(rest), [Read]);
    assert Run(st, s, [Read]) == Step(st, s, Read) by { RunOne(st, s, Read); }
    DueGoesOn(count, stream);
    EleventhMissed(count, stream, s);
  }

  lemma StubbedPrefix(stream: seq<Entry>)
    requires Stubbed(stream) && |stream| > 10
    ensures Stubbed(stream[..10]) && stream[10].id == StubId(10)
  {
  }

  lemma RunOne(st: Store, s: State, a: Action)
    ensures Run(st, s, [a]) == Step(st, s, a)
  {
    assert [a][1..] == [];
  }

  /** More than the first ten entries are due, the eleventh next. */
  lemma DueGoesOn(count: nat, stream: seq<Entry>)
    requires Stubbed(stream) && !Timely(stream)
    ensures var due := Due(Store(TextLess, count), START, stream); |due| > 9 && due[9] == stream[10]
  {
    hide Due, StubId;
    FirstStubEntrySkipped(count, stream);
    var a, b := stream[1..10], stream[10..];
    assert stream[1..] == a + b;
    UntilFinishedConcat(a, b);
    UntilFinishedPrefix(b);
  }

  /** Nothing that the last read sends can be the eleventh entry. */
  lemma EleventhMissed(count: nat, stream: seq<Entry>, s: State)
    requires Stubbed(stream) && |stream| > 10 && s == State(stream, Reader(StubId(9), stream[..10][1..], false))
    requires var due := Due(Store(TextLess, count), START, stream); |due| > 9 && due[9] == stream[10]
    ensures !Served(Store(TextLess, count), START, Step(Store(TextLess, count), s, Read))
  {
    hide Greater, Due, StubId, TextLess, Stubbed;
    var st := Store(TextLess, count);
    var t, batch := Step(st, s, Read), Greater(st, stream, StubId(9), count);
    StubbedPrefix(stream);
    TenthIdIsSmall();
    BatchIsGreater(st, stream, StubId(9), count);
    UntilFinishedPrefix(batch);
    if batch == [] {
      assert t == s;
    } else {
      var out := UntilFinished(batch);
      assert out[0] == batch[0] && batch[0] in batch;
      assert t.reader.sent[9] == out[0];
    }
  }

  /**
    The reader serves every run that ends in a given stand-in stream, in the sense of
    `ReaderDeliversAll`, exactly when the stream has at most ten entries or its finish
    is among the second to the tenth; at the eleventh it loses its place.
   */
  lemma StubServedExactly(count: nat, stream: seq<Entry>)
    requires Stubbed(stream)
    ensures (forall trace :: StubRun(count, trace).stream == stream ==>
               Served(Store(TextLess, count), START, StubRun(count, trace)))
      <==> Timely(stream)
  {
    hide StubRun, Served, Timely, Stubbed;
    if Timely(stream) {
      forall trace | StubRun(count, trace).stream == stream
        ensures Served(Store(TextLess, count), START, StubRun(count, trace))
      {
        TimelyIsServed(count, trace);
      }
    } else {
      var trace := UntimelyFails(count, stream);
    }
  }
}
