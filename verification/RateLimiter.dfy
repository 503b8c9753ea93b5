/**
  The sliding-window limiter: one list of admission times per (token, path) key,
  pruned on every request, against a limiter that keeps its whole history.
 */
module RateLimiter {
  import opened Prelude

  datatype Key = Key(token: string, path: string)

  type Buckets = map<Key, seq<real>>

  /** `_RATE_WINDOW` and `_RATE_MAX`; the environment may set any values. */
  datatype Config = Config(window: real, max: int)

  datatype Event = Event(key: Key, now: real)

  function Bucket(bs: Buckets, key: Key): seq<real> {
    if key in bs then bs[key] else []
  }

  /** The times that are still inside the window at `now`. */
  function Prune(ts: seq<real>, now: real, window: real): seq<real> {
    if ts == [] then []
    else (if now - ts[0] < window then [ts[0]] else []) + Prune(ts[1..], now, window)
  }

  /** One request against the pruned table. */
  function Limit(cfg: Config, bs: Buckets, e: Event): (Buckets, bool) {
    var live := Prune(Bucket(bs, e.key), e.now, cfg.window);
    if |live| >= cfg.max then (bs[e.key := live], false)
    else (bs[e.key := live + [e.now]], true)
  }

  /** One request against the full history: nothing is ever dropped. */
  function Judge(cfg: Config, full: Buckets, e: Event): (Buckets, bool) {
    if |Prune(Bucket(full, e.key), e.now, cfg.window)| >= cfg.max then (full, false)
    else (full[e.key := Bucket(full, e.key) + [e.now]], true)
  }

  class Limiter {
    const cfg: Config
    var buckets: Buckets

    constructor (c: Config)
      ensures cfg == c && buckets == map[]
    {
      cfg, buckets := c, map[];
    }

    /** False is the answer 429. */
    method RateLimit(key: Key, now: real) returns (admitted: bool)
      modifies this
      ensures (buckets, admitted) == Limit(cfg, old(buckets), Event(key, now))
    {
      var bucket := if key in buckets then buckets[key] else [];
      var live: seq<real>, rest := [], bucket;
      while rest != []
        invariant Prune(bucket, now, cfg.window) == live + Prune(rest, now, cfg.window)
        decreases |rest|
      {
        ghost var after := Prune(rest[1..], now, cfg.window);
        if now - rest[0] < cfg.window {
          assert live + ([rest[0]] + after) == (live + [rest[0]]) + after;
          live := live + [rest[0]];
        } else {
          assert [] + after == after;
        }
        rest := rest[1..];
      }
      assert live + [] == live;
      assert live == Prune(Bucket(old(buckets), key), now, cfg.window);
      buckets := buckets[key := live];
      if |live| >= cfg.max {
        return false;
      }
      buckets := buckets[key := live + [now]];
      assert buckets == old(buckets)[key := live + [now]];
      return true;
    }
  }

  // ----- runs ---------------------------------------------------------------------------

  function Decisions(cfg: Config, bs: Buckets, es: seq<Event>): seq<bool>
    decreases |es|
  {
    if es == [] then [] else [Limit(cfg, bs, es[0]).1] + Decisions(cfg, Limit(cfg, bs, es[0]).0, es[1..])
  }

  function Judgements(cfg: Config, full: Buckets, es: seq<Event>): seq<bool>
    decreases |es|
  {
    if es == [] then [] else [Judge(cfg, full, es[0]).1] + Judgements(cfg, Judge(cfg, full, es[0]).0, es[1..])
  }

  /** All admissions of a run, per key and in order. */
  function Admissions(cfg: Config, full: Buckets, es: seq<Event>): Buckets
    decreases |es|
  {
    if es == [] then full else Admissions(cfg, Judge(cfg, full, es[0]).0, es[1..])
  }

  ghost predicate ClockRuns(clock: real, es: seq<Event>) {
    && (forall i :: 0 <= i < |es| ==> clock <= es[i].now)
    && (forall i, j :: 0 <= i < j < |es| ==> es[i].now <= es[j].now)
  }

  // ----- pruning loses nothing ----------------------------------------------------------

  lemma {:induction false} PruneConcat(a: seq<real>, b: seq<real>, now: real, window: real)
    ensures Prune(a + b, now, window) == Prune(a, now, window) + Prune(b, now, window)
  {
    if a == [] {
      assert a + b == b;
    } else {
      assert (a + b)[0] == a[0] && (a + b)[1..] == a[1..] + b;
      PruneConcat(a[1..], b, now, window);
    }
  }

  lemma {:induction false} PruneTwice(ts: seq<real>, early: real, late: real, window: real)
    requires early <= late
    ensures Prune(Prune(ts, early, window), late, window) == Prune(ts, late, window)
  {
    if ts != [] {
      var head := if early - ts[0] < window then [ts[0]] else [];
      PruneTwice(ts[1..], early, late, window);
      PruneConcat(head, Prune(ts[1..], early, window), late, window);
      assert Prune([], late, window) == [];
    }
  }

  /** From `clock` on, both tables show the same live times. */
  ghost predicate Alike(cfg: Config, bs: Buckets, full: Buckets, clock: real) {
    forall key, t :: t >= clock ==> Prune(Bucket(bs, key), t, cfg.window) == Prune(Bucket(full, key), t, cfg.window)
  }

  lemma StepAlike(cfg: Config, bs: Buckets, full: Buckets, clock: real, e: Event)
    requires Alike(cfg, bs, full, clock) && clock <= e.now
    ensures Limit(cfg, bs, e).1 == Judge(cfg, full, e).1
    ensures Alike(cfg, Limit(cfg, bs, e).0, Judge(cfg, full, e).0, e.now)
  {
    var (bs1, ok) := Limit(cfg, bs, e);
    var full1 := Judge(cfg, full, e).0;
    var mine, all := Bucket(bs, e.key), Bucket(full, e.key);
    assert Prune(mine, e.now, cfg.window) == Prune(all, e.now, cfg.window);
    forall key, t | t >= e.now
      ensures Prune(Bucket(bs1, key), t, cfg.window) == Prune(Bucket(full1, key), t, cfg.window)
    {
      assert Prune(Bucket(bs, key), t, cfg.window) == Prune(Bucket(full, key), t, cfg.window);
      if key == e.key {
        PruneTwice(mine, e.now, t, cfg.window);
        PruneConcat(Prune(mine, e.now, cfg.window), [e.now], t, cfg.window);
        PruneConcat(all, [e.now], t, cfg.window);
      }
    }
  }

  lemma {:induction false} RunAlike(cfg: Config, bs: Buckets, full: Buckets, clock: real, es: seq<Event>)
    requires Alike(cfg, bs, full, clock) && ClockRuns(clock, es)
    ensures Decisions(cfg, bs, es) == Judgements(cfg, full, es)
    decreases |es|
  {
    if es != [] {
      StepAlike(cfg, bs, full, clock, es[0]);
      assert ClockRuns(es[0].now, es[1..]);
      RunAlike(cfg, Limit(cfg, bs, es[0]).0, Judge(cfg, full, es[0]).0, es[0].now, es[1..]);
    }
  }

  /** Under a clock that never runs back, pruning changes no decision. */
  lemma PruningChangesNothing(cfg: Config, clock: real, es: seq<Event>)
    requires ClockRuns(clock, es)
    ensures Decisions(cfg, map[], es) == Judgements(cfg, map[], es)
  {
    RunAlike(cfg, map[], map[], clock, es);
  }

  // ----- exactly when pruning is safe --------------------------------------------------------

  /** A reading above both an earlier and a later reading of the same key. */
  ghost predicate Peak(es: seq<Event>, i: nat, j: nat, k: nat) {
    && i < j < k < |es| && es[i].key == es[j].key == es[k].key
    && es[i].now < es[j].now && es[k].now < es[j].now
  }

  ghost predicate PeakFree(es: seq<Event>) {
    forall i: nat, j: nat, k: nat :: !Peak(es, i, j, k)
  }

  /** No recorded time lies below a coming reading that is followed by a smaller one. */
  ghost predicate Calm(full: Buckets, es: seq<Event>) {
    forall j, k :: 0 <= j < k < |es| && es[j].key == es[k].key && es[k].now < es[j].now ==>
      forall t :: t in Bucket(full, es[j].key) ==> es[j].now <= t
  }

  /** At every coming reading both tables show the same live times. */
  ghost predicate AlikeAhead(cfg: Config, bs: Buckets, full: Buckets, es: seq<Event>) {
    forall i :: 0 <= i < |es| ==>
      Prune(Bucket(bs, es[i].key), es[i].now, cfg.window) == Prune(Bucket(full, es[i].key), es[i].now, cfg.window)
  }

  /** What is dropped at `early` is not missed at `late`, if that is no smaller or nothing is dropped. */
  lemma {:induction false} PruneAhead(ts: seq<real>, early: real, late: real, window: real)
    requires window > 0.0
    requires early <= late || forall t :: t in ts ==> early <= t
    ensures Prune(Prune(ts, early, window), late, window) == Prune(ts, late, window)
  {
    if ts != [] {
      assert ts[0] in ts && forall t :: t in ts[1..] ==> t in ts;
      var head := if early - ts[0] < window then [ts[0]] else [];
      PruneAhead(ts[1..], early, late, window);
      PruneConcat(head, Prune(ts[1..], early, window), late, window);
      assert Prune([], late, window) == [];
    }
  }

  lemma StepAhead(cfg: Config, bs: Buckets, full: Buckets, es: seq<Event>)
    requires cfg.window > 0.0 && es != [] && AlikeAhead(cfg, bs, full, es) && Calm(full, es)
    ensures Limit(cfg, bs, es[0]).1 == Judge(cfg, full, es[0]).1
    ensures AlikeAhead(cfg, Limit(cfg, bs, es[0]).0, Judge(cfg, full, es[0]).0, es[1..])
  {
    hide Calm, Prune;
    var e := es[0];
    var bs1, full1 := Limit(cfg, bs, e).0, Judge(cfg, full, e).0;
    var mine, all := Bucket(bs, e.key), Bucket(full, e.key);
    assert Prune(mine, e.now, cfg.window) == Prune(all, e.now, cfg.window);
    forall i | 0 <= i < |es[1..]|
      ensures var x := es[1..][i];
        Prune(Bucket(bs1, x.key), x.now, cfg.window) == Prune(Bucket(full1, x.key), x.now, cfg.window)
    {
      var x := es[1..][i];
      assert x == es[i + 1];
      if x.key == e.key {
        assert e.now <= x.now || forall t :: t in all ==> e.now <= t by { CalmAt(full, es, i + 1); }
        PruneAhead(all, e.now, x.now, cfg.window);
        PruneConcat(Prune(all, e.now, cfg.window), [e.now], x.now, cfg.window);
        PruneConcat(all, [e.now], x.now, cfg.window);
      } else {
        assert Bucket(bs1, x.key) == Bucket(bs, x.key) && Bucket(full1, x.key) == Bucket(full, x.key);
      }
    }
  }

  lemma CalmAt(full: Buckets, es: seq<Event>, k: nat)
    requires Calm(full, es) && 0 < k < |es| && es[k].key == es[0].key
    ensures es[0].now <= es[k].now || forall t :: t in Bucket(full, es[0].key) ==> es[0].now <= t
  {
  }

  lemma CalmAfter(cfg: Config, full: Buckets, es: seq<Event>, j: nat, k: nat)
    requires Calm(full, es) && PeakFree(es)
    requires 0 < j < k < |es| && es[j].key == es[k].key && es[k].now < es[j].now
    ensures forall t :: t in Bucket(Judge(cfg, full, es[0]).0, es[j].key) ==> es[j].now <= t
  {
    hide Judge, Bucket;
    JudgeAppends(cfg, full, es[0], es[j].key);
    assert !Peak(es, 0, j, k);
  }

  lemma CalmStep(cfg: Config, full: Buckets, es: seq<Event>)
    requires es != [] && Calm(full, es) && PeakFree(es)
    ensures Calm(Judge(cfg, full, es[0]).0, es[1..]) && PeakFree(es[1..])
  {
    hide Judge, Bucket;
    var full1 := Judge(cfg, full, es[0]).0;
    forall j, k | 0 <= j < k < |es[1..]| && es[1..][j].key == es[1..][k].key && es[1..][k].now < es[1..][j].now
      ensures forall t :: t in Bucket(full1, es[1..][j].key) ==> es[1..][j].now <= t
    {
      CalmAfter(cfg, full, es, j + 1, k + 1);
      assert es[j + 1] == es[1..][j] && es[k + 1] == es[1..][k];
    }
    forall i: nat, j: nat, k: nat
      ensures !Peak(es[1..], i, j, k)
    {
      assert !Peak(es, i + 1, j + 1, k + 1);
    }
  }

  lemma {:induction false} PeakFreeIsSafe(cfg: Config, bs: Buckets, full: Buckets, es: seq<Event>)
    requires cfg.window > 0.0 && AlikeAhead(cfg, bs, full, es) && Calm(full, es) && PeakFree(es)
    ensures Decisions(cfg, bs, es) == Judgements(cfg, full, es)
    decreases |es|
  {
    hide Limit, Judge, AlikeAhead, Calm, PeakFree;
    if es != [] {
      StepAhead(cfg, bs, full, es);
      CalmStep(cfg, full, es);
      PeakFreeIsSafe(cfg, Limit(cfg, bs, es[0]).0, Judge(cfg, full, es[0]).0, es[1..]);
    }
  }

  /** The limiter's table after a run. */
  function Table(cfg: Config, bs: Buckets, es: seq<Event>): Buckets
    decreases |es|
  {
    if es == [] then bs else Table(cfg, Limit(cfg, bs, es[0]).0, es[1..])
  }

  function Readings(es: seq<Event>, key: Key): seq<real> {
    if es == [] then [] else (if es[0].key == key then [es[0].now] else []) + Readings(es[1..], key)
  }

  lemma {:induction false} ReadingsConcat(a: seq<Event>, b: seq<Event>, key: Key)
    ensures Readings(a + b, key) == Readings(a, key) + Readings(b, key)
  {
    if a == [] {
      assert a + b == b;
    } else {
      assert (a + b)[0] == a[0] && (a + b)[1..] == a[1..] + b;
      ReadingsConcat(a[1..], b, key);
    }
  }

  lemma {:induction false} DecisionAt(cfg: Config, bs: Buckets, full: Buckets, es: seq<Event>, k: nat)
    requires k < |es|
    ensures k < |Decisions(cfg, bs, es)| && k < |Judgements(cfg, full, es)|
    ensures Decisions(cfg, bs, es)[k] == Limit(cfg, Table(cfg, bs, es[..k]), es[k]).1
    ensures Judgements(cfg, full, es)[k] == Judge(cfg, Admissions(cfg, full, es[..k]), es[k]).1
    decreases k
  {
    hide Limit, Judge;
    DecisionCount(cfg, bs, es);
    JudgementCount(cfg, full, es);
    if k > 0 {
      DecisionAt(cfg, Limit(cfg, bs, es[0]).0, Judge(cfg, full, es[0]).0, es[1..], k - 1);
      assert es[..k][1..] == es[1..][..k - 1];
    }
  }

  lemma {:induction false} PruneShrinks(ts: seq<real>, now: real, window: real)
    ensures |Prune(ts, now, window)| <= |ts|
    ensures |Prune(ts, now, window)| == |ts| <==> forall t :: t in ts ==> now - t < window
    ensures |Prune(ts, now, window)| == |ts| ==> Prune(ts, now, window) == ts
  {
    if ts != [] {
      PruneShrinks(ts[1..], now, window);
      var live := Prune(ts[1..], now, window);
      assert forall t :: t in ts <==> t == ts[0] || t in ts[1..];
      if now - ts[0] < window {
        assert Prune(ts, now, window) == [ts[0]] + live;
      } else {
        assert Prune(ts, now, window) == [] + live == live;
        assert ts[0] in ts;
      }
    }
  }

  lemma JudgeKeepsAll(cfg: Config, full: Buckets, e: Event, key: Key)
    requires e.key == key ==> |Bucket(full, key)| < cfg.max
    ensures Bucket(Judge(cfg, full, e).0, key) == Bucket(full, key) + (if e.key == key then [e.now] else [])
  {
    hide Prune;
    PruneShrinks(Bucket(full, e.key), e.now, cfg.window);
    assert Bucket(full, key) + [] == Bucket(full, key);
  }

  /** With room for all of them, the full history of a key holds every reading. */
  lemma {:induction false} FullHoldsAll(cfg: Config, full: Buckets, es: seq<Event>, key: Key)
    requires |Bucket(full, key)| + |Readings(es, key)| <= cfg.max
    ensures Bucket(Admissions(cfg, full, es), key) == Bucket(full, key) + Readings(es, key)
    decreases |es|
  {
    hide Judge, Bucket;
    if es == [] {
      assert Bucket(full, key) + [] == Bucket(full, key);
    } else {
      var full1 := Judge(cfg, full, es[0]).0;
      var head := if es[0].key == key then [es[0].now] else [];
      JudgeKeepsAll(cfg, full, es[0], key);
      FullHoldsAll(cfg, full1, es[1..], key);
      assert (Bucket(full, key) + head) + Readings(es[1..], key) == Bucket(full, key) + (head + Readings(es[1..], key));
    }
  }

  /** The bucket of the limiter holds every one of `all`, or fewer. */
  ghost predicate Within(bucket: seq<real>, all: seq<real>) {
    |bucket| < |all| || bucket == all
  }

  /** One request keeps the bucket within the readings so far. */
  lemma LimitWithin(cfg: Config, bs: Buckets, e: Event, key: Key, all: seq<real>)
    requires Within(Bucket(bs, key), all) && |all| + (if e.key == key then 1 else 0) <= cfg.max
    ensures Within(Bucket(Limit(cfg, bs, e).0, key), all + (if e.key == key then [e.now] else []))
  {
    hide Prune;
    PruneShrinks(Bucket(bs, e.key), e.now, cfg.window);
    assert all + [] == all;
  }

  lemma {:induction false} TableWithin(cfg: Config, bs: Buckets, es: seq<Event>, key: Key, all: seq<real>)
    requires Within(Bucket(bs, key), all) && |all| + |Readings(es, key)| <= cfg.max
    ensures Within(Bucket(Table(cfg, bs, es), key), all + Readings(es, key))
    decreases |es|
  {
    hide Limit, Bucket, Within;
    if es == [] {
      assert all + [] == all;
    } else {
      LimitWithin(cfg, bs, es[0], key, all);
      var bs1 := Limit(cfg, bs, es[0]).0;
      var head := if es[0].key == key then [es[0].now] else [];
      TableWithin(cfg, bs1, es[1..], key, all + head);
      assert (all + head) + Readings(es[1..], key) == all + (head + Readings(es[1..], key));
    }
  }

  lemma {:induction false} TableConcat(cfg: Config, bs: Buckets, a: seq<Event>, b: seq<Event>)
    ensures Table(cfg, bs, a + b) == Table(cfg, Table(cfg, bs, a), b)
    decreases |a|
  {
    hide Limit;
    if a == [] {
      assert a + b == b;
    } else {
      assert (a + b)[0] == a[0] && (a + b)[1..] == a[1..] + b;
      TableConcat(cfg, Limit(cfg, bs, a[0]).0, a[1..], b);
    }
  }

  lemma {:induction false} OtherKeys(cfg: Config, bs: Buckets, es: seq<Event>, key: Key)
    requires forall e :: e in es ==> e.key != key
    ensures Bucket(Table(cfg, bs, es), key) == Bucket(bs, key) && Readings(es, key) == []
    decreases |es|
  {
    hide Prune;
    if es != [] {
      assert es[0] in es;
      OtherKeys(cfg, Limit(cfg, bs, es[0]).0, es[1..], key);
    }
  }

  function Least(ts: seq<real>): (m: real)
    requires ts != []
    ensures m in ts && forall t :: t in ts ==> m <= t
  {
    if |ts| == 1 then ts[0]
    else
      var m := Least(ts[1..]);
      assert ts == [ts[0]] + ts[1..];
      if ts[0] <= m then ts[0] else m
  }

  lemma {:induction false} ReadingOccurs(es: seq<Event>, i: nat)
    requires i < |es|
    ensures es[i].now in Readings(es, es[i].key)
  {
    if i > 0 {
      ReadingOccurs(es[1..], i - 1);
    }
  }

  /**
    A reading `top` above an earlier one makes a suitable window drop that one, and a
    smaller next reading of the key then misses it: the pruned limiter admits what
    the full history rejects.
   */
  lemma DescentDiffers(before: seq<Event>, top: Event, between: seq<Event>, next: Event, rest: seq<Event>, least: real)
    requires top.key == next.key && next.now < top.now && forall e :: e in between ==> e.key != top.key
    requires least in Readings(before, top.key) && least < top.now
    requires forall t :: t in Readings(before, top.key) ==> least <= t
    ensures var cfg := Config(top.now - least, |Readings(before, top.key)| + 1);
      var es := before + [top] + between + [next] + rest;
      Decisions(cfg, map[], es) != Judgements(cfg, map[], es)
  {
    hide Limit, Judge, Table, Admissions, Readings, Prune, Decisions, Judgements;
    var key, all := top.key, Readings(before, top.key);
    var cfg := Config(top.now - least, |all| + 1);
    var upto := before + [top] + between;
    var es := upto + [next] + rest;
    var k := |upto|;
    assert es[..k] == upto && es[k] == next;
    DecisionAt(cfg, map[], map[], es, k);
    PrunedAdmits(cfg, before, top, between, next, least);
    FullRejects(cfg, before, top, between, next, least);
    assert es == before + [top] + between + [next] + rest;
  }

  lemma ReadingsUpto(before: seq<Event>, top: Event, between: seq<Event>)
    requires forall e :: e in between ==> e.key != top.key
    ensures Readings(before + [top] + between, top.key) == Readings(before, top.key) + [top.now]
  {
    ReadingsConcat(before + [top], between, top.key);
    ReadingsConcat(before, [top], top.key);
    OtherKeys(Config(1.0, 0), map[], between, top.key);
    assert Readings([top], top.key) == [top.now] by { assert [top][1..] == []; }
  }

  lemma PrunedAdmits(cfg: Config, before: seq<Event>, top: Event, between: seq<Event>, next: Event, least: real)
    requires top.key == next.key && forall e :: e in between ==> e.key != top.key
    requires least in Readings(before, top.key)
    requires cfg == Config(top.now - least, |Readings(before, top.key)| + 1)
    ensures Limit(cfg, Table(cfg, map[], before + [top] + between), next).1
  {
    hide Prune, Readings;
    var key, all := top.key, Readings(before, top.key);
    TableConcat(cfg, map[], before + [top], between);
    TableConcat(cfg, map[], before, [top]);
    var t0 := Table(cfg, map[], before);
    assert [] + all == all;
    TableWithin(cfg, map[], before, key, []);
    var t1 := Table(cfg, t0, [top]);
    assert t1 == Limit(cfg, t0, top).0 by { assert [top][1..] == []; }
    PruneShrinks(Bucket(t0, key), top.now, cfg.window);
    assert |Bucket(t1, key)| <= |all|;
    OtherKeys(cfg, t1, between, key);
    PruneShrinks(Bucket(t1, key), next.now, cfg.window);
  }

  lemma FullRejects(cfg: Config, before: seq<Event>, top: Event, between: seq<Event>, next: Event, least: real)
    requires top.key == next.key && next.now < top.now && forall e :: e in between ==> e.key != top.key
    requires least in Readings(before, top.key) && least < top.now
    requires forall t :: t in Readings(before, top.key) ==> least <= t
    requires cfg == Config(top.now - least, |Readings(before, top.key)| + 1)
    ensures !Judge(cfg, Admissions(cfg, map[], before + [top] + between), next).1
  {
    hide Prune, Readings, Admissions;
    var key, all := top.key, Readings(before, top.key);
    var upto := before + [top] + between;
    ReadingsUpto(before, top, between);
    FullHoldsAll(cfg, map[], upto, key);
    assert [] + Readings(upto, key) == Readings(upto, key);
    PruneShrinks(all + [top.now], next.now, cfg.window);
  }

  /** From a peak to a descent between neighbouring readings of its key. */
  lemma {:induction false} FindDescent(es: seq<Event>, i: nat, j: nat, p: nat, k: nat) returns (top: nat, next: nat)
    requires Peak(es, i, j, k) && j < p <= k
    requires forall x :: j < x < p ==> es[x].key != es[j].key
    ensures Peak(es, i, top, next) && forall x :: top < x < next ==> es[x].key != es[top].key
    decreases k - p
  {
    if es[p].key != es[j].key {
      top, next := FindDescent(es, i, j, p + 1, k);
    } else if es[p].now < es[j].now {
      top, next := j, p;
    } else {
      top, next := FindDescent(es, i, p, p + 1, k);
    }
  }

  lemma PeakDiffers(es: seq<Event>, i: nat, j: nat, k: nat) returns (cfg: Config)
    requires Peak(es, i, j, k)
    ensures cfg.window > 0.0 && Decisions(cfg, map[], es) != Judgements(cfg, map[], es)
  {
    hide Readings, Decisions, Judgements;
    var t, n := FindDescent(es, i, j, j + 1, k);
    var before, between, rest := es[..t], es[t + 1..n], es[n + 1..];
    assert es == before + [es[t]] + between + [es[n]] + rest;
    assert before[i] == es[i];
    ReadingOccurs(before, i);
    var least := Least(Readings(before, es[t].key));
    DescentDiffers(before, es[t], between, es[n], rest, least);
    cfg := Config(es[t].now - least, |Readings(before, es[t].key)| + 1);
  }

  /**
    Pruning changes no decision, under any limits with a positive window, exactly when
    no reading lies above both an earlier and a later reading of its key.
   */
  lemma PruningSafeExactly(es: seq<Event>)
    ensures (forall cfg: Config :: cfg.window > 0.0 ==> Decisions(cfg, map[], es) == Judgements(cfg, map[], es))
      <==> PeakFree(es)
  {
    hide Peak;
    if PeakFree(es) {
      forall cfg: Config | cfg.window > 0.0
        ensures Decisions(cfg, map[], es) == Judgements(cfg, map[], es)
      {
        PeakFreeIsSafe(cfg, map[], map[], es);
      }
    } else {
      var i, j, k :| Peak(es, i, j, k);
      var cfg := PeakDiffers(es, i, j, k);
    }
  }

  lemma ClockIsPeakFree(clock: real, es: seq<Event>)
    requires ClockRuns(clock, es)
    ensures PeakFree(es)
  {
  }

  // ----- the window bound ------------------------------------------------------------------

  /** How many of the times lie in the half-open interval from `start`, `window` long. */
  function CountIn(ts: seq<real>, start: real, window: real): nat {
    if ts == [] then 0
    else (if start <= ts[0] < start + window then 1 else 0) + CountIn(ts[1..], start, window)
  }

  lemma {:induction false} CountConcat(a: seq<real>, b: seq<real>, start: real, window: real)
    ensures CountIn(a + b, start, window) == CountIn(a, start, window) + CountIn(b, start, window)
  {
    if a == [] {
      assert a + b == b;
    } else {
      assert (a + b)[0] == a[0] && (a + b)[1..] == a[1..] + b;
      CountConcat(a[1..], b, start, window);
    }
  }

  /** Times that share an interval with `now` are live at `now`. */
  lemma {:induction false} IntervalIsLive(ts: seq<real>, start: real, now: real, window: real)
    requires start <= now < start + window
    ensures CountIn(ts, start, window) <= |Prune(ts, now, window)|
  {
    if ts != [] {
      IntervalIsLive(ts[1..], start, now, window);
    }
  }

  ghost predicate Bounded(cfg: Config, full: Buckets) {
    forall key, start :: CountIn(Bucket(full, key), start, cfg.window) <= Max(0, cfg.max)
  }

  lemma JudgeBounded(cfg: Config, full: Buckets, e: Event)
    requires Bounded(cfg, full)
    ensures Bounded(cfg, Judge(cfg, full, e).0)
  {
    var full1 := Judge(cfg, full, e).0;
    forall key, start
      ensures CountIn(Bucket(full1, key), start, cfg.window) <= Max(0, cfg.max)
    {
      assert CountIn(Bucket(full, key), start, cfg.window) <= Max(0, cfg.max);
      if key == e.key && Judge(cfg, full, e).1 {
        CountConcat(Bucket(full, key), [e.now], start, cfg.window);
        assert CountIn([e.now], start, cfg.window) == if start <= e.now < start + cfg.window then 1 else 0;
        if start <= e.now < start + cfg.window {
          IntervalIsLive(Bucket(full, key), start, e.now, cfg.window);
        }
      }
    }
  }

  lemma {:induction false} RunBounded(cfg: Config, full: Buckets, es: seq<Event>)
    requires Bounded(cfg, full)
    ensures Bounded(cfg, Admissions(cfg, full, es))
    decreases |es|
  {
    if es != [] {
      JudgeBounded(cfg, full, es[0]);
      RunBounded(cfg, Judge(cfg, full, es[0]).0, es[1..]);
    }
  }

  /** The times at which the limiter itself admitted `key` during a run. */
  function AdmittedTimes(es: seq<Event>, decisions: seq<bool>, key: Key): seq<real>
    requires |es| == |decisions|
  {
    if es == [] then []
    else (if decisions[0] && es[0].key == key then [es[0].now] else []) + AdmittedTimes(es[1..], decisions[1..], key)
  }

  lemma {:induction false} DecisionCount(cfg: Config, bs: Buckets, es: seq<Event>)
    ensures |Decisions(cfg, bs, es)| == |es|
    decreases |es|
  {
    if es != [] {
      DecisionCount(cfg, Limit(cfg, bs, es[0]).0, es[1..]);
    }
  }

  lemma {:induction false} JudgementCount(cfg: Config, full: Buckets, es: seq<Event>)
    ensures |Judgements(cfg, full, es)| == |es|
    decreases |es|
  {
    if es != [] {
      JudgementCount(cfg, Judge(cfg, full, es[0]).0, es[1..]);
    }
  }

  lemma JudgeAppends(cfg: Config, full: Buckets, e: Event, key: Key)
    ensures Bucket(Judge(cfg, full, e).0, key) ==
      Bucket(full, key) + (if Judge(cfg, full, e).1 && e.key == key then [e.now] else [])
  {
    assert Bucket(full, key) + [] == Bucket(full, key);
  }

  lemma {:induction false} AdmissionsAreJudged(cfg: Config, full: Buckets, es: seq<Event>, key: Key)
    ensures |Judgements(cfg, full, es)| == |es|
    ensures Bucket(Admissions(cfg, full, es), key)
      == Bucket(full, key) + AdmittedTimes(es, Judgements(cfg, full, es), key)
    decreases |es|
  {
    hide Judge, Bucket;
    JudgementCount(cfg, full, es);
    if es == [] {
      assert Bucket(full, key) + [] == Bucket(full, key);
    } else {
      var (full1, ok) := Judge(cfg, full, es[0]);
      JudgeAppends(cfg, full, es[0], key);
      AdmissionsAreJudged(cfg, full1, es[1..], key);
      var head := if ok && es[0].key == key then [es[0].now] else [];
      var later := AdmittedTimes(es[1..], Judgements(cfg, full1, es[1..]), key);
      assert Judgements(cfg, full, es)[1..] == Judgements(cfg, full1, es[1..]);
      assert (Bucket(full, key) + head) + later == Bucket(full, key) + (head + later);
    }
  }

  lemma {:induction false} NoWindowNoCount(ts: seq<real>, start: real, window: real)
    requires window <= 0.0
    ensures CountIn(ts, start, window) == 0
  {
    if ts != [] {
      NoWindowNoCount(ts[1..], start, window);
    }
  }

  /**
    If no reading lies above both an earlier and a later one of its key, no half-open
    interval of the window's length ever holds more than `max` admissions of one key.
   */
  lemma WindowNeverOverfull(cfg: Config, es: seq<Event>, key: Key, start: real)
    requires PeakFree(es)
    ensures |Decisions(cfg, map[], es)| == |es|
    ensures CountIn(AdmittedTimes(es, Decisions(cfg, map[], es), key), start, cfg.window) <= Max(0, cfg.max)
  {
    DecisionCount(cfg, map[], es);
    var times := AdmittedTimes(es, Decisions(cfg, map[], es), key);
    if cfg.window <= 0.0 {
      NoWindowNoCount(times, start, cfg.window);
    } else {
      PruningSafeExactly(es);
      assert Bounded(cfg, map[]);
      RunBounded(cfg, map[], es);
      AdmissionsAreJudged(cfg, map[], es, key);
      assert [] + times == times;
      assert Bucket(Admissions(cfg, map[], es), key) == times;
    }
  }

  /** In particular under every clock that never runs back. */
  lemma ClockKeepsWindow(cfg: Config, clock: real, es: seq<Event>, key: Key, start: real)
    requires ClockRuns(clock, es)
    ensures |Decisions(cfg, map[], es)| == |es|
    ensures CountIn(AdmittedTimes(es, Decisions(cfg, map[], es), key), start, cfg.window) <= Max(0, cfg.max)
  {
    ClockIsPeakFree(clock, es);
    WindowNeverOverfull(cfg, es, key, start);
  }

  /** How many of the times are later than `start`. */
  function CountAfter(ts: seq<real>, start: real): nat {
    if ts == [] then 0 else (if ts[0] > start then 1 else 0) + CountAfter(ts[1..], start)
  }

  lemma {:induction false} LiveAreRecent(ts: seq<real>, now: real, window: real)
    ensures |Prune(ts, now, window)| == CountAfter(ts, now - window)
  {
    if ts != [] {
      LiveAreRecent(ts[1..], now, window);
    }
  }

  lemma {:induction false} DecisionsPrefix(cfg: Config, bs: Buckets, es: seq<Event>, k: nat)
    requires k <= |es|
    ensures |Decisions(cfg, bs, es)| == |es| && Decisions(cfg, bs, es[..k]) == Decisions(cfg, bs, es)[..k]
    decreases k
  {
    hide Limit;
    DecisionCount(cfg, bs, es);
    if k > 0 {
      var bs1 := Limit(cfg, bs, es[0]).0;
      DecisionsPrefix(cfg, bs1, es[1..], k - 1);
      assert es[..k][1..] == es[1..][..k - 1];
      assert Decisions(cfg, bs, es) == [Limit(cfg, bs, es[0]).1] + Decisions(cfg, bs1, es[1..]);
    }
  }

  lemma PrefixPeakFree(es: seq<Event>, k: nat)
    requires PeakFree(es) && k <= |es|
    ensures PeakFree(es[..k])
  {
    forall x: nat, y: nat, z: nat
      ensures !Peak(es[..k], x, y, z)
    {
      assert !Peak(es, x, y, z);
    }
  }

  /**
    A request is admitted exactly if fewer than `max` requests of its key were admitted
    less than a window before it.
   */
  lemma AdmittedExactly(cfg: Config, es: seq<Event>, k: nat)
    requires PeakFree(es) && cfg.window > 0.0 && k < |es|
    ensures |Decisions(cfg, map[], es)| == |es|
    ensures Decisions(cfg, map[], es)[k] <==>
      CountAfter(AdmittedTimes(es[..k], Decisions(cfg, map[], es)[..k], es[k].key), es[k].now - cfg.window) < cfg.max
  {
    hide Decisions, Judgements, Admissions, PeakFree;
    var key := es[k].key;
    PruningSafeExactly(es);
    PrefixPeakFree(es, k);
    PruningSafeExactly(es[..k]);
    DecisionAt(cfg, map[], map[], es, k);
    DecisionsPrefix(cfg, map[], es, k);
    AdmissionsAreJudged(cfg, map[], es[..k], key);
    var times := AdmittedTimes(es[..k], Decisions(cfg, map[], es)[..k], key);
    assert [] + times == times;
    LiveAreRecent(times, es[k].now, cfg.window);
  }

  lemma PruneTwoTimes(a: real, b: real, now: real, window: real)
    ensures Prune([a], now, window) == (if now - a < window then [a] else [])
    ensures Prune([a, b], now, window)
      == (if now - a < window then [a] else []) + (if now - b < window then [b] else [])
  {
    assert [a, b][1..] == [b] && [a][1..] == [] && [b][1..] == [];
  }

  /**
    With a clock set back the pruned times are forgotten: two admissions per ten
    seconds are allowed, and the interval from 0 to 10 ends up holding three.
   */
  lemma ClockSetBackOverfills(key: Key)
    ensures var cfg := Config(10.0, 2);
      var (b1, ok1) := Limit(cfg, map[], Event(key, 0.0));
      var (b2, ok2) := Limit(cfg, b1, Event(key, 1.0));
      var (b3, ok3) := Limit(cfg, b2, Event(key, 20.0));
      var (b4, ok4) := Limit(cfg, b3, Event(key, 5.0));
      ok1 && ok2 && ok3 && ok4 && CountIn([0.0, 1.0, 20.0, 5.0], 0.0, 10.0) == 3
  {
    var cfg := Config(10.0, 2);
    var b1 := Limit(cfg, map[], Event(key, 0.0)).0;
    assert b1[key] == [0.0];
    PruneTwoTimes(0.0, 1.0, 1.0, 10.0);
    var b2 := Limit(cfg, b1, Event(key, 1.0)).0;
    assert b2[key] == [0.0, 1.0];
    PruneTwoTimes(0.0, 1.0, 20.0, 10.0);
    var b3 := Limit(cfg, b2, Event(key, 20.0)).0;
    assert b3[key] == [20.0];
    PruneTwoTimes(20.0, 5.0, 5.0, 10.0);
    assert CountIn([5.0], 0.0, 10.0) == 1;
    assert [20.0, 5.0][1..] == [5.0] && [1.0, 20.0, 5.0][1..] == [20.0, 5.0];
    assert [0.0, 1.0, 20.0, 5.0][1..] == [1.0, 20.0, 5.0];
  }
}
