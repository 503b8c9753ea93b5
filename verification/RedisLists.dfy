/** The list commands of the in-memory Redis stand-in, changed in place by index loops. */
module RedisLists {
  import opened Prelude

  function Count(s: seq<string>, v: string): nat {
    if s == [] then 0 else (if s[0] == v then 1 else 0) + Count(s[1..], v)
  }

  function Without(s: seq<string>, v: string): seq<string> {
    if s == [] then [] else (if s[0] == v then [] else [s[0]]) + Without(s[1..], v)
  }

  /** `s` without its first `n` occurrences of `v`. */
  function RemoveFirst(s: seq<string>, v: string, n: nat): seq<string> {
    if s == [] || n == 0 then s
    else if s[0] == v then RemoveFirst(s[1..], v, n - 1)
    else [s[0]] + RemoveFirst(s[1..], v, n)
  }

  /** `s` without its last `n` occurrences of `v`. */
  function RemoveLast(s: seq<string>, v: string, n: nat): seq<string> {
    if s == [] || n == 0 then s
    else if s[|s| - 1] == v then RemoveLast(s[..|s| - 1], v, n - 1)
    else RemoveLast(s[..|s| - 1], v, n) + [s[|s| - 1]]
  }

  /** LREM: a positive count works from the head, a negative one from the tail, zero on all. */
  function Removed(s: seq<string>, count: int, v: string): seq<string> {
    if count == 0 then Without(s, v)
    else if count > 0 then RemoveFirst(s, v, count)
    else RemoveLast(s, v, -count)
  }

  /** Python's `s[lo:hi]`. */
  function Slice(s: seq<string>, lo: int, hi: int): seq<string> {
    var from := if lo < 0 then Max(0, |s| + lo) else Min(lo, |s|);
    var to := if hi < 0 then Max(0, |s| + hi) else Min(hi, |s|);
    if from < to then s[from..to] else []
  }

  class RedisStub {
    var lists: map<string, seq<string>>

    constructor ()
      ensures lists == map[]
    {
      lists := map[];
    }

    function List(key: string): seq<string>
      reads this
    {
      if key in lists then lists[key] else []
    }

    method RPush(key: string, value: string) returns (len: int)
      modifies this
      ensures lists == old(lists)[key := old(List(key)) + [value]] && len == |List(key)|
    {
      var lst := List(key);
      lst := lst + [value];
      lists := lists[key := lst];
      return |lst|;
    }

    method LPush(key: string, value: string) returns (len: int)
      modifies this
      ensures lists == old(lists)[key := [value] + old(List(key))] && len == |List(key)|
    {
      var lst := List(key);
      lst := [value] + lst;
      lists := lists[key := lst];
      return |lst|;
    }

    /** The key exists afterwards even if it did not before. */
    method LRem(key: string, count: int, value: string) returns (removed: int)
      modifies this
      ensures lists == old(lists)[key := Removed(old(List(key)), count, value)]
      ensures removed == |old(List(key))| - |List(key)|
    {
      var lst := List(key);
      if count == 0 {
        removed := |lst| - |Without(lst, value)|;
        lst := Without(lst, value);
      } else if count > 0 {
        lst, removed := PopFromHead(lst, count, value);
      } else {
        lst, removed := PopFromTail(lst, -count, value);
      }
      lists := lists[key := lst];
    }

    /** The loop for a positive count. */
    method PopFromHead(original: seq<string>, count: nat, value: string) returns (lst: seq<string>, removed: nat)
      ensures lst == RemoveFirst(original, value, count) && removed == |original| - |lst|
    {
      lst, removed := original, 0;
      var i := 0;
      assert lst[..0] == [] && lst[0..] == lst;
      while i < |lst| && removed < count
        invariant 0 <= i <= |lst| && 0 <= removed <= count && |lst| == |original| - removed
        invariant RemoveFirst(original, value, count) == lst[..i] + RemoveFirst(lst[i..], value, count - removed)
        decreases |lst| - i
      {
        ghost var head, tail := lst[..i], lst[i + 1..];
        assert lst[i..][0] == lst[i] && lst[i..][1..] == tail;
        if lst[i] == value {
          lst := lst[..i] + lst[i + 1..];
          assert lst[..i] == head && lst[i..] == tail;
          removed := removed + 1;
        } else {
          assert lst[..i + 1] == head + [lst[i]];
          i := i + 1;
        }
      }
      assert lst[..i] + lst[i..] == lst;
    }

    /** The loop for a negative count. */
    method PopFromTail(original: seq<string>, count: nat, value: string) returns (lst: seq<string>, removed: nat)
      ensures lst == RemoveLast(original, value, count) && removed == |original| - |lst|
    {
      hide RemoveLast;
      lst, removed := original, 0;
      var i := |lst| - 1;
      ghost var head, tail := lst, [];
      while i >= 0 && removed < count
        invariant |head| == i + 1 && lst == head + tail && 0 <= removed <= count && |lst| == |original| - removed
        invariant RemoveLast(original, value, count) == RemoveLast(head, value, count - removed) + tail
      {
        LastOfHead(head, tail, value, count - removed);
        if lst[i] == value {
          lst := lst[..i] + lst[i + 1..];
          removed := removed + 1;
        } else {
          tail := [head[i]] + tail;
        }
        head := head[..i];
        i := i - 1;
      }
      NothingLeftToPop(head, value, count - removed);
    }

    method LRange(key: string, start: int, end: int) returns (part: seq<string>)
      ensures part == RedisRange(List(key), start, end)
    {
      var lst := List(key);
      var endIdx := if end == -1 then |lst| else end + 1;
      SliceIsRedisRange(lst, start, end);
      return Slice(lst, start, endIdx);
    }
  }

  lemma NothingLeftToPop(s: seq<string>, v: string, n: nat)
    requires s == [] || n == 0
    ensures RemoveLast(s, v, n) == s
  {
  }

  /** One step of the loop from the tail: what happens to the last element of the untouched head. */
  lemma LastOfHead(head: seq<string>, tail: seq<string>, v: string, n: nat)
    requires head != [] && n > 0
    ensures var i, lst := |head| - 1, head + tail;
      && lst[i] == head[i] && lst[..i] + lst[i + 1..] == head[..i] + tail && lst == head[..i] + ([head[i]] + tail)
      && RemoveLast(head, v, n) + tail ==
         if head[i] == v then RemoveLast(head[..i], v, n - 1) + tail else RemoveLast(head[..i], v, n) + ([head[i]] + tail)
  {
    var i := |head| - 1;
    if head[i] != v {
      var kept := RemoveLast(head[..i], v, n);
      assert (kept + [head[i]]) + tail == kept + ([head[i]] + tail);
    }
  }

  // ----- what LREM removes ------------------------------------------------------------

  lemma {:induction false} WithoutConcat(a: seq<string>, b: seq<string>, v: string)
    ensures Without(a + b, v) == Without(a, v) + Without(b, v)
  {
    if a == [] {
      assert a + b == b;
    } else {
      assert (a + b)[0] == a[0] && (a + b)[1..] == a[1..] + b;
      WithoutConcat(a[1..], b, v);
    }
  }

  lemma {:induction false} CountConcat(a: seq<string>, b: seq<string>, v: string)
    ensures Count(a + b, v) == Count(a, v) + Count(b, v)
  {
    if a == [] {
      assert a + b == b;
    } else {
      assert (a + b)[0] == a[0] && (a + b)[1..] == a[1..] + b;
      CountConcat(a[1..], b, v);
    }
  }

  /**
    A positive count clears exactly the shortest prefix that holds the first `n`
    occurrences (or all of them) and leaves the rest of the list as it is.
   */
  lemma {:induction false} RemovesInPrefix(s: seq<string>, v: string, n: nat) returns (k: nat)
    ensures k <= |s| && Count(s[..k], v) == Min(n, Count(s, v))
    ensures RemoveFirst(s, v, n) == Without(s[..k], v) + s[k..]
    ensures |RemoveFirst(s, v, n)| == |s| - Min(n, Count(s, v))
  {
    hide Without, Count;
    if s == [] || n == 0 {
      k := 0;
      EmptyFacts(v);
      assert s[..0] == [] && s[0..] == s;
    } else {
      var m := RemovesInPrefix(s[1..], v, if s[0] == v then n - 1 else n);
      k := m + 1;
      var cleared, tail := s[1..][..m], s[k..];
      assert s == [s[0]] + s[1..] && s[..k] == [s[0]] + cleared && tail == s[1..][m..];
      ConsFacts(s[0], cleared, v);
      ConsFacts(s[0], s[1..], v);
      if s[0] != v {
        assert ([s[0]] + Without(cleared, v)) + tail == [s[0]] + (Without(cleared, v) + tail);
      }
    }
  }

  lemma EmptyFacts(v: string)
    ensures Without([], v) == [] && Count([], v) == 0
  {
  }

  lemma ConsFacts(x: string, rest: seq<string>, v: string)
    ensures Without([x] + rest, v) == if x == v then Without(rest, v) else [x] + Without(rest, v)
    ensures Count([x] + rest, v) == (if x == v then 1 else 0) + Count(rest, v)
  {
    assert ([x] + rest)[1..] == rest;
    assert [] + Without(rest, v) == Without(rest, v);
  }

  function Reverse(s: seq<string>): seq<string> {
    if s == [] then [] else Reverse(s[1..]) + [s[0]]
  }

  lemma {:induction false} ReverseAppend(s: seq<string>, x: string)
    ensures Reverse(s + [x]) == [x] + Reverse(s)
  {
    if s == [] {
      assert ([] + [x])[1..] == [];
    } else {
      assert (s + [x])[0] == s[0] && (s + [x])[1..] == s[1..] + [x];
      ReverseAppend(s[1..], x);
    }
  }

  lemma {:induction false} ReverseTwice(s: seq<string>)
    ensures Reverse(Reverse(s)) == s && |Reverse(s)| == |s|
  {
    if s != [] {
      ReverseTwice(s[1..]);
      ReverseAppend(Reverse(s[1..]), s[0]);
    }
  }

  /** The negative mode is the mirror image of the positive one. */
  lemma {:induction false} NegativeMirrorsPositive(s: seq<string>, v: string, n: nat)
    ensures RemoveLast(s, v, n) == Reverse(RemoveFirst(Reverse(s), v, n))
    decreases |s|
  {
    if s == [] || n == 0 {
      ReverseTwice(s);
    } else {
      var init, last := s[..|s| - 1], s[|s| - 1];
      assert s == init + [last];
      ReverseAppend(init, last);
      assert ([last] + Reverse(init))[1..] == Reverse(init);
      NegativeMirrorsPositive(init, v, n - 1);
      NegativeMirrorsPositive(init, v, n);
      if last != v {
        var r := RemoveFirst(Reverse(init), v, n);
        assert Reverse([last] + r) == Reverse(r) + [last] by {
          assert ([last] + r)[1..] == r;
        }
      }
    }
  }

  lemma {:induction false} ReverseCount(s: seq<string>, v: string)
    ensures Count(Reverse(s), v) == Count(s, v)
  {
    if s != [] {
      ReverseCount(s[1..], v);
      CountConcat(Reverse(s[1..]), [s[0]], v);
    }
  }

  lemma {:induction false} WithoutLength(s: seq<string>, v: string)
    ensures |Without(s, v)| == |s| - Count(s, v)
    ensures v !in Without(s, v)
  {
    if s != [] {
      WithoutLength(s[1..], v);
    }
  }

  lemma {:induction false} RemoveFirstOthers(s: seq<string>, v: string, n: nat)
    ensures Without(RemoveFirst(s, v, n), v) == Without(s, v)
  {
    if s != [] && n > 0 {
      if s[0] == v {
        RemoveFirstOthers(s[1..], v, n - 1);
      } else {
        RemoveFirstOthers(s[1..], v, n);
        WithoutConcat([s[0]], RemoveFirst(s[1..], v, n), v);
      }
    }
  }

  lemma {:induction false} RemoveLastOthers(s: seq<string>, v: string, n: nat)
    ensures Without(RemoveLast(s, v, n), v) == Without(s, v)
    decreases |s|
  {
    if s != [] && n > 0 {
      var init, last := s[..|s| - 1], s[|s| - 1];
      assert s == init + [last];
      WithoutConcat(init, [last], v);
      if last == v {
        RemoveLastOthers(init, v, n - 1);
      } else {
        RemoveLastOthers(init, v, n);
        WithoutConcat(RemoveLast(init, v, n), [last], v);
      }
    }
  }

  /**
    LREM keeps every other element in order and answers with the number removed: at
    most |count| occurrences, and all of them for zero.
   */
  lemma RemovalCount(s: seq<string>, count: int, v: string)
    ensures Without(Removed(s, count, v), v) == Without(s, v)
    ensures |s| - |Removed(s, count, v)| == if count == 0 then Count(s, v) else Min(if count > 0 then count else -count, Count(s, v))
  {
    hide RemoveFirst, RemoveLast, Without, Count;
    WithoutLength(s, v);
    if count == 0 {
      WithoutAgain(s, v);
    } else if count > 0 {
      var _ := RemovesInPrefix(s, v, count);
      RemoveFirstOthers(s, v, count);
    } else {
      TailRemovalCount(s, v, -count);
      RemoveLastOthers(s, v, -count);
    }
  }

  lemma TailRemovalCount(s: seq<string>, v: string, n: nat)
    ensures |RemoveLast(s, v, n)| == |s| - Min(n, Count(s, v))
  {
    hide RemoveFirst, RemoveLast, Reverse, Count;
    NegativeMirrorsPositive(s, v, n);
    ReverseTwice(s);
    ReverseCount(s, v);
    var _ := RemovesInPrefix(Reverse(s), v, n);
    ReverseTwice(RemoveFirst(Reverse(s), v, n));
  }

  lemma {:induction false} WithoutAgain(s: seq<string>, v: string)
    ensures Without(Without(s, v), v) == Without(s, v)
  {
    if s != [] {
      WithoutAgain(s[1..], v);
      if s[0] != v {
        WithoutConcat([s[0]], Without(s[1..], v), v);
        assert [s[0]][1..] == [] && Without([s[0]], v) == [s[0]];
      } else {
        assert Without(s, v) == Without(s[1..], v);
      }
    }
  }

  // ----- LRANGE ---------------------------------------------------------------------------

  /** The Redis range: both ends inclusive, negative offsets from the end. */
  function RedisRange(s: seq<string>, start: int, end: int): seq<string> {
    var from := if start < 0 then Max(0, |s| + start) else start;
    var last := if end < 0 then |s| + end else end;
    if from > last || from >= |s| then [] else s[from..Min(last, |s| - 1) + 1]
  }

  /** The stand-in's slice is the Redis range, for all offsets. */
  lemma SliceIsRedisRange(s: seq<string>, start: int, end: int)
    ensures Slice(s, start, if end == -1 then |s| else end + 1) == RedisRange(s, start, end)
  {
    if end < -1 {
      assert |s| + end + 1 <= |s|;
    }
  }
}
