/** Applying the indices that a model returned to a list of options. */
module PromptRanker {
  import opened Prelude

  /**
    An item of the model's JSON list: a number; a hashable value that is not a number
    but may convert to one; or a list or object, which cannot be hashed.
   */
  datatype Item = Number(i: int) | Word(parsed: Option<int>) | Nested

  function AsInt(x: Item): Option<int> {
    match x
    case Number(i) => Some(i)
    case Word(p) => p
    case Nested => None
  }

  /** Python's index into a list of length `n`; negative ones count from the end. */
  function Position(n: nat, i: int): Option<nat> {
    if 0 <= i < n then Some(i)
    else if i < 0 <= n + i then Some(n + i)
    else None
  }

  function Chosen(n: nat, items: seq<Item>): (r: seq<nat>)
    ensures forall k :: 0 <= k < |r| ==> r[k] < n
  {
    if items == [] then []
    else
      (match AsInt(items[0])
       case None => []
       case Some(i) => if Position(n, i).Some? then [Position(n, i).value] else [])
      + Chosen(n, items[1..])
  }

  /** The positions from `j` on that the list does not name as plain numbers. */
  function Missing(n: nat, items: seq<Item>, j: nat): (r: seq<nat>)
    requires j <= n
    ensures forall k :: 0 <= k < |r| ==> j <= r[k] < n
    decreases n - j
  {
    if j == n then [] else (if Number(j) in items then [] else [j]) + Missing(n, items, j + 1)
  }

  function Upto(n: nat): seq<nat> {
    seq(n, i => i)
  }

  /** The ranking as positions of the option list. */
  function Ranking(n: nat, items: seq<Item>): (r: seq<nat>)
    ensures forall k :: 0 <= k < |r| ==> r[k] < n
  {
    if Nested in items then Upto(n) else Chosen(n, items) + Missing(n, items, 0)
  }

  function At<T>(options: seq<T>, ps: seq<nat>): seq<T>
    requires forall k :: 0 <= k < |ps| ==> ps[k] < |options|
  {
    seq(|ps|, i requires 0 <= i < |ps| => options[ps[i]])
  }

  lemma AtConcat<T>(options: seq<T>, a: seq<nat>, b: seq<nat>)
    requires forall k :: 0 <= k < |a| ==> a[k] < |options|
    requires forall k :: 0 <= k < |b| ==> b[k] < |options|
    ensures At(options, a + b) == At(options, a) + At(options, b)
  {
  }

  /** The loop over the model's indices; anything that is no index is skipped. */
  method TakeChosen<T>(options: seq<T>, items: seq<Item>) returns (ranked: seq<T>)
    ensures ranked == At(options, Chosen(|options|, items))
  {
    var rest := items;
    ranked := [];
    while rest != []
      invariant At(options, Chosen(|options|, items)) == ranked + At(options, Chosen(|options|, rest))
      decreases |rest|
    {
      ghost var after := Chosen(|options|, rest[1..]);
      match AsInt(rest[0]) {
        case None =>
          assert [] + after == after;
        case Some(i) =>
          var p := Position(|options|, i);
          if p.Some? {
            AtConcat(options, [p.value], after);
            assert At(options, [p.value]) == [options[p.value]];
            ranked := ranked + [options[p.value]];
          } else {
            assert [] + after == after;
          }
      }
      rest := rest[1..];
    }
  }

  /** The loop that appends the options not seen among the indices. */
  method AppendMissing<T>(options: seq<T>, items: seq<Item>, chosen: seq<T>) returns (ranked: seq<T>)
    ensures ranked == chosen + At(options, Missing(|options|, items, 0))
  {
    ranked := chosen;
    var j := 0;
    while j < |options|
      invariant 0 <= j <= |options|
      invariant chosen + At(options, Missing(|options|, items, 0)) == ranked + At(options, Missing(|options|, items, j))
    {
      ghost var after := Missing(|options|, items, j + 1);
      if Number(j) !in items {
        AtConcat(options, [j], after);
        assert At(options, [j]) == [options[j]];
        ranked := ranked + [options[j]];
      } else {
        assert [] + after == after;
      }
      j := j + 1;
    }
    assert ranked + [] == ranked;
  }

  /** A failed model call is None; text that is not a list raises and falls back too. */
  method Rank<T>(options: seq<T>, reply: Option<seq<Item>>) returns (ranked: seq<T>)
    ensures ranked == match reply
      case None => options
      case Some(items) => At(options, Ranking(|options|, items))
  {
    if reply.None? {
      return options;
    }
    var items := reply.value;
    var chosen := TakeChosen(options, items);
    if Nested in items {
      assert At(options, Upto(|options|)) == options;
      return options;
    }
    ranked := AppendMissing(options, items, chosen);
    AtConcat(options, Chosen(|options|, items), Missing(|options|, items, 0));
  }

  // ----- what a ranking is ---------------------------------------------------------------

  ghost predicate IntegersOnly(items: seq<Item>) {
    forall x :: x in items ==> x.Number?
  }

  function Occurs(ps: seq<nat>, p: nat): nat {
    if ps == [] then 0 else (if ps[0] == p then 1 else 0) + Occurs(ps[1..], p)
  }

  lemma {:induction false} OccursConcat(a: seq<nat>, b: seq<nat>, p: nat)
    ensures Occurs(a + b, p) == Occurs(a, p) + Occurs(b, p)
  {
    if a == [] {
      assert a + b == b;
    } else {
      assert (a + b)[0] == a[0] && (a + b)[1..] == a[1..] + b;
      OccursConcat(a[1..], b, p);
    }
  }

  lemma {:induction false} MissingOccurs(n: nat, items: seq<Item>, j: nat, p: nat)
    requires j <= n
    ensures Occurs(Missing(n, items, j), p) == if j <= p < n && Number(p) !in items then 1 else 0
    decreases n - j
  {
    if j < n {
      MissingOccurs(n, items, j + 1, p);
      OccursConcat(if Number(j) in items then [] else [j], Missing(n, items, j + 1), p);
      assert Occurs([j], p) == (if j == p then 1 else 0) by {
        assert [j][1..] == [];
      }
    }
  }

  /** How often the list names position `p`, by either of its two indices. */
  function Named(n: nat, items: seq<Item>, p: nat): nat {
    if items == [] then 0
    else
      (if AsInt(items[0]).Some? && Position(n, AsInt(items[0]).value) == Some(p) then 1 else 0) + Named(n, items[1..], p)
  }

  lemma {:induction false} ChosenOccurs(n: nat, items: seq<Item>, p: nat)
    ensures Occurs(Chosen(n, items), p) == Named(n, items, p)
  {
    if items != [] {
      ChosenOccurs(n, items[1..], p);
      var head := match AsInt(items[0])
        case None => []
        case Some(i) => if Position(n, i).Some? then [Position(n, i).value] else [];
      OccursConcat(head, Chosen(n, items[1..]), p);
      assert head != [] ==> head[1..] == [];
    }
  }

  /**
    Every option is in the ranking once for each index that names it, and once more
    if its own non-negative index is not among them.
   */
  lemma RankingOccurs(n: nat, items: seq<Item>, p: nat)
    requires Nested !in items && p < n
    ensures Occurs(Ranking(n, items), p) == Named(n, items, p) + (if Number(p) in items then 0 else 1)
  {
    OccursConcat(Chosen(n, items), Missing(n, items, 0), p);
    ChosenOccurs(n, items, p);
    MissingOccurs(n, items, 0, p);
  }

  lemma {:induction false} NumberIsNamed(n: nat, items: seq<Item>, p: nat)
    requires p < n && Number(p) in items
    ensures Named(n, items, p) >= 1
  {
    if items[0] != Number(p) {
      NumberIsNamed(n, items[1..], p);
    }
  }

  /** No option is ever lost. */
  lemma NoOptionLost(n: nat, items: seq<Item>, p: nat)
    requires p < n
    ensures Occurs(Ranking(n, items), p) >= 1
  {
    if Nested in items {
      UptoOccurs(n, p);
    } else {
      RankingOccurs(n, items, p);
      if Number(p) in items {
        NumberIsNamed(n, items, p);
      }
    }
  }

  lemma {:induction false} UptoOccurs(n: nat, p: nat)
    requires p < n
    ensures Occurs(Upto(n), p) == 1
  {
    assert Upto(n) == Upto(n - 1) + [n - 1];
    OccursConcat(Upto(n - 1), [n - 1], p);
    assert [n - 1][1..] == [];
    if p < n - 1 {
      UptoOccurs(n - 1, p);
    } else {
      AbsentOccurs(Upto(n - 1), p);
    }
  }

  lemma {:induction false} AbsentOccurs(ps: seq<nat>, p: nat)
    requires p !in ps
    ensures Occurs(ps, p) == 0
  {
    if ps != [] {
      AbsentOccurs(ps[1..], p);
    }
  }

  predicate InRange(n: nat, x: Item) {
    AsInt(x).Some? && Position(n, AsInt(x).value).Some?
  }

  function CountInRange(n: nat, items: seq<Item>): nat {
    if items == [] then 0 else (if InRange(n, items[0]) then 1 else 0) + CountInRange(n, items[1..])
  }

  lemma {:induction false} ChosenLength(n: nat, items: seq<Item>)
    ensures |Chosen(n, items)| == CountInRange(n, items)
  {
    if items != [] {
      ChosenLength(n, items[1..]);
    }
  }

  /** The options from `j` on whose own number is not listed. */
  ghost function Unlisted(n: nat, items: seq<Item>, j: nat): set<nat> {
    set p: nat | j <= p < n && Number(p) !in items
  }

  lemma {:induction false} MissingLength(n: nat, items: seq<Item>, j: nat)
    requires j <= n
    ensures |Missing(n, items, j)| == |Unlisted(n, items, j)|
    decreases n - j
  {
    if j < n {
      MissingLength(n, items, j + 1);
      assert Unlisted(n, items, j) == (if Number(j) in items then {} else {j}) + Unlisted(n, items, j + 1);
    }
  }

  /** The length: indices in [-n, n) plus the options that no plain number names. */
  lemma RankingLength(n: nat, items: seq<Item>)
    requires Nested !in items
    ensures |Ranking(n, items)| == CountInRange(n, items) + |set p: nat | p < n && Number(p) !in items|
  {
    ChosenLength(n, items);
    MissingLength(n, items, 0);
    assert (set p: nat | p < n && Number(p) !in items) == Unlisted(n, items, 0);
  }

  /** Each position exactly once. */
  ghost predicate IsPermutation(n: nat, ps: seq<nat>) {
    (forall k :: 0 <= k < |ps| ==> ps[k] < n) && forall p :: 0 <= p < n ==> Occurs(ps, p) == 1
  }

  /** No index that falls in the range is negative or occurs twice. */
  ghost predicate NoClash(n: nat, items: seq<Item>) {
    && (forall k :: 0 <= k < |items| && InRange(n, items[k]) ==> AsInt(items[k]).value >= 0)
    && (forall j, k :: 0 <= j < k < |items| && InRange(n, items[j]) && InRange(n, items[k]) ==> items[j] != items[k])
  }

  lemma {:induction false} NamedPositive(n: nat, items: seq<Item>, p: nat, k: nat)
    requires p < n && k < |items| && AsInt(items[k]).Some? && Position(n, AsInt(items[k]).value) == Some(p)
    ensures Named(n, items, p) >= 1
  {
    if k > 0 {
      NamedPositive(n, items[1..], p, k - 1);
    }
  }

  lemma {:induction false} NamedTwice(n: nat, items: seq<Item>, p: nat, j: nat, k: nat)
    requires p < n && j < k < |items| && AsInt(items[j]).Some? && AsInt(items[k]).Some?
    requires Position(n, AsInt(items[j]).value) == Position(n, AsInt(items[k]).value) == Some(p)
    ensures Named(n, items, p) >= 2
  {
    if j > 0 {
      NamedTwice(n, items[1..], p, j - 1, k - 1);
    } else {
      NamedPositive(n, items[1..], p, k - 1);
    }
  }

  lemma {:induction false} NamedOnce(n: nat, items: seq<Item>, p: nat)
    requires p < n && IntegersOnly(items) && NoClash(n, items)
    ensures Named(n, items, p) == if Number(p) in items then 1 else 0
  {
    if items != [] {
      var rest := items[1..];
      assert items == [items[0]] + rest;
      assert forall k :: 0 <= k < |rest| ==> rest[k] == items[k + 1];
      NamedOnce(n, rest, p);
      assert items[0] in items;
      if items[0] == Number(p) {
        assert InRange(n, items[0]);
        forall k | 0 <= k < |rest|
          ensures rest[k] != Number(p)
        {
          assert InRange(n, rest[k]) ==> items[k + 1] != items[0];
        }
      }
    }
  }

  /**
    For a list of integers the ranking is a permutation of the options exactly when no
    in-range index is negative or repeated.
   */
  lemma PermutationExactly(n: nat, items: seq<Item>)
    requires IntegersOnly(items)
    ensures IsPermutation(n, Ranking(n, items)) <==> NoClash(n, items)
  {
    assert Nested !in items;
    if NoClash(n, items) {
      forall p | 0 <= p < n
        ensures Occurs(Ranking(n, items), p) == 1
      {
        RankingOccurs(n, items, p);
        NamedOnce(n, items, p);
      }
    } else if k :| 0 <= k < |items| && InRange(n, items[k]) && AsInt(items[k]).value < 0 {
      var p: nat := n + AsInt(items[k]).value;
      RankingOccurs(n, items, p);
      NamedPositive(n, items, p, k);
      if Number(p) in items {
        var j :| 0 <= j < |items| && items[j] == Number(p);
        if j < k {
          NamedTwice(n, items, p, j, k);
        } else {
          NamedTwice(n, items, p, k, j);
        }
      }
    } else {
      var j, k :| 0 <= j < k < |items| && InRange(n, items[j]) && InRange(n, items[k]) && items[j] == items[k];
      assert items[j] in items;
      var p: nat := AsInt(items[j]).value;
      RankingOccurs(n, items, p);
      NamedTwice(n, items, p, j, k);
    }
  }

  // ----- order ---------------------------------------------------------------------------

  /** The integers of the list that index `n` options in Python, in order. */
  function Indices(n: nat, items: seq<Item>): seq<int> {
    if items == [] then []
    else (match AsInt(items[0]) case None => [] case Some(i) => if 0 - n <= i < n then [i] else []) + Indices(n, items[1..])
  }

  lemma {:induction false} ChosenInOrder(n: nat, items: seq<Item>)
    ensures var chosen, indices := Chosen(n, items), Indices(n, items);
      && |chosen| == |indices|
      && forall k :: 0 <= k < |chosen| ==> 0 - n <= indices[k] < n && chosen[k] == if indices[k] < 0 then n + indices[k] else indices[k]
  {
    if items != [] {
      ChosenInOrder(n, items[1..]);
    }
  }

  /** Increasing positions from `j` on whose numbers are not listed. */
  ghost predicate AscendingUnlisted(items: seq<Item>, ps: seq<nat>, j: nat) {
    && (forall k :: 0 <= k < |ps| ==> j <= ps[k] && Number(ps[k]) !in items)
    && (forall k, l :: 0 <= k < l < |ps| ==> ps[k] < ps[l])
  }

  lemma AscendingConcat(items: seq<Item>, head: seq<nat>, rest: seq<nat>, j: nat)
    requires j > 0 && AscendingUnlisted(items, rest, j)
    requires head == [] || (head == [j - 1] && Number(j - 1) !in items)
    ensures AscendingUnlisted(items, head + rest, j - 1)
  {
    var all := head + rest;
    assert forall k :: |head| <= k < |all| ==> all[k] == rest[k - |head|];
    assert head != [] ==> all[0] == j - 1;
  }

  lemma {:induction false} MissingAscends(n: nat, items: seq<Item>, j: nat)
    requires j <= n
    ensures AscendingUnlisted(items, Missing(n, items, j), j)
    decreases n - j
  {
    if j < n {
      MissingAscends(n, items, j + 1);
      var head: seq<nat>, rest := if Number(j) in items then [] else [j], Missing(n, items, j + 1);
      AscendingConcat(items, head, rest, j + 1);
      assert Missing(n, items, j) == head + rest;
    }
  }

  /**
    The ranking starts with the options that the reply indexes, in the reply's order and
    negative indices counted from the end; the options it does not name follow in their
    own order.
   */
  lemma RankingOrder(n: nat, items: seq<Item>)
    requires Nested !in items
    ensures var ranking, indices := Ranking(n, items), Indices(n, items);
      && |indices| <= |ranking|
      && (forall k :: 0 <= k < |indices| ==>
            0 - n <= indices[k] < n && ranking[k] == if indices[k] < 0 then n + indices[k] else indices[k])
      && AscendingUnlisted(items, ranking[|indices|..], 0)
  {
    hide Chosen, Missing, Indices, AscendingUnlisted;
    ChosenInOrder(n, items);
    MissingAscends(n, items, 0);
    var chosen, missing := Chosen(n, items), Missing(n, items, 0);
    assert Ranking(n, items) == chosen + missing;
    assert (chosen + missing)[|chosen|..] == missing;
  }
}
