/**
  Merging a patch list into a blueprint's nodes.  The merge's dictionary is
  an insertion-ordered list of nodes whose ids are its keys.
 */
module NodePatches {
  import opened Prelude

  type Id = string

  /** `payload` stands for the fields of a node other than its id and type. */
  datatype NodeSpec = NodeSpec(id: Id, kind: string, payload: string)

  predicate IsDelete(p: NodeSpec) {
    p.kind == "__delete__"
  }

  function Ids(d: seq<NodeSpec>): seq<Id> {
    seq(|d|, i requires 0 <= i < |d| => d[i].id)
  }

  /** The entry of `d` under `id`. */
  function Lookup(d: seq<NodeSpec>, id: Id): Option<NodeSpec> {
    if d == [] then None
    else if d[0].id == id then Some(d[0])
    else Lookup(d[1..], id)
  }

  /** The last entry of a list with this id. */
  function LastOf(ps: seq<NodeSpec>, id: Id): Option<NodeSpec> {
    if ps == [] then None
    else if ps[|ps| - 1].id == id then Some(ps[|ps| - 1])
    else LastOf(ps[..|ps| - 1], id)
  }

  ghost predicate UniqueIds(d: seq<NodeSpec>) {
    forall i, j :: 0 <= i < j < |d| ==> d[i].id != d[j].id
  }

  // ----- dictionary operations -----------------------------------------------------

  /** Assignment keeps the position of an existing key. */
  function Assign(d: seq<NodeSpec>, n: NodeSpec): seq<NodeSpec> {
    if d == [] then [n]
    else if d[0].id == n.id then [n] + d[1..]
    else [d[0]] + Assign(d[1..], n)
  }

  function Remove(d: seq<NodeSpec>, id: Id): seq<NodeSpec> {
    if d == [] then []
    else if d[0].id == id then d[1..]
    else [d[0]] + Remove(d[1..], id)
  }

  function ApplyPatch(d: seq<NodeSpec>, p: NodeSpec): seq<NodeSpec> {
    if IsDelete(p) then Remove(d, p.id) else Assign(d, p)
  }

  function AssignAll(d: seq<NodeSpec>, ns: seq<NodeSpec>): seq<NodeSpec>
    decreases |ns|
  {
    if ns == [] then d else AssignAll(Assign(d, ns[0]), ns[1..])
  }

  function ApplyAll(d: seq<NodeSpec>, ps: seq<NodeSpec>): seq<NodeSpec>
    decreases |ps|
  {
    if ps == [] then d else ApplyAll(ApplyPatch(d, ps[0]), ps[1..])
  }

  function Merge(existing: seq<NodeSpec>, patch: seq<NodeSpec>): seq<NodeSpec> {
    ApplyAll(AssignAll([], existing), patch)
  }

  method MergeNodes(existing: seq<NodeSpec>, patch: seq<NodeSpec>) returns (merged: seq<NodeSpec>)
    ensures merged == Merge(existing, patch)
  {
    merged := [];
    var rest := existing;
    while rest != []
      invariant AssignAll([], existing) == AssignAll(merged, rest)
      decreases |rest|
    {
      merged := Assign(merged, rest[0]);
      rest := rest[1..];
    }
    rest := patch;
    while rest != []
      invariant Merge(existing, patch) == ApplyAll(merged, rest)
      decreases |rest|
    {
      if rest[0].kind == "__delete__" {
        merged := Remove(merged, rest[0].id);
      } else {
        merged := Assign(merged, rest[0]);
      }
      rest := rest[1..];
    }
  }

  // ----- one step -----------------------------------------------------------------------

  lemma {:induction false} LookupPresent(d: seq<NodeSpec>, id: Id)
    ensures Lookup(d, id).Some? <==> exists i :: 0 <= i < |d| && d[i].id == id
  {
    if d != [] {
      LookupPresent(d[1..], id);
      assert forall i :: 0 < i < |d| ==> d[i] == d[1..][i - 1];
    }
  }

  lemma {:induction false} AssignStep(d: seq<NodeSpec>, n: NodeSpec)
    requires UniqueIds(d)
    ensures UniqueIds(Assign(d, n))
    ensures forall id :: Lookup(Assign(d, n), id) == if id == n.id then Some(n) else Lookup(d, id)
  {
    if d == [] {
      assert Lookup([], n.id) == None;
    } else if d[0].id == n.id {
      assert ([n] + d[1..])[1..] == d[1..];
    } else {
      var r := Assign(d[1..], n);
      AssignStep(d[1..], n);
      assert ([d[0]] + r)[1..] == r;
      LookupPresent(r, d[0].id);
      LookupPresent(d[1..], d[0].id);
    }
  }

  lemma {:induction false} RemoveStep(d: seq<NodeSpec>, x: Id)
    requires UniqueIds(d)
    ensures UniqueIds(Remove(d, x))
    ensures forall id :: Lookup(Remove(d, x), id) == if id == x then None else Lookup(d, id)
  {
    if d != [] {
      LookupPresent(d[1..], d[0].id);
      if d[0].id != x {
        var r := Remove(d[1..], x);
        RemoveStep(d[1..], x);
        assert ([d[0]] + r)[1..] == r;
        LookupPresent(r, d[0].id);
      }
    }
  }

  /** Assigning a node with a new id appends it. */
  lemma {:induction false} AssignNew(d: seq<NodeSpec>, n: NodeSpec)
    requires forall i :: 0 <= i < |d| ==> d[i].id != n.id
    ensures Assign(d, n) == d + [n]
  {
    if d != [] {
      AssignNew(d[1..], n);
    }
  }

  // ----- whole lists ------------------------------------------------------------------------

  lemma {:induction false} AssignAllUnique(d: seq<NodeSpec>, ns: seq<NodeSpec>)
    requires UniqueIds(d)
    ensures UniqueIds(AssignAll(d, ns))
    decreases |ns|
  {
    if ns != [] {
      AssignStep(d, ns[0]);
      AssignAllUnique(Assign(d, ns[0]), ns[1..]);
    }
  }

  lemma {:induction false} ApplyAllUnique(d: seq<NodeSpec>, ps: seq<NodeSpec>)
    requires UniqueIds(d)
    ensures UniqueIds(ApplyAll(d, ps))
    decreases |ps|
  {
    if ps != [] {
      AssignStep(d, ps[0]);
      RemoveStep(d, ps[0].id);
      ApplyAllUnique(ApplyPatch(d, ps[0]), ps[1..]);
    }
  }

  lemma {:induction false} AssignAllNew(d: seq<NodeSpec>, ns: seq<NodeSpec>)
    requires UniqueIds(d + ns)
    ensures AssignAll(d, ns) == d + ns
    decreases |ns|
  {
    if ns != [] {
      forall i | 0 <= i < |d|
        ensures d[i].id != ns[0].id
      {
        assert (d + ns)[i] == d[i] && (d + ns)[|d|] == ns[0];
      }
      AssignNew(d, ns[0]);
      assert (d + [ns[0]]) + ns[1..] == d + ns;
      AssignAllNew(d + [ns[0]], ns[1..]);
    }
  }

  lemma {:induction false} ApplyAllConcat(d: seq<NodeSpec>, p: seq<NodeSpec>, q: seq<NodeSpec>)
    ensures ApplyAll(d, p + q) == ApplyAll(ApplyAll(d, p), q)
    decreases |p|
  {
    if p == [] {
      assert p + q == q;
    } else {
      assert (p + q)[0] == p[0] && (p + q)[1..] == p[1..] + q;
      ApplyAllConcat(ApplyPatch(d, p[0]), p[1..], q);
    }
  }

  /** Merging is an action of patch lists: one merge after the other is one merge. */
  lemma MergeIsAction(e: seq<NodeSpec>, p: seq<NodeSpec>, q: seq<NodeSpec>)
    ensures Merge(Merge(e, p), q) == Merge(e, p + q)
  {
    AssignAllUnique([], e);
    ApplyAllUnique(AssignAll([], e), p);
    assert [] + Merge(e, p) == Merge(e, p);
    AssignAllNew([], Merge(e, p));
    ApplyAllConcat(AssignAll([], e), p, q);
  }

  /** Merging nothing is the identity exactly on lists with unique ids. */
  lemma MergeNothing(e: seq<NodeSpec>)
    ensures Merge(e, []) == e <==> UniqueIds(e)
  {
    AssignAllUnique([], e);
    if UniqueIds(e) {
      assert [] + e == e;
      AssignAllNew([], e);
    }
  }

  lemma {:induction false} AssignAllLookup(ns: seq<NodeSpec>, id: Id)
    ensures Lookup(AssignAll([], ns), id) == LastOf(ns, id)
  {
    if ns != [] {
      var init, last := ns[..|ns| - 1], ns[|ns| - 1];
      assert ns == init + [last];
      AssignAllLookup(init, id);
      AssignAllConcat([], init, last);
      AssignAllUnique([], init);
      AssignStep(AssignAll([], init), last);
    }
  }

  lemma {:induction false} AssignAllConcat(d: seq<NodeSpec>, ns: seq<NodeSpec>, n: NodeSpec)
    ensures AssignAll(d, ns + [n]) == Assign(AssignAll(d, ns), n)
    decreases |ns|
  {
    if ns == [] {
      assert ([] + [n])[1..] == [];
      assert ns + [n] == [n];
    } else {
      assert (ns + [n])[0] == ns[0] && (ns + [n])[1..] == ns[1..] + [n];
      AssignAllConcat(Assign(d, ns[0]), ns[1..], n);
    }
  }

  /**
    The last patch entry for an id decides it; an id the patch does not mention
    keeps the value of its last existing node.  Ids come out unique.
   */
  lemma {:induction false} LastPatchDecides(e: seq<NodeSpec>, p: seq<NodeSpec>, id: Id)
    ensures UniqueIds(Merge(e, p))
    ensures Lookup(Merge(e, p), id) ==
      match LastOf(p, id)
        case None => LastOf(e, id)
        case Some(n) => if IsDelete(n) then None else Some(n)
    decreases |p|
  {
    AssignAllUnique([], e);
    ApplyAllUnique(AssignAll([], e), p);
    if p == [] {
      AssignAllLookup(e, id);
    } else {
      var init, last := p[..|p| - 1], p[|p| - 1];
      assert p == init + [last];
      LastPatchDecides(e, init, id);
      ApplyAllConcat(AssignAll([], e), init, [last]);
      assert ApplyAll(Merge(e, init), [last]) == ApplyPatch(Merge(e, init), last);
      AssignStep(Merge(e, init), last);
      RemoveStep(Merge(e, init), last.id);
    }
  }

  // ----- order ---------------------------------------------------------------------------------

  lemma {:induction false} PatchOrder(d: seq<NodeSpec>, p: NodeSpec, keep: NodeSpec -> bool)
    requires forall n: NodeSpec :: n.id == p.id ==> !keep(n)
    ensures Filter(ApplyPatch(d, p), keep) == Filter(d, keep)
  {
    if d != [] && d[0].id != p.id {
      PatchOrder(d[1..], p, keep);
      var r := ApplyPatch(d[1..], p);
      assert ApplyPatch(d, p) == [d[0]] + r;
      assert ([d[0]] + r)[1..] == r;
    } else if d == [] {
      assert [p][1..] == [];
    } else {
      assert ([p] + d[1..])[1..] == d[1..];
    }
  }

  /** Nodes whose ids the patch does not touch keep their values and relative order. */
  lemma {:induction false} UntouchedKeepOrder(d: seq<NodeSpec>, ps: seq<NodeSpec>, keep: NodeSpec -> bool)
    requires forall n: NodeSpec, p: NodeSpec :: p in ps && n.id == p.id ==> !keep(n)
    ensures Filter(ApplyAll(d, ps), keep) == Filter(d, keep)
    decreases |ps|
  {
    if ps != [] {
      assert ps[0] in ps;
      PatchOrder(d, ps[0], keep);
      UntouchedKeepOrder(ApplyPatch(d, ps[0]), ps[1..], keep);
    }
  }

  /** A patch without deletions only overwrites in place and appends. */
  lemma {:induction false} UpsertsKeepPositions(d: seq<NodeSpec>, ps: seq<NodeSpec>)
    requires forall p :: p in ps ==> !IsDelete(p)
    ensures Ids(d) <= Ids(ApplyAll(d, ps))
    decreases |ps|
  {
    if ps != [] {
      AssignKeepsPositions(d, ps[0]);
      UpsertsKeepPositions(Assign(d, ps[0]), ps[1..]);
    }
  }

  lemma {:induction false} AssignKeepsPositions(d: seq<NodeSpec>, n: NodeSpec)
    ensures Ids(d) <= Ids(Assign(d, n))
  {
    if d != [] && d[0].id != n.id {
      AssignKeepsPositions(d[1..], n);
      assert Ids(d) == [d[0].id] + Ids(d[1..]);
      assert Ids(Assign(d, n)) == [d[0].id] + Ids(Assign(d[1..], n));
    }
  }
}
