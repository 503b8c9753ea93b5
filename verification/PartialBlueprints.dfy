/**
  Partial blueprints under construction: one cache hash per id with the fields
  `json` and `lock`, changed by create, update, suggest-commit and finalize.
 */
module PartialBlueprints {
  import opened Prelude

  type Id = string

  datatype PNode = PNode(id: Id, payload: string)

  datatype Partial = Partial(
    blueprintId: Id,
    nodes: seq<PNode>,
    complete: bool,
    errors: seq<string>,
    suggestions: seq<string>
  )

  datatype Lock = Text(text: string) | Digest(of: Partial)

  /** The hash of one partial; `finalize` removes only the `json` field. */
  datatype Cell = Cell(json: Option<Partial>, lock: Option<Lock>)

  /** `published` holds the content of every finalized blueprint. */
  datatype Store = Store(cells: map<Id, Cell>, published: seq<Partial>)

  /** Which cache calls of the request succeed; a failing call aborts the request. */
  datatype Env = Env(canRead: bool, canWrite: bool, canDelete: bool)

  /** The validation and suggestion code that is not modelled here. */
  datatype Rules = Rules(
    audit: seq<PNode> -> (seq<string>, seq<string>),
    edit: (PNode, string) -> PNode,
    preflight: Partial -> Option<int>,
    suggest: Partial -> seq<string>
  )

  datatype Update =
    | AddNode(node: PNode)
    | RemoveNode(nodeId: Id)
    | UpdateNode(nodeId: Id, updates: string)
    | Suggest
    | Nothing              // an action whose arguments are missing

  datatype Request =
    | Create(newId: Id, node: Option<PNode>)
    | Modify(id: Id, lock: Option<Lock>, update: Update)
    | CommitSuggestions(id: Id, lock: Option<Lock>)
    | Finalize(id: Id, lock: Option<Lock>)

  function Revalidated(r: Rules, p: Partial): Partial {
    if p.nodes == [] then p.(complete := false, errors := ["No nodes added yet"])
    else
      var (errors, hints) := r.audit(p.nodes);
      p.(complete := errors == [], errors := errors, suggestions := p.suggestions + hints)
  }

  function EditFirst(r: Rules, nodes: seq<PNode>, id: Id, updates: string): seq<PNode> {
    if nodes == [] then []
    else if nodes[0].id == id then [r.edit(nodes[0], updates)] + nodes[1..]
    else [nodes[0]] + EditFirst(r, nodes[1..], id, updates)
  }

  function Differs(id: Id): PNode -> bool {
    (n: PNode) => n.id != id
  }

  function Apply(r: Rules, p: Partial, u: Update): Partial {
    match u
    case AddNode(n) => Revalidated(r, p.(nodes := p.nodes + [n]))
    case RemoveNode(id) => Revalidated(r, p.(nodes := Filter(p.nodes, Differs(id))))
    case UpdateNode(id, updates) => Revalidated(r, p.(nodes := EditFirst(r, p.nodes, id, updates)))
    case Suggest => Revalidated(r, p)
    case Nothing => p
  }

  function Json(s: Store, id: Id): Option<Partial> {
    if id in s.cells then s.cells[id].json else None
  }

  function LockOf(s: Store, id: Id): Option<Lock> {
    if id in s.cells then s.cells[id].lock else None
  }

  function LockError(client: Option<Lock>, server: Option<Lock>): Option<int> {
    if client.None? then Some(428)
    else if server.None? || client != server then Some(409)
    else None
  }

  /** Both fields are written in one call, under the partial's own id. */
  function Save(s: Store, p: Partial): Store {
    s.(cells := s.cells[p.blueprintId := Cell(Some(p), Some(Digest(p)))])
  }

  function DropJson(s: Store, id: Id): Store {
    if id in s.cells then s.(cells := s.cells[id := s.cells[id].(json := None)]) else s
  }

  function FirstPartial(r: Rules, newId: Id, node: Option<PNode>): Partial {
    var p := Partial(newId, [], false, [], []);
    if node.Some? then Apply(r, p, AddNode(node.value)) else p
  }

  /** The refusal of a finalize whose lock was accepted. */
  function FinalizeRefusal(r: Rules, p: Partial): Option<int> {
    if p.nodes == [] then Some(400)
    else if !p.complete then Some(500)
    else r.preflight(p)
  }

  function Handle(s: Store, r: Rules, q: Request, env: Env): (Store, int) {
    match q
    case Create(newId, node) =>
      if !env.canWrite then (s, 500) else (Save(s, FirstPartial(r, newId, node)), 200)
    case Modify(id, lock, u) =>
      if !env.canRead then (s, 500)
      else if Json(s, id).None? then (s, 404)
      else if LockError(lock, LockOf(s, id)).Some? then (s, LockError(lock, LockOf(s, id)).value)
      else if !env.canWrite then (s, 500)
      else (Save(s, Apply(r, Json(s, id).value, u)), 200)
    case CommitSuggestions(id, lock) =>
      if !env.canRead then (s, 500)
      else if Json(s, id).None? then (s, 404)
      else if LockError(lock, LockOf(s, id)).Some? then (s, LockError(lock, LockOf(s, id)).value)
      else if !env.canWrite then (s, 500)
      else (Save(s, Json(s, id).value.(suggestions := r.suggest(Json(s, id).value))), 200)
    case Finalize(id, lock) =>
      if !env.canRead then (s, 500)
      else if Json(s, id).None? then (s, 404)
      else if LockError(lock, LockOf(s, id)).Some? then (s, LockError(lock, LockOf(s, id)).value)
      else if FinalizeRefusal(r, Json(s, id).value).Some? then (s, FinalizeRefusal(r, Json(s, id).value).value)
      else if !env.canWrite then (s, 500)
      else
        var s1 := s.(published := s.published + [Json(s, id).value]);
        if !env.canDelete then (s1, 500) else (DropJson(s1, id), 200)
  }

  // ----- the routes in place ------------------------------------------------------------

  class PartialRoutes {
    const rules: Rules
    var cells: map<Id, Cell>
    var published: seq<Partial>

    function Contents(): Store
      reads this
    {
      Store(cells, published)
    }

    constructor (r: Rules)
      ensures rules == r && Contents() == Store(map[], [])
    {
      rules, cells, published := r, map[], [];
    }

    method SavePartial(p: Partial)
      modifies this`cells
      ensures Contents() == Save(old(Contents()), p)
    {
      cells := cells[p.blueprintId := Cell(Some(p), Some(Digest(p)))];
    }

    method CreatePartial(newId: Id, node: Option<PNode>, env: Env) returns (code: int)
      modifies this
      ensures (Contents(), code) == Handle(old(Contents()), rules, Create(newId, node), env)
    {
      var partial := Partial(newId, [], false, [], []);
      if node.Some? {
        partial := Revalidated(rules, partial.(nodes := partial.nodes + [node.value]));
      }
      if !env.canWrite {
        return 500;
      }
      SavePartial(partial);
      return 200;
    }

    /** The node list after `update_node`: the first node with the id is edited. */
    method EditNode(nodes: seq<PNode>, id: Id, updates: string) returns (edited: seq<PNode>)
      ensures edited == EditFirst(rules, nodes, id, updates)
    {
      var done: seq<PNode>, rest := [], nodes;
      while rest != [] && rest[0].id != id
        invariant nodes == done + rest
        invariant EditFirst(rules, nodes, id, updates) == done + EditFirst(rules, rest, id, updates)
        decreases |rest|
      {
        ghost var after := EditFirst(rules, rest[1..], id, updates);
        assert EditFirst(rules, rest, id, updates) == [rest[0]] + after;
        assert rest == [rest[0]] + rest[1..];
        assert done + ([rest[0]] + after) == (done + [rest[0]]) + after;
        done, rest := done + [rest[0]], rest[1..];
      }
      if rest == [] {
        return nodes;
      }
      return done + ([rules.edit(rest[0], updates)] + rest[1..]);
    }

    method ModifyPartial(id: Id, lock: Option<Lock>, u: Update, env: Env) returns (code: int)
      modifies this
      ensures (Contents(), code) == Handle(old(Contents()), rules, Modify(id, lock, u), env)
    {
      if !env.canRead {
        return 500;
      }
      if id !in cells || cells[id].json.None? {
        return 404;
      }
      var partial, serverLock := cells[id].json.value, cells[id].lock;
      if lock.None? {
        return 428;
      }
      if serverLock.None? || lock != serverLock {
        return 409;
      }
      match u {
        case AddNode(n) => partial := Revalidated(rules, partial.(nodes := partial.nodes + [n]));
        case RemoveNode(nid) => partial := Revalidated(rules, partial.(nodes := Filter(partial.nodes, Differs(nid))));
        case UpdateNode(nid, updates) =>
          var edited := EditNode(partial.nodes, nid, updates);
          partial := Revalidated(rules, partial.(nodes := edited));
        case Suggest => partial := Revalidated(rules, partial);
        case Nothing =>
      }
      if !env.canWrite {
        return 500;
      }
      SavePartial(partial);
      return 200;
    }

    method CommitSuggested(id: Id, lock: Option<Lock>, env: Env) returns (code: int)
      modifies this
      ensures (Contents(), code) == Handle(old(Contents()), rules, CommitSuggestions(id, lock), env)
    {
      if !env.canRead {
        return 500;
      }
      if id !in cells || cells[id].json.None? {
        return 404;
      }
      var partial := cells[id].json.value;
      var err := LockError(lock, cells[id].lock);
      if err.Some? {
        return err.value;
      }
      if !env.canWrite {
        return 500;
      }
      SavePartial(partial.(suggestions := rules.suggest(partial)));
      return 200;
    }

    method FinalizePartial(id: Id, lock: Option<Lock>, env: Env) returns (code: int)
      modifies this
      ensures (Contents(), code) == Handle(old(Contents()), rules, Finalize(id, lock), env)
    {
      if !env.canRead {
        return 500;
      }
      if id !in cells || cells[id].json.None? {
        return 404;
      }
      var partial := cells[id].json.value;
      var err := LockError(lock, cells[id].lock);
      if err.Some? {
        return err.value;
      }
      err := FinalizeRefusal(rules, partial);
      if err.Some? {
        return err.value;
      }
      if !env.canWrite {
        return 500;
      }
      published := published + [partial];
      if !env.canDelete {
        return 500;
      }
      cells := cells[id := cells[id].(json := None)];
      return 200;
    }
  }

  // ----- histories ---------------------------------------------------------------------------

  type History = seq<(Request, Env)>

  /** A stored lock is the digest of the stored partial, which is filed under its own id. */
  ghost predicate Inv(s: Store) {
    forall id :: id in s.cells && s.cells[id].json.Some? ==>
      s.cells[id].json.value.blueprintId == id && s.cells[id].lock == Some(Digest(s.cells[id].json.value))
  }

  lemma ApplyKeepsId(r: Rules, p: Partial, u: Update)
    ensures Apply(r, p, u).blueprintId == p.blueprintId
  {
  }

  lemma StepKeepsInv(s: Store, r: Rules, q: Request, env: Env)
    requires Inv(s)
    ensures Inv(Handle(s, r, q, env).0)
  {
    hide Apply;
    match q {
      case Create(newId, node) =>
        var p := Partial(newId, [], false, [], []);
        if node.Some? {
          ApplyKeepsId(r, p, AddNode(node.value));
        }
      case Modify(id, _, u) =>
        if Json(s, id).Some? {
          ApplyKeepsId(r, Json(s, id).value, u);
        }
      case _ =>
    }
  }

  predicate Mutates(q: Request) {
    q.Modify? || q.CommitSuggestions? || q.Finalize?
  }

  /** A mutation is let through exactly by the digest of the partial it changes. */
  lemma PassesExactly(s: Store, r: Rules, q: Request, env: Env)
    requires Inv(s) && Mutates(q) && env.canRead && env.canWrite && env.canDelete
    requires forall p :: r.preflight(p) != Some(200)
    ensures Handle(s, r, q, env).1 == 200 <==>
      && Json(s, q.id).Some?
      && q.lock == Some(Digest(Json(s, q.id).value))
      && (q.Finalize? ==> FinalizeRefusal(r, Json(s, q.id).value).None?)
  {
  }

  function Run(s: Store, r: Rules, h: History): Store
    decreases |h|
  {
    if h == [] then s else Run(Handle(s, r, h[0].0, h[0].1).0, r, h[1..])
  }

  /** How often blueprints with this id were published. */
  function Published(ps: seq<Partial>, id: Id): nat {
    if ps == [] then 0 else Published(ps[..|ps| - 1], id) + (if ps[|ps| - 1].blueprintId == id then 1 else 0)
  }

  /** Ids are generated: a create never meets an id that has been used. */
  ghost predicate FreshCreates(s: Store, r: Rules, h: History)
    decreases |h|
  {
    h == [] ||
    (&& (h[0].0.Create? ==> h[0].0.newId !in s.cells)
     && FreshCreates(Handle(s, r, h[0].0, h[0].1).0, r, h[1..]))
  }

  function FailedDeletes(h: History, id: Id): nat {
    if h == [] then 0
    else (if h[0].0.Finalize? && h[0].0.id == id && !h[0].1.canDelete then 1 else 0) + FailedDeletes(h[1..], id)
  }

  /** What may still be published under `id`: one more while it is open or unborn. */
  function Chances(s: Store, id: Id): nat {
    if id !in s.cells || s.cells[id].json.Some? then 1 else 0
  }

  lemma StepPublishes(s: Store, r: Rules, q: Request, env: Env, id: Id)
    requires Inv(s) && (q.Create? ==> q.newId !in s.cells)
    ensures var t := Handle(s, r, q, env).0;
      Published(t.published, id) + Chances(t, id)
        <= Published(s.published, id) + Chances(s, id) + (if q.Finalize? && q.id == id && !env.canDelete then 1 else 0)
  {
    hide Apply;
    var t := Handle(s, r, q, env).0;
    if q.Finalize? && t.published != s.published {
      assert t.published[..|s.published|] == s.published;
    }
    match q {
      case Create(newId, node) =>
        var p := Partial(newId, [], false, [], []);
        if node.Some? {
          ApplyKeepsId(r, p, AddNode(node.value));
        }
      case Modify(mid, _, u) =>
        if Json(s, mid).Some? {
          ApplyKeepsId(r, Json(s, mid).value, u);
        }
      case _ =>
    }
  }

  /**
    A partial is published at most once, plus once for every finalize whose last
    cache call failed.
   */
  lemma {:induction false} PublishedAtMostOnce(s: Store, r: Rules, h: History, id: Id)
    requires Inv(s) && FreshCreates(s, r, h)
    ensures Published(Run(s, r, h).published, id) <= Published(s.published, id) + Chances(s, id) + FailedDeletes(h, id)
    decreases |h|
  {
    hide Handle, Inv, Chances;
    if h != [] {
      StepPublishes(s, r, h[0].0, h[0].1, id);
      StepKeepsInv(s, r, h[0].0, h[0].1);
      PublishedAtMostOnce(Handle(s, r, h[0].0, h[0].1).0, r, h[1..], id);
    }
  }

  /** The extra publication does happen: a finalize repeated after its clean-up failed. */
  lemma PublishedTwice(s: Store, r: Rules, id: Id, p: Partial)
    requires Json(s, id) == Some(p) && LockOf(s, id) == Some(Digest(p)) && FinalizeRefusal(r, p).None?
    ensures var q := Finalize(id, Some(Digest(p)));
      var (s1, failed) := Handle(s, r, q, Env(true, true, false));
      var (s2, done) := Handle(s1, r, q, Env(true, true, true));
      failed == 500 && done == 200 && s2.published == s.published + [p, p]
  {
    assert (s.published + [p]) + [p] == s.published + [p, p];
  }

  /** After a successful finalize the id answers 404 to every mutation, for ever. */
  lemma {:induction false} FinalizedStaysGone(s: Store, r: Rules, h: History, id: Id)
    requires Inv(s) && FreshCreates(s, r, h) && id in s.cells && s.cells[id].json.None?
    ensures var t := Run(s, r, h);
      id in t.cells && t.cells[id].json.None?
      && forall q: Request, env: Env :: Mutates(q) && q.id == id && env.canRead ==> Handle(t, r, q, env) == (t, 404)
    decreases |h|
  {
    if h != [] {
      StepKeepsInv(s, r, h[0].0, h[0].1);
      GoneStaysGone(s, r, h[0].0, h[0].1, id);
      FinalizedStaysGone(Handle(s, r, h[0].0, h[0].1).0, r, h[1..], id);
    }
  }

  lemma GoneStaysGone(s: Store, r: Rules, q: Request, env: Env, id: Id)
    requires Inv(s) && (q.Create? ==> q.newId !in s.cells) && id in s.cells && s.cells[id].json.None?
    ensures var t := Handle(s, r, q, env).0; id in t.cells && t.cells[id].json.None?
  {
    hide Apply;
    match q {
      case Create(newId, node) =>
        var p := Partial(newId, [], false, [], []);
        if node.Some? {
          ApplyKeepsId(r, p, AddNode(node.value));
        }
      case Modify(mid, _, u) =>
        if Json(s, mid).Some? {
          ApplyKeepsId(r, Json(s, mid).value, u);
        }
      case _ =>
    }
  }

  // ----- what each route answers and stores -------------------------------------------------------

  lemma {:induction false} EditFirstAt(r: Rules, nodes: seq<PNode>, id: Id, updates: string, i: nat)
    requires i < |nodes|
    ensures |EditFirst(r, nodes, id, updates)| == |nodes|
    ensures EditFirst(r, nodes, id, updates)[i] ==
      if nodes[i].id == id && forall j :: 0 <= j < i ==> nodes[j].id != id then r.edit(nodes[i], updates) else nodes[i]
  {
    var rest := nodes[1..];
    if nodes[0].id != id {
      if i > 0 {
        EditFirstAt(r, rest, id, updates, i - 1);
        assert forall j :: 0 < j < i ==> nodes[j] == rest[j - 1];
        assert (forall j :: 0 <= j < i ==> nodes[j].id != id) <==> forall j :: 0 <= j < i - 1 ==> rest[j].id != id by {
          if j :| 0 <= j < i - 1 && rest[j].id == id {
            assert nodes[j + 1].id == id;
          }
        }
      } else if rest != [] {
        EditFirstAt(r, rest, id, updates, 0);
      }
    }
  }

  /** The nodes with another id, in order. */
  function Others(nodes: seq<PNode>, id: Id): seq<PNode> {
    if nodes == [] then [] else (if nodes[0].id == id then [] else [nodes[0]]) + Others(nodes[1..], id)
  }

  lemma {:induction false} FilteredAreOthers(nodes: seq<PNode>, id: Id)
    ensures Filter(nodes, Differs(id)) == Others(nodes, id)
  {
    if nodes != [] {
      FilteredAreOthers(nodes[1..], id);
    }
  }

  /** The nodes after each kind of update. */
  ghost predicate NodesAfter(r: Rules, was: seq<PNode>, u: Update, now: seq<PNode>) {
    match u
    case AddNode(n) => now == was + [n]
    case RemoveNode(x) => now == Others(was, x)
    case UpdateNode(x, updates) =>
      && |now| == |was|
      && forall i :: 0 <= i < |was| ==>
           now[i] == if was[i].id == x && forall j :: 0 <= j < i ==> was[j].id != x then r.edit(was[i], updates) else was[i]
    case Suggest => now == was
    case Nothing => now == was
  }

  lemma ApplyMeans(r: Rules, p: Partial, u: Update)
    ensures var p1 := Apply(r, p, u);
      && p1.blueprintId == p.blueprintId && NodesAfter(r, p.nodes, u, p1.nodes)
      && (u == Nothing ==> p1 == p)
      && (u != Nothing ==>
            && (p1.complete <==> p1.nodes != [] && r.audit(p1.nodes).0 == [])
            && p1.errors == (if p1.nodes == [] then ["No nodes added yet"] else r.audit(p1.nodes).0)
            && p1.suggestions == (if p1.nodes == [] then p.suggestions else p.suggestions + r.audit(p1.nodes).1))
  {
    hide EditFirst, Filter;
    match u {
      case RemoveNode(id) => FilteredAreOthers(p.nodes, id);
      case _ =>
    }
    if u.UpdateNode? {
      var now := EditFirst(r, p.nodes, u.nodeId, u.updates);
      EditKeepsLength(r, p.nodes, u.nodeId, u.updates);
      forall i | 0 <= i < |p.nodes|
        ensures now[i] == if p.nodes[i].id == u.nodeId && forall j :: 0 <= j < i ==> p.nodes[j].id != u.nodeId
                          then r.edit(p.nodes[i], u.updates) else p.nodes[i]
      {
        EditFirstAt(r, p.nodes, u.nodeId, u.updates, i);
      }
      assert Apply(r, p, u).nodes == now;
      assert NodesAfter(r, p.nodes, u, now);
    }
  }

  lemma {:induction false} EditKeepsLength(r: Rules, nodes: seq<PNode>, id: Id, updates: string)
    ensures |EditFirst(r, nodes, id, updates)| == |nodes|
  {
    if nodes != [] {
      EditKeepsLength(r, nodes[1..], id, updates);
    }
  }

  /** The first checks of every mutation: 404, then 428, then 409; nothing changes. */
  lemma MutationChecks(s: Store, r: Rules, q: Request, env: Env)
    requires Inv(s) && Mutates(q) && env.canRead
    ensures
      if Json(s, q.id) == None then Handle(s, r, q, env) == (s, 404)
      else if q.lock == None then Handle(s, r, q, env) == (s, 428)
      else q.lock != Some(Digest(Json(s, q.id).value)) ==> Handle(s, r, q, env) == (s, 409)
  {
  }

  /** The partial stored under an id, with its lock; all other cells and blueprints stay. */
  ghost predicate Stored(s: Store, s1: Store, p: Partial) {
    && s1.published == s.published
    && s1.cells == s.cells[p.blueprintId := Cell(Some(p), Some(Digest(p)))]
  }

  /** A new partial is empty, or holds one audited node. */
  lemma CreateStores(s: Store, r: Rules, newId: Id, node: Option<PNode>, env: Env) returns (p: Partial)
    ensures p.blueprintId == newId && p.nodes == (if node.Some? then [node.value] else [])
    ensures p.complete <==> node.Some? && r.audit([node.value]).0 == []
    ensures var (s1, code) := Handle(s, r, Create(newId, node), env);
      if env.canWrite then code == 200 && Stored(s, s1, p) else s1 == s && code == 500
  {
    p := FirstPartial(r, newId, node);
    if node.Some? {
      assert [] + [node.value] == [node.value];
    }
  }

  /** A failing cache read or write is answered 500 and leaves everything as it was. */
  lemma FailuresChangeNothing(s: Store, r: Rules, q: Request, env: Env)
    requires !env.canWrite || (Mutates(q) && !env.canRead)
    ensures Handle(s, r, q, env).0 == s
    ensures Mutates(q) && !env.canRead ==> Handle(s, r, q, env).1 == 500
  {
  }

  /** An accepted update stores the edited nodes, audited again, under a new lock. */
  lemma ModifyAnswers(s: Store, r: Rules, id: Id, u: Update, env: Env) returns (p1: Partial)
    requires Inv(s) && env.canRead && env.canWrite && Json(s, id).Some?
    ensures var p := Json(s, id).value;
      && p1.blueprintId == id && NodesAfter(r, p.nodes, u, p1.nodes)
      && (u == Nothing ==> p1 == p)
      && (u != Nothing ==> (p1.complete <==> p1.nodes != [] && r.audit(p1.nodes).0 == []))
    ensures var (s1, code) := Handle(s, r, Modify(id, Some(Digest(Json(s, id).value)), u), env);
      code == 200 && Stored(s, s1, p1)
  {
    hide Apply;
    p1 := Apply(r, Json(s, id).value, u);
    ApplyMeans(r, Json(s, id).value, u);
  }

  /** Committed suggestions change nothing but the suggestions. */
  lemma CommitAnswers(s: Store, r: Rules, id: Id, env: Env)
    requires Inv(s) && env.canRead && env.canWrite && Json(s, id).Some?
    ensures var p := Json(s, id).value;
      var (s1, code) := Handle(s, r, CommitSuggestions(id, Some(Digest(p))), env);
      code == 200 && Stored(s, s1, Partial(id, p.nodes, p.complete, p.errors, r.suggest(p)))
  {
  }

  /** A finalize under the right lock, check by check. */
  lemma FinalizeAnswers(s: Store, r: Rules, id: Id, env: Env)
    requires Inv(s) && env.canRead && env.canWrite && Json(s, id).Some?
    ensures var p := Json(s, id).value;
      var (s1, code) := Handle(s, r, Finalize(id, Some(Digest(p))), env);
      if p.nodes == [] then s1 == s && code == 400
      else if !p.complete then s1 == s && code == 500
      else if r.preflight(p).Some? then s1 == s && code == r.preflight(p).value
      else
        && s1.published == s.published + [p]
        && code == (if env.canDelete then 200 else 500)
        && s1.cells == if env.canDelete then s.cells[id := Cell(None, Some(Digest(p)))] else s.cells
  {
  }

  // ----- what gets published ---------------------------------------------------------------------

  ghost predicate Clean(r: Rules, p: Partial) {
    p.nodes != [] && r.audit(p.nodes).0 == []
  }

  /** A partial marked complete is clean, and so is everything published. */
  ghost predicate Checked(r: Rules, s: Store) {
    && (forall id :: id in s.cells && s.cells[id].json.Some? && s.cells[id].json.value.complete ==>
          Clean(r, s.cells[id].json.value))
    && (forall p :: p in s.published ==> Clean(r, p))
  }

  lemma ApplyKeepsChecked(r: Rules, p: Partial, u: Update)
    requires p.complete ==> Clean(r, p)
    ensures var p1 := Apply(r, p, u); p1.complete ==> Clean(r, p1)
  {
    hide Filter, EditFirst;
  }

  lemma StepKeepsChecked(s: Store, r: Rules, q: Request, env: Env)
    requires Checked(r, s)
    ensures Checked(r, Handle(s, r, q, env).0)
  {
    hide Apply;
    match q {
      case Create(newId, node) =>
        var p := Partial(newId, [], false, [], []);
        if node.Some? {
          ApplyKeepsChecked(r, p, AddNode(node.value));
        }
      case Modify(id, _, u) =>
        if Json(s, id).Some? {
          ApplyKeepsChecked(r, Json(s, id).value, u);
        }
      case _ =>
    }
  }

  /**
    In every history, whatever fails, only partials with nodes and without audit
    errors are published: no edit leaves an outdated completeness mark behind.
   */
  lemma {:induction false} PublishedAreClean(s: Store, r: Rules, h: History)
    requires Checked(r, s)
    ensures Checked(r, Run(s, r, h))
    decreases |h|
  {
    hide Handle, Checked;
    if h != [] {
      StepKeepsChecked(s, r, h[0].0, h[0].1);
      PublishedAreClean(Handle(s, r, h[0].0, h[0].1).0, r, h[1..]);
    }
  }
}
