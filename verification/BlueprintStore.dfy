/**
  The blueprint routes: an authoritative database, a best-effort cache and
  optimistic locks that are digests of the stored body.

  A handler runs as one atomic step here; the last section shows what is lost when
  its check and its commit are separate steps.
 */
module BlueprintStore {
  import opened Prelude
  import opened NodePatches

  datatype Blueprint = Blueprint(schema: string, nodes: seq<NodeSpec>, metadata: string)

  /** A version lock; digests are injective by construction. */
  datatype Lock = Text(text: string) | Digest(of: Blueprint)

  const NEW := Text("__new__")

  datatype Row = Row(body: Blueprint, lockVersion: nat)

  /** A cache cell: invalidated, or the JSON of a body. */
  datatype Cell = Emptied | Json(body: Blueprint)

  datatype Store = Store(db: map<Id, Row>, cache: map<Id, Cell>)

  /** Which of the store calls of a request succeed. */
  datatype Env = Env(dbLoad: bool, dbCommit: bool, cacheRead: bool, cacheWrite: bool)

  /** `valid` is schema validation, `refusal` the registry check (422 or 403). */
  datatype Rules = Rules(valid: Blueprint -> bool, refusal: Blueprint -> Option<int>)

  /** A payload that does not parse is None. */
  datatype Request =
    | Create(newId: Id, lock: Option<Lock>, bp: Blueprint)
    | Get(id: Id)
    | Patch(id: Id, lock: Option<Lock>, nodes: Option<seq<NodeSpec>>)
    | Delete(id: Id, lock: Option<Lock>)
    | Replace(id: Id, lock: Option<Lock>, body: Option<Blueprint>)
    | Clone(id: Id, newId: Id)

  datatype Reply = Reply(code: int, lock: Option<Lock>, body: Option<Blueprint>)

  function Refuse(code: int): Reply {
    Reply(code, None, None)
  }

  // ----- the handlers as functions ------------------------------------------------

  /** Database first; the cache answers when the row is missing or the database down. */
  function Load(s: Store, id: Id, env: Env): Option<Blueprint> {
    if env.dbLoad && id in s.db then Some(s.db[id].body)
    else if env.cacheRead && id in s.cache && s.cache[id].Json? then Some(s.cache[id].body)
    else None
  }

  /** 428 without a lock, 409 with a wrong one. */
  function LockError(lock: Option<Lock>, expected: Lock): Option<int> {
    match lock
    case None => Some(428)
    case Some(l) => if l != expected then Some(409) else None
  }

  function WriteCache(s: Store, id: Id, cell: Cell, env: Env): Store {
    if env.cacheWrite then s.(cache := s.cache[id := cell]) else s
  }

  /** The update of an existing row, or the insertion of a missing one. */
  function CommitBody(s: Store, id: Id, bp: Blueprint): Store {
    s.(db := s.db[id := Row(bp, if id in s.db then s.db[id].lockVersion + 1 else 1)])
  }

  function HandleCreate(s: Store, r: Rules, newId: Id, lock: Option<Lock>, bp: Blueprint, env: Env): (Store, Reply) {
    if LockError(lock, NEW).Some? then (s, Refuse(LockError(lock, NEW).value))
    else if r.refusal(bp).Some? then (s, Refuse(r.refusal(bp).value))
    else if !env.dbCommit then (s, Refuse(503))
    else (WriteCache(s.(db := s.db[newId := Row(bp, 1)]), newId, Json(bp), env), Reply(201, Some(Digest(bp)), None))
  }

  function HandleGet(s: Store, id: Id, env: Env): (Store, Reply) {
    match Load(s, id, env)
    case None => (s, Refuse(404))
    case Some(bp) => (s, Reply(200, Some(Digest(bp)), Some(bp)))
  }

  function Patched(bp: Blueprint, nodes: seq<NodeSpec>): Blueprint {
    bp.(nodes := Merge(bp.nodes, nodes))
  }

  /** The reason why a patch of `bp` is refused once its lock was accepted. */
  function PatchRefusal(r: Rules, bp: Blueprint, nodes: Option<seq<NodeSpec>>): Option<int> {
    if nodes.None? then Some(422)
    else if !r.valid(Patched(bp, nodes.value)) then Some(422)
    else r.refusal(Patched(bp, nodes.value))
  }

  function HandlePatch(s: Store, r: Rules, id: Id, lock: Option<Lock>, nodes: Option<seq<NodeSpec>>, env: Env): (Store, Reply) {
    match Load(s, id, env)
    case None => (s, Refuse(404))
    case Some(bp) =>
      if LockError(lock, Digest(bp)).Some? then (s, Refuse(LockError(lock, Digest(bp)).value))
      else if PatchRefusal(r, bp, nodes).Some? then (s, Refuse(PatchRefusal(r, bp, nodes).value))
      else if !env.dbCommit then (s, Refuse(503))
      else
        var bp1 := Patched(bp, nodes.value);
        (WriteCache(CommitBody(s, id, bp1), id, Json(bp1), env), Reply(200, None, None))
  }

  function HandleDelete(s: Store, id: Id, lock: Option<Lock>, env: Env): (Store, Reply) {
    match Load(s, id, env)
    case None => (s, Refuse(404))
    case Some(bp) =>
      if LockError(lock, Digest(bp)).Some? then (s, Refuse(LockError(lock, Digest(bp)).value))
      else if !env.dbCommit then (s, Refuse(500))
      else (WriteCache(s.(db := s.db - {id}), id, Emptied, env), Reply(204, None, None))
  }

  function ReplaceRefusal(r: Rules, body: Option<Blueprint>): Option<int> {
    if body.None? then Some(422) else r.refusal(body.value)
  }

  function HandleReplace(s: Store, r: Rules, id: Id, lock: Option<Lock>, body: Option<Blueprint>, env: Env): (Store, Reply) {
    match Load(s, id, env)
    case None => (s, Refuse(404))
    case Some(bp) =>
      if LockError(lock, Digest(bp)).Some? then (s, Refuse(LockError(lock, Digest(bp)).value))
      else if ReplaceRefusal(r, body).Some? then (s, Refuse(ReplaceRefusal(r, body).value))
      else if !env.dbCommit then (s, Refuse(500))
      else (WriteCache(CommitBody(s, id, body.value), id, Json(body.value), env), Reply(200, Some(Digest(body.value)), None))
  }

  /** A clone adds its row and fails on a taken id; a create would replace that row. */
  function HandleClone(s: Store, id: Id, newId: Id, env: Env): (Store, Reply) {
    match Load(s, id, env)
    case None => (s, Refuse(404))
    case Some(bp) =>
      if !env.dbCommit || newId in s.db then (s, Refuse(500))
      else (WriteCache(s.(db := s.db[newId := Row(bp, 1)]), newId, Json(bp), env), Reply(201, Some(Digest(bp)), None))
  }

  function Handle(s: Store, r: Rules, q: Request, env: Env): (Store, Reply) {
    match q
    case Create(newId, lock, bp) => HandleCreate(s, r, newId, lock, bp, env)
    case Get(id) => HandleGet(s, id, env)
    case Patch(id, lock, nodes) => HandlePatch(s, r, id, lock, nodes, env)
    case Delete(id, lock) => HandleDelete(s, id, lock, env)
    case Replace(id, lock, body) => HandleReplace(s, r, id, lock, body, env)
    case Clone(id, newId) => HandleClone(s, id, newId, env)
  }

  // ----- the routes in place ---------------------------------------------------------

  class BlueprintRoutes {
    const rules: Rules
    var db: map<Id, Row>
    var cache: map<Id, Cell>

    function Contents(): Store
      reads this
    {
      Store(db, cache)
    }

    constructor (r: Rules)
      ensures rules == r && Contents() == Store(map[], map[])
    {
      rules, db, cache := r, map[], map[];
    }

    method LoadBlueprint(id: Id, env: Env) returns (bp: Option<Blueprint>)
      ensures bp == Load(Contents(), id, env)
    {
      if env.dbLoad && id in db {
        return Some(db[id].body);
      }
      if env.cacheRead && id in cache {
        match cache[id] {
          case Json(body) => return Some(body);
          case Emptied =>
        }
      }
      return None;
    }

    method SaveCell(id: Id, cell: Cell, env: Env)
      modifies this`cache
      ensures Contents() == WriteCache(old(Contents()), id, cell, env)
    {
      if env.cacheWrite {
        cache := cache[id := cell];
      }
    }

    method CommitRow(id: Id, bp: Blueprint)
      modifies this`db
      ensures Contents() == CommitBody(old(Contents()), id, bp)
    {
      if id in db {
        db := db[id := Row(bp, db[id].lockVersion + 1)];
      } else {
        db := db[id := Row(bp, 1)];
      }
    }

    method CreateBlueprint(newId: Id, lock: Option<Lock>, bp: Blueprint, env: Env) returns (reply: Reply)
      modifies this
      ensures (Contents(), reply) == HandleCreate(old(Contents()), rules, newId, lock, bp, env)
    {
      var err := LockError(lock, NEW);
      if err.Some? {
        return Refuse(err.value);
      }
      if rules.refusal(bp).Some? {
        return Refuse(rules.refusal(bp).value);
      }
      if !env.dbCommit {
        return Refuse(503);
      }
      db := db[newId := Row(bp, 1)];
      SaveCell(newId, Json(bp), env);
      return Reply(201, Some(Digest(bp)), None);
    }

    method GetBlueprint(id: Id, env: Env) returns (reply: Reply)
      ensures (Contents(), reply) == HandleGet(Contents(), id, env)
    {
      var bp := LoadBlueprint(id, env);
      match bp {
        case None => return Refuse(404);
        case Some(body) => return Reply(200, Some(Digest(body)), Some(body));
      }
    }

    method PatchBlueprint(id: Id, lock: Option<Lock>, nodes: Option<seq<NodeSpec>>, env: Env) returns (reply: Reply)
      modifies this
      ensures (Contents(), reply) == HandlePatch(old(Contents()), rules, id, lock, nodes, env)
    {
      var loaded := LoadBlueprint(id, env);
      if loaded.None? {
        return Refuse(404);
      }
      var err := LockError(lock, Digest(loaded.value));
      if err.Some? {
        return Refuse(err.value);
      }
      if nodes.None? {
        return Refuse(422);
      }
      var merged := MergeNodes(loaded.value.nodes, nodes.value);
      var bp := loaded.value.(nodes := merged);
      if !rules.valid(bp) {
        return Refuse(422);
      }
      if rules.refusal(bp).Some? {
        return Refuse(rules.refusal(bp).value);
      }
      if !env.dbCommit {
        return Refuse(503);
      }
      CommitRow(id, bp);
      SaveCell(id, Json(bp), env);
      return Reply(200, None, None);
    }

    method DeleteBlueprint(id: Id, lock: Option<Lock>, env: Env) returns (reply: Reply)
      modifies this
      ensures (Contents(), reply) == HandleDelete(old(Contents()), id, lock, env)
    {
      var loaded := LoadBlueprint(id, env);
      if loaded.None? {
        return Refuse(404);
      }
      var err := LockError(lock, Digest(loaded.value));
      if err.Some? {
        return Refuse(err.value);
      }
      if !env.dbCommit {
        return Refuse(500);
      }
      if id in db {
        db := db - {id};
      } else {
        assert db - {id} == db;
      }
      SaveCell(id, Emptied, env);
      return Reply(204, None, None);
    }

    method ReplaceBlueprint(id: Id, lock: Option<Lock>, body: Option<Blueprint>, env: Env) returns (reply: Reply)
      modifies this
      ensures (Contents(), reply) == HandleReplace(old(Contents()), rules, id, lock, body, env)
    {
      var loaded := LoadBlueprint(id, env);
      if loaded.None? {
        return Refuse(404);
      }
      var err := LockError(lock, Digest(loaded.value));
      if err.Some? {
        return Refuse(err.value);
      }
      if body.None? {
        return Refuse(422);
      }
      if rules.refusal(body.value).Some? {
        return Refuse(rules.refusal(body.value).value);
      }
      if !env.dbCommit {
        return Refuse(500);
      }
      CommitRow(id, body.value);
      SaveCell(id, Json(body.value), env);
      return Reply(200, Some(Digest(body.value)), None);
    }

    method CloneBlueprint(id: Id, newId: Id, env: Env) returns (reply: Reply)
      modifies this
      ensures (Contents(), reply) == HandleClone(old(Contents()), id, newId, env)
    {
      var original := LoadBlueprint(id, env);
      if original.None? {
        return Refuse(404);
      }
      if !env.dbCommit || newId in db {
        return Refuse(500);
      }
      db := db[newId := Row(original.value, 1)];
      SaveCell(newId, Json(original.value), env);
      return Reply(201, Some(Digest(original.value)), None);
    }
  }
}
