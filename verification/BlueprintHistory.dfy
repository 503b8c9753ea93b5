/**
  What the optimistic locks buy over whole histories of requests.

  `Serve` is the intended meaning: one map of rows, updated only by a caller whose
  lock is the digest of the current body.  The store refines it whenever the loads
  see what the database holds, and the lemmas say exactly when they do.
 */
module BlueprintHistory {
  import opened Prelude
  import opened NodePatches
  import opened BlueprintStore

  // ----- the intended meaning --------------------------------------------------------

  type Rows = map<Id, Row>

  predicate IsUpdate(q: Request) {
    q.Patch? || q.Delete? || q.Replace?
  }

  /** What an update with an accepted lock makes of the current body. */
  datatype Effect = Refused(code: int) | Becomes(body: Blueprint) | Vanishes

  function EffectOn(r: Rules, q: Request, bp: Blueprint): Effect
    requires IsUpdate(q)
  {
    match q
    case Patch(_, _, nodes) =>
      if PatchRefusal(r, bp, nodes).Some? then Refused(PatchRefusal(r, bp, nodes).value) else Becomes(Patched(bp, nodes.value))
    case Replace(_, _, body) =>
      if ReplaceRefusal(r, body).Some? then Refused(ReplaceRefusal(r, body).value) else Becomes(body.value)
    case Delete(_, _) => Vanishes
  }

  /** A compare-and-set on one row. */
  function ServeUpdate(rows: Rows, r: Rules, q: Request, up: bool): (Rows, int)
    requires IsUpdate(q)
  {
    if q.id !in rows then (rows, 404)
    else
      var row := rows[q.id];
      if LockError(q.lock, Digest(row.body)).Some? then (rows, LockError(q.lock, Digest(row.body)).value)
      else
        match EffectOn(r, q, row.body)
        case Refused(code) => (rows, code)
        case Becomes(bp) =>
          if up then (rows[q.id := Row(bp, row.lockVersion + 1)], 200) else (rows, if q.Patch? then 503 else 500)
        case Vanishes =>
          if up then (rows - {q.id}, 204) else (rows, 500)
  }

  function Serve(rows: Rows, r: Rules, q: Request, up: bool): (Rows, int) {
    match q
    case Get(id) => (rows, if id in rows then 200 else 404)
    case Create(newId, lock, bp) =>
      if LockError(lock, NEW).Some? then (rows, LockError(lock, NEW).value)
      else if r.refusal(bp).Some? then (rows, r.refusal(bp).value)
      else if !up then (rows, 503)
      else (rows[newId := Row(bp, 1)], 201)
    case Clone(id, newId) =>
      if id !in rows then (rows, 404)
      else if !up || newId in rows then (rows, 500)
      else (rows[newId := Row(rows[id].body, 1)], 201)
    case _ => ServeUpdate(rows, r, q, up)
  }

  // ----- one request --------------------------------------------------------------------

  /** The load of this request answers what the database holds. */
  ghost predicate SeesDatabase(s: Store, id: Id, env: Env) {
    Load(s, id, env) == if id in s.db then Some(s.db[id].body) else None
  }

  /** The cell of `id` is JSON exactly when the row exists, and of the row's body. */
  ghost predicate CoherentAt(s: Store, id: Id) {
    (id in s.cache && s.cache[id].Json? <==> id in s.db)
    && (id in s.db ==> s.cache[id].body == s.db[id].body)
  }

  ghost predicate Coherent(s: Store) {
    forall id :: CoherentAt(s, id)
  }

  /** No cell answers for a row that does not exist. */
  ghost predicate NoGhost(s: Store) {
    forall id :: id in s.cache && s.cache[id].Json? ==> id in s.db
  }

  /** On a coherent cell, a load is right unless both stores are out of reach. */
  lemma CoherentLoadIsRight(s: Store, id: Id, env: Env)
    requires CoherentAt(s, id)
    ensures SeesDatabase(s, id, env) <==> env.dbLoad || env.cacheRead || id !in s.db
  {
  }

  /** With the database up, only a ghost cell can mislead a load. */
  lemma DatabaseLoadIsRight(s: Store, id: Id, env: Env)
    requires env.dbLoad
    ensures SeesDatabase(s, id, env) <==>
      id in s.db || !(env.cacheRead && id in s.cache && s.cache[id].Json?)
  {
  }

  function IdOf(q: Request): Id {
    match q
    case Create(newId, _, _) => newId
    case _ => q.id
  }

  /** A request whose load sees the database is served as intended. */
  lemma RequestServed(s: Store, r: Rules, q: Request, env: Env)
    requires q.Create? || SeesDatabase(s, IdOf(q), env)
    ensures var (s1, reply) := Handle(s, r, q, env);
      (s1.db, reply.code) == Serve(s.db, r, q, env.dbCommit)
  {
  }

  /** Successful cache writes keep the cache coherent, whatever else fails. */
  lemma CoherenceKept(s: Store, r: Rules, q: Request, env: Env)
    requires Coherent(s) && env.cacheWrite
    ensures Coherent(Handle(s, r, q, env).0)
  {
    var s1 := Handle(s, r, q, env).0;
    forall id
      ensures CoherentAt(s1, id)
    {
      assert CoherentAt(s, id) && CoherentAt(s, IdOf(q));
    }
  }

  /** Failing cache writes make no ghosts, except the invalidation after a delete. */
  lemma NoGhostKept(s: Store, r: Rules, q: Request, env: Env)
    requires NoGhost(s) && env.dbLoad && (q.Delete? ==> env.cacheWrite)
    ensures NoGhost(Handle(s, r, q, env).0)
  {
  }

  // ----- histories -------------------------------------------------------------------------

  const EMPTY := Store(map[], map[])

  type History = seq<(Request, Env)>

  function Run(s: Store, r: Rules, h: History): Store
    decreases |h|
  {
    if h == [] then s else Run(Handle(s, r, h[0].0, h[0].1).0, r, h[1..])
  }

  function Codes(s: Store, r: Rules, h: History): seq<int>
    decreases |h|
  {
    if h == [] then []
    else [Handle(s, r, h[0].0, h[0].1).1.code] + Codes(Handle(s, r, h[0].0, h[0].1).0, r, h[1..])
  }

  function ServeAll(rows: Rows, r: Rules, h: History): Rows
    decreases |h|
  {
    if h == [] then rows else ServeAll(Serve(rows, r, h[0].0, h[0].1.dbCommit).0, r, h[1..])
  }

  function ServeCodes(rows: Rows, r: Rules, h: History): seq<int>
    decreases |h|
  {
    if h == [] then []
    else [Serve(rows, r, h[0].0, h[0].1.dbCommit).1] + ServeCodes(Serve(rows, r, h[0].0, h[0].1.dbCommit).0, r, h[1..])
  }

  /** Cache writes succeed, and some store can be read. */
  predicate CacheServes(h: History) {
    forall i :: 0 <= i < |h| ==> h[i].1.cacheWrite && (h[i].1.dbLoad || h[i].1.cacheRead)
  }

  /** The database can be read, and invalidations succeed. */
  predicate DatabaseServes(h: History) {
    forall i :: 0 <= i < |h| ==> h[i].1.dbLoad && (h[i].0.Delete? ==> h[i].1.cacheWrite)
  }

  /**
    Main theorem: rows and reply codes are those of the intended meaning if the
    cache writes succeed (the database may be down for loads), or if the database
    can be read (cache writes other than invalidations may fail).
   */
  lemma {:induction false} HistoryServed(s: Store, r: Rules, h: History)
    requires (Coherent(s) && CacheServes(h)) || (NoGhost(s) && DatabaseServes(h))
    ensures Run(s, r, h).db == ServeAll(s.db, r, h)
    ensures Codes(s, r, h) == ServeCodes(s.db, r, h)
    decreases |h|
  {
    hide Handle, Serve, Coherent, NoGhost;
    if h != [] {
      var (q, env) := h[0];
      var s1 := Handle(s, r, q, env).0;
      assert forall i :: 0 <= i < |h[1..]| ==> h[1..][i] == h[i + 1];
      if Coherent(s) && CacheServes(h) {
        CoherentAtId(s, IdOf(q));
        CoherentLoadIsRight(s, IdOf(q), env);
        CoherenceKept(s, r, q, env);
      } else {
        NoGhostAtId(s, IdOf(q));
        DatabaseLoadIsRight(s, IdOf(q), env);
        NoGhostKept(s, r, q, env);
      }
      RequestServed(s, r, q, env);
      HistoryServed(s1, r, h[1..]);
    }
  }

  lemma CoherentAtId(s: Store, id: Id)
    requires Coherent(s)
    ensures CoherentAt(s, id)
  {
  }

  lemma NoGhostAtId(s: Store, id: Id)
    requires NoGhost(s)
    ensures id in s.cache && s.cache[id].Json? ==> id in s.db
  {
  }

  // ----- what each route answers ----------------------------------------------------------------

  /** The locks of an update: 428 without one, 409 with any but the digest of the row. */
  lemma LocksAnswer(s: Store, r: Rules, q: Request, env: Env)
    requires IsUpdate(q) && env.dbLoad && q.id in s.db
    ensures q.lock == None ==> Handle(s, r, q, env) == (s, Reply(428, None, None))
    ensures q.lock != None && q.lock != Some(Digest(s.db[q.id].body)) ==> Handle(s, r, q, env) == (s, Reply(409, None, None))
  {
  }

  /** A missing row that no cell answers for. */
  lemma MissingAnswers(s: Store, r: Rules, q: Request, env: Env)
    requires !q.Create? && q.id !in s.db && !(env.cacheRead && q.id in s.cache && s.cache[q.id].Json?)
    ensures Handle(s, r, q, env) == (s, Reply(404, None, None))
  {
  }

  /** What a successful write leaves: one new row, and its cell if the cache took it. */
  ghost predicate Wrote(s: Store, s1: Store, id: Id, row: Row, env: Env) {
    && s1.db == s.db[id := row]
    && s1.cache == if env.cacheWrite then s.cache[id := Json(row.body)] else s.cache
  }

  /**
    A patch under the right lock: the last patch entry for an id decides its node, a
    deletion removes it, other nodes and all other fields stay; the result is validated,
    checked against the registry and committed with the next version.
   */
  lemma PatchAnswers(s: Store, r: Rules, id: Id, patch: seq<NodeSpec>, env: Env) returns (b: Blueprint)
    requires env.dbLoad && id in s.db
    ensures var was := s.db[id].body;
      && b.schema == was.schema && b.metadata == was.metadata && UniqueIds(b.nodes)
      && (forall x :: Lookup(b.nodes, x) ==
            match LastOf(patch, x)
            case None => LastOf(was.nodes, x)
            case Some(n) => if n.kind == "__delete__" then None else Some(n))
    ensures var (s1, reply) := Handle(s, r, Patch(id, Some(Digest(s.db[id].body)), Some(patch)), env);
      if !r.valid(b) then s1 == s && reply == Reply(422, None, None)
      else if r.refusal(b).Some? then s1 == s && reply == Reply(r.refusal(b).value, None, None)
      else if !env.dbCommit then s1 == s && reply == Reply(503, None, None)
      else Wrote(s, s1, id, Row(b, s.db[id].lockVersion + 1), env) && reply == Reply(200, None, None)
  {
    var was := s.db[id].body;
    b := Patched(was, patch);
    forall x
      ensures UniqueIds(b.nodes)
      ensures Lookup(b.nodes, x) ==
        match LastOf(patch, x)
        case None => LastOf(was.nodes, x)
        case Some(n) => if n.kind == "__delete__" then None else Some(n)
    {
      LastPatchDecides(was.nodes, patch, x);
    }
    LastPatchDecides(was.nodes, patch, "");
  }

  /** A patch or a replacement whose payload does not parse. */
  lemma UnparsedAnswers(s: Store, r: Rules, id: Id, env: Env)
    requires env.dbLoad && id in s.db
    ensures Handle(s, r, Patch(id, Some(Digest(s.db[id].body)), None), env) == (s, Reply(422, None, None))
    ensures Handle(s, r, Replace(id, Some(Digest(s.db[id].body)), None), env) == (s, Reply(422, None, None))
  {
  }

  lemma ReplaceAnswers(s: Store, r: Rules, id: Id, b: Blueprint, env: Env)
    requires env.dbLoad && id in s.db
    ensures var (s1, reply) := Handle(s, r, Replace(id, Some(Digest(s.db[id].body)), Some(b)), env);
      if r.refusal(b).Some? then s1 == s && reply == Reply(r.refusal(b).value, None, None)
      else if !env.dbCommit then s1 == s && reply == Reply(500, None, None)
      else Wrote(s, s1, id, Row(b, s.db[id].lockVersion + 1), env) && reply == Reply(200, Some(Digest(b)), None)
  {
  }

  lemma DeleteAnswers(s: Store, r: Rules, id: Id, env: Env)
    requires env.dbLoad && id in s.db
    ensures var (s1, reply) := Handle(s, r, Delete(id, Some(Digest(s.db[id].body))), env);
      if !env.dbCommit then s1 == s && reply == Reply(500, None, None)
      else
        && s1.db == s.db - {id} && s1.cache == (if env.cacheWrite then s.cache[id := Emptied] else s.cache)
        && reply == Reply(204, None, None)
  {
  }

  /** A create needs the lock `__new__`. */
  lemma CreateAnswers(s: Store, r: Rules, newId: Id, lock: Option<Lock>, b: Blueprint, env: Env)
    ensures var (s1, reply) := Handle(s, r, Create(newId, lock, b), env);
      if lock == None then s1 == s && reply == Reply(428, None, None)
      else if lock != Some(Text("__new__")) then s1 == s && reply == Reply(409, None, None)
      else if r.refusal(b).Some? then s1 == s && reply == Reply(r.refusal(b).value, None, None)
      else if !env.dbCommit then s1 == s && reply == Reply(503, None, None)
      else Wrote(s, s1, newId, Row(b, 1), env) && reply == Reply(201, Some(Digest(b)), None)
  {
  }

  /** Reading and cloning an existing row. */
  lemma CopiesAnswer(s: Store, r: Rules, id: Id, newId: Id, env: Env)
    requires env.dbLoad && id in s.db
    ensures var b := s.db[id].body; Handle(s, r, Get(id), env) == (s, Reply(200, Some(Digest(b)), Some(b)))
    ensures var (s1, reply), b := Handle(s, r, Clone(id, newId), env), s.db[id].body;
      if !env.dbCommit || newId in s.db then s1 == s && reply == Reply(500, None, None)
      else Wrote(s, s1, newId, Row(b, 1), env) && reply == Reply(201, Some(Digest(b)), None)
  {
  }

  // ----- no lost updates ----------------------------------------------------------------------

  predicate Accepted(reply: Reply) {
    200 <= reply.code < 300
  }

  /**
    An update whose lock is the digest of `body` commits exactly when the row has
    that body, the change is not refused and the commit succeeds.
   */
  lemma UpdateMeetsItsLock(s: Store, r: Rules, q: Request, env: Env, body: Blueprint)
    requires IsUpdate(q) && SeesDatabase(s, q.id, env) && q.lock == Some(Digest(body))
    requires forall bp :: r.refusal(bp).Some? ==> !(200 <= r.refusal(bp).value < 300)
    ensures Accepted(Handle(s, r, q, env).1) <==>
      env.dbCommit && q.id in s.db && s.db[q.id].body == body && !EffectOn(r, q, body).Refused?
  {
  }

  /** The row that an accepted reply with a lock speaks about. */
  function TargetOf(q: Request): Id {
    match q
    case Create(newId, _, _) => newId
    case Clone(_, newId) => newId
    case _ => q.id
  }

  /**
    Every lock that a reply hands out is the digest of the row as it then stands,
    so it serves as the lock of a next update; a read needs a load that sees the
    database.  A patch hands out none.
   */
  lemma ReturnedLocksFit(s: Store, r: Rules, q: Request, env: Env)
    requires q.Get? ==> SeesDatabase(s, q.id, env)
    requires forall bp :: r.refusal(bp).Some? ==> !(200 <= r.refusal(bp).value < 300)
    ensures var (s1, reply) := Handle(s, r, q, env);
      && (reply.lock.Some? ==> TargetOf(q) in s1.db && reply.lock == Some(Digest(s1.db[TargetOf(q)].body)))
      && (reply.lock.Some? <==> Accepted(reply) && !q.Patch? && !q.Delete?)
  {
  }

  /** In a served history every load sees the database. */
  lemma {:induction false} LoadsSeeDatabase(s: Store, r: Rules, h: History, j: nat, id: Id)
    requires (Coherent(s) && CacheServes(h)) || (NoGhost(s) && DatabaseServes(h))
    requires j < |h|
    ensures SeesDatabase(Run(s, r, h[..j]), id, h[j].1)
    decreases j
  {
    hide Handle, Coherent, NoGhost, SeesDatabase;
    if j == 0 {
      if Coherent(s) && CacheServes(h) {
        CoherentAtId(s, id);
        CoherentLoadIsRight(s, id, h[0].1);
      } else {
        NoGhostAtId(s, id);
        DatabaseLoadIsRight(s, id, h[0].1);
      }
    } else {
      var (q, env) := h[0];
      if Coherent(s) && CacheServes(h) {
        CoherenceKept(s, r, q, env);
      } else {
        NoGhostKept(s, r, q, env);
      }
      assert forall i :: 0 <= i < |h[1..]| ==> h[1..][i] == h[i + 1];
      LoadsSeeDatabase(Handle(s, r, q, env).0, r, h[1..], j - 1, id);
      assert h[..j][1..] == h[1..][..j - 1];
    }
  }

  /**
    Over every served history from empty stores: an update carrying the lock that an
    earlier reply handed out is accepted exactly when the commit succeeds, the row
    has the body it had after that reply, and the change is not refused.
   */
  lemma NoLostUpdate(r: Rules, h: History, i: nat, j: nat)
    requires CacheServes(h) || DatabaseServes(h)
    requires i < j < |h| && IsUpdate(h[j].0) && h[j].0.id == TargetOf(h[i].0)
    requires forall bp :: r.refusal(bp).Some? ==> !(200 <= r.refusal(bp).value < 300)
    requires var (_, reply) := Handle(Run(EMPTY, r, h[..i]), r, h[i].0, h[i].1);
      reply.lock.Some? && h[j].0.lock == reply.lock
    ensures var id := h[j].0.id;
      var was := Handle(Run(EMPTY, r, h[..i]), r, h[i].0, h[i].1).0.db;
      var now := Run(EMPTY, r, h[..j]);
      && id in was
      && (Accepted(Handle(now, r, h[j].0, h[j].1).1) <==>
            && h[j].1.dbCommit && id in now.db && now.db[id].body == was[id].body
            && !EffectOn(r, h[j].0, was[id].body).Refused?)
  {
    hide Run, SeesDatabase, CacheServes, DatabaseServes, Handle;
    var before, now := Run(EMPTY, r, h[..i]), Run(EMPTY, r, h[..j]);
    assert Coherent(EMPTY) && NoGhost(EMPTY);
    if h[i].0.Get? {
      LoadsSeeDatabase(EMPTY, r, h, i, h[i].0.id);
    }
    LoadsSeeDatabase(EMPTY, r, h, j, h[j].0.id);
    ReturnedLocksFit(before, r, h[i].0, h[i].1);
    UpdateMeetsItsLock(now, r, h[j].0, h[j].1, Handle(before, r, h[i].0, h[i].1).0.db[h[j].0.id].body);
  }

  /** The number of updates committed to a row since it was last inserted. */
  function Updates(r: Rules, h: History, id: Id): nat
    decreases |h|
  {
    if h == [] then 0
    else
      var before := h[..|h| - 1];
      var (q, env) := h[|h| - 1];
      var s := Run(EMPTY, r, before);
      var (s1, reply) := Handle(s, r, q, env);
      if id !in s.db || id !in s1.db || ((q.Create? || q.Clone?) && q.newId == id && reply.code == 201) then 0
      else Updates(r, before, id) + (if (q.Patch? || q.Replace?) && q.id == id && reply.code == 200 then 1 else 0)
  }

  lemma {:induction false} RunAppend(s: Store, r: Rules, h: History, x: (Request, Env))
    ensures Run(s, r, h + [x]) == Handle(Run(s, r, h), r, x.0, x.1).0
    decreases |h|
  {
    hide Handle;
    if h == [] {
      assert (h + [x])[1..] == [];
    } else {
      assert (h + [x])[0] == h[0] && (h + [x])[1..] == h[1..] + [x];
      RunAppend(Handle(s, r, h[0].0, h[0].1).0, r, h[1..], x);
    }
  }

  lemma VersionStep(s: Store, r: Rules, q: Request, env: Env, id: Id)
    requires forall bp :: r.refusal(bp) != Some(200) && r.refusal(bp) != Some(201)
    ensures var (s1, reply) := Handle(s, r, q, env);
      id in s1.db ==>
        s1.db[id].lockVersion ==
          if id !in s.db || ((q.Create? || q.Clone?) && q.newId == id && reply.code == 201) then 1
          else s.db[id].lockVersion + (if (q.Patch? || q.Replace?) && q.id == id && reply.code == 200 then 1 else 0)
  {
  }

  /**
    In every history, whichever stores fail, a row's version is one more than the
    updates committed to it since it was inserted.
   */
  lemma {:induction false} StoredVersionCountsUpdates(r: Rules, h: History, id: Id)
    requires forall bp :: r.refusal(bp) != Some(200) && r.refusal(bp) != Some(201)
    ensures var s := Run(EMPTY, r, h);
      id in s.db ==> s.db[id].lockVersion == 1 + Updates(r, h, id)
    decreases |h|
  {
    hide Handle;
    if h != [] {
      var before, last := h[..|h| - 1], h[|h| - 1];
      assert h == before + [last];
      RunAppend(EMPTY, r, before, last);
      StoredVersionCountsUpdates(r, before, id);
      VersionStep(Run(EMPTY, r, before), r, last.0, last.1, id);
    }
  }

  // ----- where the guarantee ends ---------------------------------------------------------------

  /**
    An existing row is updated under a lock that is not its digest exactly when the
    database was down for the load, up for the commit, and the cache served a body
    that is not the row's.
   */
  lemma BlindUpdateExactly(s: Store, r: Rules, q: Request, env: Env)
    requires IsUpdate(q) && q.id in s.db
    requires forall bp :: EffectOn(r, q, bp).Refused? ==> !(200 <= EffectOn(r, q, bp).code < 300)
    ensures Accepted(Handle(s, r, q, env).1) && q.lock != Some(Digest(s.db[q.id].body)) <==>
      && !env.dbLoad && env.cacheRead && env.dbCommit
      && q.id in s.cache && s.cache[q.id].Json? && s.cache[q.id].body != s.db[q.id].body
      && q.lock == Some(Digest(s.cache[q.id].body))
      && !EffectOn(r, q, s.cache[q.id].body).Refused?
  {
    if q.id in s.cache && s.cache[q.id].Json? {
      assert EffectOn(r, q, s.cache[q.id].body).Refused? ==> !(200 <= EffectOn(r, q, s.cache[q.id].body).code < 300);
    }
  }

  /**
    An update is accepted on a missing row exactly when a cell answers for it, the
    lock is the cell's digest and the database takes the commit.
   */
  lemma GhostUpdateExactly(s: Store, r: Rules, q: Request, env: Env)
    requires IsUpdate(q) && q.id !in s.db
    requires forall bp :: EffectOn(r, q, bp).Refused? ==> !(200 <= EffectOn(r, q, bp).code < 300)
    ensures Accepted(Handle(s, r, q, env).1) <==>
      && env.cacheRead && env.dbCommit
      && q.id in s.cache && s.cache[q.id].Json?
      && q.lock == Some(Digest(s.cache[q.id].body))
      && !EffectOn(r, q, s.cache[q.id].body).Refused?
  {
    if q.id in s.cache && s.cache[q.id].Json? {
      assert EffectOn(r, q, s.cache[q.id].body).Refused? ==> !(200 <= EffectOn(r, q, s.cache[q.id].body).code < 300);
    }
  }

  /**
    One failed cache write and one short outage lose a committed replacement: the
    patch is accepted with the old lock and leaves nothing of the new body.
   */
  lemma StaleCacheLosesUpdate(r: Rules, id: Id, was: Blueprint, now: Blueprint, nodes: seq<NodeSpec>, n: nat)
    requires r.refusal(now) == None && PatchRefusal(r, was, Some(nodes)) == None
    ensures var s := Store(map[id := Row(was, n)], map[id := Json(was)]);
      var s1 := Handle(s, r, Replace(id, Some(Digest(was)), Some(now)), Env(true, true, true, false)).0;
      var (s2, reply) := Handle(s1, r, Patch(id, Some(Digest(was)), Some(nodes)), Env(false, true, true, true));
      Coherent(s) && s1.db[id].body == now && reply.code == 200 && s2.db == map[id := Row(Patched(was, nodes), n + 2)]
  {
    var s := Store(map[id := Row(was, n)], map[id := Json(was)]);
    var s1 := Handle(s, r, Replace(id, Some(Digest(was)), Some(now)), Env(true, true, true, false)).0;
    assert s1 == Store(map[id := Row(now, n + 1)], map[id := Json(was)]);
    var s2 := Handle(s1, r, Patch(id, Some(Digest(was)), Some(nodes)), Env(false, true, true, true)).0;
    assert s2.db == map[id := Row(Patched(was, nodes), n + 2)];
  }

  /** A row deleted while the invalidation failed comes back, with version 1, by its old lock. */
  lemma DeletedRowRevives(r: Rules, id: Id, was: Blueprint, nodes: seq<NodeSpec>, n: nat)
    requires PatchRefusal(r, was, Some(nodes)) == None
    ensures var s := Store(map[id := Row(was, n)], map[id := Json(was)]);
      var (s1, gone) := Handle(s, r, Delete(id, Some(Digest(was))), Env(true, true, true, false));
      var (s2, reply) := Handle(s1, r, Patch(id, Some(Digest(was)), Some(nodes)), Env(true, true, true, true));
      gone.code == 204 && id !in s1.db && reply.code == 200 && s2.db == map[id := Row(Patched(was, nodes), 1)]
  {
    var s := Store(map[id := Row(was, n)], map[id := Json(was)]);
    var s1 := Handle(s, r, Delete(id, Some(Digest(was))), Env(true, true, true, false)).0;
    assert s1 == Store(map[], map[id := Json(was)]);
    var s2 := Handle(s1, r, Patch(id, Some(Digest(was)), Some(nodes)), Env(true, true, true, true)).0;
    assert s2.db == map[id := Row(Patched(was, nodes), 1)];
  }

  // ----- check and commit as separate steps --------------------------------------------------------

  /** What a patch handler holds between its check and its commit. */
  function CheckPatch(s: Store, r: Rules, id: Id, lock: Option<Lock>, nodes: seq<NodeSpec>): Option<Blueprint> {
    if id !in s.db || LockError(lock, Digest(s.db[id].body)).Some? || PatchRefusal(r, s.db[id].body, Some(nodes)).Some?
    then None
    else Some(Patched(s.db[id].body, nodes))
  }

  /**
    Interleaved check, check, commit, commit: both patches pass with the same lock
    and the first one is lost without a trace but the version number.  Run one after
    the other, the second would have been refused, unless the first changed nothing.
   */
  lemma SplitHandlersLoseUpdate(s: Store, r: Rules, id: Id, p: seq<NodeSpec>, q: seq<NodeSpec>)
    requires id in s.db && r.valid(Patched(s.db[id].body, p)) && r.valid(Patched(s.db[id].body, q))
    requires r.refusal(Patched(s.db[id].body, p)) == None && r.refusal(Patched(s.db[id].body, q)) == None
    ensures var was := s.db[id].body;
      var a, b := CheckPatch(s, r, id, Some(Digest(was)), p), CheckPatch(s, r, id, Some(Digest(was)), q);
      && a == Some(Patched(was, p)) && b == Some(Patched(was, q))
      && CommitBody(CommitBody(s, id, a.value), id, b.value).db[id] == Row(Patched(was, q), s.db[id].lockVersion + 2)
      && (CheckPatch(CommitBody(s, id, a.value), r, id, Some(Digest(was)), q).Some? <==> Patched(was, p) == was)
  {
  }
}
