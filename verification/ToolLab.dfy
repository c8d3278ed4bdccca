/**
 apps/api/routers/toollab.py and libs/toollab/seed.py `bootstrap`: the tool rows in the database
 and the registry that caches them, changed together by create, toggle, delete and restart.
 */
module ToolLab {
  import opened Wrappers
  import opened Registry

  datatype User = User(sub: string, isAdmin: bool)
  datatype Payload = Payload(name: string, def: Definition, isActive: bool, isPublic: bool)

  type Rows = map<Id, Row>

  datatype Lab = Lab(rows: Rows, cache: Cache)

  // `Failed` is an uncaught exception: two active rows where one was expected, a violated
  // constraint, or a compilation error on re-activation.  `Started` is a bootstrap that went through.
  datatype Reply = Done(row: Row) | Started | BadRequest | NotFound | Forbidden | Failed

  function ActiveIds(rows: Rows, owner: string, name: string): set<Id> {
    set id | id in rows && rows[id].isActive && rows[id].owner == owner && rows[id].name == name
  }

  // The unique constraint on (owner, name, version).
  predicate VersionTaken(rows: Rows, owner: string, name: string, version: int) {
    exists id :: id in rows && rows[id].owner == owner && rows[id].name == name && rows[id].version == version
  }

  ghost function TheActive(rows: Rows, owner: string, name: string): Option<Id> {
    if ActiveIds(rows, owner, name) == {} then None
    else var id :| id in ActiveIds(rows, owner, name); Some(id)
  }

  // ------------------------------------------------------------------ the endpoints

  ghost function Create(lab: Lab, user: User, p: Payload, newId: Id, compile: Compiler): (Lab, Reply) {
    if compile(p.def, false).None? then (lab, BadRequest)
    else if |ActiveIds(lab.rows, user.sub, p.name)| > 1 then (lab, Failed)
    else
      var previous := TheActive(lab.rows, user.sub, p.name);
      var version := if previous.Some? then lab.rows[previous.value].version + 1 else 1;
      if newId in lab.rows || VersionTaken(lab.rows, user.sub, p.name, version) then (lab, Failed)
      else
        var td := Row(newId, user.sub, p.name, version, p.def, p.isActive, p.isPublic);
        var retired := if previous.Some? then lab.rows[previous.value := lab.rows[previous.value].(isActive := false)]
                       else lab.rows;
        var cache := if td.isActive then ReplaceActive(lab.cache, td, previous, compile)
                     else if previous.Some? then Unregister(lab.cache, previous.value)
                     else lab.cache;
        (Lab(retired[newId := td], cache), Done(td))
  }

  // The permission gate in front of toggle and delete; `Done` lets the request through.
  function LoadOwned(rows: Rows, user: User, id: Id): Reply {
    if id !in rows then NotFound
    else if !user.isAdmin && (rows[id].owner == SYSTEM || rows[id].owner != user.sub) then Forbidden
    else Done(rows[id])
  }

  function Toggle(lab: Lab, user: User, id: Id, active: bool, compile: Compiler): (Lab, Reply) {
    var found := LoadOwned(lab.rows, user, id);
    if !found.Done? then (lab, found)
    else
      var td := found.row.(isActive := active);
      var rows := lab.rows[id := td];
      if !active then (Lab(rows, Unregister(lab.cache, id)), Done(td))
      else (Lab(rows, Register(lab.cache, td, compile)), if CompiledOf(td, compile).Some? then Done(td) else Failed)
  }

  function Delete(lab: Lab, user: User, id: Id): (Lab, Reply) {
    var found := LoadOwned(lab.rows, user, id);
    if !found.Done? then (lab, found)
    else
      var td := found.row.(isActive := false);
      (Lab(lab.rows[id := td], Unregister(lab.cache, id)), Done(td))
  }

  // ------------------------------------------------------------------ restart

  // A seed tool, and the id its row gets if one has to be inserted.
  datatype Seed = Seed(name: string, def: Definition, newId: Id)

  function PublishSystem(rows: Rows): Rows {
    map id | id in rows :: if rows[id].owner == SYSTEM then rows[id].(isPublic := true) else rows[id]
  }

  // One seed: kept if active, inserted as version 1 if not; `None` when the database refuses.
  function SeedRow(rows: Rows, seed: Seed): Option<Rows> {
    if |ActiveIds(rows, SYSTEM, seed.name)| > 1 then None
    else if ActiveIds(rows, SYSTEM, seed.name) != {} then Some(rows)
    else if seed.newId in rows || VersionTaken(rows, SYSTEM, seed.name, 1) then None
    else Some(rows[seed.newId := SeededRow(seed)])
  }

  function SeededRow(seed: Seed): Row {
    Row(seed.newId, SYSTEM, seed.name, 1, seed.def, true, true)
  }

  function SeedRows(rows: Rows, seeds: seq<Seed>): Option<Rows>
    decreases seeds
  {
    if seeds == [] then Some(rows)
    else var next :- SeedRow(rows, seeds[0]); SeedRows(next, seeds[1..])
  }

  // Registering the active rows in the order the database returns them; errors are only logged.
  function RegisterAll(cache: Cache, rows: Rows, order: seq<Id>, compile: Compiler): Cache
    decreases order
  {
    if order == [] then cache
    else
      var id := order[0];
      var next := if id in rows && rows[id].isActive then Register(cache, rows[id], compile) else cache;
      RegisterAll(next, rows, order[1..], compile)
  }

  // The order in which the final query lists the rows of a database.
  type RowOrder = Rows -> seq<Id>

  // A fresh process's bootstrap.  When a seed is refused the registry stays empty, and the process
  // serves requests all the same.
  function Restart(rows: Rows, seeds: seq<Seed>, order: RowOrder, compile: Compiler): (Lab, Reply) {
    match SeedRows(PublishSystem(rows), seeds)
    case None => (Lab(PublishSystem(rows), EMPTY), Failed)
    case Some(seeded) => (Lab(seeded, RegisterAll(EMPTY, seeded, order(seeded), compile)), Started)
  }

  // ------------------------------------------------------------------ runs

  datatype Op =
    | CreateOp(user: User, payload: Payload, newId: Id)
    | ToggleOp(user: User, id: Id, active: bool)
    | DeleteOp(user: User, id: Id)
    | RestartOp(seeds: seq<Seed>, order: RowOrder)

  ghost function Step(lab: Lab, op: Op, compile: Compiler): (Lab, Reply) {
    match op
    case CreateOp(user, payload, newId) => Create(lab, user, payload, newId, compile)
    case ToggleOp(user, id, active) => Toggle(lab, user, id, active, compile)
    case DeleteOp(user, id) => Delete(lab, user, id)
    case RestartOp(seeds, order) => Restart(lab.rows, seeds, order, compile)
  }

  ghost function RunOps(lab: Lab, ops: seq<Op>, compile: Compiler): Lab
    decreases |ops|
  {
    if ops == [] then lab else RunOps(Step(lab, ops[0], compile).0, ops[1..], compile)
  }

  // ------------------------------------------------------------------ the service

  class ToolService {
    const compile: Compiler
    const registry: ToolRegistry
    var rows: Rows

    constructor (compile: Compiler)
      ensures this.compile == compile && registry.compile == compile && fresh(registry)
      ensures Value() == Lab(map[], EMPTY)
    {
      this.compile := compile;
      registry := new ToolRegistry(compile);
      rows := map[];
    }

    function Value(): Lab
      reads this, registry
    {
      Lab(rows, registry.Value())
    }

    method CreateTool(user: User, p: Payload, newId: Id) returns (reply: Reply)
      requires registry.compile == compile
      modifies this, registry
      ensures (Value(), reply) == Create(old(Value()), user, p, newId, compile)
    {
      if compile(p.def, false).None? { return BadRequest; }
      var existing := ActiveIds(rows, user.sub, p.name);
      if |existing| > 1 { return Failed; }
      var version, previous: Option<Id>, retired := 1, None, rows;
      if existing != {} {
        var id :| id in existing;
        OnlyActive(rows, user.sub, p.name, id);
        previous, version, retired := Some(id), rows[id].version + 1, rows[id := rows[id].(isActive := false)];
      }
      if newId in rows || VersionTaken(rows, user.sub, p.name, version) { return Failed; }
      var td := Row(newId, user.sub, p.name, version, p.def, p.isActive, p.isPublic);
      rows := retired[newId := td];
      if td.isActive {
        var _ := registry.ReplaceTool(td, previous);
      } else if previous.Some? {
        registry.UnregisterTool(previous.value);
      }
      return Done(td);
    }

    method ToggleActive(user: User, id: Id, active: bool) returns (reply: Reply)
      requires registry.compile == compile
      modifies this, registry
      ensures (Value(), reply) == Toggle(old(Value()), user, id, active, compile)
    {
      reply := LoadOwned(rows, user, id);
      if !reply.Done? { return; }
      var td := reply.row.(isActive := active);
      rows := rows[id := td];
      reply := Done(td);
      if active {
        var compiled := registry.RegisterTool(td);
        if compiled.None? { return Failed; }
      } else {
        registry.UnregisterTool(id);
      }
    }

    method DeleteTool(user: User, id: Id) returns (reply: Reply)
      modifies this, registry
      ensures (Value(), reply) == Delete(old(Value()), user, id)
    {
      reply := LoadOwned(rows, user, id);
      if !reply.Done? { return; }
      var td := reply.row.(isActive := false);
      rows := rows[id := td];
      registry.UnregisterTool(id);
      return Done(td);
    }

    method Bootstrap(seeds: seq<Seed>, order: RowOrder) returns (reply: Reply)
      requires registry.compile == compile && registry.Value() == EMPTY
      modifies this, registry
      ensures (Value(), reply) == Restart(old(rows), seeds, order, compile)
    {
      rows := PublishSystem(rows);
      var pending := rows;
      for n := 0 to |seeds|
        invariant SeedRows(rows, seeds) == SeedRows(pending, seeds[n..])
        invariant rows == PublishSystem(old(rows)) && registry.Value() == EMPTY
      {
        assert seeds[n..][1..] == seeds[n + 1..];
        var next := SeedRow(pending, seeds[n]);
        if next.None? { return Failed; }
        pending := next.value;
      }
      rows := pending;
      var ids := order(rows);
      for n := 0 to |ids|
        invariant rows == pending
        invariant RegisterAll(EMPTY, rows, ids, compile) == RegisterAll(registry.Value(), rows, ids[n..], compile)
      {
        assert ids[n..][1..] == ids[n + 1..];
        if ids[n] in rows && rows[ids[n]].isActive {
          var _ := registry.RegisterTool(rows[ids[n]]);
        }
      }
      return Started;
    }
  }

  lemma {:induction false} OnlyActive(rows: Rows, owner: string, name: string, id: Id)
    requires |ActiveIds(rows, owner, name)| <= 1 && id in ActiveIds(rows, owner, name)
    ensures TheActive(rows, owner, name) == Some(id)
  {
    var other := TheActive(rows, owner, name).value;
    if other != id {
      assert {id, other} <= ActiveIds(rows, owner, name);
      CardinalityOfSubset({id, other}, ActiveIds(rows, owner, name));
    }
  }

  lemma {:induction false} CardinalityOfSubset<T>(a: set<T>, b: set<T>)
    requires a <= b
    ensures |a| <= |b|
  {
    assert |b - a| == |b| - |a| by { assert b == a + (b - a); }
  }
}
