/**
 libs/toollab/registry.py: the cache of compiled tools, as the two maps it keeps.

 The operations are first given as functions on the cache's value; class ToolRegistry is the
 mutable object, and each of its methods is proved to do exactly that to its fields.
 */
module Registry {
  import opened Wrappers
  import opened JsonSchema
  import Sorting

  type Id = nat      // a tool's UUID
  type Code = nat    // a compiled handler

  const SYSTEM := "system"

  datatype Definition = Definition(description: string, parameters: Schema, output: Schema, code: string)

  // A row of `tool_definitions`.
  datatype Row = Row(id: Id, owner: string, name: string, version: int, def: Definition, isActive: bool, isPublic: bool)

  // The cached form.  The tool dictionary handed to the LLM is determined by `name` and `def`.
  datatype Tool = Tool(id: Id, owner: string, name: string, version: int, handler: Code, def: Definition,
                       isPublic: bool) {
    predicate VisibleTo(user: string) {
      owner == SYSTEM || owner == user || isPublic
    }

    function Key(): (string, string) {
      (owner, name)
    }
  }

  // Compilation is deterministic; the flag says whether the system extras are in scope.
  type Compiler = (Definition, bool) -> Option<Code>

  function CompiledOf(td: Row, compile: Compiler): Option<Tool> {
    var handler :- compile(td.def, td.owner == SYSTEM);
    Some(Tool(td.id, td.owner, td.name, td.version, handler, td.def, td.isPublic))
  }

  // `order` is the iteration order of the dictionary `byId`.
  datatype Cache = Cache(byId: map<Id, Tool>, order: seq<Id>, byOwnerName: map<(string, string), Id>)

  const EMPTY := Cache(map[], [], map[])

  // ------------------------------------------------------------------ mutation

  function Install(c: Cache, t: Tool): Cache {
    Cache(c.byId[t.id := t], if t.id in c.byId then c.order else c.order + [t.id], c.byOwnerName[t.Key() := t.id])
  }

  function Without(order: seq<Id>, id: Id): seq<Id> {
    if order == [] then [] else (if order[0] == id then [] else [order[0]]) + Without(order[1..], id)
  }

  function Pop(c: Cache, id: Id): Cache {
    c.(byId := c.byId - {id}, order := Without(c.order, id))
  }

  // A failed compilation raises before anything is written.
  function Register(c: Cache, td: Row, compile: Compiler): Cache {
    match CompiledOf(td, compile)
    case Some(t) => Install(c, t)
    case None => c
  }

  function ReplaceActive(c: Cache, td: Row, previous: Option<Id>, compile: Compiler): Cache {
    if CompiledOf(td, compile).None? then c
    else if previous.Some? && previous.value != td.id then Pop(Register(c, td, compile), previous.value)
    else Register(c, td, compile)
  }

  function Unregister(c: Cache, id: Id): Cache {
    if id !in c.byId then c
    else
      var key := c.byId[id].Key();
      var popped := Pop(c, id);
      if key in c.byOwnerName && c.byOwnerName[key] == id then popped.(byOwnerName := c.byOwnerName - {key}) else popped
  }

  // ------------------------------------------------------------------ reading

  function Snapshot(c: Cache, order: seq<Id>): seq<Tool> {
    if order == [] then []
    else (if order[0] in c.byId then [c.byId[order[0]]] else []) + Snapshot(c, order[1..])
  }

  function Select(ts: seq<Tool>, user: string, wanted: Option<set<Id>>): seq<Tool> {
    if ts == [] then []
    else (if (wanted.None? || ts[0].id in wanted.value) && ts[0].VisibleTo(user) then [ts[0]] else [])
         + Select(ts[1..], user, wanted)
  }

  lemma {:induction false} SelectAt(ts: seq<Tool>, n: nat, user: string, wanted: Option<set<Id>>, before: seq<Tool>)
    requires n < |ts|
    ensures before + Select(ts[n..], user, wanted)
         == before + (if (wanted.None? || ts[n].id in wanted.value) && ts[n].VisibleTo(user) then [ts[n]] else [])
            + Select(ts[n + 1..], user, wanted)
  {
    assert ts[n..][0] == ts[n] && ts[n..][1..] == ts[n + 1..];
  }

  predicate NameLe(a: Tool, b: Tool) {
    Sorting.StrLe(a.name, b.name)
  }

  function ListForUser(c: Cache, user: string, wanted: Option<set<Id>>, cap: nat): seq<Tool> {
    var selected := Select(Snapshot(c, c.order), user, wanted);
    Sorting.Sort(if |selected| <= cap then selected else selected[..cap], NameLe)
  }

  function FirstPublic(ts: seq<Tool>, name: string): Option<Tool> {
    if ts == [] then None
    else if ts[0].name == name && ts[0].isPublic then Some(ts[0])
    else FirstPublic(ts[1..], name)
  }

  function Lookup(c: Cache, owner: string, name: string): Option<Tool> {
    if (owner, name) in c.byOwnerName && c.byOwnerName[(owner, name)] in c.byId
    then Some(c.byId[c.byOwnerName[(owner, name)]]) else None
  }

  function Resolve(c: Cache, name: string, user: string): Option<Tool> {
    if Lookup(c, user, name).Some? then Lookup(c, user, name)
    else if (SYSTEM, name) in c.byOwnerName then Lookup(c, SYSTEM, name)
    else FirstPublic(Snapshot(c, c.order), name)
  }

  // ------------------------------------------------------------------ execution

  datatype ExecResult = Ok(result: Json) | Error(kind: string, message: string)

  // What the sandbox makes of running a handler; the result is then checked against `returns`
  // (the text of the validator's complaint is left empty).
  type Sandbox = (Code, map<string, Json>) -> ExecResult

  function Execute(c: Cache, name: string, args: map<string, Json>, user: string, run: Sandbox): ExecResult {
    match Resolve(c, name, user)
    case None => Error("tool_not_found", "not visible to user")
    case Some(t) =>
      var r := run(t.handler, args);
      if r.Error? then r
      else if !ValidDocument(t.def.output) then Error("return_schema_broken", "")
      else if !Accepts(t.def.output, r.result) then Error("return_schema_invalid", "")
      else r
  }

  // ------------------------------------------------------------------ the object

  class ToolRegistry {
    const compile: Compiler
    var byId: map<Id, Tool>
    var order: seq<Id>
    var byOwnerName: map<(string, string), Id>

    constructor (compile: Compiler)
      ensures this.compile == compile && Value() == EMPTY
    {
      this.compile := compile;
      byId, order, byOwnerName := map[], [], map[];
    }

    function Value(): Cache
      reads this
    {
      Cache(byId, order, byOwnerName)
    }

    // Yields None where the source raises.
    method RegisterTool(td: Row) returns (compiled: Option<Tool>)
      modifies this
      ensures compiled == CompiledOf(td, compile)
      ensures Value() == Register(old(Value()), td, compile)
    {
      var handler := compile(td.def, td.owner == SYSTEM);
      if handler.None? { return None; }
      var t := Tool(td.id, td.owner, td.name, td.version, handler.value, td.def, td.isPublic);
      if t.id !in byId { order := order + [t.id]; }
      byId := byId[t.id := t];
      byOwnerName := byOwnerName[(td.owner, td.name) := td.id];
      return Some(t);
    }

    method PopId(id: Id)
      modifies this`byId, this`order
      ensures Value() == Pop(old(Value()), id)
    {
      byId := byId - {id};
      order := Without(order, id);
    }

    method ReplaceTool(td: Row, previous: Option<Id>) returns (compiled: Option<Tool>)
      modifies this
      ensures compiled == CompiledOf(td, compile)
      ensures Value() == ReplaceActive(old(Value()), td, previous, compile)
    {
      compiled := RegisterTool(td);
      if compiled.Some? && previous.Some? && previous.value != td.id { PopId(previous.value); }
    }

    method UnregisterTool(id: Id)
      modifies this
      ensures Value() == Unregister(old(Value()), id)
    {
      if id in byId {
        var key := byId[id].Key();
        PopId(id);
        if key in byOwnerName && byOwnerName[key] == id { byOwnerName := byOwnerName - {key}; }
      }
    }

    method ListTools(user: string, wanted: Option<set<Id>>, cap: nat) returns (tools: seq<Tool>)
      ensures tools == ListForUser(Value(), user, wanted, cap)
    {
      var snapshot := Snapshot(Value(), order);
      tools := VisibleTools(snapshot, user, wanted);
      if cap < |tools| { tools := tools[..cap]; }
      tools := Sorting.Sort(tools, NameLe);
    }

    method VisibleTools(snapshot: seq<Tool>, user: string, wanted: Option<set<Id>>) returns (tools: seq<Tool>)
      ensures tools == Select(snapshot, user, wanted)
    {
      tools := [];
      for n := 0 to |snapshot|
        invariant tools + Select(snapshot[n..], user, wanted) == Select(snapshot, user, wanted)
      {
        var t := snapshot[n];
        SelectAt(snapshot, n, user, wanted, tools);
        if (wanted.None? || t.id in wanted.value) && t.VisibleTo(user) { tools := tools + [t]; }
      }
      assert snapshot[|snapshot|..] == [];
    }

    method ResolveForUser(name: string, user: string) returns (t: Option<Tool>)
      ensures t == Resolve(Value(), name, user)
    {
      if (user, name) in byOwnerName && byOwnerName[(user, name)] in byId {
        return Some(byId[byOwnerName[(user, name)]]);
      }
      if (SYSTEM, name) in byOwnerName {
        var id := byOwnerName[(SYSTEM, name)];
        return if id in byId then Some(byId[id]) else None;
      }
      var snapshot := Snapshot(Value(), order);
      for n := 0 to |snapshot|
        invariant FirstPublic(snapshot, name) == FirstPublic(snapshot[n..], name)
      {
        assert snapshot[n..][1..] == snapshot[n + 1..];
        if snapshot[n].name == name && snapshot[n].isPublic { return Some(snapshot[n]); }
      }
      return None;
    }
  }
}
