/**
 The cache agrees with the database over every run of the endpoints and restarts, calls not
 overlapping, and what a successful call means to readers.
 */
module ToolLabTheorems {
  import opened Wrappers
  import opened Registry
  import opened RegistryTheorems
  import opened ToolLab
  import opened LabInvariants
  import opened RestartTheorems

  ghost predicate Legal(op: Op, compile: Compiler) {
    op.RestartOp? ==> ListsActive(op.order) && forall s :: s in op.seeds ==> compile(s.def, true).Some?
  }

  // A restart that failed leaves an empty cache behind; every other step keeps what it found.
  lemma {:induction false} StepTracks(lab: Lab, op: Op, compile: Compiler)
    requires ExtrasOnlyAdd(compile) && Legal(op, compile) && Tracks(lab, compile)
    ensures Tracks(Step(lab, op, compile).0, compile)
    ensures !op.RestartOp? ==> Follows(lab, Step(lab, op, compile).0, compile)
  {
    match op
    case CreateOp(user, payload, newId) => CreateFollows(lab, user, payload, newId, compile);
    case ToggleOp(user, id, active) =>
      if LoadOwned(lab.rows, user, id).Done? {
        if active { ActivateFollows(lab, id, compile); } else { DeactivateFollows(lab, id, compile); }
      }
    case DeleteOp(user, id) =>
      if LoadOwned(lab.rows, user, id).Done? { DeactivateFollows(lab, id, compile); }
    case RestartOp(seeds, order) => RestartAgreesIff(lab.rows, seeds, order, compile);
  }

  // Over every run, failed restarts included, no cached tool is stale and the index is sound.
  lemma {:induction false} RunTracks(lab: Lab, ops: seq<Op>, compile: Compiler)
    requires ExtrasOnlyAdd(compile) && Tracks(lab, compile)
    requires forall i :: 0 <= i < |ops| ==> Legal(ops[i], compile)
    ensures Tracks(RunOps(lab, ops, compile), compile)
    decreases |ops|
  {
    if ops != [] {
      StepTracks(lab, ops[0], compile);
      RunTracks(Step(lab, ops[0], compile).0, ops[1..], compile);
    }
  }

  lemma {:induction false} StepAgrees(lab: Lab, op: Op, compile: Compiler)
    requires ExtrasOnlyAdd(compile) && Legal(op, compile) && Agree(lab, compile)
    requires op.RestartOp? ==> Step(lab, op, compile).1.Started?
    ensures Agree(Step(lab, op, compile).0, compile)
  {
    StepTracks(lab, op, compile);
    if op.RestartOp? { RestartAgreesIff(lab.rows, op.seeds, op.order, compile); }
  }

  // Every operation is legal when its turn comes, and every restart goes through.
  ghost predicate Orderly(lab: Lab, ops: seq<Op>, compile: Compiler)
    decreases |ops|
  {
    ops != [] ==>
      && Legal(ops[0], compile) && (ops[0].RestartOp? ==> Step(lab, ops[0], compile).1.Started?)
      && Orderly(Step(lab, ops[0], compile).0, ops[1..], compile)
  }

  // After any sequence of endpoint calls and restarts the cache is the compilation of the active rows.
  lemma {:induction false} RunAgrees(lab: Lab, ops: seq<Op>, compile: Compiler)
    requires ExtrasOnlyAdd(compile) && Agree(lab, compile) && Orderly(lab, ops, compile)
    ensures Agree(RunOps(lab, ops, compile), compile)
    decreases |ops|
  {
    if ops != [] {
      StepAgrees(lab, ops[0], compile);
      RunAgrees(Step(lab, ops[0], compile).0, ops[1..], compile);
    }
  }

  // An endpoint that does not answer `Done` has changed neither side.
  lemma {:induction false} RejectedChangesNothing(lab: Lab, op: Op, compile: Compiler)
    requires ExtrasOnlyAdd(compile) && Tracks(lab, compile)
    requires !op.RestartOp? && !Step(lab, op, compile).1.Done?
    ensures Step(lab, op, compile).0 == lab
  {
    if op.ToggleOp? && op.id in lab.rows { SetActiveKeepsRows(lab.rows, op.id, op.active, compile); }
  }

  // ------------------------------------------------------------------ the name index

  lemma {:induction false} InstallComplete(c: Cache, t: Tool)
    requires WellFormed(c) && IndexComplete(c)
    requires forall id :: id in c.byId && c.byId[id].Key() == t.Key() ==> id == t.id
    ensures IndexComplete(Install(c, t))
  {
  }

  lemma {:induction false} ReplaceComplete(c: Cache, td: Row, previous: Id, compile: Compiler)
    requires WellFormed(c) && IndexSound(c) && IndexComplete(c) && CompiledOf(td, compile).Some?
    requires td.id !in c.byId && previous in c.byId && c.byId[previous].Key() == (td.owner, td.name)
    ensures IndexComplete(ReplaceActive(c, td, Some(previous), compile))
  {
    ReplaceKeeps(c, td, previous, compile);
    var after := ReplaceActive(c, td, Some(previous), compile);
    forall id | id in after.byId
      ensures after.byId[id].Key() in after.byOwnerName && after.byOwnerName[after.byId[id].Key()] == id
    {
      if id != td.id { assert c.byOwnerName[c.byId[id].Key()] == id; }
    }
  }

  lemma {:induction false} CreateComplete(lab: Lab, user: User, p: Payload, newId: Id, compile: Compiler)
    requires ExtrasOnlyAdd(compile) && Agree(lab, compile) && IndexComplete(lab.cache)
    ensures IndexComplete(Create(lab, user, p, newId, compile).0.cache)
  {
    var (after, reply) := Create(lab, user, p, newId, compile);
    if reply.Done? {
      var td := reply.row;
      NewRowCompiles(p.def, td, compile);
      var previous := TheActive(lab.rows, user.sub, p.name);
      if previous.Some? {
        CachedKey(lab.rows, lab.cache, previous.value, compile);
        if td.isActive {
          ReplaceComplete(lab.cache, td, previous.value, compile);
        } else {
          UnregisterKeeps(lab.cache, previous.value);
        }
      } else if td.isActive {
        forall id | id in lab.cache.byId ensures lab.cache.byId[id].Key() != (td.owner, td.name) {
          CachedKey(lab.rows, lab.cache, id, compile);
          assert id !in ActiveIds(lab.rows, user.sub, p.name);
        }
        InstallComplete(lab.cache, CompiledOf(td, compile).value);
      }
    }
  }

  lemma {:induction false} ActivateComplete(lab: Lab, id: Id, compile: Compiler)
    requires Agree(lab, compile) && IndexComplete(lab.cache) && id in lab.rows
    requires SingleActive(lab.rows[id := lab.rows[id].(isActive := true)])
    ensures IndexComplete(Register(lab.cache, lab.rows[id].(isActive := true), compile))
  {
    var td := lab.rows[id].(isActive := true);
    var after := lab.rows[id := td];
    SetActiveKeepsRows(lab.rows, id, true, compile);
    forall other | other in lab.cache.byId && other != id ensures lab.cache.byId[other].Key() != (td.owner, td.name) {
      CachedKey(lab.rows, lab.cache, other, compile);
      assert after[other].isActive && after[id].isActive;
    }
    InstallComplete(lab.cache, CompiledOf(td, compile).value);
  }

  lemma {:induction false} SingleStepComplete(lab: Lab, op: Op, compile: Compiler)
    requires ExtrasOnlyAdd(compile) && Agree(lab, compile) && IndexComplete(lab.cache) && !op.RestartOp?
    requires SingleActive(Step(lab, op, compile).0.rows)
    ensures IndexComplete(Step(lab, op, compile).0.cache)
  {
    match op
    case CreateOp(user, payload, newId) => CreateComplete(lab, user, payload, newId, compile);
    case ToggleOp(user, id, active) =>
      if LoadOwned(lab.rows, user, id).Done? {
        if active { ActivateComplete(lab, id, compile); } else { UnregisterKeeps(lab.cache, id); }
      }
    case DeleteOp(user, id) => UnregisterKeeps(lab.cache, id);
  }

  lemma {:induction false} EndpointComplete(lab: Lab, op: Op, after: Lab, compile: Compiler)
    requires ExtrasOnlyAdd(compile) && Agree(lab, compile) && IndexComplete(lab.cache) && !op.RestartOp?
    requires after == Step(lab, op, compile).0 && Agree(after, compile)
    ensures IndexComplete(after.cache) <==> SingleActive(after.rows)
  {
    if SingleActive(after.rows) { SingleStepComplete(lab, op, compile); }
    if IndexComplete(after.cache) { CompleteMeansSingle(after, compile); }
  }

  // A step keeps the index complete exactly when it leaves no owner two active versions of a name.
  lemma {:induction false} StepComplete(lab: Lab, op: Op, compile: Compiler)
    requires ExtrasOnlyAdd(compile) && Legal(op, compile) && Agree(lab, compile) && IndexComplete(lab.cache)
    requires op.RestartOp? ==> Step(lab, op, compile).1.Started?
    ensures IndexComplete(Step(lab, op, compile).0.cache) <==> SingleActive(Step(lab, op, compile).0.rows)
  {
    if op.RestartOp? {
      RestartAgreesIff(lab.rows, op.seeds, op.order, compile);
    } else {
      StepAgrees(lab, op, compile);
      EndpointComplete(lab, op, Step(lab, op, compile).0, compile);
    }
  }

  ghost predicate AlwaysSingle(lab: Lab, ops: seq<Op>, compile: Compiler)
    decreases |ops|
  {
    SingleActive(lab.rows) && (ops != [] ==> AlwaysSingle(Step(lab, ops[0], compile).0, ops[1..], compile))
  }

  ghost predicate AlwaysComplete(lab: Lab, ops: seq<Op>, compile: Compiler)
    decreases |ops|
  {
    IndexComplete(lab.cache) && (ops != [] ==> AlwaysComplete(Step(lab, ops[0], compile).0, ops[1..], compile))
  }

  // The two maps stay in bijection throughout a run exactly when no state of it has two active
  // versions of one name.
  lemma {:induction false} RunComplete(lab: Lab, ops: seq<Op>, compile: Compiler)
    requires ExtrasOnlyAdd(compile) && Agree(lab, compile) && IndexComplete(lab.cache) && Orderly(lab, ops, compile)
    ensures AlwaysComplete(lab, ops, compile) <==> AlwaysSingle(lab, ops, compile)
    decreases |ops|
  {
    CompleteMeansSingle(lab, compile);
    if ops != [] {
      var next := Step(lab, ops[0], compile).0;
      StepAgrees(lab, ops[0], compile);
      StepComplete(lab, ops[0], compile);
      if IndexComplete(next.cache) { RunComplete(next, ops[1..], compile); }
    }
  }

  // ------------------------------------------------------------------ where a name leads

  type Key = (string, string)

  function KeyOf(td: Row): Key {
    (td.owner, td.name)
  }

  // The version of a name that was registered last, by being created active, switched on, or listed
  // by a bootstrap.
  ghost function Registered(lab: Lab, op: Op, last: Option<Id>, key: Key, compile: Compiler): Option<Id> {
    var (after, reply) := Step(lab, op, compile);
    match op
    case CreateOp(_, p, _) => if reply.Done? && p.isActive && KeyOf(reply.row) == key then Some(reply.row.id) else last
    case ToggleOp(_, id, active) => if reply.Done? && active && KeyOf(reply.row) == key then Some(id) else last
    case DeleteOp(_, _) => last
    case RestartOp(_, order) => if reply.Started? then LastListed(after.rows, order(after.rows), key) else None
  }

  ghost function LastRegistered(lab: Lab, ops: seq<Op>, last: Option<Id>, key: Key, compile: Compiler): Option<Id>
    decreases |ops|
  {
    if ops == [] then last
    else
      var next := Registered(lab, ops[0], last, key, compile);
      LastRegistered(Step(lab, ops[0], compile).0, ops[1..], next, key, compile)
  }

  // The name leads to the version registered last as long as that is active, and nowhere otherwise.
  ghost predicate LeadsTo(lab: Lab, last: Option<Id>, key: Key) {
    && (last.Some? ==> last.value in lab.rows && KeyOf(lab.rows[last.value]) == key)
    && EntryOf(lab.cache, key) == (if last.Some? && lab.rows[last.value].isActive then last else None)
  }

  lemma {:induction false} RetiredLeads(lab: Lab, id: Id, last: Option<Id>, key: Key, compile: Compiler)
    requires Tracks(lab, compile) && id in lab.rows && LeadsTo(lab, last, key)
    ensures LeadsTo(Retired(lab, id), last, key)
  {
    if id in lab.cache.byId { CachedKey(lab.rows, lab.cache, id, compile); }
    assert EntryOf(lab.cache, key) == Some(id) ==> id in lab.cache.byId && lab.cache.byId[id].Key() == key;
  }

  lemma {:induction false} AddedLeads(lab: Lab, td: Row, cache: Cache, last: Option<Id>, key: Key)
    requires LeadsTo(lab, last, key) && td.id !in lab.rows
    requires EntryOf(cache, key) == if td.isActive && KeyOf(td) == key then Some(td.id) else EntryOf(lab.cache, key)
    ensures var next := if td.isActive && KeyOf(td) == key then Some(td.id) else last;
            LeadsTo(Lab(lab.rows[td.id := td], cache), next, key)
  {
  }

  lemma {:induction false} ReplacedLeads(lab: Lab, td: Row, previous: Id, last: Option<Id>, key: Key, compile: Compiler)
    requires LeadsTo(lab, last, key) && td.id !in lab.rows && td.isActive && CompiledOf(td, compile).Some?
    requires previous in lab.rows && KeyOf(lab.rows[previous]) == KeyOf(td)
    ensures var rows := lab.rows[previous := lab.rows[previous].(isActive := false)][td.id := td];
            LeadsTo(Lab(rows, ReplaceActive(lab.cache, td, Some(previous), compile)),
                    if KeyOf(td) == key then Some(td.id) else last, key)
  {
    RegisterEntries(lab.cache, td, compile);
    assert ReplaceActive(lab.cache, td, Some(previous), compile).byOwnerName
        == Register(lab.cache, td, compile).byOwnerName;
  }

  lemma {:induction false} CreateLeads(lab: Lab, user: User, p: Payload, newId: Id, last: Option<Id>, key: Key,
                                       compile: Compiler)
    requires ExtrasOnlyAdd(compile) && Tracks(lab, compile) && LeadsTo(lab, last, key)
    ensures var op := CreateOp(user, p, newId);
            LeadsTo(Step(lab, op, compile).0, Registered(lab, op, last, key, compile), key)
  {
    var (after, reply) := Create(lab, user, p, newId, compile);
    if reply.Done? {
      var td := reply.row;
      NewRowCompiles(p.def, td, compile);
      var previous := TheActive(lab.rows, user.sub, p.name);
      if previous.None? {
        if td.isActive { RegisterEntries(lab.cache, td, compile); }
        AddedLeads(lab, td, after.cache, last, key);
      } else if td.isActive {
        ReplacedLeads(lab, td, previous.value, last, key, compile);
      } else {
        RetiredLeads(lab, previous.value, last, key, compile);
        AddedLeads(Retired(lab, previous.value), td, after.cache, last, key);
      }
    }
  }

  lemma {:induction false} ActivatedLeads(lab: Lab, id: Id, last: Option<Id>, key: Key, compile: Compiler)
    requires Tracks(lab, compile) && id in lab.rows && LeadsTo(lab, last, key)
    ensures var td := lab.rows[id].(isActive := true);
            && CompiledOf(td, compile).Some?
            && LeadsTo(Lab(lab.rows[id := td], Register(lab.cache, td, compile)),
                       if KeyOf(td) == key then Some(id) else last, key)
  {
    SetActiveKeepsRows(lab.rows, id, true, compile);
    RegisterEntries(lab.cache, lab.rows[id].(isActive := true), compile);
  }

  lemma {:induction false} StepLeads(lab: Lab, op: Op, last: Option<Id>, key: Key, compile: Compiler)
    requires ExtrasOnlyAdd(compile) && Legal(op, compile) && Tracks(lab, compile) && LeadsTo(lab, last, key)
    ensures LeadsTo(Step(lab, op, compile).0, Registered(lab, op, last, key, compile), key)
  {
    match op
    case CreateOp(user, p, newId) => CreateLeads(lab, user, p, newId, last, key, compile);
    case ToggleOp(user, id, active) =>
      if LoadOwned(lab.rows, user, id).Done? {
        if active {
          ActivatedLeads(lab, id, last, key, compile);
        } else {
          RetiredLeads(lab, id, last, key, compile);
        }
      }
    case DeleteOp(user, id) =>
      if LoadOwned(lab.rows, user, id).Done? { RetiredLeads(lab, id, last, key, compile); }
    case RestartOp(seeds, order) => RestartLeads(lab, seeds, order, last, key, compile);
  }

  lemma {:induction false} RestartLeads(lab: Lab, seeds: seq<Seed>, order: RowOrder, last: Option<Id>, key: Key,
                                        compile: Compiler)
    requires Legal(RestartOp(seeds, order), compile) && Tracks(lab, compile)
    ensures var op := RestartOp(seeds, order);
            LeadsTo(Step(lab, op, compile).0, Registered(lab, op, last, key, compile), key)
  {
    var published := PublishSystem(lab.rows);
    PublishKeepsRows(lab.rows, compile);
    if SeedRows(published, seeds).Some? {
      var rows := SeedRows(published, seeds).value;
      SeedsKeepRows(published, seeds, compile);
      RebuiltLeads(rows, order(rows), key, compile);
    }
  }

  lemma {:induction false} RebuiltLeads(rows: Rows, order: seq<Id>, key: Key, compile: Compiler)
    requires RowsWellFormed(rows, compile) && forall id :: id in rows && rows[id].isActive ==> id in order
    ensures LeadsTo(Lab(rows, RegisterAll(EMPTY, rows, order, compile)), LastListed(rows, order, key), key)
  {
    RebuiltAgrees(rows, order, compile);
    LastListedFinds(rows, order, key);
  }

  lemma {:induction false} RunLeads(lab: Lab, ops: seq<Op>, last: Option<Id>, key: Key, compile: Compiler)
    requires ExtrasOnlyAdd(compile) && Tracks(lab, compile) && LeadsTo(lab, last, key)
    requires forall i :: 0 <= i < |ops| ==> Legal(ops[i], compile)
    ensures LeadsTo(RunOps(lab, ops, compile), LastRegistered(lab, ops, last, key, compile), key)
    decreases |ops|
  {
    if ops != [] {
      StepTracks(lab, ops[0], compile);
      StepLeads(lab, ops[0], last, key, compile);
      RunLeads(Step(lab, ops[0], compile).0, ops[1..], Registered(lab, ops[0], last, key, compile), key, compile);
    }
  }

  // After any run from nothing, the index leads from a name to an active version if and only if
  // that version was registered last; so a sole active version is out of reach exactly when another
  // was registered after it.
  lemma {:induction false} NameLeadsToLastRegistered(ops: seq<Op>, id: Id, compile: Compiler)
    requires ExtrasOnlyAdd(compile) && forall i :: 0 <= i < |ops| ==> Legal(ops[i], compile)
    requires id in RunOps(Lab(map[], EMPTY), ops, compile).rows
    requires RunOps(Lab(map[], EMPTY), ops, compile).rows[id].isActive
    ensures var end := RunOps(Lab(map[], EMPTY), ops, compile); var key := KeyOf(end.rows[id]);
            EntryOf(end.cache, key) == Some(id) <==>
            LastRegistered(Lab(map[], EMPTY), ops, None, key, compile) == Some(id)
  {
    var start := Lab(map[], EMPTY);
    RunLeads(start, ops, None, KeyOf(RunOps(start, ops, compile).rows[id]), compile);
  }

  // ------------------------------------------------------------------ what a success means

  // A successful create adds one row with the payload's data, one version above the active row it
  // retires if there was one, and touches no other row.
  lemma {:induction false} CreateEffect(lab: Lab, user: User, p: Payload, newId: Id, compile: Compiler)
    requires Create(lab, user, p, newId, compile).1.Done?
    ensures var (after, reply) := Create(lab, user, p, newId, compile);
            var td := reply.row; var before := ActiveIds(lab.rows, user.sub, p.name);
            && newId !in lab.rows && after.rows.Keys == lab.rows.Keys + {newId} && after.rows[newId] == td
            && td.id == newId && td.owner == user.sub && td.name == p.name && td.def == p.def
            && td.isActive == p.isActive && td.isPublic == p.isPublic
            && (before == {} ==> td.version == 1)
            && (forall id :: id in before ==>
                  td.version == lab.rows[id].version + 1 && after.rows[id] == lab.rows[id].(isActive := false))
            && (forall id :: id in lab.rows && id !in before ==> after.rows[id] == lab.rows[id])
            && ActiveIds(after.rows, user.sub, p.name) == (if p.isActive then {newId} else {})
  {
    var before := ActiveIds(lab.rows, user.sub, p.name);
    forall id | id in before ensures TheActive(lab.rows, user.sub, p.name) == Some(id) {
      OnlyActive(lab.rows, user.sub, p.name, id);
    }
  }

  // After a successful active create the owner's name resolves to the new version.
  lemma {:induction false} CreateThenResolve(lab: Lab, user: User, p: Payload, newId: Id, compile: Compiler)
    requires ExtrasOnlyAdd(compile) && Agree(lab, compile)
    requires Create(lab, user, p, newId, compile).1.Done? && p.isActive
    ensures var (after, reply) := Create(lab, user, p, newId, compile);
            Resolve(after.cache, p.name, user.sub) == CompiledOf(reply.row, compile)
  {
    var (after, reply) := Create(lab, user, p, newId, compile);
    CreateFollows(lab, user, p, newId, compile);
    NewRowCompiles(p.def, reply.row, compile);
    assert after.cache.byOwnerName[(user.sub, p.name)] == newId;
  }

  // Switching a version on makes its owner's name resolve to it.
  lemma {:induction false} ToggleThenResolve(lab: Lab, user: User, id: Id, compile: Compiler)
    requires Agree(lab, compile) && Toggle(lab, user, id, true, compile).1.Done?
    ensures var (after, reply) := Toggle(lab, user, id, true, compile);
            Resolve(after.cache, reply.row.name, reply.row.owner) == CompiledOf(reply.row, compile)
  {
  }

  // A deleted tool is gone from every reader's view.
  lemma {:induction false} DeleteThenGone(lab: Lab, user: User, id: Id, name: string, reader: string, compile: Compiler)
    requires Agree(lab, compile) && Delete(lab, user, id).1.Done?
    ensures var after := Delete(lab, user, id).0;
            && id !in after.cache.byId && !after.rows[id].isActive
            && (Resolve(after.cache, name, reader).Some? ==> Resolve(after.cache, name, reader).value.id != id)
  {
    DeactivateFollows(lab, id, compile);
    var after := Delete(lab, user, id).0;
    if Resolve(after.cache, name, reader).Some? { ResolveSound(after.cache, name, reader); }
  }

  // ------------------------------------------------------------------ a run that loses a tool

  function Version(user: User, p: Payload, n: nat): Row {
    Row(n, user.sub, p.name, n, p.def, true, false)
  }

  function Off(td: Row): Row {
    td.(isActive := false)
  }

  lemma {:induction false} CreateFirst(user: User, p: Payload, compile: Compiler)
    requires compile(p.def, false).Some? && user.sub != SYSTEM && p.isActive && !p.isPublic
    ensures var v1 := Version(user, p, 1);
            Create(Lab(map[], EMPTY), user, p, 1, compile).0 ==
            Lab(map[1 := v1], Cache(map[1 := CompiledOf(v1, compile).value], [1], map[(user.sub, p.name) := 1]))
  {
    assert ActiveIds(map[], user.sub, p.name) == {};
  }

  lemma {:induction false} CreateSecond(user: User, p: Payload, compile: Compiler, lab: Lab)
    requires compile(p.def, false).Some? && user.sub != SYSTEM && p.isActive && !p.isPublic
    requires lab.rows == map[1 := Version(user, p, 1)] && lab.cache.byId.Keys == {1} && lab.cache.order == [1]
    requires lab.cache.byOwnerName == map[(user.sub, p.name) := 1]
    ensures var v1, v2 := Version(user, p, 1), Version(user, p, 2);
            Create(lab, user, p, 2, compile).0 ==
            Lab(map[1 := Off(v1), 2 := v2],
                Cache(map[2 := CompiledOf(v2, compile).value], [2], map[(user.sub, p.name) := 2]))
  {
    assert ActiveIds(lab.rows, user.sub, p.name) == {1};
    OnlyActive(lab.rows, user.sub, p.name, 1);
    assert [1, 2][1..] == [2] && [2][1..] == [];
    assert Without([1, 2], 1) == [2];
    var c := ReplaceActive(lab.cache, Version(user, p, 2), Some(1), compile);
    assert c.byId == map[2 := CompiledOf(Version(user, p, 2), compile).value];
  }

  lemma {:induction false} SwitchFirstOn(user: User, p: Payload, compile: Compiler, t2: Tool)
    requires compile(p.def, false).Some? && user.sub != SYSTEM
    ensures var v1, v2 := Version(user, p, 1), Version(user, p, 2);
            var before := Lab(map[1 := Off(v1), 2 := v2], Cache(map[2 := t2], [2], map[(user.sub, p.name) := 2]));
            Toggle(before, user, 1, true, compile).0 ==
            Lab(map[1 := v1, 2 := v2],
                Cache(map[2 := t2, 1 := CompiledOf(v1, compile).value], [2, 1], map[(user.sub, p.name) := 1]))
  {
  }

  lemma {:induction false} DeleteFirst(user: User, p: Payload, t1: Tool, t2: Tool)
    requires user.sub != SYSTEM && t1.Key() == (user.sub, p.name)
    ensures var v1, v2 := Version(user, p, 1), Version(user, p, 2);
            var cache := Cache(map[2 := t2, 1 := t1], [2, 1], map[(user.sub, p.name) := 1]);
            Delete(Lab(map[1 := v1, 2 := v2], cache), user, 1).0 ==
            Lab(map[1 := Off(v1), 2 := v2], Cache(map[2 := t2], [2], map[]))
  {
    var c := Cache(map[2 := t2, 1 := t1], [2, 1], map[(user.sub, p.name) := 1]);
    assert [2, 1][1..] == [1] && [1][1..] == [];
    assert Without([2, 1], 1) == [2];
    assert Unregister(c, 1) == Cache(map[2 := t2], [2], map[]);
  }

  lemma RunOpsHead(lab: Lab, op: Op, rest: seq<Op>, compile: Compiler)
    ensures RunOps(lab, [op] + rest, compile) == RunOps(Step(lab, op, compile).0, rest, compile)
  {
    assert ([op] + rest)[1..] == rest;
  }

  lemma FourSteps(s: Lab, o1: Op, o2: Op, o3: Op, o4: Op, compile: Compiler)
    ensures RunOps(s, [o1, o2, o3, o4], compile)
         == Step(Step(Step(Step(s, o1, compile).0, o2, compile).0, o3, compile).0, o4, compile).0
  {
    var s1 := Step(s, o1, compile).0;
    var s2 := Step(s1, o2, compile).0;
    var s3 := Step(s2, o3, compile).0;
    RunOpsHead(s, o1, [o2, o3, o4], compile);
    RunOpsHead(s1, o2, [o3, o4], compile);
    RunOpsHead(s2, o3, [o4], compile);
    RunOpsHead(s3, o4, [], compile);
    assert [o1] + [o2, o3, o4] == [o1, o2, o3, o4] && [o2] + [o3, o4] == [o2, o3, o4] && [o3] + [o4] == [o3, o4];
    assert [o4] + [] == [o4];
  }

  // The tool exists, is the only active version and is visible, but its name does not resolve.
  ghost predicate Unreachable(lab: Lab, name: string, user: string) {
    && SingleActive(lab.rows) && Resolve(lab.cache, name, user).None?
    && exists t :: Live(lab.cache, t) && t.name == name && t.VisibleTo(user)
  }

  lemma {:induction false} UnreachableSecond(user: User, p: Payload, t2: Tool)
    requires user.sub != SYSTEM && t2.id == 2 && t2.Key() == (user.sub, p.name) && !t2.isPublic
    ensures Unreachable(Lab(map[1 := Off(Version(user, p, 1)), 2 := Version(user, p, 2)],
                            Cache(map[2 := t2], [2], map[])),
                        p.name, user.sub)
  {
    var c := Cache(map[2 := t2], [2], map[]);
    assert [2][1..] == [] && Snapshot(c, [2]) == [t2];
    assert [t2][1..] == [] && FirstPublic([t2], p.name) == None;
    assert Live(c, t2);
  }

  // One owner, one name: create it twice, switch the first version back on, then delete it.  The
  // second version is active and compiled, yet its own owner cannot resolve it by name.
  lemma {:induction false} LostTool(user: User, p: Payload, compile: Compiler)
    requires compile(p.def, false).Some? && user.sub != SYSTEM && p.isActive && !p.isPublic
    ensures var ops := [CreateOp(user, p, 1), CreateOp(user, p, 2), ToggleOp(user, 1, true), DeleteOp(user, 1)];
            Unreachable(RunOps(Lab(map[], EMPTY), ops, compile), p.name, user.sub)
  {
    var start := Lab(map[], EMPTY);
    var t1, t2 := CompiledOf(Version(user, p, 1), compile).value, CompiledOf(Version(user, p, 2), compile).value;
    FourSteps(start, CreateOp(user, p, 1), CreateOp(user, p, 2), ToggleOp(user, 1, true), DeleteOp(user, 1), compile);
    CreateFirst(user, p, compile);
    CreateSecond(user, p, compile, Create(start, user, p, 1, compile).0);
    SwitchFirstOn(user, p, compile, t2);
    DeleteFirst(user, p, t1, t2);
    UnreachableSecond(user, p, t2);
  }
}
