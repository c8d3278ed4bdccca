/**
 What the cache and the database keep in step, and how every endpoint keeps it.  Compilation is
 deterministic and does not start to fail because the system extras are in scope.
 */
module LabInvariants {
  import opened Wrappers
  import opened Registry
  import opened RegistryTheorems
  import opened ToolLab

  ghost predicate ExtrasOnlyAdd(compile: Compiler) {
    forall def :: compile(def, false).Some? ==> compile(def, true).Some?
  }

  ghost predicate RowsWellFormed(rows: Rows, compile: Compiler) {
    && (forall id :: id in rows ==> rows[id].id == id && CompiledOf(rows[id], compile).Some?)
    && (forall i, j :: i in rows && j in rows && i != j ==> !SameVersion(rows[i], rows[j]))
  }

  predicate SameVersion(a: Row, b: Row) {
    a.owner == b.owner && a.name == b.name && a.version == b.version
  }

  // Every cached tool is the compilation of its row, which is active.
  ghost predicate Reflects(rows: Rows, c: Cache, compile: Compiler) {
    forall id :: id in c.byId ==> id in rows && rows[id].isActive && CompiledOf(rows[id], compile) == Some(c.byId[id])
  }

  // Every active row is cached.
  ghost predicate Covers(lab: Lab) {
    forall id :: id in lab.rows && lab.rows[id].isActive ==> id in lab.cache.byId
  }

  ghost predicate Tracks(lab: Lab, compile: Compiler) {
    && RowsWellFormed(lab.rows, compile) && WellFormed(lab.cache) && IndexSound(lab.cache)
    && Reflects(lab.rows, lab.cache, compile)
  }

  // The cached ids are exactly the active rows, and each entry is the compilation of its row.
  ghost predicate Agree(lab: Lab, compile: Compiler) {
    Tracks(lab, compile) && Covers(lab)
  }

  // No owner has two active versions of one name.
  ghost predicate SingleActive(rows: Rows) {
    forall i, j :: i in rows && j in rows && rows[i].isActive && rows[j].isActive && i != j ==>
      !(rows[i].owner == rows[j].owner && rows[i].name == rows[j].name)
  }

  // ------------------------------------------------------------------ every step

  // What each endpoint keeps: the cache tracks the rows, and covers them if it did before.
  ghost predicate Follows(before: Lab, after: Lab, compile: Compiler) {
    Tracks(after, compile) && (Covers(before) ==> Covers(after))
  }

  lemma {:induction false} SetActiveKeepsRows(rows: Rows, id: Id, active: bool, compile: Compiler)
    requires RowsWellFormed(rows, compile) && id in rows
    ensures CompiledOf(rows[id].(isActive := active), compile) == CompiledOf(rows[id], compile)
    ensures RowsWellFormed(rows[id := rows[id].(isActive := active)], compile)
  {
    var after := rows[id := rows[id].(isActive := active)];
    forall i, j | i in after && j in after && i != j ensures !SameVersion(after[i], after[j]) {
      assert !SameVersion(rows[i], rows[j]);
    }
  }

  lemma {:induction false} AddKeepsRows(rows: Rows, td: Row, compile: Compiler)
    requires RowsWellFormed(rows, compile) && td.id !in rows && CompiledOf(td, compile).Some?
    requires !VersionTaken(rows, td.owner, td.name, td.version)
    ensures RowsWellFormed(rows[td.id := td], compile)
  {
    var after := rows[td.id := td];
    forall i, j | i in after && j in after && i != j ensures !SameVersion(after[i], after[j]) { }
  }

  function Retired(lab: Lab, id: Id): Lab
    requires id in lab.rows
  {
    Lab(lab.rows[id := lab.rows[id].(isActive := false)], Unregister(lab.cache, id))
  }

  lemma {:induction false} DeactivateFollows(lab: Lab, id: Id, compile: Compiler)
    requires Tracks(lab, compile) && id in lab.rows
    ensures Follows(lab, Retired(lab, id), compile)
  {
    SetActiveKeepsRows(lab.rows, id, false, compile);
    UnregisterKeeps(lab.cache, id);
  }

  // Installing the compilation of an active row.
  lemma {:induction false} InstallReflects(rows: Rows, c: Cache, td: Row, compile: Compiler)
    requires Reflects(rows, c, compile) && td.isActive && CompiledOf(td, compile).Some?
    ensures Reflects(rows[td.id := td], Install(c, CompiledOf(td, compile).value), compile)
  {
  }

  lemma {:induction false} ActivateFollows(lab: Lab, id: Id, compile: Compiler)
    requires Tracks(lab, compile) && id in lab.rows
    ensures var td := lab.rows[id].(isActive := true);
            Follows(lab, Lab(lab.rows[id := td], Register(lab.cache, td, compile)), compile)
  {
    var td := lab.rows[id].(isActive := true);
    SetActiveKeepsRows(lab.rows, id, true, compile);
    var t := CompiledOf(td, compile).value;
    assert id in lab.cache.byId ==> lab.cache.byId[id] == t;
    InstallKeeps(lab.cache, t);
    InstallReflects(lab.rows, lab.cache, td, compile);
  }

  lemma {:induction false} InsertFollows(lab: Lab, td: Row, compile: Compiler)
    requires Tracks(lab, compile) && td.id !in lab.rows && CompiledOf(td, compile).Some?
    requires !VersionTaken(lab.rows, td.owner, td.name, td.version)
    ensures var cache := if td.isActive then Register(lab.cache, td, compile) else lab.cache;
            Follows(lab, Lab(lab.rows[td.id := td], cache), compile)
  {
    AddKeepsRows(lab.rows, td, compile);
    if td.isActive {
      InstallKeeps(lab.cache, CompiledOf(td, compile).value);
      InstallReflects(lab.rows, lab.cache, td, compile);
    }
  }

  lemma {:induction false} ReplaceFollows(lab: Lab, td: Row, previous: Id, compile: Compiler)
    requires Tracks(lab, compile) && td.id !in lab.rows && CompiledOf(td, compile).Some? && td.isActive
    requires !VersionTaken(lab.rows, td.owner, td.name, td.version)
    requires previous in lab.rows && lab.rows[previous].owner == td.owner && lab.rows[previous].name == td.name
    ensures Follows(lab, Lab(lab.rows[previous := lab.rows[previous].(isActive := false)][td.id := td],
                             ReplaceActive(lab.cache, td, Some(previous), compile)), compile)
  {
    var retired := lab.rows[previous := lab.rows[previous].(isActive := false)];
    SetActiveKeepsRows(lab.rows, previous, false, compile);
    AddKeepsRows(retired, td, compile);
    ReplaceReflects(lab.rows, lab.cache, td, previous, compile);
  }

  lemma {:induction false} RetireReflects(rows: Rows, c: Cache, id: Id, compile: Compiler)
    requires Reflects(rows, c, compile) && id in rows
    ensures Reflects(rows[id := rows[id].(isActive := false)], c.(byId := c.byId - {id}), compile)
  {
  }

  lemma {:induction false} ReplaceReflects(rows: Rows, c: Cache, td: Row, previous: Id, compile: Compiler)
    requires Reflects(rows, c, compile) && WellFormed(c) && IndexSound(c)
    requires td.isActive && CompiledOf(td, compile).Some? && td.id !in rows
    requires previous in rows && rows[previous].owner == td.owner && rows[previous].name == td.name
    ensures var after := ReplaceActive(c, td, Some(previous), compile);
            && WellFormed(after) && IndexSound(after) && after.byId.Keys == c.byId.Keys - {previous} + {td.id}
            && Reflects(rows[previous := rows[previous].(isActive := false)][td.id := td], after, compile)
  {
    if previous in c.byId { CachedKey(rows, c, previous, compile); }
    ReplaceKeeps(c, td, previous, compile);
    var without := c.(byId := c.byId - {previous});
    RetireReflects(rows, c, previous, compile);
    InstallReflects(rows[previous := rows[previous].(isActive := false)], without, td, compile);
  }

  lemma {:induction false} CachedKey(rows: Rows, c: Cache, id: Id, compile: Compiler)
    requires Reflects(rows, c, compile) && id in c.byId
    ensures c.byId[id].Key() == (rows[id].owner, rows[id].name)
  {
  }

  lemma {:induction false} NewRowCompiles(def: Definition, td: Row, compile: Compiler)
    requires ExtrasOnlyAdd(compile) && compile(def, false).Some? && td.def == def
    ensures CompiledOf(td, compile).Some?
  {
  }

  lemma {:induction false} CreateFollows(lab: Lab, user: User, p: Payload, newId: Id, compile: Compiler)
    requires ExtrasOnlyAdd(compile) && Tracks(lab, compile)
    ensures Follows(lab, Create(lab, user, p, newId, compile).0, compile)
  {
    var (after, reply) := Create(lab, user, p, newId, compile);
    if reply.Done? {
      var td := reply.row;
      NewRowCompiles(p.def, td, compile);
      var previous := TheActive(lab.rows, user.sub, p.name);
      if previous.None? {
        InsertFollows(lab, td, compile);
      } else if td.isActive {
        ReplaceFollows(lab, td, previous.value, compile);
      } else {
        DeactivateFollows(lab, previous.value, compile);
        InsertFollows(Retired(lab, previous.value), td, compile);
      }
    }
  }

  // Two active versions of one name would need the same index entry.
  lemma {:induction false} CompleteMeansSingle(lab: Lab, compile: Compiler)
    requires Agree(lab, compile) && IndexComplete(lab.cache)
    ensures SingleActive(lab.rows)
  {
    forall i, j | i in lab.rows && j in lab.rows && lab.rows[i].isActive && lab.rows[j].isActive && i != j
      ensures !(lab.rows[i].owner == lab.rows[j].owner && lab.rows[i].name == lab.rows[j].name)
    {
      CachedKey(lab.rows, lab.cache, i, compile);
      CachedKey(lab.rows, lab.cache, j, compile);
    }
  }
}
