/** The versions of a name, and when a create succeeds in any database the endpoints can build up. */
module VersionTheorems {
  import opened Registry
  import opened ToolLab
  import opened LabInvariants

  // When exactly a create succeeds, and that it is a bad request exactly when it does not compile.
  lemma CreateSucceedsIff(lab: Lab, user: User, p: Payload, newId: Id, compile: Compiler)
    ensures Create(lab, user, p, newId, compile).1 == BadRequest <==> compile(p.def, false).None?
    ensures var reply := Create(lab, user, p, newId, compile).1; reply.Done? || reply == BadRequest || reply == Failed
    ensures Create(lab, user, p, newId, compile).1.Done? <==>
            && compile(p.def, false).Some? && newId !in lab.rows
            && var active := ActiveIds(lab.rows, user.sub, p.name);
               || (active == {} && !VersionTaken(lab.rows, user.sub, p.name, 1))
               || (exists id :: active == {id} && !VersionTaken(lab.rows, user.sub, p.name, lab.rows[id].version + 1))
  {
    var active := ActiveIds(lab.rows, user.sub, p.name);
    if active != {} {
      var id := TheActive(lab.rows, user.sub, p.name).value;
      if |active| <= 1 {
        forall x | x in active ensures x == id { OnlyActive(lab.rows, user.sub, p.name, x); }
        assert active == {id};
      }
    }
  }

  // The versions of each name are 1..n for some n.
  predicate Contiguous(rows: Rows) {
    forall id :: id in rows ==>
      var td := rows[id];
      td.version >= 1 && (td.version > 1 ==> VersionTaken(rows, td.owner, td.name, td.version - 1))
  }

  lemma {:induction false} LowerVersions(rows: Rows, owner: string, name: string, v: int, k: int)
    requires Contiguous(rows) && VersionTaken(rows, owner, name, v) && 1 <= k <= v
    ensures VersionTaken(rows, owner, name, k)
    decreases v
  {
    if k < v { LowerVersions(rows, owner, name, v - 1, k); }
  }

  // The same rows, up to their flags.
  predicate SameVersions(rows: Rows, after: Rows) {
    && after.Keys == rows.Keys
    && forall id :: id in rows ==> SameVersion(rows[id], after[id])
  }

  lemma {:induction false} SameVersionsKeep(rows: Rows, after: Rows)
    requires SameVersions(rows, after)
    ensures forall owner, name, v :: VersionTaken(after, owner, name, v) <==> VersionTaken(rows, owner, name, v)
    ensures Contiguous(rows) ==> Contiguous(after)
  {
    forall owner, name, v ensures VersionTaken(after, owner, name, v) <==> VersionTaken(rows, owner, name, v) {
      if id :| id in rows && rows[id].owner == owner && rows[id].name == name && rows[id].version == v {
        assert SameVersion(rows[id], after[id]);
      }
    }
  }

  lemma {:induction false} AddContiguous(rows: Rows, td: Row)
    requires Contiguous(rows) && td.id !in rows
    requires td.version == 1 || (td.version > 1 && VersionTaken(rows, td.owner, td.name, td.version - 1))
    ensures Contiguous(rows[td.id := td])
  {
    var after := rows[td.id := td];
    forall owner, name, v | VersionTaken(rows, owner, name, v) ensures VersionTaken(after, owner, name, v) {
      var id :| id in rows && rows[id].owner == owner && rows[id].name == name && rows[id].version == v;
      assert after[id] == rows[id];
    }
  }

  lemma {:induction false} SeedsContiguous(rows: Rows, seeds: seq<Seed>)
    requires Contiguous(rows) && SeedRows(rows, seeds).Some?
    ensures Contiguous(SeedRows(rows, seeds).value)
    decreases seeds
  {
    if seeds != [] {
      if ActiveIds(rows, SYSTEM, seeds[0].name) == {} { AddContiguous(rows, SeededRow(seeds[0])); }
      SeedsContiguous(SeedRow(rows, seeds[0]).value, seeds[1..]);
    }
  }

  lemma {:induction false} CreateContiguous(lab: Lab, user: User, p: Payload, newId: Id, compile: Compiler)
    requires Contiguous(lab.rows)
    ensures Contiguous(Create(lab, user, p, newId, compile).0.rows)
  {
    var (after, reply) := Create(lab, user, p, newId, compile);
    if reply.Done? {
      var previous := TheActive(lab.rows, user.sub, p.name);
      if previous.Some? {
        var retired := lab.rows[previous.value := lab.rows[previous.value].(isActive := false)];
        SameVersionsKeep(lab.rows, retired);
        assert VersionTaken(lab.rows, user.sub, p.name, lab.rows[previous.value].version);
        AddContiguous(retired, reply.row);
      } else {
        AddContiguous(lab.rows, reply.row);
      }
    }
  }

  lemma {:induction false} StepContiguous(lab: Lab, op: Op, compile: Compiler)
    requires Contiguous(lab.rows)
    ensures Contiguous(Step(lab, op, compile).0.rows)
  {
    match op
    case CreateOp(user, payload, newId) => CreateContiguous(lab, user, payload, newId, compile);
    case RestartOp(seeds, order) =>
      SameVersionsKeep(lab.rows, PublishSystem(lab.rows));
      if SeedRows(PublishSystem(lab.rows), seeds).Some? { SeedsContiguous(PublishSystem(lab.rows), seeds); }
    case _ => SameVersionsKeep(lab.rows, Step(lab, op, compile).0.rows);
  }

  lemma {:induction false} RunContiguous(lab: Lab, ops: seq<Op>, compile: Compiler)
    requires Contiguous(lab.rows)
    ensures Contiguous(RunOps(lab, ops, compile).rows)
    decreases |ops|
  {
    if ops != [] {
      StepContiguous(lab, ops[0], compile);
      RunContiguous(Step(lab, ops[0], compile).0, ops[1..], compile);
    }
  }

  predicate Named(td: Row, owner: string, name: string) {
    td.owner == owner && td.name == name
  }

  predicate NewestOf(rows: Rows, id: Id) {
    && id in rows
    && forall i :: i in rows && Named(rows[i], rows[id].owner, rows[id].name) ==> rows[i].version <= rows[id].version
  }

  lemma {:induction false} NextVersionFreeIff(rows: Rows, id: Id)
    requires Contiguous(rows) && id in rows
    ensures !VersionTaken(rows, rows[id].owner, rows[id].name, rows[id].version + 1) <==> NewestOf(rows, id)
  {
    var td := rows[id];
    forall i | i in rows && Named(rows[i], td.owner, td.name) && rows[i].version > td.version
      ensures VersionTaken(rows, td.owner, td.name, td.version + 1)
    {
      LowerVersions(rows, td.owner, td.name, rows[i].version, td.version + 1);
    }
    if VersionTaken(rows, td.owner, td.name, td.version + 1) {
      var i :| i in rows && Named(rows[i], td.owner, td.name) && rows[i].version == td.version + 1;
    }
  }

  // In a database that any run built up from nothing, a create succeeds exactly when the handler
  // compiles, the id is fresh, and the name is new to its owner or its one active version is the
  // newest it has.
  lemma ReachableCreateSucceedsIff(ops: seq<Op>, user: User, p: Payload, newId: Id, compile: Compiler)
    ensures var lab := RunOps(Lab(map[], EMPTY), ops, compile);
            Create(lab, user, p, newId, compile).1.Done? <==>
            && compile(p.def, false).Some? && newId !in lab.rows
            && ((forall id :: id in lab.rows ==> !Named(lab.rows[id], user.sub, p.name))
                || (exists id :: ActiveIds(lab.rows, user.sub, p.name) == {id} && NewestOf(lab.rows, id)))
  {
    var lab := RunOps(Lab(map[], EMPTY), ops, compile);
    RunContiguous(Lab(map[], EMPTY), ops, compile);
    CreateSucceedsIff(lab, user, p, newId, compile);
    NewNameIff(lab.rows, user.sub, p.name);
    forall id | ActiveIds(lab.rows, user.sub, p.name) == {id}
      ensures VersionTaken(lab.rows, user.sub, p.name, lab.rows[id].version + 1) <==> !NewestOf(lab.rows, id)
    {
      assert id in ActiveIds(lab.rows, user.sub, p.name);
      NextVersionFreeIff(lab.rows, id);
    }
  }

  lemma {:induction false} NewNameIff(rows: Rows, owner: string, name: string)
    requires Contiguous(rows)
    ensures (forall id :: id in rows ==> !Named(rows[id], owner, name)) <==>
            ActiveIds(rows, owner, name) == {} && !VersionTaken(rows, owner, name, 1)
  {
    forall id | id in rows && Named(rows[id], owner, name) ensures VersionTaken(rows, owner, name, 1) {
      assert VersionTaken(rows, owner, name, rows[id].version);
      LowerVersions(rows, owner, name, rows[id].version, 1);
    }
    if forall id :: id in rows ==> !Named(rows[id], owner, name) { assert ActiveIds(rows, owner, name) == {}; }
  }

  // A name that has a row but no active one can never be created again: the new row would be
  // version 1, and version 1 is on file.
  lemma {:induction false} DeletedNameIsLost(ops: seq<Op>, user: User, p: Payload, newId: Id, compile: Compiler,
                                             old_: Id)
    requires var rows := RunOps(Lab(map[], EMPTY), ops, compile).rows;
             old_ in rows && Named(rows[old_], user.sub, p.name) && ActiveIds(rows, user.sub, p.name) == {}
    ensures !Create(RunOps(Lab(map[], EMPTY), ops, compile), user, p, newId, compile).1.Done?
  {
    ReachableCreateSucceedsIff(ops, user, p, newId, compile);
    var rows := RunOps(Lab(map[], EMPTY), ops, compile).rows;
    forall id ensures ActiveIds(rows, user.sub, p.name) != {id} { assert id in {id}; }
  }

  // Create, delete, create again.
  lemma {:induction false} RecreateFails(user: User, p: Payload, first: Id, second: Id, compile: Compiler)
    requires ExtrasOnlyAdd(compile) && compile(p.def, false).Some? && user.sub != SYSTEM
    ensures var created := Create(Lab(map[], EMPTY), user, p, first, compile);
            var deleted := Delete(created.0, user, first);
            created.1.Done? && deleted.1.Done? && Create(deleted.0, user, p, second, compile).1 == Failed
  {
    var created := Create(Lab(map[], EMPTY), user, p, first, compile).0;
    assert created.rows.Keys == {first};
    var deleted := Delete(created, user, first).0;
    assert deleted.rows.Keys == {first} && !deleted.rows[first].isActive;
    assert ActiveIds(deleted.rows, user.sub, p.name) == {};
    assert VersionTaken(deleted.rows, user.sub, p.name, 1) by {
      assert deleted.rows[first].version == 1 && deleted.rows[first].name == p.name;
    }
  }
}
