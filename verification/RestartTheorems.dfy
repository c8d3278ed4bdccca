/** When bootstrap goes through, what it rebuilds, and when a restart can be noticed. */
module RestartTheorems {
  import opened Wrappers
  import opened Registry
  import opened RegistryTheorems
  import opened ToolLab
  import opened LabInvariants

  // What a restart relies on: the seeds compile, and the final query lists every active row.
  ghost predicate ListsActive(order: RowOrder) {
    forall rows: Rows, id: Id :: id in rows && rows[id].isActive ==> id in order(rows)
  }

  // Bootstrapping a well-formed database succeeds exactly when every seed has one active row, or
  // has none and no version 1 in the way.
  predicate SeedFits(rows: Rows, seed: Seed) {
    var n := |ActiveIds(rows, SYSTEM, seed.name)|;
    n == 1 || (n == 0 && !VersionTaken(rows, SYSTEM, seed.name, 1))
  }

  lemma {:induction false} SeedRowElsewhere(rows: Rows, seed: Seed, other: Seed)
    requires SeedRow(rows, seed).Some? && other.name != seed.name
    ensures SeedFits(SeedRow(rows, seed).value, other) <==> SeedFits(rows, other)
  {
    var after := SeedRow(rows, seed).value;
    assert ActiveIds(after, SYSTEM, other.name) == ActiveIds(rows, SYSTEM, other.name);
    assert forall id :: id in rows ==> id in after && after[id] == rows[id];
    assert forall id :: id in after && id !in rows ==> after[id].name == seed.name;
  }

  // Different seeds have different names and get different ids, none of them in use.
  predicate FreshSeeds(rows: Rows, seeds: seq<Seed>) {
    && (forall i :: 0 <= i < |seeds| ==> seeds[i].newId !in rows)
    && (forall i, j :: 0 <= i < j < |seeds| ==> seeds[i].newId != seeds[j].newId && seeds[i].name != seeds[j].name)
  }

  lemma {:induction false} SeedRowsSucceedIff(rows: Rows, seeds: seq<Seed>)
    requires FreshSeeds(rows, seeds)
    ensures SeedRows(rows, seeds).Some? <==> forall i :: 0 <= i < |seeds| ==> SeedFits(rows, seeds[i])
    decreases seeds
  {
    if seeds != [] {
      var active := ActiveIds(rows, SYSTEM, seeds[0].name);
      assert |active| == 0 <==> active == {};
      var next := SeedRow(rows, seeds[0]);
      assert next.Some? <==> SeedFits(rows, seeds[0]);
      if next.Some? {
        assert next.value.Keys <= rows.Keys + {seeds[0].newId};
        var rest := seeds[1..];
        assert forall i :: 0 <= i < |rest| ==> rest[i] == seeds[i + 1];
        SeedRowsSucceedIff(next.value, rest);
        forall i | 0 <= i < |rest| ensures SeedFits(next.value, rest[i]) <==> SeedFits(rows, seeds[i + 1]) {
          SeedRowElsewhere(rows, seeds[0], rest[i]);
        }
      }
    }
  }

  // Deactivating a seed tool leaves its version 1 in the way of the next bootstrap.
  lemma {:induction false} DeactivatedSeedFailsBootstrap(rows: Rows, seeds: seq<Seed>, i: nat)
    requires FreshSeeds(rows, seeds)
    requires i < |seeds| && ActiveIds(rows, SYSTEM, seeds[i].name) == {} && VersionTaken(rows, SYSTEM, seeds[i].name, 1)
    ensures SeedRows(rows, seeds).None?
  {
    SeedRowsSucceedIff(rows, seeds);
    assert !SeedFits(rows, seeds[i]);
  }

  lemma {:induction false} SeedsAlreadyThere(rows: Rows, seeds: seq<Seed>)
    requires forall i :: 0 <= i < |seeds| ==> |ActiveIds(rows, SYSTEM, seeds[i].name)| == 1
    ensures SeedRows(rows, seeds) == Some(rows)
    decreases seeds
  {
    if seeds != [] {
      assert |ActiveIds(rows, SYSTEM, seeds[0].name)| == 1;
      SeedsAlreadyThere(rows, seeds[1..]);
    }
  }

  // The row that a seed without an active one gets: version 1, active and public, owned by the system.
  predicate SeededFrom(row: Row, seed: Seed) {
    && row.id == seed.newId && row.owner == SYSTEM && row.name == seed.name && row.version == 1 && row.def == seed.def
    && row.isActive && row.isPublic
  }

  lemma {:induction false} StaysSingle(rows: Rows, seed: Seed, name: string)
    requires SeedRow(rows, seed).Some? && |ActiveIds(rows, SYSTEM, name)| == 1
    ensures ActiveIds(SeedRow(rows, seed).value, SYSTEM, name) == ActiveIds(rows, SYSTEM, name)
  {
    assert name == seed.name ==> ActiveIds(rows, SYSTEM, seed.name) != {};
  }

  lemma {:induction false} SingleAfter(rows: Rows, seed: Seed)
    requires SeedRow(rows, seed).Some?
    ensures |ActiveIds(SeedRow(rows, seed).value, SYSTEM, seed.name)| == 1
  {
    var active := ActiveIds(rows, SYSTEM, seed.name);
    if active == {} {
      assert ActiveIds(SeedRow(rows, seed).value, SYSTEM, seed.name) == {seed.newId};
    } else {
      assert |active| != 0;
    }
  }

  // Seeding keeps every row, adds such rows only, and only for names that had none active, and leaves
  // each seed with exactly one active row.
  lemma {:induction false} SeedsEffect(rows: Rows, seeds: seq<Seed>)
    requires SeedRows(rows, seeds).Some?
    ensures var after := SeedRows(rows, seeds).value;
            && (forall id :: id in rows ==> id in after && after[id] == rows[id])
            && (forall id :: id in after && id !in rows ==>
                  exists s :: s in seeds && SeededFrom(after[id], s) && ActiveIds(rows, SYSTEM, s.name) == {})
    ensures forall s: Seed :: s in seeds || |ActiveIds(rows, SYSTEM, s.name)| == 1 ==>
              |ActiveIds(SeedRows(rows, seeds).value, SYSTEM, s.name)| == 1
    decreases seeds
  {
    if seeds != [] {
      var next, rest := SeedRow(rows, seeds[0]).value, seeds[1..];
      assert forall s :: s in seeds <==> s == seeds[0] || s in rest;
      SeedsEffect(next, rest);
      SingleAfter(rows, seeds[0]);
      forall s: Seed | |ActiveIds(rows, SYSTEM, s.name)| == 1 ensures |ActiveIds(next, SYSTEM, s.name)| == 1 {
        StaysSingle(rows, seeds[0], s.name);
      }
      forall s: Seed | ActiveIds(next, SYSTEM, s.name) == {} ensures ActiveIds(rows, SYSTEM, s.name) == {} {
        assert forall id :: id in ActiveIds(rows, SYSTEM, s.name) ==> id in ActiveIds(next, SYSTEM, s.name);
      }
    }
  }

  // What a restart does to the database: the system's rows are public, and if it goes through then the
  // seeds are there, else nothing is added and nothing is cached.
  lemma {:induction false} RestartEffect(rows: Rows, seeds: seq<Seed>, order: RowOrder, compile: Compiler)
    ensures var (after, reply) := Restart(rows, seeds, order, compile);
            && (forall id :: id in rows ==>
                  && id in after.rows
                  && after.rows[id] == rows[id].(isPublic := rows[id].isPublic || rows[id].owner == SYSTEM))
            && (reply == Failed || reply == Started)
            && (reply == Failed ==> after.rows.Keys == rows.Keys && after.cache == EMPTY)
            && (reply == Started ==>
                  && (forall id :: id in after.rows && id !in rows ==>
                        exists s :: && s in seeds && SeededFrom(after.rows[id], s)
                                    && ActiveIds(rows, SYSTEM, s.name) == {})
                  && (forall s :: s in seeds ==> |ActiveIds(after.rows, SYSTEM, s.name)| == 1))
  {
    var published := PublishSystem(rows);
    forall name ensures ActiveIds(published, SYSTEM, name) == ActiveIds(rows, SYSTEM, name) { }
    if SeedRows(published, seeds).Some? { SeedsEffect(published, seeds); }
  }

  lemma {:induction false} PublishKeepsRows(rows: Rows, compile: Compiler)
    requires RowsWellFormed(rows, compile)
    ensures RowsWellFormed(PublishSystem(rows), compile)
  {
    var after := PublishSystem(rows);
    forall i, j | i in after && j in after && i != j ensures !SameVersion(after[i], after[j]) {
      assert !SameVersion(rows[i], rows[j]);
    }
  }

  lemma {:induction false} SeedsKeepRows(rows: Rows, seeds: seq<Seed>, compile: Compiler)
    requires RowsWellFormed(rows, compile) && SeedRows(rows, seeds).Some?
    requires forall s :: s in seeds ==> compile(s.def, true).Some?
    ensures RowsWellFormed(SeedRows(rows, seeds).value, compile)
    decreases seeds
  {
    if seeds != [] {
      assert seeds[0] in seeds && forall s :: s in seeds[1..] ==> s in seeds;
      if ActiveIds(rows, SYSTEM, seeds[0].name) == {} { AddKeepsRows(rows, SeededRow(seeds[0]), compile); }
      SeedsKeepRows(SeedRow(rows, seeds[0]).value, seeds[1..], compile);
    }
  }

  // The active row with that owner and name that an order lists last.
  function LastListed(rows: Rows, order: seq<Id>, key: (string, string)): Option<Id> {
    if order == [] then None
    else
      var id := order[|order| - 1];
      if id in rows && rows[id].isActive && (rows[id].owner, rows[id].name) == key then Some(id)
      else LastListed(rows, order[..|order| - 1], key)
  }

  lemma {:induction false} LastListedFinds(rows: Rows, order: seq<Id>, key: (string, string))
    ensures var last := LastListed(rows, order, key);
            && (last.Some? ==> last.value in rows && rows[last.value].isActive
                               && (rows[last.value].owner, rows[last.value].name) == key)
            && (last.None? ==> forall id :: id in order && id in rows && rows[id].isActive ==>
                                 (rows[id].owner, rows[id].name) != key)
  {
    if order != [] {
      assert order == order[..|order| - 1] + [order[|order| - 1]];
      LastListedFinds(rows, order[..|order| - 1], key);
    }
  }

  lemma LastListedAppend(rows: Rows, done: seq<Id>, id: Id)
    ensures forall key :: LastListed(rows, done + [id], key) ==
              if id in rows && rows[id].isActive && (rows[id].owner, rows[id].name) == key then Some(id)
              else LastListed(rows, done, key)
  {
    assert (done + [id])[..|done|] == done;
  }

  function EntryOf(c: Cache, key: (string, string)): Option<Id> {
    if key in c.byOwnerName then Some(c.byOwnerName[key]) else None
  }

  // The registry after registering the active rows listed in `order`, described without the loop.
  ghost predicate Rebuilt(c: Cache, rows: Rows, order: seq<Id>, compile: Compiler) {
    && Tracks(Lab(rows, c), compile)
    && (forall id :: id in order && id in rows && rows[id].isActive ==> id in c.byId)
    && (forall key :: EntryOf(c, key) == LastListed(rows, order, key))
  }

  lemma {:induction false} RegisterRebuilds(c: Cache, done: seq<Id>, id: Id, rows: Rows, compile: Compiler)
    requires Rebuilt(c, rows, done, compile)
    ensures var next := if id in rows && rows[id].isActive then Register(c, rows[id], compile) else c;
            Rebuilt(next, rows, done + [id], compile)
  {
    LastListedAppend(rows, done, id);
    if id in rows && rows[id].isActive {
      RegisterEntries(c, rows[id], compile);
      RegisterTracks(c, id, rows, compile);
    }
  }

  lemma {:induction false} RegisterEntries(c: Cache, td: Row, compile: Compiler)
    requires CompiledOf(td, compile).Some?
    ensures forall key :: EntryOf(Register(c, td, compile), key) ==
              if key == (td.owner, td.name) then Some(td.id) else EntryOf(c, key)
    ensures Register(c, td, compile).byId.Keys == c.byId.Keys + {td.id}
  {
  }

  lemma {:induction false} RegisterTracks(c: Cache, id: Id, rows: Rows, compile: Compiler)
    requires Tracks(Lab(rows, c), compile) && id in rows && rows[id].isActive
    ensures Tracks(Lab(rows, Register(c, rows[id], compile)), compile)
  {
    assert rows[id].(isActive := true) == rows[id] && rows[id := rows[id]] == rows;
    ActivateFollows(Lab(rows, c), id, compile);
  }

  lemma {:induction false} RegisterAllRebuilds(c: Cache, done: seq<Id>, todo: seq<Id>, rows: Rows, compile: Compiler)
    requires Rebuilt(c, rows, done, compile)
    ensures Rebuilt(RegisterAll(c, rows, todo, compile), rows, done + todo, compile)
    decreases todo
  {
    if todo == [] {
      assert done + todo == done;
    } else {
      assert (done + [todo[0]]) + todo[1..] == done + todo;
      RegisterRebuilds(c, done, todo[0], rows, compile);
      RegisterAllRebuilds(if todo[0] in rows && rows[todo[0]].isActive then Register(c, rows[todo[0]], compile) else c,
                          done + [todo[0]], todo[1..], rows, compile);
    }
  }

  // Registering the active rows of any database, in any order, gives a cache that agrees with it;
  // each name leads to the version listed last, so the index is complete exactly when no name has
  // two active versions.
  lemma {:induction false} RebuiltAgrees(rows: Rows, order: seq<Id>, compile: Compiler)
    requires RowsWellFormed(rows, compile)
    requires forall id :: id in rows && rows[id].isActive ==> id in order
    ensures var rebuilt := RegisterAll(EMPTY, rows, order, compile);
            && Agree(Lab(rows, rebuilt), compile)
            && (forall key :: EntryOf(rebuilt, key) == LastListed(rows, order, key))
            && (IndexComplete(rebuilt) <==> SingleActive(rows))
  {
    var rebuilt := RegisterAll(EMPTY, rows, order, compile);
    assert [] + order == order;
    RegisterAllRebuilds(EMPTY, [], order, rows, compile);
    if IndexComplete(rebuilt) { CompleteMeansSingle(Lab(rows, rebuilt), compile); }
    if SingleActive(rows) { SingleRebuilt(rows, order, rebuilt, compile); }
  }

  lemma {:induction false} SingleRebuilt(rows: Rows, order: seq<Id>, c: Cache, compile: Compiler)
    requires Rebuilt(c, rows, order, compile) && SingleActive(rows)
    requires forall id :: id in rows && rows[id].isActive ==> id in order
    ensures IndexComplete(c)
  {
    forall id | id in c.byId ensures EntryOf(c, c.byId[id].Key()) == Some(id) {
      CachedKey(rows, c, id, compile);
      LastListedFinds(rows, order, c.byId[id].Key());
    }
  }

  // After a restart the cache agrees with the database exactly when bootstrap went through, or
  // there is nothing to cache.
  lemma {:induction false} RestartAgreesIff(rows: Rows, seeds: seq<Seed>, order: RowOrder, compile: Compiler)
    requires RowsWellFormed(rows, compile) && ListsActive(order)
    requires forall s :: s in seeds ==> compile(s.def, true).Some?
    ensures var (after, reply) := Restart(rows, seeds, order, compile);
            && Tracks(after, compile)
            && (Agree(after, compile) <==> reply.Started? || forall id :: id in rows ==> !rows[id].isActive)
            && (reply.Started? ==> (IndexComplete(after.cache) <==> SingleActive(after.rows)))
  {
    PublishKeepsRows(rows, compile);
    var published := PublishSystem(rows);
    var seeded := SeedRows(published, seeds);
    if seeded.Some? {
      SeedsKeepRows(published, seeds, compile);
      RebuiltAgrees(seeded.value, order(seeded.value), compile);
    } else {
      assert forall id :: id in rows ==> id in published && published[id].isActive == rows[id].isActive;
    }
  }

  // A complete index is determined by the tools it indexes.
  lemma {:induction false} CompleteIndexUnique(a: Cache, b: Cache)
    requires a.byId == b.byId && IndexSound(a) && IndexComplete(a) && IndexSound(b) && IndexComplete(b)
    ensures a.byOwnerName == b.byOwnerName
  {
    forall key ensures key in a.byOwnerName <==> key in b.byOwnerName {
      if key in a.byOwnerName { assert a.byId[a.byOwnerName[key]].Key() == key; }
      if key in b.byOwnerName { assert b.byId[b.byOwnerName[key]].Key() == key; }
    }
    assert a.byOwnerName.Keys == b.byOwnerName.Keys;
    forall key | key in a.byOwnerName ensures a.byOwnerName[key] == b.byOwnerName[key] {
      assert a.byId[a.byOwnerName[key]].Key() == key;
    }
  }

  ghost predicate SystemPublic(rows: Rows) {
    forall id :: id in rows && rows[id].owner == SYSTEM ==> rows[id].isPublic
  }

  lemma {:induction false} PublishNothing(rows: Rows)
    requires SystemPublic(rows)
    ensures PublishSystem(rows) == rows
  {
    assert PublishSystem(rows).Keys == rows.Keys;
  }

  lemma {:induction false} SameTools(a: Cache, b: Cache, rows: Rows, compile: Compiler)
    requires Agree(Lab(rows, a), compile) && Agree(Lab(rows, b), compile)
    ensures a.byId == b.byId
  {
    assert a.byId.Keys == b.byId.Keys;
    forall id | id in a.byId ensures a.byId[id] == b.byId[id] {
      assert CompiledOf(rows[id], compile) == Some(b.byId[id]);
    }
  }

  // With every seed active once, bootstrap goes through.
  ghost predicate Seeded(rows: Rows, seeds: seq<Seed>) {
    SystemPublic(rows) && forall i :: 0 <= i < |seeds| ==> |ActiveIds(rows, SYSTEM, seeds[i].name)| == 1
  }

  // A restart then changes no row and rebuilds the live tools, in whatever order the rows come, and
  // each name leads to the version listed last.
  lemma {:induction false} RestartRebuilds(lab: Lab, seeds: seq<Seed>, order: RowOrder, compile: Compiler)
    requires Agree(lab, compile) && Seeded(lab.rows, seeds) && ListsActive(order)
    ensures var (after, reply) := Restart(lab.rows, seeds, order, compile);
            && reply.Started? && after.rows == lab.rows && after.cache.byId == lab.cache.byId
            && Agree(after, compile) && (IndexComplete(after.cache) <==> SingleActive(lab.rows))
            && (forall key :: EntryOf(after.cache, key) == LastListed(lab.rows, order(lab.rows), key))
  {
    PublishNothing(lab.rows);
    SeedsAlreadyThere(lab.rows, seeds);
    RebuiltAgrees(lab.rows, order(lab.rows), compile);
    SameTools(RegisterAll(EMPTY, lab.rows, order(lab.rows), compile), lab.cache, lab.rows, compile);
  }

  ghost function SomeListing(ids: set<Id>): (listing: seq<Id>)
    ensures forall id :: id in ids ==> id in listing
  {
    if ids == {} then [] else var id :| id in ids; [id] + SomeListing(ids - {id})
  }

  // A restart is invisible in the name index too, in whatever order the rows come, if and only if
  // the live index was complete.
  lemma {:induction false} RestartInvisible(lab: Lab, seeds: seq<Seed>, compile: Compiler)
    requires Agree(lab, compile) && Seeded(lab.rows, seeds)
    ensures (forall order :: ListsActive(order) ==>
               Restart(lab.rows, seeds, order, compile).0.cache.byOwnerName == lab.cache.byOwnerName)
            <==> IndexComplete(lab.cache)
  {
    if IndexComplete(lab.cache) {
      CompleteMeansSingle(lab, compile);
      forall order | ListsActive(order)
        ensures Restart(lab.rows, seeds, order, compile).0.cache.byOwnerName == lab.cache.byOwnerName
      {
        RestartRebuilds(lab, seeds, order, compile);
        CompleteIndexUnique(Restart(lab.rows, seeds, order, compile).0.cache, lab.cache);
      }
    } else {
      var id :| id in lab.cache.byId && EntryOf(lab.cache, lab.cache.byId[id].Key()) != Some(id);
      var order := EntryChanges(lab, seeds, id, compile);
    }
  }

  ghost function EndingWith(id: Id): RowOrder {
    (rows: Rows) => SomeListing(rows.Keys) + [id]
  }

  // A live tool that its name does not lead to is led to again if its row comes last.
  lemma {:induction false} EntryChanges(lab: Lab, seeds: seq<Seed>, id: Id, compile: Compiler) returns (order: RowOrder)
    requires Agree(lab, compile) && Seeded(lab.rows, seeds)
    requires id in lab.cache.byId && EntryOf(lab.cache, lab.cache.byId[id].Key()) != Some(id)
    ensures ListsActive(order)
    ensures Restart(lab.rows, seeds, order, compile).0.cache.byOwnerName != lab.cache.byOwnerName
  {
    order := EndingWith(id);
    forall rows: Rows, other: Id | other in rows ensures other in order(rows) { }
    RestartRebuilds(lab, seeds, order, compile);
    CachedKey(lab.rows, lab.cache, id, compile);
    var key := lab.cache.byId[id].Key();
    LastListedAppend(lab.rows, SomeListing(lab.rows.Keys), id);
    assert LastListed(lab.rows, order(lab.rows), key) == Some(id);
    assert EntryOf(Restart(lab.rows, seeds, order, compile).0.cache, key) != EntryOf(lab.cache, key);
  }
}
