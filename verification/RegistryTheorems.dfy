/**
 The registry's invariants, and what they give its readers: resolution by name is sound, follows
 the stated preference, and succeeds for every tool the user is shown.
 */
module RegistryTheorems {
  import opened Wrappers
  import opened JsonSchema
  import opened Registry
  import Sorting

  ghost predicate WellFormed(c: Cache) {
    && Distinct(c.order)
    && (forall id :: id in c.order <==> id in c.byId)
    && (forall id :: id in c.byId ==> c.byId[id].id == id)
  }

  // Every name entry leads to a live tool with that owner and name.
  ghost predicate IndexSound(c: Cache) {
    forall key :: key in c.byOwnerName ==> c.byOwnerName[key] in c.byId && c.byId[c.byOwnerName[key]].Key() == key
  }

  // Every live tool is the one its owner and name lead to.
  ghost predicate IndexComplete(c: Cache) {
    forall id :: id in c.byId ==> c.byId[id].Key() in c.byOwnerName && c.byOwnerName[c.byId[id].Key()] == id
  }

  // ------------------------------------------------------------------ what mutation keeps

  lemma {:induction false} WithoutMembers(order: seq<Id>, id: Id)
    ensures forall x :: x in Without(order, id) <==> x in order && x != id
    ensures Distinct(order) ==> Distinct(Without(order, id))
  {
    if order != [] {
      WithoutMembers(order[1..], id);
      if Distinct(order) {
        assert forall j :: 0 <= j < |order[1..]| ==> order[1..][j] == order[j + 1];
        assert order[0] !in order[1..];
      }
    }
  }

  lemma {:induction false} InstallKeeps(c: Cache, t: Tool)
    requires WellFormed(c)
    ensures WellFormed(Install(c, t))
    ensures IndexSound(c) && (t.id in c.byId ==> c.byId[t.id].Key() == t.Key()) ==> IndexSound(Install(c, t))
  {
  }

  lemma {:induction false} PopKeeps(c: Cache, id: Id)
    requires WellFormed(c)
    ensures WellFormed(Pop(c, id))
    ensures IndexSound(c) && (forall key :: key in c.byOwnerName ==> c.byOwnerName[key] != id) ==>
              IndexSound(Pop(c, id))
  {
    WithoutMembers(c.order, id);
  }

  lemma {:induction false} UnregisterKeeps(c: Cache, id: Id)
    requires WellFormed(c) && IndexSound(c)
    ensures WellFormed(Unregister(c, id)) && IndexSound(Unregister(c, id))
    ensures IndexComplete(c) ==> IndexComplete(Unregister(c, id))
    ensures Unregister(c, id).byId == c.byId - {id}
  {
    WithoutMembers(c.order, id);
    assert id !in c.byId ==> c.byId - {id} == c.byId;
  }

  // Between its two critical sections `replace_active` has both versions in `byId`, and the index
  // is sound at that point as well as at the end.
  lemma {:induction false} ReplaceKeeps(c: Cache, td: Row, previous: Id, compile: Compiler)
    requires WellFormed(c) && IndexSound(c) && CompiledOf(td, compile).Some?
    requires td.id !in c.byId && td.id != previous
    requires previous in c.byId ==> c.byId[previous].Key() == (td.owner, td.name)
    ensures var between := Register(c, td, compile);
            && WellFormed(between) && IndexSound(between)
            && between.byId.Keys == c.byId.Keys + {td.id}
    ensures var after := ReplaceActive(c, td, Some(previous), compile);
            WellFormed(after) && IndexSound(after)
            && after.byId == (c.byId - {previous})[td.id := CompiledOf(td, compile).value]
            && after.byOwnerName == c.byOwnerName[(td.owner, td.name) := td.id]
  {
    var t := CompiledOf(td, compile).value;
    InstallKeeps(c, t);
    PopKeeps(Install(c, t), previous);
  }

  // An overlapping call can slip in between: if the previous version is registered again before it
  // is dropped, the name entry is left dangling.
  lemma {:induction false} ReplaceIsNotAtomic(old_: Row, new_: Row, compile: Compiler)
    requires old_.id != new_.id && old_.owner == new_.owner && old_.name == new_.name
    requires CompiledOf(old_, compile).Some? && CompiledOf(new_, compile).Some?
    ensures var before := Register(EMPTY, old_, compile);
            var interleaved := Pop(Register(Register(before, new_, compile), old_, compile), old_.id);
            IndexSound(before) && !IndexSound(interleaved)
  {
    var interleaved := Pop(Register(Register(Register(EMPTY, old_, compile), new_, compile), old_, compile), old_.id);
    assert interleaved.byOwnerName[(old_.owner, old_.name)] == old_.id;
  }

  // ------------------------------------------------------------------ readers

  lemma {:induction false} SnapshotMembers(c: Cache, order: seq<Id>)
    requires forall id :: id in c.byId ==> c.byId[id].id == id
    ensures forall t :: t in Snapshot(c, order) <==> t.id in order && t.id in c.byId && c.byId[t.id] == t
    ensures Distinct(order) ==> Distinct(Snapshot(c, order))
  {
    if order != [] {
      SnapshotMembers(c, order[1..]);
      assert forall j :: 0 <= j < |order[1..]| ==> order[1..][j] == order[j + 1];
      if Distinct(order) { assert order[0] !in order[1..]; }
    }
  }

  lemma {:induction false} FirstPublicFinds(ts: seq<Tool>, name: string)
    ensures var r := FirstPublic(ts, name);
            && (r.Some? ==> r.value in ts && r.value.name == name && r.value.isPublic)
            && (r.None? ==> forall t :: t in ts ==> !(t.name == name && t.isPublic))
  {
    if ts != [] { FirstPublicFinds(ts[1..], name); }
  }

  ghost predicate Live(c: Cache, t: Tool) {
    t.id in c.byId && c.byId[t.id] == t
  }

  // The first public tool of the name, in iteration order.
  ghost predicate FirstPublicOf(c: Cache, name: string, t: Tool)
    requires WellFormed(c)
  {
    && Live(c, t) && t.name == name && t.isPublic
    && exists i :: 0 <= i < |c.order| && c.order[i] == t.id
                   && forall j :: 0 <= j < i ==> !(c.byId[c.order[j]].name == name && c.byId[c.order[j]].isPublic)
  }

  // The tool a user's call of that name means: the one indexed for the user, otherwise the one indexed
  // for the system, otherwise the first public one.
  ghost predicate Preferred(c: Cache, name: string, user: string, t: Tool)
    requires WellFormed(c)
  {
    && Live(c, t) && t.name == name
    && (if (user, name) in c.byOwnerName then c.byOwnerName[(user, name)] == t.id
        else if (SYSTEM, name) in c.byOwnerName then c.byOwnerName[(SYSTEM, name)] == t.id
        else FirstPublicOf(c, name, t))
  }

  lemma {:induction false} FirstPublicScan(c: Cache, n: nat, name: string)
    requires WellFormed(c) && n <= |c.order|
    ensures var r := FirstPublic(Snapshot(c, c.order[n..]), name);
            && (r.None? ==> forall j :: n <= j < |c.order| ==>
                              !(c.byId[c.order[j]].name == name && c.byId[c.order[j]].isPublic))
            && (r.Some? ==> exists i :: n <= i < |c.order| && c.order[i] in c.byId && c.byId[c.order[i]] == r.value
                              && r.value.name == name && r.value.isPublic
                              && forall j :: n <= j < i ==>
                                   !(c.byId[c.order[j]].name == name && c.byId[c.order[j]].isPublic))
    decreases |c.order| - n
  {
    if n < |c.order| {
      assert c.order[n] in c.order && c.order[n..][1..] == c.order[n + 1..];
      FirstPublicScan(c, n + 1, name);
    }
  }

  lemma {:induction false} FirstPublicIff(c: Cache, name: string, t: Tool)
    requires WellFormed(c)
    ensures FirstPublic(Snapshot(c, c.order), name) == Some(t) <==> FirstPublicOf(c, name, t)
  {
    assert c.order[0..] == c.order;
    FirstPublicScan(c, 0, name);
  }

  // Resolution finds that tool, and fails exactly when there is none.
  lemma {:induction false} ResolveIsPreferred(c: Cache, name: string, user: string, t: Tool)
    requires WellFormed(c) && IndexSound(c)
    ensures Resolve(c, name, user) == Some(t) <==> Preferred(c, name, user, t)
  {
    FirstPublicIff(c, name, t);
    SnapshotMembers(c, c.order);
    FirstPublicFinds(Snapshot(c, c.order), name);
  }

  // A resolved tool is live, has the name asked for and is visible to the user, and it is the
  // user's own if the index has one, otherwise the system's if it has one, otherwise a public one.
  lemma {:induction false} ResolveSound(c: Cache, name: string, user: string)
    requires WellFormed(c) && IndexSound(c) && Resolve(c, name, user).Some?
    ensures var t := Resolve(c, name, user).value;
            && Live(c, t) && t.name == name && t.VisibleTo(user)
            && (if (user, name) in c.byOwnerName then t.owner == user
                else if (SYSTEM, name) in c.byOwnerName then t.owner == SYSTEM
                else t.isPublic)
  {
    SnapshotMembers(c, c.order);
    FirstPublicFinds(Snapshot(c, c.order), name);
  }

  // Resolution succeeds exactly when some live tool of that name is public, or is the indexed tool
  // of the user or of the system.
  lemma {:induction false} ResolveIff(c: Cache, name: string, user: string)
    requires WellFormed(c) && IndexSound(c)
    ensures Resolve(c, name, user).Some? <==>
            exists t :: Live(c, t) && t.name == name
                        && (t.isPublic || ((t.owner == user || t.owner == SYSTEM)
                                           && t.Key() in c.byOwnerName && c.byOwnerName[t.Key()] == t.id))
  {
    SnapshotMembers(c, c.order);
    FirstPublicFinds(Snapshot(c, c.order), name);
    if Resolve(c, name, user).Some? { assert Live(c, Resolve(c, name, user).value); }
  }

  // With a complete index that is: whenever a visible tool of that name exists.
  lemma {:induction false} ResolveComplete(c: Cache, name: string, user: string)
    requires WellFormed(c) && IndexSound(c) && IndexComplete(c)
    ensures Resolve(c, name, user).Some? <==> exists t :: Live(c, t) && t.name == name && t.VisibleTo(user)
  {
    ResolveIff(c, name, user);
    if Resolve(c, name, user).Some? { ResolveSound(c, name, user); }
  }

  lemma NamesAreOrdered()
    ensures Sorting.TotalPreorder(NameLe)
  {
    forall a: Tool, b: Tool ensures NameLe(a, b) || NameLe(b, a) { Sorting.StrLeTotal(a.name, b.name); }
    forall a: Tool, b: Tool, c: Tool | NameLe(a, b) && NameLe(b, c) ensures NameLe(a, c) {
      Sorting.StrLeTransitive(a.name, b.name, c.name);
    }
  }

  predicate Listed(t: Tool, user: string, wanted: Option<set<Id>>) {
    t.VisibleTo(user) && (wanted.None? || t.id in wanted.value)
  }

  lemma {:induction false} SelectMembers(ts: seq<Tool>, user: string, wanted: Option<set<Id>>)
    ensures forall t :: t in Select(ts, user, wanted) <==> t in ts && Listed(t, user, wanted)
    ensures Distinct(ts) ==> Distinct(Select(ts, user, wanted))
  {
    if ts != [] {
      SelectMembers(ts[1..], user, wanted);
      assert forall j :: 0 <= j < |ts[1..]| ==> ts[1..][j] == ts[j + 1];
      if Distinct(ts) { assert ts[0] !in ts[1..]; }
    }
  }

  lemma {:induction false} Repetition<T>(ys: seq<T>, i: nat, j: nat)
    requires i < j < |ys|
    ensures ys[i] == ys[j] ==> multiset(ys)[ys[i]] >= 2
  {
    assert ys == ys[..i] + [ys[i]] + ys[i + 1..j] + [ys[j]] + ys[j + 1..];
  }

  lemma {:induction false} DistinctMultiset<T>(xs: seq<T>, ys: seq<T>)
    requires Distinct(xs) && multiset(ys) == multiset(xs)
    ensures Distinct(ys)
  {
    forall i, j | 0 <= i < j < |ys| ensures ys[i] != ys[j] {
      OnceOnly(xs, ys[i]);
      Repetition(ys, i, j);
    }
  }

  lemma {:induction false} OnceOnly<T>(xs: seq<T>, x: T)
    requires Distinct(xs)
    ensures multiset(xs)[x] == if x in xs then 1 else 0
  {
    if xs != [] {
      var rest := xs[1..];
      assert xs == [xs[0]] + rest;
      assert forall j :: 0 <= j < |rest| ==> rest[j] == xs[j + 1];
      OnceOnly(rest, x);
    }
  }

  lemma SortKeepsTools(ts: seq<Tool>)
    ensures var sorted := Sorting.Sort(ts, NameLe);
            && Sorting.SortedBy(sorted, NameLe) && |sorted| == |ts|
            && (forall t :: t in sorted <==> t in ts)
            && (Distinct(ts) ==> Distinct(sorted))
  {
    var sorted := Sorting.Sort(ts, NameLe);
    NamesAreOrdered();
    Sorting.SortSorts(ts, NameLe);
    if Distinct(ts) { DistinctMultiset(ts, sorted); }
    assert forall t :: t in sorted <==> t in multiset(sorted);
    assert forall t :: t in ts <==> t in multiset(ts);
  }

  function ListedIds(c: Cache, user: string, wanted: Option<set<Id>>): set<Id> {
    set id | id in c.byId && Listed(c.byId[id], user, wanted)
  }

  lemma {:induction false} SelectMeans(c: Cache, user: string, wanted: Option<set<Id>>, t: Tool)
    requires WellFormed(c)
    ensures t in Select(Snapshot(c, c.order), user, wanted) <==> Live(c, t) && Listed(t, user, wanted)
  {
    SnapshotMembers(c, c.order);
    SelectMembers(Snapshot(c, c.order), user, wanted);
  }

  lemma {:induction false} SelectDistinct(c: Cache, user: string, wanted: Option<set<Id>>)
    requires WellFormed(c)
    ensures Distinct(Select(Snapshot(c, c.order), user, wanted))
  {
    SnapshotMembers(c, c.order);
    SelectMembers(Snapshot(c, c.order), user, wanted);
  }

  // The tools the caller asked for and may see, in iteration order, and how many there are.
  lemma {:induction false} SelectedTools(c: Cache, user: string, wanted: Option<set<Id>>)
    requires WellFormed(c)
    ensures var selected := Select(Snapshot(c, c.order), user, wanted);
            && Distinct(selected)
            && (forall t :: t in selected <==> Live(c, t) && Listed(t, user, wanted))
            && |selected| == |ListedIds(c, user, wanted)|
  {
    var selected := Select(Snapshot(c, c.order), user, wanted);
    SelectDistinct(c, user, wanted);
    forall t ensures t in selected <==> Live(c, t) && Listed(t, user, wanted) { SelectMeans(c, user, wanted, t); }
    forall id ensures id in ListedIds(c, user, wanted) <==> exists t :: t in selected && t.id == id {
      if id in ListedIds(c, user, wanted) { assert c.byId[id] in selected; }
    }
    assert forall i :: 0 <= i < |selected| ==> selected[i] in selected;
    CountIds(selected, ListedIds(c, user, wanted));
  }

  // The places in iteration order before the i-th that hold listed tools.
  function ListedBefore(c: Cache, user: string, wanted: Option<set<Id>>, i: nat): set<nat>
    requires WellFormed(c) && i <= |c.order|
  {
    set j | 0 <= j < i && (assert c.order[j] in c.order; Listed(c.byId[c.order[j]], user, wanted))
  }

  lemma {:induction false} SelectConcat(xs: seq<Tool>, ys: seq<Tool>, user: string, wanted: Option<set<Id>>)
    ensures Select(xs + ys, user, wanted) == Select(xs, user, wanted) + Select(ys, user, wanted)
  {
    if xs == [] {
      assert xs + ys == ys;
    } else {
      assert (xs + ys)[1..] == xs[1..] + ys;
      SelectConcat(xs[1..], ys, user, wanted);
    }
  }

  lemma {:induction false} SnapshotConcat(c: Cache, xs: seq<Id>, ys: seq<Id>)
    ensures Snapshot(c, xs + ys) == Snapshot(c, xs) + Snapshot(c, ys)
  {
    if xs == [] {
      assert xs + ys == ys;
    } else {
      assert (xs + ys)[1..] == xs[1..] + ys;
      SnapshotConcat(c, xs[1..], ys);
    }
  }

  function SelectedUpTo(c: Cache, user: string, wanted: Option<set<Id>>, i: nat): seq<Tool>
    requires i <= |c.order|
  {
    Select(Snapshot(c, c.order[..i]), user, wanted)
  }

  lemma {:induction false} SelectNext(c: Cache, user: string, wanted: Option<set<Id>>, i: nat)
    requires WellFormed(c) && i < |c.order|
    ensures c.order[i] in c.byId
    ensures var t := c.byId[c.order[i]];
            SelectedUpTo(c, user, wanted, i + 1) ==
            SelectedUpTo(c, user, wanted, i) + if Listed(t, user, wanted) then [t] else []
  {
    assert c.order[i] in c.order && c.order[..i + 1] == c.order[..i] + [c.order[i]];
    SnapshotConcat(c, c.order[..i], [c.order[i]]);
    var t := c.byId[c.order[i]];
    assert Snapshot(c, [c.order[i]]) == [t] by { assert [c.order[i]][1..] == []; }
    SelectConcat(Snapshot(c, c.order[..i]), [t], user, wanted);
    assert Select([t], user, wanted) == if Listed(t, user, wanted) then [t] else [] by { assert [t][1..] == []; }
  }

  lemma {:induction false} ListedNext(c: Cache, user: string, wanted: Option<set<Id>>, i: nat)
    requires WellFormed(c) && i < |c.order|
    ensures c.order[i] in c.byId
    ensures |ListedBefore(c, user, wanted, i + 1)| ==
            |ListedBefore(c, user, wanted, i)| + if Listed(c.byId[c.order[i]], user, wanted) then 1 else 0
  {
    assert c.order[i] in c.order;
    var before := ListedBefore(c, user, wanted, i);
    assert ListedBefore(c, user, wanted, i + 1) ==
           if Listed(c.byId[c.order[i]], user, wanted) then before + {i} else before;
  }

  lemma {:induction false} SelectCounts(c: Cache, user: string, wanted: Option<set<Id>>, i: nat)
    requires WellFormed(c) && i <= |c.order|
    ensures |SelectedUpTo(c, user, wanted, i)| == |ListedBefore(c, user, wanted, i)|
    decreases i
  {
    if i == 0 {
      assert c.order[..0] == [] && ListedBefore(c, user, wanted, 0) == {};
    } else {
      SelectCounts(c, user, wanted, i - 1);
      SelectNext(c, user, wanted, i - 1);
      ListedNext(c, user, wanted, i - 1);
    }
  }

  lemma {:induction false} SelectPrefix(c: Cache, user: string, wanted: Option<set<Id>>, i: nat)
    requires i <= |c.order|
    ensures SelectedUpTo(c, user, wanted, i) <= Select(Snapshot(c, c.order), user, wanted)
  {
    assert c.order == c.order[..i] + c.order[i..];
    SnapshotConcat(c, c.order[..i], c.order[i..]);
    SelectConcat(Snapshot(c, c.order[..i]), Snapshot(c, c.order[i..]), user, wanted);
  }

  // The cap keeps the first ones in iteration order: a tool is listed exactly when fewer than `cap`
  // tools to be listed stand before it.
  lemma {:induction false} ListingKeepsFirst(c: Cache, user: string, wanted: Option<set<Id>>, cap: nat, i: nat)
    requires WellFormed(c) && i < |c.order|
    ensures c.order[i] in c.byId
    ensures var t := c.byId[c.order[i]];
            t in ListForUser(c, user, wanted, cap) <==>
            Listed(t, user, wanted) && |ListedBefore(c, user, wanted, i)| < cap
  {
    SelectNext(c, user, wanted, i);
    var selected, t := Select(Snapshot(c, c.order), user, wanted), c.byId[c.order[i]];
    var cut := if |selected| <= cap then selected else selected[..cap];
    SortKeepsTools(cut);
    SelectMeans(c, user, wanted, t);
    if Listed(t, user, wanted) {
      SelectCounts(c, user, wanted, i);
      SelectPrefix(c, user, wanted, i + 1);
      SelectDistinct(c, user, wanted);
      var k := |SelectedUpTo(c, user, wanted, i)|;
      assert selected[k] == t;
      assert t in cut <==> k < cap;
    }
  }

  // The listing is name-sorted, without repetition, holds at most `cap` tools, only ones that are
  // live, visible and asked for, and all of these when they do not exceed the cap.
  lemma {:induction false} ListForUserSpec(c: Cache, user: string, wanted: Option<set<Id>>, cap: nat)
    requires WellFormed(c)
    ensures var listed := ListForUser(c, user, wanted, cap);
            var all := ListedIds(c, user, wanted);
            && Sorting.SortedBy(listed, NameLe) && Distinct(listed)
            && |listed| == (if |all| <= cap then |all| else cap)
            && (forall t :: t in listed ==> Live(c, t) && Listed(t, user, wanted))
            && (|all| <= cap ==> forall t :: Live(c, t) && Listed(t, user, wanted) ==> t in listed)
  {
    var selected := Select(Snapshot(c, c.order), user, wanted);
    SelectedTools(c, user, wanted);
    var cut := if |selected| <= cap then selected else selected[..cap];
    assert forall t :: t in cut ==> t in selected;
    SortKeepsTools(cut);
  }

  // Distinct tools that are determined by their ids are as many as their ids.
  lemma {:induction false} CountIds(ts: seq<Tool>, ids: set<Id>)
    requires Distinct(ts)
    requires forall i, j :: 0 <= i < j < |ts| && ts[i].id == ts[j].id ==> ts[i] == ts[j]
    requires forall id :: id in ids <==> exists t :: t in ts && t.id == id
    ensures |ids| == |ts|
  {
    if ts == [] {
      assert ids == {};
    } else {
      var rest := ts[1..];
      assert forall j :: 0 <= j < |rest| ==> rest[j] == ts[j + 1];
      assert ts[0] in ts && ts[0].id in ids;
      forall id ensures id in ids - {ts[0].id} <==> exists t :: t in rest && t.id == id {
        if id in ids - {ts[0].id} { var t :| t in ts && t.id == id; assert t in rest; }
        if t :| t in rest && t.id == id { assert t in ts; assert t.id != ts[0].id; }
      }
      CountIds(rest, ids - {ts[0].id});
    }
  }

  // The name of every tool a user is shown resolves, and to that very tool exactly when it is the
  // user's own, or the system's and the user has none of the name, or neither has one and it is the
  // first public one.
  lemma {:induction false} ListedToolsResolve(c: Cache, user: string, wanted: Option<set<Id>>, cap: nat, t: Tool)
    requires WellFormed(c) && IndexSound(c) && IndexComplete(c)
    requires t in ListForUser(c, user, wanted, cap)
    ensures Resolve(c, t.name, user).Some?
    ensures Resolve(c, t.name, user) == Some(t) <==>
            || t.owner == user
            || ((user, t.name) !in c.byOwnerName && t.owner == SYSTEM)
            || ((user, t.name) !in c.byOwnerName && (SYSTEM, t.name) !in c.byOwnerName
                && FirstPublicOf(c, t.name, t))
  {
    ListForUserSpec(c, user, wanted, cap);
    ResolveComplete(c, t.name, user);
    ResolveSound(c, t.name, user);
    FirstPublicIff(c, t.name, t);
    assert Live(c, t) && c.byOwnerName[t.Key()] == t.id;
  }

  // A user with a tool "f" of their own is shown another's public "f", and executes their own.
  lemma {:induction false} ShadowedTool(own: Tool, other: Tool, user: string)
    requires own.id != other.id && own.owner == user && other.owner != user && own.name == other.name && other.isPublic
    ensures var c := Install(Install(EMPTY, own), other);
            && WellFormed(c) && IndexSound(c) && IndexComplete(c)
            && other in ListForUser(c, user, None, 2) && Resolve(c, other.name, user) == Some(own)
  {
    var c := Install(Install(EMPTY, own), other);
    TwoTools(own, other);
    ListForUserSpec(c, user, None, 2);
    assert ListedIds(c, user, None) == {own.id, other.id};
    assert Live(c, other) && Listed(other, user, None);
  }

  lemma {:induction false} TwoTools(a: Tool, b: Tool)
    requires a.id != b.id && a.Key() != b.Key()
    ensures var c := Install(Install(EMPTY, a), b);
            && WellFormed(c) && IndexSound(c) && IndexComplete(c)
            && c.byId.Keys == {a.id, b.id} && c.byId[a.id] == a && c.byId[b.id] == b
  {
    InstallKeeps(EMPTY, a);
    InstallKeeps(Install(EMPTY, a), b);
  }

  // The answer of an execution.  Without a tool to run it is `tool_not_found`.  Otherwise the handler
  // of the preferred tool is run: its own error is passed on, its result succeeds exactly when the
  // return schema is a valid document that accepts it, and each complaint has its own case.
  lemma {:induction false} ExecuteSpec(c: Cache, name: string, args: map<string, Json>, user: string, run: Sandbox)
    requires WellFormed(c) && IndexSound(c)
    ensures var answer := Execute(c, name, args, user, run);
            && ((forall t :: !Preferred(c, name, user, t)) ==> answer.Error? && answer.kind == "tool_not_found")
            && forall t :: Preferred(c, name, user, t) ==>
                 var r, output := run(t.handler, args), t.def.output;
                 && (answer.Ok? <==> r.Ok? && Validates(output, r.result))
                 && (answer.Ok? || r.Error? ==> answer == r)
                 && (r.Ok? ==>
                       && (answer.Error? && answer.kind == "return_schema_broken" <==> !ValidDocument(output))
                       && (answer.Error? && answer.kind == "return_schema_invalid" <==>
                           ValidDocument(output) && !Accepts(output, r.result))
                       && !(answer.Error? && answer.kind == "tool_not_found"))
  {
    forall t ensures Resolve(c, name, user) == Some(t) <==> Preferred(c, name, user, t) {
      ResolveIsPreferred(c, name, user, t);
    }
    KindsDiffer();
  }

  lemma KindsDiffer()
    ensures "return_schema_broken" != "return_schema_invalid" && "tool_not_found" != "return_schema_broken"
    ensures "tool_not_found" != "return_schema_invalid"
  {
    assert "return_schema_broken"[14] != "return_schema_invalid"[14];
    assert "tool_not_found"[0] == 't' && "return_schema_broken"[0] == 'r' && "return_schema_invalid"[0] == 'r';
  }
}
