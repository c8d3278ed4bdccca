/** The ids of the seed store never collide over any sequential run of its handlers. */
module SeedUsersTheorems {
  import opened Wrappers
  import opened SeedUsers

  // ------------------------------------------------------------------ printing is injective

  // Reading a numeral back; characters that are not digits count as if they were.
  function Read(s: string): int {
    if s == "" then 0 else 10 * Read(s[..|s| - 1]) + (s[|s| - 1] as int - '0' as int)
  }

  lemma {:induction false} ReadDecimal(n: nat)
    ensures Read(Decimal(n)) == n
  {
    if n >= 10 {
      ReadDecimal(n / 10);
      assert Decimal(n)[..|Decimal(n)| - 1] == Decimal(n / 10);
    } else {
      assert Decimal(n)[..0] == "";
    }
  }

  lemma {:induction false} ReadPadded(s: string)
    ensures Read("0" + s) == Read(s)
  {
    if s == "" {
      assert ("0" + s)[..0] == "";
    } else {
      assert ("0" + s)[..|s|] == "0" + s[..|s| - 1];
      ReadPadded(s[..|s| - 1]);
    }
  }

  lemma {:induction false} ReadZFill(s: string, width: nat)
    ensures Read(ZFill(s, width)) == Read(s)
    decreases width - |s|
  {
    if |s| < width {
      ReadPadded(s);
      ReadZFill("0" + s, width);
    }
  }

  // Distinct numbers have distinct ids, padded or not.
  lemma {:induction false} UserIdInjective(m: nat, n: nat)
    requires UserId(m) == UserId(n)
    ensures m == n
  {
    assert UserId(m)[2..] == ZFill(Decimal(m), 5) && UserId(n)[2..] == ZFill(Decimal(n), 5);
    ReadZFill(Decimal(m), 5);
    ReadZFill(Decimal(n), 5);
    ReadDecimal(m);
    ReadDecimal(n);
  }

  // ------------------------------------------------------------------ every handler, every run

  datatype Op =
    | CreateOp(name: Arg, email: Arg, group: Option<Arg>)
    | UpdateOp(id: string, email: Arg)
    | OnboardOp(team: Arg, grp: Arg, members: seq<Member>)

  function Step(users: Users, op: Op): Users {
    match op
    case CreateOp(name, email, group) => AddUser(users, name, email, group)
    case UpdateOp(id, email) => WithEmail(users, id, email)
    case OnboardOp(team, grp, members) => Onboard(users, team, grp, members, []).0
  }

  function Run(users: Users, ops: seq<Op>): Users
    decreases ops
  {
    if ops == [] then users else Run(Step(users, ops[0]), ops[1..])
  }

  function Ids(n: nat): set<string> {
    set i | 1 <= i <= n :: UserId(i)
  }

  // The keys are exactly the ids of 1..n, n being the number of users, and each record carries its key.
  predicate Numbered(users: Users) {
    users.Keys == Ids(|users|) && forall id :: id in users ==> users[id].id == id
  }

  lemma {:induction false} NextIdIsNew(users: Users)
    requires users.Keys == Ids(|users|)
    ensures UserId(|users| + 1) !in users
  {
    var id := UserId(|users| + 1);
    if id in users {
      var i :| 1 <= i <= |users| && UserId(i) == id;
      UserIdInjective(i, |users| + 1);
    }
  }

  lemma IdsGrow(n: nat)
    ensures Ids(n + 1) == Ids(n) + {UserId(n + 1)}
  {
  }

  // A creation adds one new key.
  lemma {:induction false} AddUserNumbered(users: Users, name: Arg, email: Arg, group: Option<Arg>)
    requires Numbered(users)
    ensures var next := AddUser(users, name, email, group); var id := UserId(|users| + 1);
            && Numbered(next) && id !in users && |next| == |users| + 1
            && (forall k :: k in users ==> k in next && next[k] == users[k])
            && next[id] == User(id, name, email, group)
  {
    var id := UserId(|users| + 1);
    NextIdIsNew(users);
    AddedIsNumbered(users, User(id, name, email, group));
  }

  lemma {:induction false} AddedIsNumbered(users: Users, user: User)
    requires Numbered(users) && user.id == UserId(|users| + 1) && user.id !in users
    ensures Numbered(users[user.id := user]) && |users[user.id := user]| == |users| + 1
  {
    IdsGrow(|users|);
    assert users[user.id := user].Keys == users.Keys + {user.id};
  }

  // An update of the email changes that field of that user, and nothing if there is no such user.
  lemma {:induction false} UpdateNumbered(users: Users, id: string, email: Arg)
    requires Numbered(users)
    ensures var after := WithEmail(users, id, email);
            && Numbered(after) && after.Keys == users.Keys
            && (forall k :: k in users ==>
                  && after[k].id == users[k].id && after[k].name == users[k].name && after[k].group == users[k].group
                  && after[k].email == if k == id then email else users[k].email)
  {
    assert WithEmail(users, id, email).Keys == users.Keys;
    assert |WithEmail(users, id, email)| == |users|;
  }

  // A member who can be stored, and one who can also be welcomed.
  predicate Storable(m: Member) {
    m.name.Some? && m.email.Some?
  }

  predicate Welcomed(team: Arg, m: Member) {
    Storable(m) && m.name.value.Text? && team.Text?
  }

  function Stored(users: Users, group: Arg, m: Member): Users
    requires Storable(m)
  {
    AddUser(users, m.name.value, m.email.value, Some(group))
  }

  // The member is stored under the n-th id, and reported in the k-th place with a welcome.
  predicate StoredAs(users: Users, n: nat, group: Arg, m: Member) {
    && Storable(m) && UserId(n) in users
    && users[UserId(n)] == User(UserId(n), m.name.value, m.email.value, Some(group))
  }

  predicate ReportedAs(created: seq<Created>, k: nat, user: User, team: Arg) {
    && k < |created| && created[k].user == user && team.Text? && user.name.Text?
    && created[k].welcome == "Welcome to " + team.s + ", " + user.name.s + "!"
  }

  // One member stored, and where it goes on from there.
  lemma {:induction false} OneOnboarded(users: Users, team: Arg, group: Arg, members: seq<Member>, done: seq<Created>)
    returns (next: Users, more: seq<Created>)
    requires Numbered(users) && members != [] && Storable(members[0])
    ensures next == Stored(users, group, members[0]) && Numbered(next) && |next| == |users| + 1
    ensures forall k :: k in users ==> k in next && next[k] == users[k]
    ensures StoredAs(next, |users| + 1, group, members[0])
    ensures Onboard(users, team, group, members, done) ==
            if Welcomed(team, members[0]) then Onboard(next, team, group, members[1..], more) else (next, None)
    ensures Welcomed(team, members[0]) ==>
              && done <= more && |more| == |done| + 1
              && ReportedAs(more, |done|, next[UserId(|users| + 1)], team)
  {
    var m := members[0];
    next := Stored(users, group, m);
    AddUserNumbered(users, m.name.value, m.email.value, Some(group));
    more := done;
    if Welcomed(team, m) { more := done + [Created(next[UserId(|users| + 1)], Welcome(team.s, m.name.value.s))]; }
  }

  // Onboarding keeps everyone already there, and their numbering, however it ends.
  lemma {:induction false} OnboardNumbered(users: Users, team: Arg, group: Arg, members: seq<Member>,
                                           done: seq<Created>)
    requires Numbered(users)
    ensures var after := Onboard(users, team, group, members, done).0;
            && Numbered(after) && |users| <= |after|
            && forall k :: k in users ==> k in after && after[k] == users[k]
    decreases members
  {
    if members != [] && Storable(members[0]) {
      var next, more := OneOnboarded(users, team, group, members, done);
      if Welcomed(team, members[0]) { OnboardNumbered(next, team, group, members[1..], more); }
    }
  }

  // How many members get through before the first who cannot be welcomed.
  function Through(team: Arg, members: seq<Member>): nat {
    if members == [] || !Welcomed(team, members[0]) then 0 else 1 + Through(team, members[1..])
  }

  lemma {:induction false} ThroughIsFirst(team: Arg, members: seq<Member>)
    ensures var n := Through(team, members);
            && n <= |members|
            && (forall i :: 0 <= i < n ==> Welcomed(team, members[i]))
            && (n < |members| ==> !Welcomed(team, members[n]))
  {
    if members != [] && Welcomed(team, members[0]) { ThroughIsFirst(team, members[1..]); }
  }

  // Onboarding succeeds exactly when every member can be welcomed; the members stored are those up to
  // the first who cannot, and that one too if storable.
  lemma {:induction false} OnboardCounts(users: Users, team: Arg, group: Arg, members: seq<Member>, done: seq<Created>)
    requires Numbered(users)
    ensures var (after, created) := Onboard(users, team, group, members, done);
            var n := Through(team, members);
            && n <= |members|
            && |after| == |users| + n + (if n < |members| && Storable(members[n]) then 1 else 0)
            && (created.Some? <==> n == |members|)
            && (created.Some? ==> done <= created.value && |created.value| == |done| + |members|)
    decreases members
  {
    if members != [] && Storable(members[0]) {
      var next, more := OneOnboarded(users, team, group, members, done);
      if Welcomed(team, members[0]) { OnboardCounts(next, team, group, members[1..], more); }
    }
  }

  lemma {:induction false} FirstStored(users: Users, team: Arg, group: Arg, members: seq<Member>, done: seq<Created>)
    requires Numbered(users) && members != [] && Storable(members[0])
    ensures var (after, created) := Onboard(users, team, group, members, done);
            && StoredAs(after, |users| + 1, group, members[0])
            && (created.Some? ==> ReportedAs(created.value, |done|, after[UserId(|users| + 1)], team))
  {
    var next, more := OneOnboarded(users, team, group, members, done);
    if Welcomed(team, members[0]) {
      OnboardCounts(next, team, group, members[1..], more);
      OnboardNumbered(next, team, group, members[1..], more);
    }
  }

  lemma {:induction false} OneWelcomed(users: Users, team: Arg, group: Arg, members: seq<Member>, done: seq<Created>)
    returns (next: Users, more: seq<Created>)
    requires Numbered(users) && members != [] && Welcomed(team, members[0])
    ensures Numbered(next) && |next| == |users| + 1 && |more| == |done| + 1
    ensures Onboard(users, team, group, members, done) == Onboard(next, team, group, members[1..], more)
  {
    next, more := OneOnboarded(users, team, group, members, done);
  }

  // The i-th of them is stored under the i-th new id, and reported in the i-th place with a welcome.
  lemma {:induction false} OnboardStores(users: Users, team: Arg, group: Arg, members: seq<Member>, done: seq<Created>,
                                         i: nat)
    requires Numbered(users) && i < |members| && i <= Through(team, members) && Storable(members[i])
    ensures var (after, created) := Onboard(users, team, group, members, done);
            && StoredAs(after, |users| + 1 + i, group, members[i])
            && (created.Some? ==> ReportedAs(created.value, |done| + i, after[UserId(|users| + 1 + i)], team))
    decreases members
  {
    if i == 0 {
      FirstStored(users, team, group, members, done);
    } else {
      var next, more := OneWelcomed(users, team, group, members, done);
      OnboardStores(next, team, group, members[1..], more, i - 1);
    }
  }

  lemma {:induction false} RunNumbered(users: Users, ops: seq<Op>)
    requires Numbered(users)
    ensures Numbered(Run(users, ops)) && users.Keys <= Run(users, ops).Keys
    decreases ops
  {
    if ops != [] {
      match ops[0] {
        case CreateOp(name, email, group) => AddUserNumbered(users, name, email, group);
        case UpdateOp(id, email) => UpdateNumbered(users, id, email);
        case OnboardOp(team, grp, members) => OnboardNumbered(users, team, grp, members, []);
      }
      RunNumbered(Step(users, ops[0]), ops[1..]);
    }
  }

  // Over any sequential run from the empty store no id is ever given out twice or lost.
  lemma IdsNeverCollide(ops: seq<Op>)
    ensures Numbered(Run(map[], ops))
  {
    assert Ids(0) == {};
    RunNumbered(map[], ops);
  }

  // ------------------------------------------------------------------ overlapping creations

  // The two halves of a creation, which calls in different threads can interleave: taking the size
  // of the store, and storing the user under the id made from it.
  datatype Event =
    | Size(who: nat)
    | Store(who: nat, name: Arg, email: Arg, group: Option<Arg>)

  // The store, and the sizes that unfinished creations have taken.
  datatype Pool = Pool(users: Users, seen: map<nat, nat>)

  function Happen(p: Pool, e: Event): Pool {
    match e
    case Size(w) => p.(seen := p.seen[w := |p.users|])
    case Store(w, name, email, group) =>
      if w !in p.seen then p
      else
        var id := UserId(p.seen[w] + 1);
        Pool(p.users[id := User(id, name, email, group)], p.seen - {w})
  }

  // With nothing in between, the two halves are one creation.
  lemma {:induction false} UndisturbedCreation(p: Pool, store: Event)
    requires store.Store?
    ensures var after := Happen(Happen(p, Size(store.who)), store);
            && after.users == AddUser(p.users, store.name, store.email, store.group)
            && after.seen == p.seen - {store.who}
  {
    StoreWrites(Happen(p, Size(store.who)), store, UserId(|p.users| + 1));
    assert p.seen[store.who := |p.users|] - {store.who} == p.seen - {store.who};
  }

  function HappenAll(p: Pool, events: seq<Event>): Pool
    decreases events
  {
    if events == [] then p else HappenAll(Happen(p, events[0]), events[1..])
  }

  predicate Consistent(p: Pool) {
    Numbered(p.users) && forall w :: w in p.seen ==> p.seen[w] <= |p.users|
  }

  // A user is added exactly when the store still has the size that was taken; otherwise a record
  // that was already there is overwritten.
  lemma {:induction false} StoreAddsIff(p: Pool, e: Event)
    requires Consistent(p) && e.Store? && e.who in p.seen
    ensures var after, id := Happen(p, e), UserId(p.seen[e.who] + 1);
            && Consistent(after)
            && |after.users| == |p.users| + (if p.seen[e.who] == |p.users| then 1 else 0)
            && (id in p.users <==> p.seen[e.who] < |p.users|)
  {
    var n := p.seen[e.who] + 1;
    var user := User(UserId(n), e.name, e.email, e.group);
    if n == |p.users| + 1 {
      NextIdIsNew(p.users);
      AddedIsNumbered(p.users, user);
    } else {
      assert UserId(n) in Ids(|p.users|);
      assert p.users[UserId(n) := user].Keys == p.users.Keys;
      assert |p.users[UserId(n) := user]| == |p.users|;
    }
  }

  lemma {:induction false} EventKeeps(p: Pool, e: Event)
    requires Consistent(p)
    ensures Consistent(Happen(p, e)) && |p.users| <= |Happen(p, e).users|
    ensures forall w :: w in p.seen && w != e.who ==> w in Happen(p, e).seen && Happen(p, e).seen[w] == p.seen[w]
  {
    if e.Store? && e.who in p.seen { StoreAddsIff(p, e); }
  }

  // Under every interleaving the keys stay the ids of 1..n and every record carries its key, the
  // store never shrinks, and a creation keeps the size it took.
  lemma {:induction false} InterleavingKeeps(p: Pool, events: seq<Event>, w: nat)
    requires Consistent(p)
    ensures var end := HappenAll(p, events);
            && Consistent(end) && |p.users| <= |end.users|
            && (w in p.seen && (forall e :: e in events ==> e.who != w) ==> w in end.seen && end.seen[w] == p.seen[w])
    decreases events
  {
    if events != [] {
      assert events[0] in events && forall e :: e in events[1..] ==> e in events;
      EventKeeps(p, events[0]);
      InterleavingKeeps(Happen(p, events[0]), events[1..], w);
    }
  }

  // So a creation adds a user if and only if no other creation added one between its two halves.
  lemma {:induction false} CreationAddsIff(p: Pool, between: seq<Event>, store: Event)
    requires Consistent(p) && store.Store? && forall e :: e in between ==> e.who != store.who
    ensures var before := HappenAll(Happen(p, Size(store.who)), between); var after := Happen(before, store);
            |after.users| == |before.users| + (if |before.users| == |p.users| then 1 else 0)
  {
    EventKeeps(p, Size(store.who));
    InterleavingKeeps(Happen(p, Size(store.who)), between, store.who);
    StoreAddsIff(HappenAll(Happen(p, Size(store.who)), between), store);
  }

  // Two creations that both take the size before either stores: one user is left of the two.
  lemma {:induction false} OverlappingCreatesCollide(users: Users, a: Event, b: Event)
    requires Numbered(users) && a.Store? && b.Store? && a.who != b.who
    ensures var end := HappenAll(Pool(users, map[]), [Size(a.who), Size(b.who), a, b]);
            var id := UserId(|users| + 1);
            && |end.users| == |users| + 1 && id !in users
            && end.users == users[id := User(id, b.name, b.email, b.group)]
  {
    FourEvents(Pool(users, map[]), Size(a.who), Size(b.who), a, b);
    NextIdIsNew(users);
    StoreTwice(BothTaken(users, a.who, b.who), a, b, UserId(|users| + 1));
  }

  function BothTaken(users: Users, v: nat, w: nat): (p: Pool)
    ensures p == Happen(Happen(Pool(users, map[]), Size(v)), Size(w))
  {
    Pool(users, map[v := |users|][w := |users|])
  }

  lemma {:induction false} StoreTwice(p: Pool, a: Event, b: Event, id: string)
    requires a.Store? && b.Store? && a.who != b.who && a.who in p.seen && b.who in p.seen
    requires id == UserId(p.seen[a.who] + 1) && p.seen[b.who] == p.seen[a.who] && id !in p.users
    ensures Happen(Happen(p, a), b).users == p.users[id := User(id, b.name, b.email, b.group)]
    ensures |Happen(Happen(p, a), b).users| == |p.users| + 1
  {
    StoreWrites(p, a, id);
    StoreWrites(Happen(p, a), b, id);
    WriteTwice(p.users, id, User(id, a.name, a.email, a.group), User(id, b.name, b.email, b.group));
  }

  lemma {:induction false} StoreWrites(p: Pool, e: Event, id: string)
    requires e.Store? && e.who in p.seen && id == UserId(p.seen[e.who] + 1)
    ensures Happen(p, e) == Pool(p.users[id := User(id, e.name, e.email, e.group)], p.seen - {e.who})
  {
  }

  lemma {:induction false} WriteTwice(users: Users, id: string, first: User, second: User)
    requires id !in users
    ensures users[id := first][id := second] == users[id := second]
    ensures |users[id := second]| == |users| + 1
  {
    assert users[id := second].Keys == users.Keys + {id};
  }

  lemma FourEvents(p: Pool, e: Event, f: Event, g: Event, h: Event)
    ensures HappenAll(p, [e, f, g, h]) == Happen(Happen(Happen(Happen(p, e), f), g), h)
  {
    var q := Happen(Happen(p, e), f);
    assert [e, f, g, h][1..] == [f, g, h] && [f, g, h][1..] == [g, h];
    assert [g, h][1..] == [h] && [h][1..] == [];
    assert HappenAll(q, [g, h]) == HappenAll(Happen(q, g), [h])
        && HappenAll(Happen(q, g), [h]) == Happen(Happen(q, g), h);
  }
}
