/**
 libs/toollab/seed.py: the handlers of the seed tools over their shared store `_USERS`, whose ids
 are derived from the size of the store.
 */
module SeedUsers {
  import opened Wrappers

  // ------------------------------------------------------------------ ids

  function Digit(d: nat): char
    requires d < 10
  {
    ('0' as int + d) as char
  }

  // `str(n)`.
  function Decimal(n: nat): string {
    if n < 10 then [Digit(n)] else Decimal(n / 10) + [Digit(n % 10)]
  }

  // `s.zfill(width)` of an unsigned numeral.
  function ZFill(s: string, width: nat): string
    decreases width - |s|
  {
    if |s| >= width then s else ZFill("0" + s, width)
  }

  function UserId(n: nat): string {
    "u-" + ZFill(Decimal(n), 5)
  }

  // ------------------------------------------------------------------ the store

  // An argument as the LLM supplied it: a string, some other JSON value, or absent.
  datatype Arg = Text(s: string) | NotText(tag: nat)

  datatype User = User(id: string, name: Arg, email: Arg, group: Option<Arg>)

  type Users = map<string, User>

  function AddUser(users: Users, name: Arg, email: Arg, group: Option<Arg>): Users {
    var id := UserId(|users| + 1);
    users[id := User(id, name, email, group)]
  }

  function WithEmail(users: Users, id: string, email: Arg): Users {
    if id in users then users[id := users[id].(email := email)] else users
  }

  // A team member; a missing field raises before the user is stored, a field or a team that is not
  // a string raises after, when the welcome text is built.
  datatype Member = Member(name: Option<Arg>, email: Option<Arg>)

  // A user as reported, with the welcome text.
  datatype Created = Created(user: User, welcome: string)

  function Welcome(team: string, name: string): string {
    "Welcome to " + team + ", " + name + "!"
  }

  // The store after onboarding, and the report, which adds to what is done; None when it raises, and
  // what was stored before that stays.
  function Onboard(users: Users, team: Arg, group: Arg, members: seq<Member>, done: seq<Created>)
    : (Users, Option<seq<Created>>)
    decreases members
  {
    if members == [] then (users, Some(done))
    else if members[0].name.None? || members[0].email.None? then (users, None)
    else
      var next := AddUser(users, members[0].name.value, members[0].email.value, Some(group));
      if !team.Text? || !members[0].name.value.Text? then (next, None)
      else
        var entry := Created(next[UserId(|users| + 1)], Welcome(team.s, members[0].name.value.s));
        Onboard(next, team, group, members[1..], done + [entry])
  }

  class UserStore {
    var users: Users

    constructor ()
      ensures users == map[]
    {
      users := map[];
    }

    method CreateUser(name: Arg, email: Arg, group: Option<Arg>) returns (user: User)
      modifies this
      ensures users == AddUser(old(users), name, email, group)
      ensures user == users[UserId(|old(users)| + 1)]
    {
      var id := UserId(|users| + 1);
      user := User(id, name, email, group);
      users := users[id := user];
    }

    method UpdateUserEmail(id: string, email: Arg) returns (user: Option<User>)
      modifies this
      ensures users == WithEmail(old(users), id, email)
      ensures user == if id in users then Some(users[id]) else None
    {
      if id !in users { return None; }
      users := users[id := users[id].(email := email)];
      return Some(users[id]);
    }

    // Yields None where the source raises.
    method OnboardNewTeam(team: Arg, group: Arg, members: seq<Member>) returns (created: Option<seq<Created>>)
      modifies this
      ensures (users, created) == Onboard(old(users), team, group, members, [])
    {
      var done: seq<Created> := [];
      for n := 0 to |members|
        invariant Onboard(old(users), team, group, members, []) == Onboard(users, team, group, members[n..], done)
      {
        assert members[n..][1..] == members[n + 1..];
        var m := members[n];
        if m.name.None? || m.email.None? { return None; }
        var uid := UserId(|users| + 1);
        var user := User(uid, m.name.value, m.email.value, Some(group));
        users := users[uid := user];
        if !team.Text? || !m.name.value.Text? { return None; }
        done := done + [Created(user, Welcome(team.s, m.name.value.s))];
      }
      return Some(done);
    }
  }
}
