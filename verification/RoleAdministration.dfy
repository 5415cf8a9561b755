/** Role administration: grants, groups and accounts as steps on the stored tables. */
module RoleAdministration {
  import opened Json
  import opened Text

  const GUARDED: set<string> := {"admin", "releaser"}
  const KNOWN: set<string> := {"admin", "user_manager", "viewer", "maintainer", "releaser"}
  const GRANTABLE: set<string> := {"admin", "user_manager", "viewer", "releaser"}

  datatype Source = Native | Ldap
  datatype Group = Group(name: string, source: Source)

  /** The stored tables; ids are handed out once and never again. */
  datatype State = State(
    users: map<int, string>,
    userRoles: set<(int, string)>,
    groups: map<int, Group>,
    groupRoles: set<(int, string)>,
    members: set<(int, int)>,
    nextId: int)

  /** Rows refer to existing users and groups, and ids lie below the next one. */
  ghost predicate Valid(s: State) {
    && (forall u :: u in s.users ==> u < s.nextId)
    && (forall g :: g in s.groups ==> g < s.nextId)
    && (forall row :: row in s.userRoles ==> row.0 in s.users)
    && (forall row :: row in s.groupRoles ==> row.0 in s.groups)
    && (forall row :: row in s.members ==> row.0 in s.groups && row.1 in s.users)
  }

  // --- Effective roles ------------------------------------------------------------

  function GroupRoles(s: State, g: int): set<string> {
    set row | row in s.groupRoles && row.0 == g :: row.1
  }

  /** Direct grants, and those of the groups whose membership is stored. */
  function StoredRoles(s: State, u: int): set<string> {
    (set row | row in s.userRoles && row.0 == u :: row.1) +
    (set m, row | m in s.members && m.1 == u && row in s.groupRoles && row.0 == m.0 :: row.1)
  }

  /** Roles conferred by the directory groups a user is in. */
  function DirectoryRoles(s: State, names: set<string>): set<string> {
    set row | row in s.groupRoles && row.0 in s.groups && s.groups[row.0].source.Ldap? && s.groups[row.0].name in names :: row.1
  }

  /** The source's nested loops over the listed groups and their roles. */
  method RolesFromDirectory(s: State, listed: seq<int>, names: set<string>) returns (roles: seq<string>)
    requires forall g :: g in s.groups ==> g in listed
    ensures forall r :: r in roles <==> r in DirectoryRoles(s, names)
    ensures forall i, j :: 0 <= i < j < |roles| ==> roles[i] != roles[j]
  {
    roles := [];
    if names == {} {
      return;
    }
    for i := 0 to |listed|
      invariant forall r :: r in roles <==> r in RolesUpTo(s, listed, names, i)
      invariant forall i, j :: 0 <= i < j < |roles| ==> roles[i] != roles[j]
    {
      if FromDirectory(s, names, listed[i]) {
        roles := AppendNew(roles, GroupRoles(s, listed[i]));
      }
    }
    forall row | row in s.groupRoles && FromDirectory(s, names, row.0) ensures row.1 in RolesUpTo(s, listed, names, |listed|) {
      var i :| 0 <= i < |listed| && listed[i] == row.0;
    }
  }

  ghost function RolesUpTo(s: State, listed: seq<int>, names: set<string>, n: nat): set<string>
    requires n <= |listed|
  {
    set i, row | 0 <= i < n && FromDirectory(s, names, listed[i]) && row in s.groupRoles && row.0 == listed[i] :: row.1
  }

  predicate FromDirectory(s: State, names: set<string>, g: int) {
    g in s.groups && s.groups[g].source.Ldap? && s.groups[g].name in names
  }

  method AppendNew(roles: seq<string>, more: set<string>) returns (all: seq<string>)
    requires forall i, j :: 0 <= i < j < |roles| ==> roles[i] != roles[j]
    ensures forall r :: r in all <==> r in roles || r in more
    ensures forall i, j :: 0 <= i < j < |all| ==> all[i] != all[j]
  {
    all := roles;
    var todo := more;
    while todo != {}
      invariant todo <= more
      invariant forall r :: r in all <==> r in roles || r in more - todo
      invariant forall i, j :: 0 <= i < j < |all| ==> all[i] != all[j]
    {
      var r :| r in todo;
      if r !in all {
        all := all + [r];
      }
      todo := todo - {r};
    }
  }

  // --- Actors and guards --------------------------------------------------------------

  /** Root names come from configuration, directory membership from the directory. */
  datatype Config = Config(roots: set<string>, directory: int -> set<string>)

  datatype Actor = Actor(isRoot: bool, roles: set<string>)

  function ResolveActor(c: Config, s: State, u: int): Actor
    requires u in s.users
  {
    Actor(s.users[u] in c.roots, (StoredRoles(s, u) + DirectoryRoles(s, c.directory(u))) * KNOWN)
  }

  predicate MayGuard(actor: Option<Actor>) {
    actor.Some? && (actor.value.isRoot || "admin" in actor.value.roles)
  }

  /** Only an admin or root may touch a guarded role. */
  predicate Allowed(actor: Option<Actor>, touched: set<string>) {
    touched * GUARDED == {} || MayGuard(actor)
  }

  function SymmetricDifference(a: set<string>, b: set<string>): set<string> {
    (a - b) + (b - a)
  }

  // --- Steps ------------------------------------------------------------------------------

  datatype Action =
    | GrantRole(user: int, role: string)
    | RevokeRole(user: int, role: string)
    | SetGroupRoles(group: int, roles: seq<string>)
    | AddMember(group: int, user: int)
    | RemoveMember(group: int, user: int)
    | CreateGroup(name: string)
    | RenameGroup(group: int, name: string)
    | DeleteGroup(group: int)
    | AddDirectoryGroup(dn: string)
    | DeleteUser(user: int)
    | Register(username: string)

  function AsSet(roles: seq<string>): set<string> {
    set r | r in roles
  }

  /** The rows that grant these roles to a group. */
  function Grants(g: int, roles: set<string>): (rows: set<(int, string)>)
    ensures forall h, r :: (h, r) in rows <==> h == g && r in roles
  {
    set r | r in roles :: (g, r)
  }

  function WithGroup(s: State, name: string, source: Source): State {
    if exists g | g in s.groups :: s.groups[g] == Group(name, source) then s
    else s.(groups := s.groups[s.nextId := Group(name, source)], nextId := s.nextId + 1)
  }

  predicate IsNative(s: State, g: int) {
    g in s.groups && s.groups[g].source.Native?
  }

  /** What a request does: the new tables, or nothing when it is refused. */
  function Step(c: Config, s: State, actor: Option<Actor>, a: Action): Option<State> {
    match a
    case GrantRole(u, role) =>
      if role !in GRANTABLE || !Allowed(actor, {role}) || u !in s.users then None
      else Some(s.(userRoles := s.userRoles + {(u, role)}))
    case RevokeRole(u, role) =>
      if role !in KNOWN || !Allowed(actor, {role}) then None
      else Some(s.(userRoles := s.userRoles - {(u, role)}))
    case SetGroupRoles(g, roles) =>
      if g !in s.groups || !(AsSet(roles) <= GRANTABLE) || !Allowed(actor, SymmetricDifference(AsSet(roles), GroupRoles(s, g))) then None
      else Some(s.(groupRoles := (set row | row in s.groupRoles && row.0 != g) + Grants(g, AsSet(roles))))
    case AddMember(g, u) =>
      if !IsNative(s, g) || !Allowed(actor, GroupRoles(s, g)) || u !in s.users then None
      else Some(s.(members := s.members + {(g, u)}))
    case RemoveMember(g, u) =>
      if !IsNative(s, g) || !Allowed(actor, GroupRoles(s, g)) then None
      else Some(s.(members := s.members - {(g, u)}))
    case CreateGroup(name) =>
      if Trim(name) == "" then None else Some(WithGroup(s, Trim(name), Native))
    case RenameGroup(g, name) =>
      if !IsNative(s, g) || Trim(name) == "" then None
      else if exists h | h in s.groups :: h != g && s.groups[h] == Group(Trim(name), Native) then None
      else Some(s.(groups := s.groups[g := Group(Trim(name), Native)]))
    case DeleteGroup(g) =>
      if !Allowed(actor, GroupRoles(s, g)) then None
      else Some(s.(
        members := (set m | m in s.members && m.0 != g),
        groupRoles := (set row | row in s.groupRoles && row.0 != g),
        groups := s.groups - {g}))
    case AddDirectoryGroup(dn) =>
      if Trim(dn) == "" then None
      else if exists g | g in s.groups :: s.groups[g].source.Ldap? && Lower(s.groups[g].name) == Lower(Trim(dn)) then Some(s)
      else Some(WithGroup(s, Trim(dn), Ldap))
    case DeleteUser(u) =>
      if !Allowed(actor, if u in s.users && s.users[u] in c.roots then {"admin"} else StoredRoles(s, u)) then None
      else Some(s.(
        users := s.users - {u},
        userRoles := (set row | row in s.userRoles && row.0 != u),
        members := (set m | m in s.members && m.1 != u)))
    case Register(username) =>
      if username in c.roots || exists u | u in s.users :: s.users[u] == username then None
      else Some(s.(users := s.users[s.nextId := username], nextId := s.nextId + 1))
  }

  function After(c: Config, s: State, actor: Option<Actor>, a: Action): State {
    match Step(c, s, actor, a) case Some(t) => t case None => s
  }

  lemma StepKeepsValid(c: Config, s: State, actor: Option<Actor>, a: Action)
    requires Valid(s)
    ensures Valid(After(c, s, actor, a)) && s.nextId <= After(c, s, actor, a).nextId
  {}

  // --- What steps without privilege keep -----------------------------------------------------

  function GuardedStored(s: State, u: int): set<string> {
    StoredRoles(s, u) * GUARDED
  }

  function GuardedDirectory(s: State, names: set<string>): set<string> {
    DirectoryRoles(s, names) * GUARDED
  }

  /** Nobody's guarded roles moved: not a surviving user's, not what a list of directory groups
      confers; who disappeared held none and was not root; who is new holds none and is not root. */
  ghost predicate GuardedKept(c: Config, s: State, t: State) {
    && s.nextId <= t.nextId
    && (forall names :: GuardedDirectory(t, names) == GuardedDirectory(s, names))
    && (forall u :: u in s.users && u in t.users ==> t.users[u] == s.users[u] && GuardedStored(t, u) == GuardedStored(s, u))
    && (forall u :: u in s.users && u !in t.users ==> s.users[u] !in c.roots && GuardedStored(s, u) == {})
    && (forall u :: u !in s.users && u in t.users ==> u >= s.nextId && t.users[u] !in c.roots && GuardedStored(t, u) == {})
  }

  /** The rows that carry guarded roles stand, for the surviving users. */
  ghost predicate RowsKept(s: State, t: State) {
    && (forall g, r :: r in GUARDED ==> ((g, r) in s.groupRoles <==> (g, r) in t.groupRoles))
    && (forall u, r :: r in GUARDED && u in s.users && u in t.users ==> ((u, r) in s.userRoles <==> (u, r) in t.userRoles))
    && (forall g, u :: GuardedGroup(s, g) && u in s.users && u in t.users ==> ((g, u) in s.members <==> (g, u) in t.members))
    && (forall g :: GuardedGroup(s, g) ==> g in s.groups && g in t.groups && s.groups[g].source == t.groups[g].source)
    && (forall g :: GuardedGroup(s, g) && s.groups[g].source.Ldap? ==> s.groups[g].name == t.groups[g].name)
  }

  ghost predicate GuardedGroup(s: State, g: int) {
    exists r :: r in GUARDED && (g, r) in s.groupRoles
  }

  lemma GroupRolesHave(s: State, g: int)
    ensures forall r :: r in GroupRoles(s, g) <==> (g, r) in s.groupRoles
    ensures GroupRoles(s, g) * GUARDED == {} <==> !GuardedGroup(s, g)
  {
    forall r ensures r in GroupRoles(s, g) <==> (g, r) in s.groupRoles {
      if (g, r) in s.groupRoles {
        var row := (g, r);
        assert row.0 == g && row.1 == r;
      }
    }
    if GuardedGroup(s, g) {
      var r :| r in GUARDED && (g, r) in s.groupRoles;
      assert r in GroupRoles(s, g) * GUARDED;
    } else {
      forall r | r in GroupRoles(s, g) ensures r !in GUARDED {
        assert (g, r) in s.groupRoles;
      }
    }
  }

  lemma StoredRolesHave(s: State, u: int, r: string)
    ensures r in StoredRoles(s, u) <==> (u, r) in s.userRoles || exists g :: (g, u) in s.members && (g, r) in s.groupRoles
  {
    if exists g :: (g, u) in s.members && (g, r) in s.groupRoles {
      var g :| (g, u) in s.members && (g, r) in s.groupRoles;
      var m, row := (g, u), (g, r);
      assert m in s.members && m.1 == u && row in s.groupRoles && row.0 == m.0;
    }
  }

  lemma DirectoryRolesHave(s: State, names: set<string>, r: string)
    ensures r in DirectoryRoles(s, names) <==> exists g :: FromDirectory(s, names, g) && (g, r) in s.groupRoles
  {
    if r in DirectoryRoles(s, names) {
      var row :| row in s.groupRoles && FromDirectory(s, names, row.0) && row.1 == r;
      assert (row.0, r) in s.groupRoles;
    }
  }

  lemma RowsGiveStored(s: State, t: State, u: int, r: string)
    requires RowsKept(s, t) && u in s.users && u in t.users && r in GUARDED
    ensures r in StoredRoles(s, u) <==> r in StoredRoles(t, u)
  {
    StoredRolesHave(s, u, r);
    StoredRolesHave(t, u, r);
    assert forall g :: (g, r) in s.groupRoles ==> GuardedGroup(s, g);
  }

  lemma RowsGiveDirectory(s: State, t: State, names: set<string>, r: string)
    requires RowsKept(s, t) && r in GUARDED
    ensures r in DirectoryRoles(s, names) <==> r in DirectoryRoles(t, names)
  {
    DirectoryRolesHave(s, names, r);
    DirectoryRolesHave(t, names, r);
    assert forall g :: (g, r) in s.groupRoles ==> GuardedGroup(s, g);
  }

  lemma SetGroupRolesKeepsRows(c: Config, s: State, actor: Option<Actor>, g: int, roles: seq<string>)
    requires Valid(s) && !MayGuard(actor)
    ensures RowsKept(s, After(c, s, actor, SetGroupRoles(g, roles)))
  {
    if Step(c, s, actor, SetGroupRoles(g, roles)).Some? {
      var t := After(c, s, actor, SetGroupRoles(g, roles));
      var touched := SymmetricDifference(AsSet(roles), GroupRoles(s, g));
      assert touched * GUARDED == {};
      GroupRolesHave(s, g);
      forall h, r | r in GUARDED ensures (h, r) in s.groupRoles <==> (h, r) in t.groupRoles {
        assert r !in touched by {
          assert r in touched ==> r in touched * GUARDED;
        }
      }
    }
  }

  lemma GroupStepsKeepRows(c: Config, s: State, actor: Option<Actor>, a: Action)
    requires Valid(s) && !MayGuard(actor) && (a.AddMember? || a.RemoveMember? || a.DeleteGroup?)
    ensures RowsKept(s, After(c, s, actor, a))
  {
    GroupRolesHave(s, a.group);
  }

  lemma RoleStepsKeepRows(c: Config, s: State, actor: Option<Actor>, a: Action)
    requires Valid(s) && !MayGuard(actor) && (a.GrantRole? || a.RevokeRole?)
    ensures RowsKept(s, After(c, s, actor, a))
  {
    if a.role in GUARDED {
      assert a.role in {a.role} * GUARDED;
    }
  }

  lemma OtherStepsKeepRows(c: Config, s: State, actor: Option<Actor>, a: Action)
    requires Valid(s) && (a.CreateGroup? || a.RenameGroup? || a.AddDirectoryGroup? || a.DeleteUser? || a.Register?)
    ensures RowsKept(s, After(c, s, actor, a))
  {
    match a
    case CreateGroup(name) => WithGroupKeepsRows(s, Trim(name), Native);
    case AddDirectoryGroup(dn) => WithGroupKeepsRows(s, Trim(dn), Ldap);
    case RenameGroup(g, name) => RenameKeepsRows(c, s, actor, g, name);
    case DeleteUser(u) => DeletionKeepsRows(c, s, actor, u);
    case Register(username) => RegistrationKeepsRows(c, s, actor, username);
  }

  lemma DeletionKeepsRows(c: Config, s: State, actor: Option<Actor>, u: int)
    requires Valid(s)
    ensures RowsKept(s, After(c, s, actor, DeleteUser(u)))
  {}

  lemma RegistrationKeepsRows(c: Config, s: State, actor: Option<Actor>, username: string)
    requires Valid(s)
    ensures RowsKept(s, After(c, s, actor, Register(username)))
  {}

  lemma RenameKeepsRows(c: Config, s: State, actor: Option<Actor>, g: int, name: string)
    requires Valid(s)
    ensures RowsKept(s, After(c, s, actor, RenameGroup(g, name)))
  {}

  lemma WithGroupKeepsRows(s: State, name: string, source: Source)
    requires Valid(s)
    ensures RowsKept(s, WithGroup(s, name, source))
  {}

  lemma UnprivilegedRows(c: Config, s: State, actor: Option<Actor>, a: Action)
    requires Valid(s) && !MayGuard(actor)
    ensures RowsKept(s, After(c, s, actor, a))
  {
    if a.SetGroupRoles? {
      SetGroupRolesKeepsRows(c, s, actor, a.group, a.roles);
    } else if a.AddMember? || a.RemoveMember? || a.DeleteGroup? {
      GroupStepsKeepRows(c, s, actor, a);
    } else if a.GrantRole? || a.RevokeRole? {
      RoleStepsKeepRows(c, s, actor, a);
    } else {
      OtherStepsKeepRows(c, s, actor, a);
    }
  }

  lemma UnprivilegedAccounts(c: Config, s: State, actor: Option<Actor>, a: Action)
    requires Valid(s) && !MayGuard(actor)
    ensures var t := After(c, s, actor, a);
            && (forall u :: u in s.users && u in t.users ==> t.users[u] == s.users[u])
            && (forall u :: u in s.users && u !in t.users ==> s.users[u] !in c.roots && GuardedStored(s, u) == {})
            && (forall u :: u !in s.users && u in t.users ==> u >= s.nextId && t.users[u] !in c.roots && GuardedStored(t, u) == {})
  {
    if a.DeleteUser? {
      assert "admin" in {"admin"} * GUARDED;
    }
    if a.Register? {
      var t := After(c, s, actor, a);
      forall r { StoredRolesHave(t, s.nextId, r); }
    }
  }

  /** A step by an actor who is neither root nor admin moves nobody's guarded roles. */
  lemma UnprivilegedStep(c: Config, s: State, actor: Option<Actor>, a: Action)
    requires Valid(s) && !MayGuard(actor)
    ensures GuardedKept(c, s, After(c, s, actor, a))
  {
    var t := After(c, s, actor, a);
    UnprivilegedRows(c, s, actor, a);
    StepKeepsValid(c, s, actor, a);
    forall names ensures GuardedDirectory(t, names) == GuardedDirectory(s, names) {
      forall r | r in GUARDED { RowsGiveDirectory(s, t, names, r); }
    }
    forall u | u in s.users && u in t.users ensures GuardedStored(t, u) == GuardedStored(s, u) {
      forall r | r in GUARDED { RowsGiveStored(s, t, u, r); }
    }
    UnprivilegedAccounts(c, s, actor, a);
  }

  lemma GuardedKeptTransitive(c: Config, s: State, t: State, w: State)
    requires Valid(s) && Valid(t) && Valid(w) && GuardedKept(c, s, t) && GuardedKept(c, t, w)
    ensures GuardedKept(c, s, w)
  {}

  // --- Runs -----------------------------------------------------------------------------------

  /** A request: who makes it and what it asks. */
  datatype Request = Request(caller: int, action: Action)

  /** The caller as the service sees them at that moment; nobody, once the account is gone. */
  function Caller(c: Config, s: State, u: int): Option<Actor> {
    if u in s.users then Some(ResolveActor(c, s, u)) else None
  }

  function Run(c: Config, s: State, requests: seq<Request>): State {
    if requests == [] then s
    else
      var front := Run(c, s, requests[..|requests| - 1]);
      var last := requests[|requests| - 1];
      After(c, front, Caller(c, front, last.caller), last.action)
  }

  /** At the start the caller is neither root nor admin, and its directory groups do not make it one. */
  ghost predicate Unprivileged(c: Config, s: State, u: int) {
    && "admin" !in DirectoryRoles(s, c.directory(u))
    && (u in s.users ==> s.users[u] !in c.roots && "admin" !in StoredRoles(s, u))
  }

  lemma StaysUnprivileged(c: Config, s: State, t: State, u: int)
    requires GuardedKept(c, s, t) && Unprivileged(c, s, u)
    ensures !MayGuard(Caller(c, t, u))
  {
    if u in t.users {
      assert "admin" !in GuardedDirectory(s, c.directory(u));
      assert "admin" !in GuardedDirectory(t, c.directory(u));
      if u in s.users {
        assert "admin" !in GuardedStored(s, u);
      }
      assert "admin" !in GuardedStored(t, u);
    }
  }

  /** Over any run of requests by callers who start without privilege, whoever they are and whatever
      they do to each other, no guarded role moves, and none of them ever gains privilege. */
  lemma {:induction false} RunsKeepGuardedRoles(c: Config, s: State, requests: seq<Request>)
    requires Valid(s)
    requires forall q :: q in requests ==> Unprivileged(c, s, q.caller)
    ensures Valid(Run(c, s, requests)) && GuardedKept(c, s, Run(c, s, requests))
    ensures forall q :: q in requests ==> !MayGuard(Caller(c, Run(c, s, requests), q.caller))
    decreases |requests|
  {
    if requests != [] {
      var front, last := requests[..|requests| - 1], requests[|requests| - 1];
      RunsKeepGuardedRoles(c, s, front);
      var t := Run(c, s, front);
      StaysUnprivileged(c, s, t, last.caller);
      UnprivilegedStep(c, t, Caller(c, t, last.caller), last.action);
      StepKeepsValid(c, t, Caller(c, t, last.caller), last.action);
      GuardedKeptTransitive(c, s, t, Run(c, s, requests));
    }
    forall q | q in requests ensures !MayGuard(Caller(c, Run(c, s, requests), q.caller)) {
      StaysUnprivileged(c, s, Run(c, s, requests), q.caller);
    }
  }

  // --- The service on its tables ---------------------------------------------------------------

  /** The repository behind the service. A request is served by its guard and then its writes, in order. */
  class Store {
    var s: State
    const c: Config

    constructor (c: Config, s: State)
      ensures this.c == c && this.s == s
    {
      this.c, this.s := c, s;
    }

    /** The outcome and the new tables are those of the step. */
    twostate predicate Took(actor: Option<Actor>, a: Action, ok: bool)
      reads this
    {
      ok == Step(c, old(s), actor, a).Some? && s == After(c, old(s), actor, a)
    }

    /** Delete the group's grants, then insert the new ones one by one. */
    method SetRoles(actor: Option<Actor>, g: int, roles: seq<string>) returns (ok: bool)
      modifies this
      ensures Took(actor, SetGroupRoles(g, roles), ok)
    {
      if g !in s.groups || exists r | r in roles :: r !in GRANTABLE {
        return false;
      }
      if !Allowed(actor, SymmetricDifference(AsSet(roles), GroupRoles(s, g))) {
        return false;
      }
      s := s.(groupRoles := (set row | row in s.groupRoles && row.0 != g));
      for i := 0 to |roles|
        invariant s == old(s).(groupRoles :=
                    (set row | row in old(s.groupRoles) && row.0 != g) + Grants(g, AsSet(roles[..i])))
      {
        assert AsSet(roles[..i + 1]) == AsSet(roles[..i]) + {roles[i]};
        s := s.(groupRoles := s.groupRoles + {(g, roles[i])});
      }
      assert roles[..|roles|] == roles;
      ok := true;
    }

    /** Membership and grants are removed explicitly before the group itself. */
    method RemoveGroup(actor: Option<Actor>, g: int) returns (ok: bool)
      modifies this
      ensures Took(actor, DeleteGroup(g), ok)
    {
      if !Allowed(actor, GroupRoles(s, g)) {
        return false;
      }
      s := s.(members := (set m | m in s.members && m.0 != g));
      s := s.(groupRoles := (set row | row in s.groupRoles && row.0 != g));
      s := s.(groups := s.groups - {g});
      ok := true;
    }

    /** The rows of the account go with it. */
    method RemoveUser(actor: Option<Actor>, u: int) returns (ok: bool)
      modifies this
      ensures Took(actor, DeleteUser(u), ok)
    {
      if u in s.users && s.users[u] in c.roots {
        if !Allowed(actor, {"admin"}) {
          return false;
        }
      } else if !Allowed(actor, StoredRoles(s, u)) {
        return false;
      }
      s := s.(userRoles := (set row | row in s.userRoles && row.0 != u));
      s := s.(members := (set m | m in s.members && m.1 != u));
      s := s.(users := s.users - {u});
      ok := true;
    }

    /** Serve one request for an actor. Whatever it asks, the rows stay consistent, and without privilege
        behind it nobody's guarded roles move. */
    method Handle(actor: Option<Actor>, a: Action) returns (ok: bool)
      requires Valid(s)
      modifies this
      ensures Took(actor, a, ok)
      ensures Valid(s) && (!ok ==> s == old(s))
      ensures !MayGuard(actor) ==> GuardedKept(c, old(s), s)
    {
      StepKeepsValid(c, s, actor, a);
      if !MayGuard(actor) {
        UnprivilegedStep(c, s, actor, a);
      }
      match a {
        case SetGroupRoles(g, roles) => ok := SetRoles(actor, g, roles);
        case DeleteGroup(g) => ok := RemoveGroup(actor, g);
        case DeleteUser(u) => ok := RemoveUser(actor, u);
        case _ =>
          var t := Step(c, s, actor, a);
          ok := t.Some?;
          s := After(c, s, actor, a);
      }
    }

    /** Serve requests one after the other, each caller resolved as the tables stand by then. If none of
        the callers is privileged at the start, no guarded role moves in the whole run. */
    method Serve(requests: seq<Request>)
      requires Valid(s)
      modifies this
      ensures s == Run(c, old(s), requests) && Valid(s)
      ensures (forall q :: q in requests ==> Unprivileged(c, old(s), q.caller)) ==> GuardedKept(c, old(s), s)
    {
      for i := 0 to |requests|
        invariant Valid(s) && s == Run(c, old(s), requests[..i])
      {
        var actor := Caller(c, s, requests[i].caller);
        RunStep(c, old(s), requests, i);
        var ok := Handle(actor, requests[i].action);
      }
      assert requests[..|requests|] == requests;
      if forall q :: q in requests ==> Unprivileged(c, old(s), q.caller) {
        RunsKeepGuardedRoles(c, old(s), requests);
      }
    }
  }

  lemma RunStep(c: Config, s: State, requests: seq<Request>, i: nat)
    requires i < |requests|
    ensures Run(c, s, requests[..i + 1]) ==
            var t := Run(c, s, requests[..i]);
            After(c, t, Caller(c, t, requests[i].caller), requests[i].action)
  {
    assert requests[..i + 1][..i] == requests[..i];
  }

  // --- What steps achieve --------------------------------------------------------------------

  /** A grantable role can be granted to an existing user exactly by whom the guard lets, and the user
      then holds it, and nobody's other roles move. */
  lemma GrantTakesEffect(c: Config, s: State, actor: Option<Actor>, u: int, role: string)
    requires role in GRANTABLE && u in s.users
    ensures Step(c, s, actor, GrantRole(u, role)).Some? <==> (role in GUARDED ==> MayGuard(actor))
    ensures Step(c, s, actor, GrantRole(u, role)).Some? ==>
              var t := After(c, s, actor, GrantRole(u, role));
              StoredRoles(t, u) == StoredRoles(s, u) + {role} && forall v :: v != u ==> StoredRoles(t, v) == StoredRoles(s, v)
  {
    assert role in GUARDED <==> {role} * GUARDED != {} by {
      assert role in GUARDED ==> role in {role} * GUARDED;
    }
    var t := After(c, s, actor, GrantRole(u, role));
    forall v, r ensures r in StoredRoles(t, v) <==> r in StoredRoles(s, v) || (t != s && v == u && r == role) || (v == u && r == role && (u, role) in s.userRoles) {
      StoredRolesHave(s, v, r);
      StoredRolesHave(t, v, r);
    }
    StoredRolesHave(t, u, role);
  }

  /** Joining a native group confers exactly its roles. */
  lemma MembershipConfersGroupRoles(c: Config, s: State, actor: Option<Actor>, g: int, u: int)
    requires IsNative(s, g) && u in s.users && Allowed(actor, GroupRoles(s, g))
    ensures var t := After(c, s, actor, AddMember(g, u)); StoredRoles(t, u) == StoredRoles(s, u) + GroupRoles(s, g)
  {
    var t := After(c, s, actor, AddMember(g, u));
    GroupRolesHave(s, g);
    forall r ensures r in StoredRoles(t, u) <==> r in StoredRoles(s, u) || r in GroupRoles(s, g) {
      StoredRolesHave(s, u, r);
      StoredRolesHave(t, u, r);
      assert (g, u) in t.members;
    }
  }

  /** Replacing a group's roles leaves exactly the new ones, and those of other groups. */
  lemma GroupRolesReplaced(c: Config, s: State, actor: Option<Actor>, g: int, roles: seq<string>, h: int)
    requires Step(c, s, actor, SetGroupRoles(g, roles)).Some?
    ensures GroupRoles(After(c, s, actor, SetGroupRoles(g, roles)), h) == if h == g then AsSet(roles) else GroupRoles(s, h)
  {
    var t := After(c, s, actor, SetGroupRoles(g, roles));
    GroupRolesHave(s, h);
    GroupRolesHave(t, h);
  }

  /** A deleted user leaves no rows behind; everybody else keeps all their roles. */
  lemma DeletionIsClean(c: Config, s: State, actor: Option<Actor>, u: int, v: int)
    requires Step(c, s, actor, DeleteUser(u)).Some?
    ensures var t := After(c, s, actor, DeleteUser(u));
            && u !in t.users && StoredRoles(t, u) == {}
            && (v != u ==> StoredRoles(t, v) == StoredRoles(s, v))
  {
    var t := After(c, s, actor, DeleteUser(u));
    forall r ensures r !in StoredRoles(t, u) && (v != u ==> (r in StoredRoles(t, v) <==> r in StoredRoles(s, v))) {
      StoredRolesHave(t, u, r);
      StoredRolesHave(t, v, r);
      StoredRolesHave(s, v, r);
    }
  }

  /** A revoked role is gone unless one of the user's groups still confers it; nothing else moves. */
  lemma RevokeTakesEffect(c: Config, s: State, actor: Option<Actor>, u: int, role: string, v: int, r: string)
    requires Step(c, s, actor, RevokeRole(u, role)).Some?
    ensures var t := After(c, s, actor, RevokeRole(u, role));
            r in StoredRoles(t, v) <==>
              r in StoredRoles(s, v) && (v == u && r == role ==> exists g :: (g, u) in s.members && (g, role) in s.groupRoles)
  {
    var t := After(c, s, actor, RevokeRole(u, role));
    StoredRolesHave(s, v, r);
    StoredRolesHave(t, v, r);
  }

  /** Leaving a group leaves exactly the direct roles and those of the other groups. */
  lemma LeavingDropsGroupRoles(c: Config, s: State, actor: Option<Actor>, g: int, u: int, r: string)
    requires Step(c, s, actor, RemoveMember(g, u)).Some?
    ensures r in StoredRoles(After(c, s, actor, RemoveMember(g, u)), u) <==>
              (u, r) in s.userRoles || exists h :: h != g && (h, u) in s.members && (h, r) in s.groupRoles
  {
    StoredRolesHave(After(c, s, actor, RemoveMember(g, u)), u, r);
  }

  /** Of one source no two groups share a name. */
  ghost predicate NamesUnique(s: State) {
    forall g, h :: g in s.groups && h in s.groups && s.groups[g] == s.groups[h] ==> g == h
  }

  /** Over any run, by whomever, group names stay unique: creating answers an existing group, renaming
      refuses a name that is taken. */
  lemma {:induction false} RunsKeepNamesUnique(c: Config, s: State, requests: seq<Request>)
    requires NamesUnique(s)
    ensures NamesUnique(Run(c, s, requests))
    decreases |requests|
  {
    if requests != [] {
      var front, last := Run(c, s, requests[..|requests| - 1]), requests[|requests| - 1];
      RunsKeepNamesUnique(c, s, requests[..|requests| - 1]);
      StepKeepsNamesUnique(c, front, Caller(c, front, last.caller), last.action);
    }
  }

  lemma StepKeepsNamesUnique(c: Config, s: State, actor: Option<Actor>, a: Action)
    requires NamesUnique(s)
    ensures NamesUnique(After(c, s, actor, a))
  {}
}
