/** What every step of role administration does to the stored tables, and when it is let through. */
module RoleMeaning {
  import opened Json
  import opened Text
  import opened RoleAdministration

  // --- Guards ---------------------------------------------------------------------------------

  /** Root, or holding `admin`. */
  predicate Privileged(actor: Option<Actor>) {
    actor.Some? && (actor.value.isRoot || "admin" in actor.value.roles)
  }

  /** Touching `admin` or `releaser` takes privilege, anything else does not. */
  lemma AllowedIff(actor: Option<Actor>, touched: set<string>)
    ensures Allowed(actor, touched) <==> ("admin" in touched || "releaser" in touched ==> Privileged(actor))
  {
    assert "admin" in touched ==> "admin" in touched * GUARDED;
    assert "releaser" in touched ==> "releaser" in touched * GUARDED;
    forall r | r in touched * GUARDED ensures r == "admin" || r == "releaser" {}
  }

  /** An actor holds the known roles stored for the user, directly or by a group, and those of the directory
      groups the directory lists. */
  lemma ActorHolds(c: Config, s: State, u: int, r: string)
    ensures Caller(c, s, u).Some? <==> u in s.users
    ensures u in s.users ==> (Caller(c, s, u).value.isRoot <==> s.users[u] in c.roots)
    ensures u in s.users ==> (r in Caller(c, s, u).value.roles <==>
              && r in {"admin", "user_manager", "viewer", "maintainer", "releaser"}
              && (|| (u, r) in s.userRoles
                  || (exists g :: (g, u) in s.members && (g, r) in s.groupRoles)
                  || (exists g :: g in s.groups && s.groups[g].source == Ldap && s.groups[g].name in c.directory(u) && (g, r) in s.groupRoles)))
  {
    StoredRolesHave(s, u, r);
    DirectoryRolesHave(s, c.directory(u), r);
    if g :| g in s.groups && s.groups[g].source == Ldap && s.groups[g].name in c.directory(u) && (g, r) in s.groupRoles {
      assert FromDirectory(s, c.directory(u), g);
    }
    if g :| FromDirectory(s, c.directory(u), g) && (g, r) in s.groupRoles {
      assert s.groups[g].source == Ldap;
    }
  }

  // --- Grants ----------------------------------------------------------------------------------

  /** All tables but that of direct grants. */
  predicate OnlyGrantsMoved(s: State, t: State) {
    t.users == s.users && t.groups == s.groups && t.groupRoles == s.groupRoles && t.members == s.members && t.nextId == s.nextId
  }

  lemma GrantMeans(c: Config, s: State, actor: Option<Actor>, u: int, role: string)
    ensures Step(c, s, actor, GrantRole(u, role)).Some? <==>
              && role in {"admin", "user_manager", "viewer", "releaser"} && u in s.users
              && (role == "admin" || role == "releaser" ==> Privileged(actor))
    ensures Step(c, s, actor, GrantRole(u, role)).Some? ==>
              var t := After(c, s, actor, GrantRole(u, role));
              OnlyGrantsMoved(s, t) && forall row :: row in t.userRoles <==> row in s.userRoles || row == (u, role)
  {
    AllowedIff(actor, {role});
  }

  lemma RevokeMeans(c: Config, s: State, actor: Option<Actor>, u: int, role: string)
    ensures Step(c, s, actor, RevokeRole(u, role)).Some? <==>
              && role in {"admin", "user_manager", "viewer", "maintainer", "releaser"}
              && (role == "admin" || role == "releaser" ==> Privileged(actor))
    ensures Step(c, s, actor, RevokeRole(u, role)).Some? ==>
              var t := After(c, s, actor, RevokeRole(u, role));
              OnlyGrantsMoved(s, t) && forall row :: row in t.userRoles <==> row in s.userRoles && row != (u, role)
  {
    AllowedIff(actor, {role});
  }

  // --- Groups ------------------------------------------------------------------------------------

  predicate OnlyGroupsMoved(s: State, t: State) {
    t.users == s.users && t.userRoles == s.userRoles && t.groupRoles == s.groupRoles && t.members == s.members
  }

  /** The old groups are as they were, and at most one of this kind is new. */
  ghost predicate GroupAdded(s: State, t: State, group: Group) {
    && OnlyGroupsMoved(s, t)
    && (forall g :: g in s.groups ==> g in t.groups && t.groups[g] == s.groups[g])
    && (forall g :: g in t.groups && g !in s.groups ==> g == s.nextId && t.groups[g] == group)
  }

  /** A name that is not blank gives a native group of the trimmed name, the existing one if there is one. */
  lemma CreateMeans(c: Config, s: State, actor: Option<Actor>, name: string)
    requires Valid(s)
    ensures Step(c, s, actor, CreateGroup(name)).Some? <==> exists i :: 0 <= i < |name| && !IsSpace(name[i])
    ensures Step(c, s, actor, CreateGroup(name)).Some? ==>
              var t := After(c, s, actor, CreateGroup(name));
              && GroupAdded(s, t, Group(Trim(name), Native))
              && (exists g :: g in t.groups && t.groups[g] == Group(Trim(name), Native))
              && ((exists g :: g in s.groups && s.groups[g] == Group(Trim(name), Native)) ==> t == s)
  {
    TrimBlank(name);
    WithGroupMeans(s, Trim(name), Native);
  }

  lemma WithGroupMeans(s: State, name: string, source: Source)
    requires Valid(s)
    ensures var t := WithGroup(s, name, source);
            && GroupAdded(s, t, Group(name, source))
            && (exists g :: g in t.groups && t.groups[g] == Group(name, source))
            && ((exists g :: g in s.groups && s.groups[g] == Group(name, source)) ==> t == s)
  {
    var t := WithGroup(s, name, source);
    if t != s {
      assert t.groups[s.nextId] == Group(name, source);
    }
  }

  /** A DN that is not blank gives a directory group of that name up to case, the existing one if there is. */
  lemma AddDirectoryMeans(c: Config, s: State, actor: Option<Actor>, dn: string)
    requires Valid(s)
    ensures Step(c, s, actor, AddDirectoryGroup(dn)).Some? <==> exists i :: 0 <= i < |dn| && !IsSpace(dn[i])
    ensures Step(c, s, actor, AddDirectoryGroup(dn)).Some? ==>
              var t := After(c, s, actor, AddDirectoryGroup(dn));
              && GroupAdded(s, t, Group(Trim(dn), Ldap))
              && (exists g :: g in t.groups && t.groups[g].source == Ldap && Lower(t.groups[g].name) == Lower(Trim(dn)))
              && ((exists g :: g in s.groups && s.groups[g].source == Ldap && Lower(s.groups[g].name) == Lower(Trim(dn))) ==> t == s)
  {
    TrimBlank(dn);
    WithGroupMeans(s, Trim(dn), Ldap);
    if g :| g in s.groups && s.groups[g].source == Ldap && Lower(s.groups[g].name) == Lower(Trim(dn)) {
      assert s.groups[g].source.Ldap?;
    }
  }

  /** Renaming changes the name of that native group and nothing else; a name taken is refused. */
  lemma RenameMeans(c: Config, s: State, actor: Option<Actor>, g: int, name: string)
    ensures Step(c, s, actor, RenameGroup(g, name)).Some? <==>
              && g in s.groups && s.groups[g].source == Native && (exists i :: 0 <= i < |name| && !IsSpace(name[i]))
              && forall h :: h in s.groups && h != g ==> s.groups[h] != Group(Trim(name), Native)
    ensures Step(c, s, actor, RenameGroup(g, name)).Some? ==>
              var t := After(c, s, actor, RenameGroup(g, name));
              && OnlyGroupsMoved(s, t) && t.nextId == s.nextId && t.groups.Keys == s.groups.Keys
              && t.groups[g] == Group(Trim(name), Native) && forall h :: h in s.groups && h != g ==> t.groups[h] == s.groups[h]
  {
    TrimBlank(name);
  }

  /** Deleting takes the group with its grants and memberships and leaves everything else. */
  lemma DeleteGroupMeans(c: Config, s: State, actor: Option<Actor>, g: int)
    ensures Step(c, s, actor, DeleteGroup(g)).Some? <==>
              ((g, "admin") in s.groupRoles || (g, "releaser") in s.groupRoles ==> Privileged(actor))
    ensures Step(c, s, actor, DeleteGroup(g)).Some? ==>
              var t := After(c, s, actor, DeleteGroup(g));
              && t.users == s.users && t.userRoles == s.userRoles && t.nextId == s.nextId
              && (forall h :: h in t.groups <==> h in s.groups && h != g) && (forall h :: h in t.groups ==> t.groups[h] == s.groups[h])
              && (forall row :: row in t.groupRoles <==> row in s.groupRoles && row.0 != g)
              && (forall row :: row in t.members <==> row in s.members && row.0 != g)
  {
    AllowedIff(actor, GroupRoles(s, g));
    GroupRolesHave(s, g);
  }

  /** Replacing a group's roles is let through for grantable roles and, where `admin` or `releaser` comes or
      goes, for the privileged; it leaves exactly the new grants and those of the other groups. */
  lemma SetGroupRolesMeans(c: Config, s: State, actor: Option<Actor>, g: int, roles: seq<string>)
    ensures Step(c, s, actor, SetGroupRoles(g, roles)).Some? <==>
              && g in s.groups && (forall r :: r in roles ==> r in {"admin", "user_manager", "viewer", "releaser"})
              && (("admin" in roles) != ((g, "admin") in s.groupRoles) || ("releaser" in roles) != ((g, "releaser") in s.groupRoles) ==> Privileged(actor))
    ensures Step(c, s, actor, SetGroupRoles(g, roles)).Some? ==>
              var t := After(c, s, actor, SetGroupRoles(g, roles));
              && t.users == s.users && t.userRoles == s.userRoles && t.groups == s.groups && t.members == s.members && t.nextId == s.nextId
              && forall h, r :: (h, r) in t.groupRoles <==> if h == g then r in roles else (h, r) in s.groupRoles
  {
    AllowedIff(actor, SymmetricDifference(AsSet(roles), GroupRoles(s, g)));
    GroupRolesHave(s, g);
    assert forall r :: r in AsSet(roles) <==> r in roles;
  }

  // --- Membership ------------------------------------------------------------------------------------

  predicate OnlyMembersMoved(s: State, t: State) {
    t.users == s.users && t.userRoles == s.userRoles && t.groups == s.groups && t.groupRoles == s.groupRoles && t.nextId == s.nextId
  }

  /** The guard of a membership change: a native group, and privilege if it confers a guarded role. */
  predicate MembershipMayMove(s: State, actor: Option<Actor>, g: int) {
    && g in s.groups && s.groups[g].source == Native
    && ((g, "admin") in s.groupRoles || (g, "releaser") in s.groupRoles ==> Privileged(actor))
  }

  lemma AddMemberMeans(c: Config, s: State, actor: Option<Actor>, g: int, u: int)
    ensures Step(c, s, actor, AddMember(g, u)).Some? <==> MembershipMayMove(s, actor, g) && u in s.users
    ensures Step(c, s, actor, AddMember(g, u)).Some? ==>
              var t := After(c, s, actor, AddMember(g, u));
              OnlyMembersMoved(s, t) && forall row :: row in t.members <==> row in s.members || row == (g, u)
  {
    AllowedIff(actor, GroupRoles(s, g));
    GroupRolesHave(s, g);
  }

  lemma RemoveMemberMeans(c: Config, s: State, actor: Option<Actor>, g: int, u: int)
    ensures Step(c, s, actor, RemoveMember(g, u)).Some? <==> MembershipMayMove(s, actor, g)
    ensures Step(c, s, actor, RemoveMember(g, u)).Some? ==>
              var t := After(c, s, actor, RemoveMember(g, u));
              OnlyMembersMoved(s, t) && forall row :: row in t.members <==> row in s.members && row != (g, u)
  {
    AllowedIff(actor, GroupRoles(s, g));
    GroupRolesHave(s, g);
  }

  // --- Accounts ----------------------------------------------------------------------------------------

  /** The account is root's, or holds a guarded role by the stored tables. */
  ghost predicate GuardedAccount(c: Config, s: State, u: int) {
    if u in s.users && s.users[u] in c.roots then true else HoldsStored(s, u, "admin") || HoldsStored(s, u, "releaser")
  }

  ghost predicate HoldsStored(s: State, u: int, r: string) {
    (u, r) in s.userRoles || exists g :: (g, u) in s.members && (g, r) in s.groupRoles
  }

  lemma DeleteUserMeans(c: Config, s: State, actor: Option<Actor>, u: int)
    ensures Step(c, s, actor, DeleteUser(u)).Some? <==> (GuardedAccount(c, s, u) ==> Privileged(actor))
    ensures Step(c, s, actor, DeleteUser(u)).Some? ==>
              var t := After(c, s, actor, DeleteUser(u));
              && t.groups == s.groups && t.groupRoles == s.groupRoles && t.nextId == s.nextId
              && (forall v :: v in t.users <==> v in s.users && v != u) && (forall v :: v in t.users ==> t.users[v] == s.users[v])
              && (forall row :: row in t.userRoles <==> row in s.userRoles && row.0 != u)
              && (forall row :: row in t.members <==> row in s.members && row.1 != u)
  {
    AllowedIff(actor, {"admin"});
    AllowedIff(actor, StoredRoles(s, u));
    StoredRolesHave(s, u, "admin");
    StoredRolesHave(s, u, "releaser");
  }

  /** Registering adds exactly one account of that name, never a root name or one that is taken. */
  lemma RegisterMeans(c: Config, s: State, actor: Option<Actor>, username: string)
    requires Valid(s)
    ensures Step(c, s, actor, Register(username)).Some? <==>
              username !in c.roots && forall u :: u in s.users ==> s.users[u] != username
    ensures Step(c, s, actor, Register(username)).Some? ==>
              var t := After(c, s, actor, Register(username));
              && t.userRoles == s.userRoles && t.groups == s.groups && t.groupRoles == s.groupRoles && t.members == s.members
              && s.nextId !in s.users && t.users == s.users[s.nextId := username]
  {}

  // --- The guarded roles by name ------------------------------------------------------------------------

  /** A directory group on the list confers the role. */
  ghost predicate HoldsByDirectory(s: State, names: set<string>, r: string) {
    exists g :: g in s.groups && s.groups[g].source == Ldap && s.groups[g].name in names && (g, r) in s.groupRoles
  }

  /** Neither root nor admin, by the tables or by the directory; it need not have an account. */
  ghost predicate StartsWithout(c: Config, s: State, u: int) {
    !HoldsByDirectory(s, c.directory(u), "admin") && (u in s.users ==> s.users[u] !in c.roots && !HoldsStored(s, u, "admin"))
  }

  lemma StartsWithoutIff(c: Config, s: State, u: int)
    ensures StartsWithout(c, s, u) <==> Unprivileged(c, s, u)
  {
    DirectoryIff(s, c.directory(u), "admin");
    StoredRolesHave(s, u, "admin");
  }

  lemma DirectoryIff(s: State, names: set<string>, r: string)
    ensures r in DirectoryRoles(s, names) <==> HoldsByDirectory(s, names, r)
  {
    DirectoryRolesHave(s, names, r);
    if g :| FromDirectory(s, names, g) && (g, r) in s.groupRoles {
      assert s.groups[g].source == Ldap;
    }
    if g :| g in s.groups && s.groups[g].source == Ldap && s.groups[g].name in names && (g, r) in s.groupRoles {
      assert FromDirectory(s, names, g);
    }
  }

  /** What a list of directory groups confers of the guarded roles does not change either. */
  lemma DirectoryConfersTheSame(c: Config, s: State, requests: seq<Request>, names: set<string>)
    requires Valid(s) && forall q :: q in requests ==> StartsWithout(c, s, q.caller)
    ensures HoldsByDirectory(Run(c, s, requests), names, "admin") <==> HoldsByDirectory(s, names, "admin")
    ensures HoldsByDirectory(Run(c, s, requests), names, "releaser") <==> HoldsByDirectory(s, names, "releaser")
  {
    forall q | q in requests ensures Unprivileged(c, s, q.caller) { StartsWithoutIff(c, s, q.caller); }
    RunsKeepGuardedRoles(c, s, requests);
    var t := Run(c, s, requests);
    assert GuardedDirectory(t, names) == GuardedDirectory(s, names);
    forall r | r == "admin" || r == "releaser" ensures HoldsByDirectory(t, names, r) <==> HoldsByDirectory(s, names, r) {
      DirectoryIff(s, names, r);
      DirectoryIff(t, names, r);
      assert r in DirectoryRoles(s, names) <==> r in GuardedDirectory(s, names);
      assert r in DirectoryRoles(t, names) <==> r in GuardedDirectory(t, names);
    }
  }

  /** Over a run without privilege nobody who stays gains or loses `admin` or `releaser`, and no holder and
      no root account goes. */
  lemma AdminsAndReleasersStay(c: Config, s: State, requests: seq<Request>, u: int)
    requires Valid(s) && u in s.users
    requires forall q :: q in requests ==> StartsWithout(c, s, q.caller)
    ensures var t := Run(c, s, requests);
            && (u in t.users ==> (HoldsStored(t, u, "admin") <==> HoldsStored(s, u, "admin")))
            && (u in t.users ==> (HoldsStored(t, u, "releaser") <==> HoldsStored(s, u, "releaser")))
            && (u !in t.users ==> !GuardedAccount(c, s, u))
  {
    forall q | q in requests ensures Unprivileged(c, s, q.caller) { StartsWithoutIff(c, s, q.caller); }
    RunsKeepGuardedRoles(c, s, requests);
    var t := Run(c, s, requests);
    StoredRolesHave(s, u, "admin");
    StoredRolesHave(s, u, "releaser");
    StoredRolesHave(t, u, "admin");
    StoredRolesHave(t, u, "releaser");
    assert "admin" in StoredRoles(s, u) <==> "admin" in GuardedStored(s, u);
    assert "releaser" in StoredRoles(s, u) <==> "releaser" in GuardedStored(s, u);
    assert "admin" in StoredRoles(t, u) <==> "admin" in GuardedStored(t, u);
    assert "releaser" in StoredRoles(t, u) <==> "releaser" in GuardedStored(t, u);
  }
}
