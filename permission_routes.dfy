/** routes/permissions.js: the admin-gated role and permission administration routes. The
    gate is `checkRole('admin')` on the caller's token claim. */
module PermissionRoutes {
  import opened Common
  import opened Entities
  import opened Resolver
  import Storage

  /** The role list the roles route returns. */
  const RoleNames: seq<string> := ["user", "moderator", "admin", "owner"]

  /** The permission list the available route returns. */
  const AvailablePermissions: seq<string> := [
    "send_messages", "join_groups", "upload_files", "kick_users", "ban_users", "manage_messages",
    "view_logs", "manage_users", "manage_groups", "manage_announcements", "manage_blacklist",
    "manage_permissions"]

  /** `checkRole('admin')`: the claim's role ranks at least as high as admin. */
  lemma AdminGateIsRankThree(role: string)
    ensures CheckRole(role, "admin") <==> Level(role).Some? && Level(role).value >= 3
    ensures CheckRole(role, "admin") <==> role == "admin" || role == "owner"
  {
    assert Level("admin") == Some(3);
  }

  /** The role list is the rank table's keys in ascending rank. */
  lemma RoleNamesAreTheHierarchy()
    ensures |RoleNames| == 4
    ensures forall r: Role :: Name(r) in RoleNames
    ensures forall i :: 0 <= i < |RoleNames| ==> Parse(RoleNames[i]).Some?
    ensures forall i, j :: 0 <= i < j < |RoleNames| ==>
      Rank(Parse(RoleNames[i]).value) < Rank(Parse(RoleNames[j]).value)
  {
  }

  /** Every default permission of every role, except the owner's wildcard, is one of the
      twelve available names. */
  lemma DefaultsAreAvailable(r: Role, p: string)
    requires p in DefaultPermissions(Name(r)).value && p != Wildcard
    ensures p in AvailablePermissions
  {
    assert Parse(Name(r)) == Some(r);
  }

  /** GET /roles. */
  function ListRoles(caller: Claim): (r: Result<seq<string>>)
    ensures r.Ok? <==> CheckRole(caller.role, "admin")
    ensures r.Err? ==> r.failure == Forbidden
    ensures r.Ok? ==> r.value == RoleNames
  {
    if !CheckRole(caller.role, "admin") then Err(Forbidden) else Ok(RoleNames)
  }

  /** GET /available. */
  function ListAvailable(caller: Claim): (r: Result<seq<string>>)
    ensures r.Ok? <==> CheckRole(caller.role, "admin")
    ensures r.Err? ==> r.failure == Forbidden
    ensures r.Ok? ==> |r.value| == 12 && r.value == AvailablePermissions
  {
    if !CheckRole(caller.role, "admin") then Err(Forbidden) else Ok(AvailablePermissions)
  }

  /** The guard of the update route: only setting the role to exactly `owner` needs an owner
      claim. */
  predicate AssignsOwnerWithout(caller: Claim, role: Option<string>)
  {
    role == Some("owner") && caller.role != "owner"
  }

  /** `{ permissions, role }` as `findByIdAndUpdate` applies it: an absent field is left as it
      is; a present one is stored unvalidated. */
  function Overwrite(a: Account, permissions: Option<seq<string>>, role: Option<string>): (b: Account)
    ensures b.permissions == (if permissions.Some? then permissions.value else a.permissions)
    ensures b.role == (if role.Some? then role.value else a.role)
    ensures b == a.(permissions := b.permissions, role := b.role)
  {
    a.(permissions := if permissions.Some? then permissions.value else a.permissions,
       role := if role.Some? then role.value else a.role)
  }

  /** PUT /user/:userId: the admin gate (403), the owner-assignment guard (403), then the
      update; a missing target is 404 after the attempt, with nothing changed. */
  method UpdatePermissions(st: Storage.Store, caller: Claim, target: UserId,
                           permissions: Option<seq<string>>, role: Option<string>)
    returns (r: Result<Account>)
    modifies st`users
    ensures r.Err? ==> st.users == old(st.users)
    ensures !CheckRole(caller.role, "admin") ==> r == Err(Forbidden)
    ensures CheckRole(caller.role, "admin") && AssignsOwnerWithout(caller, role) ==> r == Err(Forbidden)
    ensures CheckRole(caller.role, "admin") && !AssignsOwnerWithout(caller, role) ==>
      match FindAccount(old(st.users), target)
      case None => r == Err(NotFound)
      case Some(i) =>
        r == Ok(Overwrite(old(st.users)[i], permissions, role))
        && st.users == old(st.users)[i := Overwrite(old(st.users)[i], permissions, role)]
  {
    if !CheckRole(caller.role, "admin") {
      return Err(Forbidden);
    }
    if role == Some("owner") && caller.role != "owner" {
      return Err(Forbidden);
    }
    var found := FindAccount(st.users, target);
    if found.None? {
      return Err(NotFound);
    }
    var i := found.value;
    var updated := Overwrite(st.users[i], permissions, role);
    st.users := st.users[i := updated];
    r := Ok(updated);
  }

  /** Only assigning `owner` is guarded: an admin passes the guard when demoting an existing
      owner, or when granting any permission. */
  lemma AdminMayDemoteOwner(caller: Claim, newRole: string, permissions: Option<seq<string>>)
    requires caller.role == "admin" && newRole != "owner"
    ensures CheckRole(caller.role, "admin") && !AssignsOwnerWithout(caller, Some(newRole))
    ensures Overwrite(Account(0, "o", "", "", "owner", [], true), permissions, Some(newRole)).role == newRole
  {
  }

  /** GET /user/:userId. */
  function GetPermissions(st: Storage.Store, caller: Claim, target: UserId): (r: Result<Account>)
    reads st
    ensures !CheckRole(caller.role, "admin") ==> r == Err(Forbidden)
    ensures CheckRole(caller.role, "admin") && FindAccount(st.users, target).None? ==> r == Err(NotFound)
    ensures r.Ok? ==> r.value in st.users && r.value.id == target
    ensures r.Ok? <==> CheckRole(caller.role, "admin") && FindAccount(st.users, target).Some?
  {
    if !CheckRole(caller.role, "admin") then Err(Forbidden)
    else match FindAccount(st.users, target)
      case None => Err(NotFound)
      case Some(i) => Ok(st.users[i])
  }
}
