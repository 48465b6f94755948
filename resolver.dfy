/** The role and permission middleware: two static tables and the predicates built from them.
    Role names arrive as strings (from the token's claim or a route's argument), so a name the
    tables lack is representable and is denied, as JavaScript's `undefined` comparisons deny it. */
module Resolver {
  import opened Common

  /** The system roles, the keys of `roleHierarchy`. */
  datatype Role = Owner | Admin | Moderator | User

  function Name(r: Role): string
  {
    match r
    case Owner => "owner"
    case Admin => "admin"
    case Moderator => "moderator"
    case User => "user"
  }

  /** Looks a role name up among the table's keys. */
  function Parse(name: string): (r: Option<Role>)
    ensures r.Some? ==> Name(r.value) == name
    ensures r.None? ==> forall role: Role :: Name(role) != name
  {
    if name == "owner" then Some(Owner)
    else if name == "admin" then Some(Admin)
    else if name == "moderator" then Some(Moderator)
    else if name == "user" then Some(User)
    else None
  }

  /** `roleHierarchy`. */
  function Rank(r: Role): nat
  {
    match r
    case Owner => 4
    case Admin => 3
    case Moderator => 2
    case User => 1
  }

  /** `roleHierarchy[name]`, undefined for an unknown name. */
  function Level(name: string): Option<nat>
  {
    match Parse(name)
    case Some(r) => Some(Rank(r))
    case None => None
  }

  /** `checkRole(required)` for a user whose claim carries `userRole`:
      `roleHierarchy[user.role] >= roleHierarchy[requiredRole]`. */
  predicate CheckRole(userRole: string, required: string)
  {
    match (Level(userRole), Level(required))
    case (Some(have), Some(need)) => have >= need
    case _ => false
  }

  /** The identity and claims the auth middleware attaches as `req.user`; an absent
      `permissions` list is the empty one. */
  datatype Claim = Claim(id: UserId, role: string, permissions: seq<string>)

  const Wildcard: string := "*"

  /** `defaultPermissions[name]`. */
  function DefaultPermissions(name: string): Option<seq<string>>
  {
    match Parse(name)
    case Some(Owner) => Some([Wildcard])
    case Some(Admin) => Some(["manage_users", "manage_groups", "view_logs", "manage_announcements", "manage_blacklist"])
    case Some(Moderator) => Some(["kick_users", "ban_users", "manage_messages", "view_logs"])
    case Some(User) => Some(["send_messages", "join_groups", "upload_files"])
    case None => None
  }

  /** `checkPermission(p)`: an explicit grant first, then the role's default list or its wildcard. */
  predicate CheckPermission(user: Claim, p: string)
  {
    p in user.permissions
    || (DefaultPermissions(user.role).Some?
        && (p in DefaultPermissions(user.role).value || Wildcard in DefaultPermissions(user.role).value))
  }

  /** `checkOwner`. */
  predicate CheckOwner(user: Claim)
  {
    user.role == "owner"
  }

  /** `checkLogAccess`, which spells out the `view_logs` check again rather than calling
      `checkPermission`. */
  predicate CheckLogAccess(user: Claim)
  {
    "view_logs" in user.permissions
    || (DefaultPermissions(user.role).Some?
        && ("view_logs" in DefaultPermissions(user.role).value || Wildcard in DefaultPermissions(user.role).value))
  }

  /** The hierarchy is strict: owner 4 > admin 3 > moderator 2 > user 1, no two roles equal. */
  lemma RankTable()
    ensures Rank(Owner) == 4 && Rank(Admin) == 3 && Rank(Moderator) == 2 && Rank(User) == 1
    ensures forall a: Role, b: Role :: Rank(a) == Rank(b) ==> a == b
  {
  }

  /** Role names and roles correspond one to one. */
  lemma ParseName(r: Role)
    ensures Parse(Name(r)) == Some(r)
  {
  }

  /** For known roles, `checkRole` allows exactly when the user's rank reaches the required one. */
  lemma CheckRoleByRank(have: Role, need: Role)
    ensures CheckRole(Name(have), Name(need)) <==> Rank(have) >= Rank(need)
  {
    ParseName(have);
    ParseName(need);
  }

  /** A role name missing from the table, on either side, is denied. */
  lemma UnknownRoleDenied(userRole: string, required: string)
    requires Parse(userRole).None? || Parse(required).None?
    ensures !CheckRole(userRole, required)
  {
  }

  /** Passing for a required role means passing for every lower-ranked one. */
  lemma CheckRoleMonotone(userRole: string, required: Role, lower: Role)
    requires CheckRole(userRole, Name(required))
    requires Rank(lower) <= Rank(required)
    ensures CheckRole(userRole, Name(lower))
  {
    ParseName(required);
    ParseName(lower);
  }

  /** An explicit grant allows whatever the role. */
  lemma ExplicitGrantAllows(user: Claim, p: string)
    requires p in user.permissions
    ensures CheckPermission(user, p)
  {
  }

  /** The owner's wildcard passes every permission check. */
  lemma OwnerHasEveryPermission(user: Claim, p: string)
    requires user.role == "owner"
    ensures CheckPermission(user, p)
  {
  }

  /** Without an explicit grant, a permission is allowed exactly by the role's default list,
      or by the owner's wildcard; an unknown role gets nothing. */
  lemma CheckPermissionByRole(user: Claim, p: string)
    requires p !in user.permissions
    ensures CheckPermission(user, p) <==>
      match Parse(user.role)
      case None => false
      case Some(Owner) => true
      case Some(r) => p in DefaultPermissions(Name(r)).value
  {
  }

  /** `checkLogAccess` is `checkPermission('view_logs')`. */
  lemma LogAccessIsViewLogs(user: Claim)
    ensures CheckLogAccess(user) <==> CheckPermission(user, "view_logs")
  {
  }

  /** Owner, admin and moderator read the logs; a plain user or an unknown role only with an
      explicit `view_logs` grant. */
  lemma LogAccessByRole(user: Claim)
    ensures CheckLogAccess(user) <==>
      user.role in {"owner", "admin", "moderator"} || "view_logs" in user.permissions
  {
  }

  /** `checkOwner` allows exactly the role `owner`, which is also the only role `checkRole`
      admits when `owner` is required. */
  lemma CheckOwnerIsTopRank(user: Claim)
    ensures CheckOwner(user) <==> CheckRole(user.role, "owner")
  {
  }
}
