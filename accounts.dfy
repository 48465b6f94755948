/** routes/auth.js: registration with first-registrant ownership, the login gate, and the
    account administration routes (list, verify, change role, delete). */
module Accounts {
  import opened Common
  import opened Entities
  import Seqs
  import Resolver
  import Storage

  /** `User.countDocuments({ role: 'owner' })`. */
  function OwnerCount(users: seq<Account>): (n: nat)
    ensures n <= |users|
    ensures n == 0 <==> forall i :: 0 <= i < |users| ==> users[i].role != "owner"
  {
    if users == [] then 0
    else (if users[0].role == "owner" then 1 else 0) + OwnerCount(users[1..])
  }

  /** Role and verification of a new account, from the owner count: the first registrant
      owns the system and needs no verification; everyone after is an unverified `user`. */
  function Enrolment(ownerCount: nat): (r: (string, bool))
    ensures r.1 <==> ownerCount == 0
    ensures r.0 == (if ownerCount == 0 then "owner" else "user")
  {
    if ownerCount == 0 then ("owner", true) else ("user", false)
  }

  /** POST /register: a taken username is 400. The owner count comes from the store, unless
      the count query throws (`countFails`), in which case it is taken to be 0. The password
      hash and the `permissions` default of the User schema are not modelled. */
  method Register(st: Storage.Store, id: UserId, username: string, realName: string, phone: string, countFails: bool)
    returns (r: Result<Account>)
    requires FindAccount(st.users, id).None?
    modifies st`users
    ensures FindUsername(old(st.users), username).Some? ==> r == Err(BadRequest) && st.users == old(st.users)
    ensures FindUsername(old(st.users), username).None? ==>
      var count := if countFails then 0 else OwnerCount(old(st.users));
      && r == Ok(Account(id, username, realName, phone, Enrolment(count).0, [], Enrolment(count).1))
      && st.users == old(st.users) + [r.value]
    ensures r.Ok? && !countFails ==> (r.value.role == "owner" <==> OwnerCount(old(st.users)) == 0)
    ensures !countFails && old(OwnerCount(st.users)) <= 1 ==> OwnerCount(st.users) <= 1
  {
    if FindUsername(st.users, username).Some? {
      return Err(BadRequest);
    }
    var ownerCount := if countFails then 0 else OwnerCount(st.users);
    var role := if ownerCount == 0 then "owner" else "user";
    var isVerified := ownerCount == 0;
    var user := Account(id, username, realName, phone, role, [], isVerified);
    OwnerCountAppend(st.users, user);
    st.users := st.users + [user];
    r := Ok(user);
  }

  lemma {:induction false} OwnerCountAppend(users: seq<Account>, a: Account)
    ensures OwnerCount(users + [a]) == OwnerCount(users) + (if a.role == "owner" then 1 else 0)
  {
    if users != [] {
      assert (users + [a])[1..] == users[1..] + [a];
      OwnerCountAppend(users[1..], a);
    }
  }

  /** When the owner-count query fails, a registrant joins a system that already has an owner
      as a second owner, verified. */
  method SecondOwnerOnCountFailure() returns (st: Storage.Store)
    ensures |st.users| == 2 && st.users[0].role == "owner" && st.users[1].role == "owner" && st.users[1].verified
    ensures OwnerCount(st.users) == 2
  {
    st := new Storage.Store();
    var first := Register(st, 1, "alice", "Alice", "1", false);
    var second := Register(st, 2, "bob", "Bob", "2", true);
    assert st.users[1..][1..] == [];
  }

  /** POST /login for a stored account: an unknown username is 400, an unverified account is
      400 whatever the password, and a wrong password is 400; otherwise the token carries the
      account's id, role and permissions. `passwordMatches` is the outcome of the hash
      comparison. */
  function Login(users: seq<Account>, username: string, passwordMatches: bool): (r: Result<Resolver.Claim>)
    ensures r.Ok? <==> (FindUsername(users, username).Some? && users[FindUsername(users, username).value].verified
      && passwordMatches)
    ensures r.Err? ==> r.failure == BadRequest
    ensures r.Ok? ==> var a := users[FindUsername(users, username).value];
      r.value == Resolver.Claim(a.id, a.role, a.permissions) && a.username == username
  {
    match FindUsername(users, username)
    case None => Err(BadRequest)
    case Some(i) =>
      if !users[i].verified then Err(BadRequest)
      else if !passwordMatches then Err(BadRequest)
      else Ok(Resolver.Claim(users[i].id, users[i].role, users[i].permissions))
  }

  /** The verification gate comes first: the password of an unverified account is never
      consulted. */
  lemma UnverifiedNeverLogsIn(users: seq<Account>, username: string, i: nat)
    requires i < |users| && users[i].username == username && !users[i].verified
    requires forall j :: 0 <= j < i ==> users[j].username != username
    ensures Login(users, username, true) == Login(users, username, false) == Err(BadRequest)
  {
    assert FindUsername(users, username) == Some(i);
  }

  /** The role check of the list and verify routes, made on the caller's stored account: a
      caller without one makes `currentUser.role` throw (500); a role other than admin or
      owner is 403. */
  function StaffVerdict(users: seq<Account>, actor: UserId): (r: Option<Failure>)
    ensures r.None? <==> (FindAccount(users, actor).Some?
      && users[FindAccount(users, actor).value].role in {"admin", "owner"})
    ensures FindAccount(users, actor).None? ==> r == Some(ServerError)
    ensures r.Some? && FindAccount(users, actor).Some? ==> r == Some(Forbidden)
  {
    match FindAccount(users, actor)
    case None => Some(ServerError)
    case Some(i) => if users[i].role != "admin" && users[i].role != "owner" then Some(Forbidden) else None
  }

  /** GET /users: staff only; every account. */
  function ListUsers(users: seq<Account>, actor: UserId): (r: Result<seq<Account>>)
    ensures r.Ok? <==> StaffVerdict(users, actor).None?
    ensures r.Err? ==> r.failure == StaffVerdict(users, actor).value
    ensures r.Ok? ==> r.value == users
  {
    match StaffVerdict(users, actor)
    case Some(f) => Err(f)
    case None => Ok(users)
  }

  /** PUT /users/:id/verify: staff only; marks the target verified. A missing target is not an
      error: the reply is empty (`null`) and nothing changes. */
  method VerifyUser(st: Storage.Store, actor: UserId, target: UserId) returns (r: Result<Option<Account>>)
    modifies st`users
    ensures StaffVerdict(old(st.users), actor).Some? ==>
      r == Err(StaffVerdict(old(st.users), actor).value) && st.users == old(st.users)
    ensures StaffVerdict(old(st.users), actor).None? && FindAccount(old(st.users), target).None? ==>
      r == Ok(None) && st.users == old(st.users)
    ensures StaffVerdict(old(st.users), actor).None? && FindAccount(old(st.users), target).Some? ==>
      var i := FindAccount(old(st.users), target).value;
      && st.users == old(st.users)[i := old(st.users)[i].(verified := true)]
      && r == Ok(Some(st.users[i])) && st.users[i].verified
  {
    var verdict := StaffVerdict(st.users, actor);
    if verdict.Some? {
      return Err(verdict.value);
    }
    var found := FindAccount(st.users, target);
    if found.None? {
      return Ok(None);
    }
    var i := found.value;
    st.users := st.users[i := st.users[i].(verified := true)];
    r := Ok(Some(st.users[i]));
  }

  /** PUT /users/:id/role: a caller whose stored role is owner only (403; 500 without an
      account). The role is stored as given, unvalidated; an absent role leaves it unchanged.
      A missing target is an empty reply. */
  method ChangeRole(st: Storage.Store, actor: UserId, target: UserId, role: Option<string>)
    returns (r: Result<Option<Account>>)
    modifies st`users
    ensures FindAccount(old(st.users), actor).None? ==> r == Err(ServerError) && st.users == old(st.users)
    ensures FindAccount(old(st.users), actor).Some? && old(st.users)[FindAccount(old(st.users), actor).value].role != "owner"
      ==> r == Err(Forbidden) && st.users == old(st.users)
    ensures r.Ok? <==> (FindAccount(old(st.users), actor).Some?
      && old(st.users)[FindAccount(old(st.users), actor).value].role == "owner")
    ensures r.Ok? && FindAccount(old(st.users), target).None? ==> r == Ok(None) && st.users == old(st.users)
    ensures r.Ok? && FindAccount(old(st.users), target).Some? ==>
      var i := FindAccount(old(st.users), target).value;
      var updated := old(st.users)[i].(role := if role.Some? then role.value else old(st.users)[i].role);
      st.users == old(st.users)[i := updated] && r == Ok(Some(updated))
  {
    var currentUser := FindAccount(st.users, actor);
    if currentUser.None? {
      return Err(ServerError);
    }
    if st.users[currentUser.value].role != "owner" {
      return Err(Forbidden);
    }
    var found := FindAccount(st.users, target);
    if found.None? {
      return Ok(None);
    }
    var i := found.value;
    if role.Some? {
      st.users := st.users[i := st.users[i].(role := role.value)];
    }
    r := Ok(Some(st.users[i]));
  }

  /** The hierarchy of DELETE /users/:id, given both stored roles: the actor must be admin or
      owner, an owner is never deleted, and an admin may not delete an admin. */
  function DeletionVerdict(actorRole: string, targetRole: string): (r: Option<Failure>)
    ensures r.None? <==> (actorRole in {"admin", "owner"} && targetRole != "owner"
      && !(actorRole == "admin" && targetRole == "admin"))
    ensures r.Some? ==> r.value == Forbidden
  {
    if actorRole != "admin" && actorRole != "owner" then Some(Forbidden)
    else if targetRole == "owner" then Some(Forbidden)
    else if actorRole == "admin" && targetRole == "admin" then Some(Forbidden)
    else None
  }

  /** Between the four system roles, deletion follows the rank table: an admin or owner
      deletes exactly the roles ranked strictly below it. */
  lemma DeletionFollowsRank(actor: Resolver.Role, target: Resolver.Role)
    ensures DeletionVerdict(Resolver.Name(actor), Resolver.Name(target)).None? <==>
      (actor in {Resolver.Owner, Resolver.Admin} && Resolver.Rank(target) < Resolver.Rank(actor))
  {
  }

  /** DELETE /users/:id: 500 without an account for the caller, 403 for a caller who is not
      staff, 404 for a missing target, then the hierarchy; the target's account is removed. */
  method DeleteUser(st: Storage.Store, actor: UserId, target: UserId) returns (r: Result<()>)
    modifies st`users
    ensures r.Err? ==> st.users == old(st.users)
    ensures StaffVerdict(old(st.users), actor).Some? ==> r == Err(StaffVerdict(old(st.users), actor).value)
    ensures StaffVerdict(old(st.users), actor).None? && FindAccount(old(st.users), target).None? ==> r == Err(NotFound)
    ensures StaffVerdict(old(st.users), actor).None? && FindAccount(old(st.users), target).Some? ==>
      var a := old(st.users)[FindAccount(old(st.users), actor).value];
      var i := FindAccount(old(st.users), target).value;
      var verdict := DeletionVerdict(a.role, old(st.users)[i].role);
      if verdict.Some? then r == Err(verdict.value)
      else (r == Ok(()) && st.users == old(st.users)[..i] + old(st.users)[i + 1..])
    ensures r.Ok? ==> OwnerCount(st.users) == OwnerCount(old(st.users))
  {
    var currentUser := FindAccount(st.users, actor);
    if currentUser.None? {
      return Err(ServerError);
    }
    var actorRole := st.users[currentUser.value].role;
    if actorRole != "admin" && actorRole != "owner" {
      return Err(Forbidden);
    }
    var found := FindAccount(st.users, target);
    if found.None? {
      return Err(NotFound);
    }
    var i := found.value;
    if st.users[i].role == "owner" {
      return Err(Forbidden);
    }
    if actorRole == "admin" && st.users[i].role == "admin" {
      return Err(Forbidden);
    }
    OwnerCountRemove(st.users, i);
    st.users := st.users[..i] + st.users[i + 1..];
    r := Ok(());
  }

  lemma {:induction false} OwnerCountRemove(users: seq<Account>, i: nat)
    requires i < |users|
    ensures OwnerCount(users) == OwnerCount(users[..i] + users[i + 1..]) + (if users[i].role == "owner" then 1 else 0)
  {
    if i > 0 {
      assert (users[..i] + users[i + 1..])[1..] == users[1..][..i - 1] + users[1..][i..];
      OwnerCountRemove(users[1..], i - 1);
    } else {
      assert users[..i] + users[i + 1..] == users[1..];
    }
  }
}
