/** The documents the group routes load and save: Group, GroupRequest, Blacklist and User.
    Their schema files are not part of this model; the fields are the ones the routes read
    and write. */
module Entities {
  import opened Common
  import Seqs

  /** A group; `admins` and `members` are arrays in insertion order and may repeat an id. */
  datatype Group = Group(name: string, owner: UserId, admins: seq<UserId>, members: seq<UserId>)

  datatype RequestStatus = Pending | Approved | Rejected

  /** A request to join a group. */
  datatype GroupRequest = GroupRequest(group: GroupId, user: UserId, status: RequestStatus)

  /** A ban of one user from one group. */
  datatype BlacklistEntry = BlacklistEntry(group: GroupId, user: UserId)

  /** A user account. `role` is stored as the string the routes compare against, since the
      role-change route writes whatever string it is given. The password hash is left out:
      checking it is a foreign call whose outcome the login route receives as a parameter. */
  datatype Account = Account(
    id: UserId, username: string, realName: string, phone: string,
    role: string, permissions: seq<string>, verified: bool)

  /** The design's group invariant: the owner is a member and every admin is a member. */
  ghost predicate Consistent(g: Group)
  {
    g.owner in g.members && forall a :: a in g.admins ==> a in g.members
  }

  /** The owner-or-group-admin check the kick, request, approve, reject and blacklist routes share. */
  predicate Manages(g: Group, u: UserId)
  {
    g.owner == u || u in g.admins
  }

  /** `Group.findOne({ name })` finds a document. */
  predicate NameTaken(groups: map<GroupId, Group>, name: string)
  {
    exists gid :: gid in groups && groups[gid].name == name
  }

  /** `Blacklist.findOne({ group, user })` finds a document. */
  predicate Banned(blacklist: map<EntryId, BlacklistEntry>, gid: GroupId, uid: UserId)
  {
    exists e :: e in blacklist && blacklist[e] == BlacklistEntry(gid, uid)
  }

  /** `GroupRequest.findOne({ group, user, status: 'pending' })` finds a document. */
  predicate HasPending(requests: map<RequestId, GroupRequest>, gid: GroupId, uid: UserId)
  {
    exists r :: r in requests && requests[r] == GroupRequest(gid, uid, Pending)
  }

  /** `User.findById(id)`: the position of the account, if any. */
  function FindAccount(users: seq<Account>, id: UserId): (r: Option<nat>)
    ensures r.Some? ==> r.value < |users| && users[r.value].id == id
    ensures r.None? ==> forall i :: 0 <= i < |users| ==> users[i].id != id
  {
    Seqs.FirstIndex(users, (a: Account) => a.id == id)
  }

  /** `User.findOne({ username })`. */
  function FindUsername(users: seq<Account>, username: string): (r: Option<nat>)
    ensures r.Some? ==> r.value < |users| && users[r.value].username == username
    ensures r.None? ==> forall i :: 0 <= i < |users| ==> users[i].username != username
  {
    Seqs.FirstIndex(users, (a: Account) => a.username == username)
  }

  /** The design's invariant on requests: at most one pending request per (group, user). */
  ghost predicate AtMostOnePending(requests: map<RequestId, GroupRequest>)
  {
    forall r1, r2 ::
      r1 in requests && r2 in requests && requests[r1].status == Pending && requests[r1] == requests[r2]
      ==> r1 == r2
  }

  /** The design's invariant between groups and bans: a banned user is not a member. */
  ghost predicate BanExcludesMembership(groups: map<GroupId, Group>, blacklist: map<EntryId, BlacklistEntry>)
  {
    forall e :: e in blacklist && blacklist[e].group in groups ==>
      blacklist[e].user !in groups[blacklist[e].group].members
  }

  /** At most one ban per (group, user). */
  ghost predicate BansUnique(blacklist: map<EntryId, BlacklistEntry>)
  {
    forall e1, e2 :: e1 in blacklist && e2 in blacklist && blacklist[e1] == blacklist[e2] ==> e1 == e2
  }
}
