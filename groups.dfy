/** routes/groups.js: creating, joining, leaving and dissolving groups, group admins, kicks and
    join requests. The pure functions are the updates a handler applies to the loaded group;
    the methods are the handlers over the store, with their 404 / 403 / 400 guard chains. */
module Groups {
  import opened Common
  import opened Entities
  import opened Seqs
  import Storage
  import MessageModel

  /** The group a creator founds: owner, sole admin, sole member. */
  function Founded(name: string, creator: UserId): Group
  {
    Group(name, creator, [creator], [creator])
  }

  /** What leaving does to a group: it stays (possibly with a new owner) or is deleted. */
  datatype Departure = Stays(group: Group) | Deleted

  /** The leave handler's update: filter the leaver out of members and admins; if the leaver
      owned the group, hand it to the first remaining admin, else to the first remaining member
      (who is also appended to admins), else delete the group. */
  function AfterLeave(g: Group, u: UserId): Departure
  {
    var h := g.(members := Without(g.members, u), admins := Without(g.admins, u));
    if h.owner != u then Stays(h)
    else if |h.admins| > 0 then Stays(h.(owner := h.admins[0]))
    else if |h.members| > 0 then Stays(h.(owner := h.members[0], admins := h.admins + [h.members[0]]))
    else Deleted
  }

  /** `group.admins.push(userId)`. */
  function Promote(g: Group, u: UserId): Group
  {
    g.(admins := g.admins + [u])
  }

  /** `group.admins = group.admins.filter(...)`. */
  function Demote(g: Group, u: UserId): Group
  {
    g.(admins := Without(g.admins, u))
  }

  /** The eviction kick and ban share: the user is filtered out of members and admins. */
  function Evict(g: Group, u: UserId): Group
  {
    g.(members := Without(g.members, u), admins := Without(g.admins, u))
  }

  /** `group.members.push(request.user)`. */
  function Admit(g: Group, u: UserId): Group
  {
    g.(members := g.members + [u])
  }

  ghost predicate AllConsistent(groups: map<GroupId, Group>)
  {
    forall gid :: gid in groups ==> Consistent(groups[gid])
  }

  // ---------------------------------------------------------------- properties of the updates

  lemma FoundedIsConsistent(name: string, creator: UserId)
    ensures Consistent(Founded(name, creator))
    ensures Founded(name, creator).owner == creator
    ensures Founded(name, creator).admins == [creator] && Founded(name, creator).members == [creator]
  {
  }

  /** Leaving removes the leaver, and only the leaver, from the members, keeping the order of
      the others. */
  lemma {:induction false} LeaveRemovesOnlyLeaver(g: Group, u: UserId)
    requires AfterLeave(g, u).Stays?
    ensures u !in AfterLeave(g, u).group.members && u !in AfterLeave(g, u).group.admins
    ensures forall v :: v != u ==> (v in AfterLeave(g, u).group.members <==> v in g.members)
    ensures IsSubsequence(AfterLeave(g, u).group.members, g.members)
    ensures AfterLeave(g, u).group.name == g.name
  {
    WithoutKeepsOrder(g.members, u);
  }

  /** A leaver who is not the owner leaves the owner in place and the admins in their order. */
  lemma {:induction false} LeaveKeepsOwner(g: Group, u: UserId)
    requires u != g.owner
    ensures AfterLeave(g, u).Stays?
    ensures AfterLeave(g, u).group.owner == g.owner
    ensures AfterLeave(g, u).group.admins == Without(g.admins, u)
    ensures IsSubsequence(AfterLeave(g, u).group.admins, g.admins)
  {
    WithoutKeepsOrder(g.admins, u);
  }

  /** Succession, first rule: an owner who leaves hands the group to the first admin, in
      insertion order, who is not the owner. */
  lemma {:induction false} SuccessionToFirstAdmin(g: Group, k: nat)
    requires k < |g.admins| && g.admins[k] != g.owner
    requires forall j :: 0 <= j < k ==> g.admins[j] == g.owner
    ensures AfterLeave(g, g.owner).Stays?
    ensures AfterLeave(g, g.owner).group.owner == g.admins[k]
    ensures AfterLeave(g, g.owner).group.admins == Without(g.admins, g.owner)
  {
    WithoutHead(g.admins, g.owner, k);
  }

  /** Succession, second rule: with no other admin, the first other member becomes owner and
      the only admin. */
  lemma {:induction false} SuccessionToFirstMember(g: Group, k: nat)
    requires forall a :: a in g.admins ==> a == g.owner
    requires k < |g.members| && g.members[k] != g.owner
    requires forall j :: 0 <= j < k ==> g.members[j] == g.owner
    ensures AfterLeave(g, g.owner).Stays?
    ensures AfterLeave(g, g.owner).group.owner == g.members[k]
    ensures AfterLeave(g, g.owner).group.admins == [g.members[k]]
    ensures AfterLeave(g, g.owner).group.members == Without(g.members, g.owner)
  {
    WithoutHead(g.members, g.owner, k);
    WithoutOnly(g.admins, g.owner);
  }

  /** Third rule: the group is deleted exactly when its owner leaves and nobody else is left
      among the members or the admins. */
  lemma DeletedIffOwnerWasAlone(g: Group, u: UserId)
    ensures AfterLeave(g, u) == Deleted <==>
      u == g.owner && (forall v :: v in g.members ==> v == u) && (forall a :: a in g.admins ==> a == u)
  {
    if u == g.owner && (forall v :: v in g.members ==> v == u) && (forall a :: a in g.admins ==> a == u) {
      WithoutOnly(g.members, u);
      WithoutOnly(g.admins, u);
    }
  }

  /** Leaving keeps a consistent group consistent. */
  lemma LeaveKeepsConsistency(g: Group, u: UserId)
    requires Consistent(g) && u in g.members
    requires AfterLeave(g, u).Stays?
    ensures Consistent(AfterLeave(g, u).group)
  {
    var h := AfterLeave(g, u).group;
    if u == g.owner && |Without(g.admins, u)| > 0 {
      assert Without(g.admins, u)[0] in Without(g.admins, u);
    } else if u == g.owner {
      assert Without(g.members, u)[0] in Without(g.members, u);
    }
  }

  lemma PromoteKeepsConsistency(g: Group, u: UserId)
    requires Consistent(g) && u in g.members
    ensures Consistent(Promote(g, u))
  {
  }

  lemma DemoteKeepsConsistency(g: Group, u: UserId)
    requires Consistent(g)
    ensures Consistent(Demote(g, u))
  {
  }

  lemma AdmitKeepsConsistency(g: Group, u: UserId)
    requires Consistent(g)
    ensures Consistent(Admit(g, u))
  {
  }

  /** Evicting anyone but the owner keeps a group consistent. */
  lemma EvictKeepsConsistency(g: Group, u: UserId)
    requires Consistent(g) && u != g.owner
    ensures Consistent(Evict(g, u))
  {
  }

  /** Nothing stops a kick or a ban from evicting the owner: the owner is then no member yet
      still the owner, and still passes the owner-or-admin check of every managing route. */
  lemma EvictingOwner(g: Group)
    ensures Evict(g, g.owner).owner == g.owner
    ensures g.owner !in Evict(g, g.owner).members
    ensures !Consistent(Evict(g, g.owner))
    ensures Manages(Evict(g, g.owner), g.owner)
  {
  }

  /** Approval appends without a duplicate check: admitting a member makes the id occur twice. */
  lemma AdmitDuplicates(g: Group, u: UserId)
    requires u in g.members
    ensures multiset(Admit(g, u).members)[u] >= 2
  {
  }

  /** The succession sequence of the design: owner O, admin A, members M1 then M2. O leaves
      and A takes over; A leaves in turn, no admin is left, and M1 becomes owner and only
      admin. */
  lemma SuccessionScenario(name: string, o: UserId, a: UserId, m1: UserId, m2: UserId)
    requires o != a && o != m1 && o != m2 && a != m1 && a != m2 && m1 != m2
    ensures AfterLeave(Group(name, o, [o, a], [o, a, m1, m2]), o) == Stays(Group(name, a, [a], [a, m1, m2]))
    ensures AfterLeave(Group(name, a, [a], [a, m1, m2]), a) == Stays(Group(name, m1, [m1], [m1, m2]))
  {
    assert [o, a, m1, m2] == [o] + [a, m1, m2] && [a, m1, m2] == [a] + [m1, m2];
    OwnerLeavesToAdmin(name, o, a, [a, m1, m2]);
    LastAdminLeaves(name, a, [m1, m2]);
  }

  /** First step: the owner leaves and the only other admin takes over; the members keep
      their order. */
  lemma OwnerLeavesToAdmin(name: string, o: UserId, a: UserId, rest: seq<UserId>)
    requires o != a && o !in rest
    ensures AfterLeave(Group(name, o, [o, a], [o] + rest), o) == Stays(Group(name, a, [a], rest))
  {
    var admins, members := [o, a], [o] + rest;
    WithoutLiteral(admins, o);
    WithoutLiteral(members, o);
    assert admins[1..] == [a] && members[1..] == rest;
  }

  /** Second step: the owner, the only admin, leaves and the first other member becomes owner
      and only admin. */
  lemma LastAdminLeaves(name: string, a: UserId, rest: seq<UserId>)
    requires rest != [] && a !in rest
    ensures AfterLeave(Group(name, a, [a], [a] + rest), a) == Stays(Group(name, rest[0], [rest[0]], rest))
  {
    var members := [a] + rest;
    WithoutOnly([a], a);
    WithoutLiteral(members, a);
    assert members[1..] == rest;
  }

  /** `Without` on a list whose head is the removed id and whose tail does not hold it. */
  lemma WithoutLiteral(s: seq<UserId>, x: UserId)
    requires |s| > 0 && s[0] == x && x !in s[1..]
    ensures Without(s, x) == s[1..]
  {
    WithoutAbsent(s[1..], x);
  }

  // ---------------------------------------------------------------- handlers

  /** POST /: create a group under a fresh id. */
  method CreateGroup(st: Storage.Store, gid: GroupId, name: string, creator: UserId) returns (r: Result<Group>)
    requires gid !in st.groups
    modifies st`groups
    ensures NameTaken(old(st.groups), name) ==> r == Err(BadRequest) && st.groups == old(st.groups)
    ensures !NameTaken(old(st.groups), name) ==>
      r == Ok(Founded(name, creator)) && st.groups == old(st.groups)[gid := Founded(name, creator)]
    ensures old(AllConsistent(st.groups)) ==> AllConsistent(st.groups)
  {
    if exists g :: g in st.groups && st.groups[g].name == name {
      return Err(BadRequest);
    }
    var group := Group(name, creator, [creator], [creator]);
    st.groups := st.groups[gid := group];
    r := Ok(group);
  }

  /** GET /: every group for a system owner, otherwise the groups that list the caller as a
      member. A caller whose account no longer exists makes `currentUser.role` throw. */
  function ListGroups(st: Storage.Store, actor: UserId): (r: Result<set<GroupId>>)
    reads st
    ensures r.Err? <==> FindAccount(st.users, actor).None?
    ensures r.Ok? ==> forall gid :: gid in r.value <==> (gid in st.groups &&
      (st.users[FindAccount(st.users, actor).value].role == "owner" || actor in st.groups[gid].members))
  {
    match FindAccount(st.users, actor)
    case None => Err(ServerError)
    case Some(i) =>
      if st.users[i].role == "owner" then Ok(st.groups.Keys)
      else Ok(set gid | gid in st.groups && actor in st.groups[gid].members)
  }

  /** GET /:id: members only. The member test runs on the populated member list, from which
      populate drops every id whose account no longer exists, so a listed caller whose account
      was deleted is refused. */
  function GetGroup(st: Storage.Store, gid: GroupId, actor: UserId): (r: Result<Group>)
    reads st
    ensures r.Ok? <==> gid in st.groups && actor in st.groups[gid].members && FindAccount(st.users, actor).Some?
    ensures r.Ok? ==> r.value == st.groups[gid]
    ensures r.Err? ==> r.failure == (if gid in st.groups then Forbidden else NotFound)
  {
    if gid !in st.groups then Err(NotFound)
    else
      var users := st.users;
      var listed := Seqs.Filter(st.groups[gid].members, (u: UserId) => FindAccount(users, u).Some?);
      assert actor in listed <==> actor in multiset(listed);
      if actor !in listed then Err(Forbidden)
      else Ok(st.groups[gid])
  }

  /** POST /:id/join: checks membership (400), ban (403) and an existing pending request (400),
      in that order, then files one pending request. */
  method Join(st: Storage.Store, gid: GroupId, uid: UserId, rid: RequestId) returns (r: Result<()>)
    requires rid !in st.requests
    modifies st`requests
    ensures gid !in st.groups ==> r == Err(NotFound)
    ensures gid in st.groups && uid in st.groups[gid].members ==> r == Err(BadRequest)
    ensures gid in st.groups && uid !in st.groups[gid].members && Banned(st.blacklist, gid, uid) ==>
      r == Err(Forbidden)
    ensures (gid in st.groups && uid !in st.groups[gid].members && !Banned(st.blacklist, gid, uid)
      && HasPending(old(st.requests), gid, uid)) ==> r == Err(BadRequest)
    ensures r.Err? ==> st.requests == old(st.requests)
    ensures r.Ok? <==> (gid in st.groups && uid !in st.groups[gid].members && !Banned(st.blacklist, gid, uid)
      && !HasPending(old(st.requests), gid, uid))
    ensures r.Ok? ==> st.requests == old(st.requests)[rid := GroupRequest(gid, uid, Pending)]
    ensures old(AtMostOnePending(st.requests)) ==> AtMostOnePending(st.requests)
  {
    if gid !in st.groups {
      return Err(NotFound);
    }
    var group := st.groups[gid];
    if uid in group.members {
      return Err(BadRequest);
    }
    if exists e :: e in st.blacklist && st.blacklist[e] == BlacklistEntry(gid, uid) {
      return Err(Forbidden);
    }
    if exists q :: q in st.requests && st.requests[q] == GroupRequest(gid, uid, Pending) {
      return Err(BadRequest);
    }
    st.requests := st.requests[rid := GroupRequest(gid, uid, Pending)];
    r := Ok(());
  }

  /** POST /:id/leave: members only (400); applies `AfterLeave`, deleting the group when it
      leaves nobody behind. */
  method Leave(st: Storage.Store, gid: GroupId, uid: UserId) returns (r: Result<Departure>)
    modifies st`groups
    ensures gid !in old(st.groups) ==> r == Err(NotFound) && st.groups == old(st.groups)
    ensures gid in old(st.groups) && uid !in old(st.groups)[gid].members ==>
      r == Err(BadRequest) && st.groups == old(st.groups)
    ensures gid in old(st.groups) && uid in old(st.groups)[gid].members ==>
      r == Ok(AfterLeave(old(st.groups)[gid], uid)) &&
      st.groups == match AfterLeave(old(st.groups)[gid], uid)
        case Stays(h) => old(st.groups)[gid := h]
        case Deleted => old(st.groups) - {gid}
    ensures old(AllConsistent(st.groups)) ==> AllConsistent(st.groups)
  {
    if gid !in st.groups {
      return Err(NotFound);
    }
    var group := st.groups[gid];
    if uid !in group.members {
      return Err(BadRequest);
    }
    ghost var before := group;
    group := group.(members := Without(group.members, uid));
    group := group.(admins := Without(group.admins, uid));
    if group.owner == uid {
      if |group.admins| > 0 {
        group := group.(owner := group.admins[0]);
      } else if |group.members| > 0 {
        group := group.(owner := group.members[0]);
        group := group.(admins := group.admins + [group.members[0]]);
      } else {
        st.groups := st.groups - {gid};
        return Ok(Deleted);
      }
    }
    st.groups := st.groups[gid := group];
    r := Ok(Stays(group));
    if Consistent(before) {
      LeaveKeepsConsistency(before, uid);
    }
  }

  /** POST /:id/admins: the owner only (403); the target must be a member (400) and not yet an
      admin (400); it is appended to the admins. */
  method AddAdmin(st: Storage.Store, gid: GroupId, actor: UserId, target: UserId) returns (r: Result<Group>)
    modifies st`groups
    ensures gid !in old(st.groups) ==> r == Err(NotFound)
    ensures gid in old(st.groups) && old(st.groups)[gid].owner != actor ==> r == Err(Forbidden)
    ensures gid in old(st.groups) && old(st.groups)[gid].owner == actor ==>
      var g := old(st.groups)[gid];
      if target !in g.members || target in g.admins then r == Err(BadRequest)
      else r == Ok(Promote(g, target)) && st.groups == old(st.groups)[gid := Promote(g, target)]
    ensures r.Err? ==> st.groups == old(st.groups)
    ensures old(AllConsistent(st.groups)) ==> AllConsistent(st.groups)
  {
    if gid !in st.groups {
      return Err(NotFound);
    }
    var group := st.groups[gid];
    if group.owner != actor {
      return Err(Forbidden);
    }
    if target !in group.members {
      return Err(BadRequest);
    }
    if target in group.admins {
      return Err(BadRequest);
    }
    group := group.(admins := group.admins + [target]);
    st.groups := st.groups[gid := group];
    r := Ok(group);
  }

  /** DELETE /:id/admins/:userId: the owner only (403); the target must be an admin (400); it
      is filtered out of the admins, the members untouched. */
  method RemoveAdmin(st: Storage.Store, gid: GroupId, actor: UserId, target: UserId) returns (r: Result<Group>)
    modifies st`groups
    ensures gid !in old(st.groups) ==> r == Err(NotFound)
    ensures gid in old(st.groups) && old(st.groups)[gid].owner != actor ==> r == Err(Forbidden)
    ensures gid in old(st.groups) && old(st.groups)[gid].owner == actor ==>
      var g := old(st.groups)[gid];
      if target !in g.admins then r == Err(BadRequest)
      else (r == Ok(Demote(g, target)) && st.groups == old(st.groups)[gid := Demote(g, target)]
        && st.groups[gid].members == g.members && target !in st.groups[gid].admins)
    ensures r.Err? ==> st.groups == old(st.groups)
    ensures old(AllConsistent(st.groups)) ==> AllConsistent(st.groups)
  {
    if gid !in st.groups {
      return Err(NotFound);
    }
    var group := st.groups[gid];
    if group.owner != actor {
      return Err(Forbidden);
    }
    if target !in group.admins {
      return Err(BadRequest);
    }
    group := group.(admins := Without(group.admins, target));
    st.groups := st.groups[gid := group];
    r := Ok(group);
  }

  /** POST /:id/kick: the owner or an admin (403); the target must be a member (400); it is
      evicted. Neither the owner nor the actor is excluded as a target. */
  method Kick(st: Storage.Store, gid: GroupId, actor: UserId, target: UserId) returns (r: Result<Group>)
    modifies st`groups
    ensures gid !in old(st.groups) ==> r == Err(NotFound)
    ensures gid in old(st.groups) && !Manages(old(st.groups)[gid], actor) ==> r == Err(Forbidden)
    ensures gid in old(st.groups) && Manages(old(st.groups)[gid], actor) ==>
      var g := old(st.groups)[gid];
      if target !in g.members then r == Err(BadRequest)
      else r == Ok(Evict(g, target)) && st.groups == old(st.groups)[gid := Evict(g, target)]
    ensures r.Err? ==> st.groups == old(st.groups)
    ensures old(AllConsistent(st.groups)) && (gid in old(st.groups) ==> target != old(st.groups)[gid].owner)
      ==> AllConsistent(st.groups)
  {
    if gid !in st.groups {
      return Err(NotFound);
    }
    var group := st.groups[gid];
    if group.owner != actor && actor !in group.admins {
      return Err(Forbidden);
    }
    if target !in group.members {
      return Err(BadRequest);
    }
    group := group.(members := Without(group.members, target));
    group := group.(admins := Without(group.admins, target));
    st.groups := st.groups[gid := group];
    r := Ok(group);
  }

  /** GET /:id/requests: the owner or an admin (403); the group's pending requests. */
  function ListRequests(st: Storage.Store, gid: GroupId, actor: UserId): (r: Result<set<RequestId>>)
    reads st
    ensures r.Ok? <==> gid in st.groups && Manages(st.groups[gid], actor)
    ensures r.Err? ==> r.failure == (if gid in st.groups then Forbidden else NotFound)
    ensures r.Ok? ==> forall q :: q in r.value <==>
      q in st.requests && st.requests[q].group == gid && st.requests[q].status == Pending
  {
    if gid !in st.groups then Err(NotFound)
    else if !Manages(st.groups[gid], actor) then Err(Forbidden)
    else Ok(set q | q in st.requests && st.requests[q].group == gid && st.requests[q].status == Pending)
  }

  /** The checks approve and reject share, in order: group (404), owner or admin (403),
      request (404), request of this group (400), still pending (400). */
  function Review(groups: map<GroupId, Group>, requests: map<RequestId, GroupRequest>,
                  gid: GroupId, actor: UserId, rid: RequestId): (r: Option<Failure>)
    ensures r.None? <==> (gid in groups && Manages(groups[gid], actor) && rid in requests
      && requests[rid].group == gid && requests[rid].status == Pending)
  {
    if gid !in groups then Some(NotFound)
    else if !Manages(groups[gid], actor) then Some(Forbidden)
    else if rid !in requests then Some(NotFound)
    else if requests[rid].group != gid then Some(BadRequest)
    else if requests[rid].status != Pending then Some(BadRequest)
    else None
  }

  /** PUT /:id/requests/:requestId/approve: appends the requester to the members, with no
      re-check of membership or ban, then marks the request approved. */
  method Approve(st: Storage.Store, gid: GroupId, actor: UserId, rid: RequestId) returns (r: Result<()>)
    modifies st`groups, st`requests
    ensures var v := Review(old(st.groups), old(st.requests), gid, actor, rid);
      if v.Some? then r == Err(v.value) && st.groups == old(st.groups) && st.requests == old(st.requests)
      else (r == Ok(())
        && st.groups == old(st.groups)[gid := Admit(old(st.groups)[gid], old(st.requests)[rid].user)]
        && st.requests == old(st.requests)[rid := old(st.requests)[rid].(status := Approved)])
    ensures old(AllConsistent(st.groups)) ==> AllConsistent(st.groups)
    ensures old(AtMostOnePending(st.requests)) ==> AtMostOnePending(st.requests)
  {
    if gid !in st.groups {
      return Err(NotFound);
    }
    var group := st.groups[gid];
    if group.owner != actor && actor !in group.admins {
      return Err(Forbidden);
    }
    if rid !in st.requests {
      return Err(NotFound);
    }
    var request := st.requests[rid];
    if request.group != gid {
      return Err(BadRequest);
    }
    if request.status != Pending {
      return Err(BadRequest);
    }
    group := group.(members := group.members + [request.user]);
    st.groups := st.groups[gid := group];
    request := request.(status := Approved);
    st.requests := st.requests[rid := request];
    r := Ok(());
  }

  /** PUT /:id/requests/:requestId/reject: the same checks; only the request's status changes. */
  method Reject(st: Storage.Store, gid: GroupId, actor: UserId, rid: RequestId) returns (r: Result<()>)
    modifies st`requests
    ensures var v := Review(st.groups, old(st.requests), gid, actor, rid);
      if v.Some? then r == Err(v.value) && st.requests == old(st.requests)
      else r == Ok(()) && st.requests == old(st.requests)[rid := old(st.requests)[rid].(status := Rejected)]
    ensures old(AtMostOnePending(st.requests)) ==> AtMostOnePending(st.requests)
  {
    if gid !in st.groups {
      return Err(NotFound);
    }
    var group := st.groups[gid];
    if group.owner != actor && actor !in group.admins {
      return Err(Forbidden);
    }
    if rid !in st.requests {
      return Err(NotFound);
    }
    var request := st.requests[rid];
    if request.group != gid {
      return Err(BadRequest);
    }
    if request.status != Pending {
      return Err(BadRequest);
    }
    request := request.(status := Rejected);
    st.requests := st.requests[rid := request];
    r := Ok(());
  }

  /** Who may dissolve: the group's owner, or anyone whose account has the system role
      `owner`. The account is read only when the caller is not the group's owner, so a missing
      account makes `currentUser.role` throw only then. */
  function DissolveVerdict(users: seq<Account>, g: Group, actor: UserId): (r: Option<Failure>)
    ensures r.None? <==> (g.owner == actor ||
      (FindAccount(users, actor).Some? && users[FindAccount(users, actor).value].role == "owner"))
  {
    if g.owner == actor then None
    else match FindAccount(users, actor)
      case None => Some(ServerError)
      case Some(i) => if users[i].role != "owner" then Some(Forbidden) else None
  }

  /** DELETE /:id: removes the group's messages, requests and bans, then the group, one
      collection after another. */
  method Dissolve(st: Storage.Store, gid: GroupId, actor: UserId) returns (r: Result<()>)
    modifies st`groups, st`requests, st`blacklist, st`messages
    ensures gid !in old(st.groups) ==> r == Err(NotFound)
    ensures gid in old(st.groups) && DissolveVerdict(st.users, old(st.groups)[gid], actor).Some? ==>
      r == Err(DissolveVerdict(st.users, old(st.groups)[gid], actor).value)
    ensures r.Err? ==> (st.groups == old(st.groups) && st.requests == old(st.requests)
      && st.blacklist == old(st.blacklist) && st.messages == old(st.messages))
    ensures r.Ok? <==> gid in old(st.groups) && DissolveVerdict(st.users, old(st.groups)[gid], actor).None?
    ensures r.Ok? ==> (st.groups == old(st.groups) - {gid}
      && st.messages == Filter(old(st.messages), (m: MessageModel.Message) => m.group != gid)
      && (forall m :: m in st.messages <==> m in old(st.messages) && m.group != gid)
      && (forall q :: q in st.requests <==> q in old(st.requests) && old(st.requests)[q].group != gid)
      && (forall q :: q in st.requests ==> st.requests[q] == old(st.requests)[q])
      && (forall e :: e in st.blacklist <==> e in old(st.blacklist) && old(st.blacklist)[e].group != gid)
      && (forall e :: e in st.blacklist ==> st.blacklist[e] == old(st.blacklist)[e]))
  {
    var currentUser := FindAccount(st.users, actor);
    if gid !in st.groups {
      return Err(NotFound);
    }
    var group := st.groups[gid];
    if group.owner != actor {
      if currentUser.None? {
        return Err(ServerError);
      }
      if st.users[currentUser.value].role != "owner" {
        return Err(Forbidden);
      }
    }
    FilterMembers(st.messages, (m: MessageModel.Message) => m.group != gid);
    st.messages := Filter(st.messages, (m: MessageModel.Message) => m.group != gid);
    st.requests := map q | q in st.requests && st.requests[q].group != gid :: st.requests[q];
    st.blacklist := map e | e in st.blacklist && st.blacklist[e].group != gid :: st.blacklist[e];
    st.groups := st.groups - {gid};
    r := Ok(());
  }

  /** An admin may kick the owner: afterwards the group's owner is no longer among its
      members. */
  method AdminKicksOwner() returns (st: Storage.Store)
    ensures 0 in st.groups && st.groups[0].owner == 1 && 1 !in st.groups[0].members
    ensures !AllConsistent(st.groups)
  {
    st := new Storage.Store();
    var created := CreateGroup(st, 0, "Eng", 1);
    var joined := Join(st, 0, 2, 0);
    var approved := Approve(st, 0, 1, 0);
    var promoted := AddAdmin(st, 0, 1, 2);
    var kicked := Kick(st, 0, 2, 1);
  }
}
