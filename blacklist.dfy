/** routes/blacklist.js: banning a user from a group, lifting a ban and listing a group's bans. */
module Blacklist {
  import opened Common
  import opened Entities
  import Seqs
  import Storage
  import Groups

  /** POST /:groupId: the owner or an admin (403); a user already banned is refused (400); a
      member is evicted from members and admins; then one ban entry is stored. A target who is
      not a member is banned all the same, and an admin who is not a member keeps the admin
      entry. */
  method Ban(st: Storage.Store, gid: GroupId, actor: UserId, target: UserId, eid: EntryId)
    returns (r: Result<BlacklistEntry>)
    requires eid !in st.blacklist
    modifies st`groups, st`blacklist
    ensures gid !in old(st.groups) ==> r == Err(NotFound)
    ensures gid in old(st.groups) && !Manages(old(st.groups)[gid], actor) ==> r == Err(Forbidden)
    ensures gid in old(st.groups) && Manages(old(st.groups)[gid], actor) && Banned(old(st.blacklist), gid, target)
      ==> r == Err(BadRequest)
    ensures r.Err? ==> st.groups == old(st.groups) && st.blacklist == old(st.blacklist)
    ensures r.Ok? <==> (gid in old(st.groups) && Manages(old(st.groups)[gid], actor)
      && !Banned(old(st.blacklist), gid, target))
    ensures r.Ok? ==> (r.value == BlacklistEntry(gid, target)
      && st.blacklist == old(st.blacklist)[eid := BlacklistEntry(gid, target)]
      && st.groups == (if target in old(st.groups)[gid].members
                       then old(st.groups)[gid := Groups.Evict(old(st.groups)[gid], target)]
                       else old(st.groups)))
    ensures r.Ok? ==> target !in st.groups[gid].members && Banned(st.blacklist, gid, target)
    ensures old(BanExcludesMembership(st.groups, st.blacklist)) ==> BanExcludesMembership(st.groups, st.blacklist)
    ensures old(BansUnique(st.blacklist)) ==> BansUnique(st.blacklist)
  {
    if gid !in st.groups {
      return Err(NotFound);
    }
    var group := st.groups[gid];
    if group.owner != actor && actor !in group.admins {
      return Err(Forbidden);
    }
    if exists e :: e in st.blacklist && st.blacklist[e] == BlacklistEntry(gid, target) {
      return Err(BadRequest);
    }
    if target in group.members {
      group := group.(members := Seqs.Without(group.members, target));
      group := group.(admins := Seqs.Without(group.admins, target));
      st.groups := st.groups[gid := group];
    }
    var entry := BlacklistEntry(gid, target);
    st.blacklist := st.blacklist[eid := entry];
    assert st.blacklist[eid] == entry;
    r := Ok(entry);
  }

  /** DELETE /:groupId/:userId: the owner or an admin (403); a user who is not banned is
      refused (400); otherwise one matching entry is deleted. */
  method Unban(st: Storage.Store, gid: GroupId, actor: UserId, target: UserId) returns (r: Result<()>)
    modifies st`blacklist
    ensures gid !in st.groups ==> r == Err(NotFound)
    ensures gid in st.groups && !Manages(st.groups[gid], actor) ==> r == Err(Forbidden)
    ensures gid in st.groups && Manages(st.groups[gid], actor) && !Banned(old(st.blacklist), gid, target)
      ==> r == Err(BadRequest)
    ensures r.Err? ==> st.blacklist == old(st.blacklist)
    ensures r.Ok? <==> (gid in st.groups && Manages(st.groups[gid], actor) && Banned(old(st.blacklist), gid, target))
    ensures r.Ok? ==> exists e :: (e in old(st.blacklist) && old(st.blacklist)[e] == BlacklistEntry(gid, target)
      && st.blacklist == old(st.blacklist) - {e})
    ensures r.Ok? && old(BansUnique(st.blacklist)) ==> !Banned(st.blacklist, gid, target)
    ensures old(BansUnique(st.blacklist)) ==> BansUnique(st.blacklist)
  {
    if gid !in st.groups {
      return Err(NotFound);
    }
    var group := st.groups[gid];
    if group.owner != actor && actor !in group.admins {
      return Err(Forbidden);
    }
    if !exists e :: e in st.blacklist && st.blacklist[e] == BlacklistEntry(gid, target) {
      return Err(BadRequest);
    }
    var e :| e in st.blacklist && st.blacklist[e] == BlacklistEntry(gid, target);
    st.blacklist := st.blacklist - {e};
    r := Ok(());
  }

  /** GET /:groupId: the owner or an admin (403); every ban entry of the group. */
  function ListBlacklist(st: Storage.Store, gid: GroupId, actor: UserId): (r: Result<set<EntryId>>)
    reads st
    ensures r.Ok? <==> gid in st.groups && Manages(st.groups[gid], actor)
    ensures r.Err? ==> r.failure == (if gid in st.groups then Forbidden else NotFound)
    ensures r.Ok? ==> forall e :: e in r.value <==> e in st.blacklist && st.blacklist[e].group == gid
  {
    if gid !in st.groups then Err(NotFound)
    else if !Manages(st.groups[gid], actor) then Err(Forbidden)
    else Ok(set e | e in st.blacklist && st.blacklist[e].group == gid)
  }

  /** Approval does not consult the blacklist: a user who asked to join, was then banned, and
      whose old request is then approved ends up a member of the group that bans them. */
  method BanThenApprove() returns (st: Storage.Store)
    ensures 0 in st.groups && 2 in st.groups[0].members && Banned(st.blacklist, 0, 2)
    ensures !BanExcludesMembership(st.groups, st.blacklist)
  {
    st := new Storage.Store();
    var created := Groups.CreateGroup(st, 0, "Eng", 1);
    var joined := Groups.Join(st, 0, 2, 0);
    var banned := Ban(st, 0, 1, 2, 0);
    var approved := Groups.Approve(st, 0, 1, 0);
    assert st.blacklist[0] == BlacklistEntry(0, 2);
  }
}
