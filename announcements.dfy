/** routes/announcements.js: the inbox, system announcements, group invitations, answering an
    invitation, and marking an announcement read. */
module Announcements {
  import opened Common
  import opened Entities
  import opened AnnouncementModel
  import Seqs
  import Storage
  import Groups

  /** What the inbox query selects: the user is a recipient and the status is 'unread' or
      'read' (an answered invitation drops out). */
  predicate Visible(a: Announcement, uid: UserId)
  {
    uid in a.recipients && (a.status == Unread || a.status == Read)
  }

  /** GET /: the user's visible announcements, newest first. */
  function Inbox(anns: seq<Announcement>, uid: UserId): (r: seq<Announcement>)
    ensures forall a :: a in r <==> a in anns && Visible(a, uid)
    ensures forall a :: multiset(r)[a] == if Visible(a, uid) then multiset(anns)[a] else 0
    ensures forall i, j :: 0 <= i < j < |r| ==> r[i].createdAt >= r[j].createdAt
  {
    var visible := Seqs.Filter(anns, (a: Announcement) => Visible(a, uid));
    var r := Seqs.SortBy(visible, (a: Announcement) => -(a.createdAt as int));
    assert forall a :: a in r <==> a in multiset(r);
    r
  }

  /** The ids of all accounts, in their stored order: `users.map(user => user._id)`. */
  function UserIds(users: seq<Account>): (r: seq<UserId>)
    ensures |r| == |users| && forall i :: 0 <= i < |users| ==> r[i] == users[i].id
  {
    seq(|users|, i requires 0 <= i < |users| => users[i].id)
  }

  /** No stored announcement has this id: the store hands out fresh ids. */
  predicate FreshId(anns: seq<Announcement>, id: AnnouncementId)
  {
    forall i :: 0 <= i < |anns| ==> anns[i].id != id
  }

  /** POST /: a broadcast from a system owner to every account. A caller without an account
      makes `currentUser.role` throw (500); empty content fails validation on save (500). */
  method SystemAnnouncement(st: Storage.Store, actor: UserId, content: string, id: AnnouncementId, now: Time)
    returns (r: Result<Announcement>)
    requires FreshId(st.announcements, id)
    modifies st`announcements
    ensures FindAccount(st.users, actor).None? ==> r == Err(ServerError)
    ensures FindAccount(st.users, actor).Some? && st.users[FindAccount(st.users, actor).value].role != "owner"
      ==> r == Err(Forbidden)
    ensures (FindAccount(st.users, actor).Some? && st.users[FindAccount(st.users, actor).value].role == "owner"
      && content == "") ==> r == Err(ServerError)
    ensures r.Err? ==> st.announcements == old(st.announcements)
    ensures r.Ok? <==> (FindAccount(st.users, actor).Some?
      && st.users[FindAccount(st.users, actor).value].role == "owner" && content != "")
    ensures r.Ok? ==> (st.announcements == old(st.announcements) + [r.value]
      && r.value == Announcement(id, Broadcast, content, actor, UserIds(st.users), Unread, None, None, None, now))
    ensures r.Ok? ==> forall i :: 0 <= i < |st.users| ==> r.value in Inbox(st.announcements, st.users[i].id)
  {
    var currentUser := FindAccount(st.users, actor);
    if currentUser.None? {
      return Err(ServerError);
    }
    if st.users[currentUser.value].role != "owner" {
      return Err(Forbidden);
    }
    var userIds := UserIds(st.users);
    var announcement := WithDefaults(id, Broadcast, content, actor, userIds, now);
    if !SchemaValid(announcement) {
      return Err(ServerError);
    }
    st.announcements := st.announcements + [announcement];
    r := Ok(announcement);
    forall i | 0 <= i < |st.users|
      ensures announcement in Inbox(st.announcements, st.users[i].id)
    {
      assert userIds[i] == st.users[i].id;
      assert st.announcements[|st.announcements| - 1] == announcement;
    }
  }

  /** The content of an invitation: the group's name followed by a fixed phrase. */
  function InvitationText(groupName: string): (r: string)
    ensures r != [] && groupName <= r
  {
    groupName + " 群组邀请您加入"
  }

  /** POST /invitations: a member (403) invites an existing user (404) who is not a member
      (400). Bans, earlier invitations and pending requests are not consulted. */
  method CreateInvitation(st: Storage.Store, actor: UserId, gid: GroupId, recipient: UserId,
                          id: AnnouncementId, now: Time)
    returns (r: Result<Announcement>)
    requires FreshId(st.announcements, id)
    modifies st`announcements
    ensures gid !in st.groups ==> r == Err(NotFound)
    ensures gid in st.groups && actor !in st.groups[gid].members ==> r == Err(Forbidden)
    ensures gid in st.groups && actor in st.groups[gid].members && FindAccount(st.users, recipient).None?
      ==> r == Err(NotFound)
    ensures (gid in st.groups && actor in st.groups[gid].members && FindAccount(st.users, recipient).Some?
      && recipient in st.groups[gid].members) ==> r == Err(BadRequest)
    ensures r.Err? ==> st.announcements == old(st.announcements)
    ensures r.Ok? <==> (gid in st.groups && actor in st.groups[gid].members
      && FindAccount(st.users, recipient).Some? && recipient !in st.groups[gid].members)
    ensures r.Ok? ==> (st.announcements == old(st.announcements) + [r.value]
      && r.value == Announcement(id, Invitation, InvitationText(st.groups[gid].name), actor, [recipient],
                                 Unread, Some(gid), Some(st.groups[gid].name), Some(InvitationStatus.Pending), now))
    ensures r.Ok? ==> r.value in Inbox(st.announcements, recipient)
  {
    if gid !in st.groups {
      return Err(NotFound);
    }
    var group := st.groups[gid];
    if actor !in group.members {
      return Err(Forbidden);
    }
    if FindAccount(st.users, recipient).None? {
      return Err(NotFound);
    }
    if recipient in group.members {
      return Err(BadRequest);
    }
    var announcement := Announcement(id, Invitation, InvitationText(group.name), actor, [recipient],
                                     Unread, Some(gid), Some(group.name), Some(InvitationStatus.Pending), now);
    st.announcements := st.announcements + [announcement];
    assert st.announcements[|st.announcements| - 1] == announcement;
    r := Ok(announcement);
  }

  /** The checks answering an invitation makes, in order: it exists (404), it is an invitation
      (400), the caller is a recipient (403), it is still pending (400). */
  function RespondVerdict(anns: seq<Announcement>, aid: AnnouncementId, uid: UserId): (r: Result<nat>)
    ensures r.Ok? <==> (Find(anns, aid).Some? && anns[Find(anns, aid).value].kind == Invitation
      && uid in anns[Find(anns, aid).value].recipients
      && anns[Find(anns, aid).value].invitationStatus == Some(InvitationStatus.Pending))
    ensures r.Ok? ==> r.value == Find(anns, aid).value
    ensures Find(anns, aid).None? ==> r == Err(NotFound)
  {
    match Find(anns, aid)
    case None => Err(NotFound)
    case Some(i) =>
      if anns[i].kind != Invitation then Err(BadRequest)
      else if uid !in anns[i].recipients then Err(Forbidden)
      else if anns[i].invitationStatus != Some(InvitationStatus.Pending) then Err(BadRequest)
      else Ok(i)
  }

  /** The invitation after an answer. */
  function Answered(a: Announcement, accept: bool): (b: Announcement)
    ensures b.status == Responded && b.invitationStatus == Some(if accept then Accepted else InvitationStatus.Rejected)
    ensures b == a.(status := b.status, invitationStatus := b.invitationStatus)
  {
    a.(invitationStatus := Some(if accept then Accepted else InvitationStatus.Rejected), status := Responded)
  }

  /** POST /:id/response: marks the invitation answered; on acceptance files a pending join
      request for the caller, without the membership, ban and duplicate checks of the join
      route. The invitation no longer shows in the caller's inbox. An invitation without a
      group (none is created so) leaves the request invalid, and its save throws (500). */
  method Respond(st: Storage.Store, aid: AnnouncementId, uid: UserId, accept: bool, rid: RequestId)
    returns (r: Result<bool>)
    requires rid !in st.requests
    modifies st`announcements, st`requests
    ensures RespondVerdict(old(st.announcements), aid, uid).Err? ==>
      r == Err(RespondVerdict(old(st.announcements), aid, uid).failure)
      && st.announcements == old(st.announcements) && st.requests == old(st.requests)
    ensures RespondVerdict(old(st.announcements), aid, uid).Ok? ==>
      var i := RespondVerdict(old(st.announcements), aid, uid).value;
      var a := old(st.announcements)[i];
      && st.announcements == old(st.announcements)[i := Answered(a, accept)]
      && !Visible(st.announcements[i], uid)
      && (!accept ==> r == Ok(false) && st.requests == old(st.requests))
      && (accept && a.group.Some? ==>
            r == Ok(true) && st.requests == old(st.requests)[rid := GroupRequest(a.group.value, uid, RequestStatus.Pending)])
      && (accept && a.group.None? ==> r == Err(ServerError) && st.requests == old(st.requests))
  {
    var found := Find(st.announcements, aid);
    if found.None? {
      return Err(NotFound);
    }
    var i := found.value;
    var announcement := st.announcements[i];
    if announcement.kind != Invitation {
      return Err(BadRequest);
    }
    if uid !in announcement.recipients {
      return Err(Forbidden);
    }
    if announcement.invitationStatus != Some(InvitationStatus.Pending) {
      return Err(BadRequest);
    }
    announcement := announcement.(invitationStatus := Some(if accept then Accepted else InvitationStatus.Rejected));
    announcement := announcement.(status := Responded);
    st.announcements := st.announcements[i := announcement];
    if accept {
      if announcement.group.None? {
        return Err(ServerError);
      }
      st.requests := st.requests[rid := GroupRequest(announcement.group.value, uid, RequestStatus.Pending)];
      r := Ok(true);
    } else {
      r := Ok(false);
    }
  }

  /** PUT /:id/read: any recipient (403) sets the one shared status to 'read', whatever it
      was, so an answered invitation reappears in the inbox. */
  method MarkRead(st: Storage.Store, aid: AnnouncementId, uid: UserId) returns (r: Result<()>)
    modifies st`announcements
    ensures Find(old(st.announcements), aid).None? ==> r == Err(NotFound)
    ensures r.Err? ==> st.announcements == old(st.announcements)
    ensures Find(old(st.announcements), aid).Some? ==>
      var i := Find(old(st.announcements), aid).value;
      if uid !in old(st.announcements)[i].recipients then r == Err(Forbidden)
      else (r == Ok(())
        && st.announcements == old(st.announcements)[i := old(st.announcements)[i].(status := Read)]
        && forall v :: v in st.announcements[i].recipients ==> Visible(st.announcements[i], v))
  {
    var found := Find(st.announcements, aid);
    if found.None? {
      return Err(NotFound);
    }
    var i := found.value;
    var announcement := st.announcements[i];
    if uid !in announcement.recipients {
      return Err(Forbidden);
    }
    announcement := announcement.(status := Read);
    st.announcements := st.announcements[i := announcement];
    r := Ok(());
  }

  /** Accepting an invitation bypasses the join route's duplicate check: a user who already
      asked to join and then accepts an invitation holds two pending requests for the group. */
  method JoinThenAcceptInvitation() returns (st: Storage.Store)
    ensures 0 in st.requests && 1 in st.requests && st.requests[0] == st.requests[1]
    ensures st.requests[0] == GroupRequest(0, 2, RequestStatus.Pending)
    ensures !AtMostOnePending(st.requests)
  {
    st := new Storage.Store();
    st.users := [Account(2, "guest", "", "", "user", [], true)];
    st.groups := map[0 := Groups.Founded("Eng", 1)];
    var joined := Groups.Join(st, 0, 2, 0);
    assert st.requests == map[0 := GroupRequest(0, 2, RequestStatus.Pending)];
    var invited := CreateInvitation(st, 1, 0, 2, 0, 0);
    assert Find(st.announcements, 0) == Some(0);
    var answered := Respond(st, 0, 2, true, 1);
  }

  /** Approving both requests of that state, neither approval re-checking membership, lists
      the user twice among the members. */
  method DuplicateMembership() returns (st: Storage.Store)
    ensures 0 in st.groups && st.groups[0].members == [1, 2, 2]
    ensures multiset(st.groups[0].members)[2] == 2
  {
    st := new Storage.Store();
    st.groups := map[0 := Groups.Founded("Eng", 1)];
    st.requests := map[0 := GroupRequest(0, 2, RequestStatus.Pending), 1 := GroupRequest(0, 2, RequestStatus.Pending)];
    var first := Groups.Approve(st, 0, 1, 0);
    assert st.groups[0].members == [1, 2];
    var second := Groups.Approve(st, 0, 1, 1);
    assert st.groups[0].members == [1, 2] + [2];
  }
}
