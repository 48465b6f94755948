/** The Announcement schema: a broadcast announcement or a group invitation. */
module AnnouncementModel {
  import opened Common
  import Seqs

  /** `type`, required, one of 'announcement' and 'invitation'. */
  datatype Kind = Broadcast | Invitation

  /** `status`, one of 'unread', 'read', 'responded'. */
  datatype Status = Unread | Read | Responded

  /** `invitationStatus`, optional, one of 'pending', 'accepted', 'rejected'. */
  datatype InvitationStatus = Pending | Accepted | Rejected

  /** An announcement; `group`, `groupName` and `invitationStatus` are the optional
      invitation-only fields. */
  datatype Announcement = Announcement(
    id: AnnouncementId, kind: Kind, content: string, sender: UserId, recipients: seq<UserId>,
    status: Status, group: Option<GroupId>, groupName: Option<string>,
    invitationStatus: Option<InvitationStatus>, createdAt: Time)

  function KindName(k: Kind): string
  {
    match k
    case Broadcast => "announcement"
    case Invitation => "invitation"
  }

  function StatusName(s: Status): string
  {
    match s
    case Unread => "unread"
    case Read => "read"
    case Responded => "responded"
  }

  /** The schema's enum check on `type`: only the two listed names are accepted. */
  function ParseKind(name: string): (k: Option<Kind>)
    ensures k.Some? ==> KindName(k.value) == name
    ensures k.None? ==> name != "announcement" && name != "invitation"
  {
    if name == "announcement" then Some(Broadcast)
    else if name == "invitation" then Some(Invitation)
    else None
  }

  /** A document with every field the schema defaults: status 'unread' and no invitation fields. */
  function WithDefaults(id: AnnouncementId, kind: Kind, content: string, sender: UserId,
                        recipients: seq<UserId>, createdAt: Time): (a: Announcement)
    ensures a.status == Unread && a.group.None? && a.groupName.None? && a.invitationStatus.None?
  {
    Announcement(id, kind, content, sender, recipients, Unread, None, None, None, createdAt)
  }

  /** What validation on save checks beyond the enums, which the datatypes already enforce:
      the required `content` string is non-empty. */
  predicate SchemaValid(a: Announcement)
  {
    a.content != ""
  }

  /** `Announcement.findById(id)`. */
  function Find(anns: seq<Announcement>, id: AnnouncementId): (r: Option<nat>)
    ensures r.Some? ==> r.value < |anns| && anns[r.value].id == id
    ensures r.None? ==> forall i :: 0 <= i < |anns| ==> anns[i].id != id
  {
    Seqs.FirstIndex(anns, (a: Announcement) => a.id == id)
  }

  /** Both kind names parse back to their kinds. */
  lemma KindNamesRoundTrip(k: Kind)
    ensures ParseKind(KindName(k)) == Some(k)
  {
  }
}
