/** The Message schema with its embedded ReadStatus entries. */
module MessageModel {
  import opened Common
  import Seqs

  /** One per-recipient read flag; `read` defaults to false, `readAt` is optional. */
  datatype ReadStatus = ReadStatus(userId: UserId, read: bool, readAt: Option<Time>)

  /** The four optional file fields, always written together by the upload routes. */
  datatype Attachment = Attachment(url: string, name: string, size: nat, mimeType: string)

  /** A message; `replyTo` is an optional reference to another message, and nothing makes the
      `userId`s of `readStatus` unique. */
  datatype Message = Message(
    id: MessageId, sender: UserId, group: GroupId, content: string, file: Option<Attachment>,
    replyTo: Option<MessageId>, readStatus: seq<ReadStatus>, createdAt: Time)

  /** A ReadStatus entry built from only the required `userId`. */
  function DefaultReadStatus(u: UserId): (e: ReadStatus)
    ensures e.userId == u && !e.read && e.readAt.None?
  {
    ReadStatus(u, false, None)
  }

  /** Validation on save: the required `content` string is non-empty (`sender` and `group`
      are always present in this model). */
  predicate SchemaValid(m: Message)
  {
    m.content != ""
  }

  /** `Message.findById(id)`. */
  function Find(messages: seq<Message>, id: MessageId): (r: Option<nat>)
    ensures r.Some? ==> r.value < |messages| && messages[r.value].id == id
    ensures r.None? ==> forall i :: 0 <= i < |messages| ==> messages[i].id != id
  {
    Seqs.FirstIndex(messages, (m: Message) => m.id == id)
  }

  /** The entry Mongo's positional `$` selects for `'readStatus.userId': u`: the first one. */
  function EntryOf(rs: seq<ReadStatus>, u: UserId): (r: Option<nat>)
    ensures r.Some? ==> r.value < |rs| && rs[r.value].userId == u
    ensures r.Some? ==> forall i :: 0 <= i < r.value ==> rs[i].userId != u
    ensures r.None? ==> forall i :: 0 <= i < |rs| ==> rs[i].userId != u
  {
    Seqs.FirstIndex(rs, (e: ReadStatus) => e.userId == u)
  }
}
