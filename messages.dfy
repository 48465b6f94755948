/** routes/messages.js: the message list, sending text and files, deleting, read receipts and
    search, over the Message collection. */
module Messages {
  import opened Common
  import opened Entities
  import opened MessageModel
  import Seqs
  import Html
  import Storage

  /** The read status a new message starts with: one entry per member of the group at send
      time, in member order; only the sender's entry is read, stamped with the send time. */
  function SeedReadStatus(members: seq<UserId>, sender: UserId, now: Time): (r: seq<ReadStatus>)
    ensures |r| == |members|
    ensures forall i :: 0 <= i < |r| ==> r[i].userId == members[i]
    ensures forall i :: 0 <= i < |r| ==> (r[i].read <==> members[i] == sender)
    ensures forall i :: 0 <= i < |r| ==> r[i].readAt == (if members[i] == sender then Some(now) else None)
  {
    seq(|members|, i requires 0 <= i < |members| =>
      ReadStatus(members[i], members[i] == sender, if members[i] == sender then Some(now) else None))
  }

  /** The membership check every message route but delete starts with: the group exists
      (404) and lists the caller as a member (403). */
  function MemberVerdict(groups: map<GroupId, Group>, gid: GroupId, uid: UserId): (r: Option<Failure>)
    ensures r.None? <==> gid in groups && uid in groups[gid].members
    ensures r.Some? ==> r.value == (if gid in groups then Forbidden else NotFound)
  {
    if gid !in groups then Some(NotFound)
    else if uid !in groups[gid].members then Some(Forbidden)
    else None
  }

  /** The messages of a group in creation order (the search and list routes' `createdAt: 1`). */
  function Chronological(ms: seq<Message>): (r: seq<Message>)
    ensures forall i, j :: 0 <= i < j < |r| ==> r[i].createdAt <= r[j].createdAt
    ensures multiset(r) == multiset(ms)
  {
    Seqs.SortBy(ms, (m: Message) => m.createdAt as int)
  }

  /** GET /:groupId: members only; the group's messages, oldest first. */
  function ListMessages(st: Storage.Store, gid: GroupId, uid: UserId): (r: Result<seq<Message>>)
    reads st
    ensures MemberVerdict(st.groups, gid, uid).Some? ==> r == Err(MemberVerdict(st.groups, gid, uid).value)
    ensures r.Ok? ==> forall m :: m in r.value <==> m in st.messages && m.group == gid
    ensures r.Ok? ==> forall m :: multiset(r.value)[m] == if m.group == gid then multiset(st.messages)[m] else 0
    ensures r.Ok? ==> forall i, j :: 0 <= i < j < |r.value| ==> r.value[i].createdAt <= r.value[j].createdAt
    ensures r.Ok? <==> MemberVerdict(st.groups, gid, uid).None?
  {
    match MemberVerdict(st.groups, gid, uid)
    case Some(f) => Err(f)
    case None =>
      var found := Chronological(Seqs.Filter(st.messages, (m: Message) => m.group == gid));
      assert forall m :: m in found <==> m in multiset(found);
      Ok(found)
  }

  predicate FreshId(messages: seq<Message>, id: MessageId)
  {
    forall i :: 0 <= i < |messages| ==> messages[i].id != id
  }

  /** POST /:groupId: members only; the content is HTML-escaped before it is stored, and
      `replyTo` is stored as given, unchecked. Empty content fails validation on save (500). */
  method Send(st: Storage.Store, gid: GroupId, uid: UserId, content: string, replyTo: Option<MessageId>,
              id: MessageId, now: Time)
    returns (r: Result<Message>)
    requires FreshId(st.messages, id)
    modifies st`messages
    ensures MemberVerdict(st.groups, gid, uid).Some? ==> r == Err(MemberVerdict(st.groups, gid, uid).value)
    ensures MemberVerdict(st.groups, gid, uid).None? && content == [] ==> r == Err(ServerError)
    ensures r.Err? ==> st.messages == old(st.messages)
    ensures r.Ok? <==> MemberVerdict(st.groups, gid, uid).None? && content != []
    ensures r.Ok? ==> (st.messages == old(st.messages) + [r.value]
      && r.value == Message(id, uid, gid, Html.Escape(content), None, replyTo,
                            SeedReadStatus(st.groups[gid].members, uid, now), now))
    ensures r.Ok? ==> Html.Unescape(r.value.content) == content
    ensures r.Ok? ==> forall i :: 0 <= i < |r.value.content| ==> !Html.IsMarkup(r.value.content[i])
  {
    if gid !in st.groups {
      return Err(NotFound);
    }
    var group := st.groups[gid];
    if uid !in group.members {
      return Err(Forbidden);
    }
    var readStatus := SeedReadStatus(group.members, uid, now);
    var message := Message(id, uid, gid, Html.Escape(content), None, replyTo, readStatus, now);
    Html.EscapeEmpty(content);
    if !SchemaValid(message) {
      return Err(ServerError);
    }
    st.messages := st.messages + [message];
    r := Ok(message);
    Html.UnescapeEscape(content);
    Html.EscapeHasNoMarkup(content);
  }

  /** A file as the upload middleware hands it over: the stored file's generated name, the
      client's name for it (already decoded), its size and its MIME type. */
  datatype UploadedFile = UploadedFile(filename: string, originalName: string, size: nat, mimeType: string)

  /** The public URL of a stored file. */
  function FileUrl(filename: string): (url: string)
    ensures |url| == 9 + |filename| && url[..9] == "/uploads/" && url[9..] == filename
  {
    "/uploads/" + filename
  }

  /** The message an uploaded file becomes: its content is a fixed marker followed by the
      file's name, and the four file fields are set from the upload. */
  function FileMessage(id: MessageId, uid: UserId, gid: GroupId, file: UploadedFile,
                       readStatus: seq<ReadStatus>, now: Time): (m: Message)
    ensures SchemaValid(m) && m.file == Some(Attachment(FileUrl(file.filename), file.originalName, file.size, file.mimeType))
    ensures |m.content| == 5 + |file.originalName| && m.content[..5] == "[文件] " && m.content[5..] == file.originalName
    ensures m.sender == uid && m.group == gid && m.replyTo.None? && m.readStatus == readStatus
  {
    Message(id, uid, gid, "[文件] " + file.originalName,
            Some(Attachment(FileUrl(file.filename), file.originalName, file.size, file.mimeType)), None, readStatus, now)
  }

  /** POST /:groupId/upload: members only; no file is 400, checked after membership; the
      stored file becomes a message. */
  method Upload(st: Storage.Store, gid: GroupId, uid: UserId, file: Option<UploadedFile>, id: MessageId, now: Time)
    returns (r: Result<Message>)
    requires FreshId(st.messages, id)
    modifies st`messages
    ensures MemberVerdict(st.groups, gid, uid).Some? ==> r == Err(MemberVerdict(st.groups, gid, uid).value)
    ensures MemberVerdict(st.groups, gid, uid).None? && file.None? ==> r == Err(BadRequest)
    ensures r.Err? ==> st.messages == old(st.messages)
    ensures r.Ok? <==> MemberVerdict(st.groups, gid, uid).None? && file.Some?
    ensures r.Ok? ==> (r.value == FileMessage(id, uid, gid, file.value, SeedReadStatus(st.groups[gid].members, uid, now), now)
      && st.messages == old(st.messages) + [r.value])
  {
    if gid !in st.groups {
      return Err(NotFound);
    }
    var group := st.groups[gid];
    if uid !in group.members {
      return Err(Forbidden);
    }
    if file.None? {
      return Err(BadRequest);
    }
    var readStatus := SeedReadStatus(group.members, uid, now);
    var message := FileMessage(id, uid, gid, file.value, readStatus, now);
    st.messages := st.messages + [message];
    r := Ok(message);
  }

  /** POST /:groupId/uploads: members only; no files is 400; one file message per file, in
      order, under consecutive fresh ids. */
  method UploadMany(st: Storage.Store, gid: GroupId, uid: UserId, files: seq<UploadedFile>, firstId: MessageId, now: Time)
    returns (r: Result<seq<Message>>)
    requires forall id :: firstId <= id < firstId + |files| ==> FreshId(st.messages, id)
    modifies st`messages
    ensures MemberVerdict(st.groups, gid, uid).Some? ==> r == Err(MemberVerdict(st.groups, gid, uid).value)
    ensures MemberVerdict(st.groups, gid, uid).None? && files == [] ==> r == Err(BadRequest)
    ensures r.Err? ==> st.messages == old(st.messages)
    ensures r.Ok? <==> MemberVerdict(st.groups, gid, uid).None? && files != []
    ensures r.Ok? ==> (|r.value| == |files| && st.messages == old(st.messages) + r.value
      && forall k :: 0 <= k < |files| ==>
           r.value[k] == FileMessage(firstId + k, uid, gid, files[k], SeedReadStatus(st.groups[gid].members, uid, now), now))
  {
    if gid !in st.groups {
      return Err(NotFound);
    }
    var group := st.groups[gid];
    if uid !in group.members {
      return Err(Forbidden);
    }
    if files == [] {
      return Err(BadRequest);
    }
    var sent: seq<Message> := [];
    for k := 0 to |files|
      invariant |sent| == k
      invariant st.messages == old(st.messages) + sent
      invariant forall j :: 0 <= j < k ==>
        sent[j] == FileMessage(firstId + j, uid, gid, files[j], SeedReadStatus(group.members, uid, now), now)
    {
      var readStatus := SeedReadStatus(group.members, uid, now);
      var message := FileMessage(firstId + k, uid, gid, files[k], readStatus, now);
      st.messages := st.messages + [message];
      sent := sent + [message];
    }
    r := Ok(sent);
  }

  /** Who may delete a message: the group's owner, one of its admins, or the sender, whether
      or not the sender is still a member. */
  predicate MayDelete(g: Group, m: Message, uid: UserId)
  {
    g.owner == uid || uid in g.admins || m.sender == uid
  }

  /** DELETE /:id: a missing message is 404; a message whose group no longer exists makes the
      populated `group.owner` throw (500); otherwise owner, admin or sender (403). */
  method Delete(st: Storage.Store, mid: MessageId, uid: UserId) returns (r: Result<()>)
    modifies st`messages
    ensures Find(old(st.messages), mid).None? ==> r == Err(NotFound)
    ensures r.Err? ==> st.messages == old(st.messages)
    ensures Find(old(st.messages), mid).Some? ==>
      var i := Find(old(st.messages), mid).value;
      var m := old(st.messages)[i];
      if m.group !in st.groups then r == Err(ServerError)
      else if !MayDelete(st.groups[m.group], m, uid) then r == Err(Forbidden)
      else r == Ok(()) && st.messages == old(st.messages)[..i] + old(st.messages)[i + 1..]
  {
    var found := Find(st.messages, mid);
    if found.None? {
      return Err(NotFound);
    }
    var i := found.value;
    var message := st.messages[i];
    if message.group !in st.groups {
      return Err(ServerError);
    }
    var group := st.groups[message.group];
    var isOwner := group.owner == uid;
    var isAdmin := uid in group.admins;
    var isSender := message.sender == uid;
    if !isOwner && !isAdmin && !isSender {
      return Err(Forbidden);
    }
    st.messages := st.messages[..i] + st.messages[i + 1..];
    r := Ok(());
  }

  /** The positional update `readStatus.$.read = true, readStatus.$.readAt = now` on the first
      entry of `u`; None when `u` has no entry, in which case nothing is updated. */
  function MarkEntry(m: Message, u: UserId, now: Time): (r: Option<Message>)
    ensures r.None? <==> forall i :: 0 <= i < |m.readStatus| ==> m.readStatus[i].userId != u
    ensures r.Some? ==> var k := EntryOf(m.readStatus, u).value;
      && r.value == m.(readStatus := r.value.readStatus)
      && |r.value.readStatus| == |m.readStatus|
      && r.value.readStatus[k] == ReadStatus(u, true, Some(now))
      && forall i :: 0 <= i < |m.readStatus| && i != k ==> r.value.readStatus[i] == m.readStatus[i]
  {
    match EntryOf(m.readStatus, u)
    case None => None
    case Some(k) => Some(m.(readStatus := m.readStatus[k := m.readStatus[k].(read := true, readAt := Some(now))]))
  }

  /** Marking twice leaves the entry read, with the second call's time: the time of the first
      reading is not kept. */
  lemma MarkTwice(m: Message, u: UserId, t1: Time, t2: Time)
    requires MarkEntry(m, u, t1).Some?
    ensures MarkEntry(MarkEntry(m, u, t1).value, u, t2).Some?
    ensures MarkEntry(MarkEntry(m, u, t1).value, u, t2) == MarkEntry(m, u, t2)
  {
    var m1 := MarkEntry(m, u, t1).value;
    var k := EntryOf(m.readStatus, u).value;
    assert EntryOf(m1.readStatus, u) == Some(k) by {
      assert forall i :: 0 <= i < k ==> m1.readStatus[i] == m.readStatus[i];
    }
    var entry := ReadStatus(u, true, Some(t2));
    assert m1.readStatus[k].(read := true, readAt := Some(t2)) == entry;
    assert m.readStatus[k].(read := true, readAt := Some(t2)) == entry;
    assert m1.readStatus[k := entry] == m.readStatus[k := entry];
  }

  /** Only the first entry of a user is marked: a duplicate entry for the same user, which
      nothing prevents, stays unread. */
  lemma DuplicateEntryStaysUnread(m: Message, u: UserId, now: Time, j: nat)
    requires EntryOf(m.readStatus, u).Some? && EntryOf(m.readStatus, u).value < j < |m.readStatus|
    requires m.readStatus[j] == DefaultReadStatus(u)
    ensures MarkEntry(m, u, now).Some? && !MarkEntry(m, u, now).value.readStatus[j].read
  {
  }

  /** A user who joined after a message was sent has no entry in it, and marking it read
      changes nothing. */
  lemma LateJoinerHasNoEntry(members: seq<UserId>, sender: UserId, sent: Time, m: Message, u: UserId, now: Time)
    requires m.readStatus == SeedReadStatus(members, sender, sent) && u !in members
    ensures MarkEntry(m, u, now).None?
  {
    forall i | 0 <= i < |m.readStatus|
      ensures m.readStatus[i].userId != u
    {
      assert m.readStatus[i].userId == members[i];
    }
  }

  /** PUT /:id/read: 404 for a missing message; the caller must be a member of its group (403,
      also when the group is gone); then the first entry of the caller is marked. A caller with
      no entry gets an empty reply (`null`) and nothing changes. */
  method MarkRead(st: Storage.Store, mid: MessageId, uid: UserId, now: Time) returns (r: Result<Option<Message>>)
    modifies st`messages
    ensures Find(old(st.messages), mid).None? ==> r == Err(NotFound)
    ensures r.Err? ==> st.messages == old(st.messages)
    ensures Find(old(st.messages), mid).Some? ==>
      var i := Find(old(st.messages), mid).value;
      var m := old(st.messages)[i];
      if m.group !in st.groups || uid !in st.groups[m.group].members then r == Err(Forbidden)
      else (r == Ok(MarkEntry(m, uid, now))
        && st.messages == (if MarkEntry(m, uid, now).Some? then old(st.messages)[i := MarkEntry(m, uid, now).value]
                           else old(st.messages)))
  {
    var found := Find(st.messages, mid);
    if found.None? {
      return Err(NotFound);
    }
    var i := found.value;
    var message := st.messages[i];
    if message.group !in st.groups || uid !in st.groups[message.group].members {
      return Err(Forbidden);
    }
    var updated := MarkEntry(message, uid, now);
    if updated.Some? {
      st.messages := st.messages[i := updated.value];
    }
    r := Ok(updated);
  }

  /** The `updateMany` of read-all: every message of the group in which the user has an entry
      gets that user's first entry marked; every other message is left as it is. */
  function MarkAllIn(ms: seq<Message>, gid: GroupId, u: UserId, now: Time): (r: seq<Message>)
    ensures |r| == |ms|
    ensures forall i :: 0 <= i < |ms| && ms[i].group == gid && MarkEntry(ms[i], u, now).Some? ==>
      r[i] == MarkEntry(ms[i], u, now).value
    ensures forall i :: 0 <= i < |ms| && (ms[i].group != gid || MarkEntry(ms[i], u, now).None?) ==>
      r[i] == ms[i]
  {
    seq(|ms|, i requires 0 <= i < |ms| =>
      if ms[i].group == gid && MarkEntry(ms[i], u, now).Some? then MarkEntry(ms[i], u, now).value else ms[i])
  }

  /** After read-all, every message of the group in which the user has an entry shows the user
      as having read it. */
  lemma MarkAllReadsAll(ms: seq<Message>, gid: GroupId, u: UserId, now: Time, i: nat)
    requires i < |ms| && ms[i].group == gid
    requires exists k :: 0 <= k < |ms[i].readStatus| && ms[i].readStatus[k].userId == u
    ensures var e := EntryOf(MarkAllIn(ms, gid, u, now)[i].readStatus, u);
      e.Some? && MarkAllIn(ms, gid, u, now)[i].readStatus[e.value].read
  {
    var k := EntryOf(ms[i].readStatus, u).value;
    var after := MarkAllIn(ms, gid, u, now)[i];
    assert EntryOf(after.readStatus, u) == Some(k) by {
      assert forall j :: 0 <= j < k ==> after.readStatus[j] == ms[i].readStatus[j];
    }
  }

  /** PUT /:groupId/read-all: members only. */
  method MarkAllRead(st: Storage.Store, gid: GroupId, uid: UserId, now: Time) returns (r: Result<()>)
    modifies st`messages
    ensures MemberVerdict(st.groups, gid, uid).Some? ==>
      r == Err(MemberVerdict(st.groups, gid, uid).value) && st.messages == old(st.messages)
    ensures MemberVerdict(st.groups, gid, uid).None? ==>
      r == Ok(()) && st.messages == MarkAllIn(old(st.messages), gid, uid, now)
  {
    if gid !in st.groups {
      return Err(NotFound);
    }
    if uid !in st.groups[gid].members {
      return Err(Forbidden);
    }
    st.messages := MarkAllIn(st.messages, gid, uid, now);
    r := Ok(());
  }

  /** The search filter: the group, the keyword when it is non-empty (a literal,
      case-insensitive substring of the stored content), and the inclusive date bounds when
      given. */
  predicate Matches(m: Message, gid: GroupId, keyword: string, start: Option<Time>, end: Option<Time>)
  {
    && m.group == gid
    && (keyword == [] || Seqs.ContainsIgnoringCase(m.content, keyword))
    && (start.None? || m.createdAt >= start.value)
    && (end.None? || m.createdAt <= end.value)
  }

  /** GET /:groupId/search: members only; the matching messages, oldest first. */
  function Search(st: Storage.Store, gid: GroupId, uid: UserId, keyword: string, start: Option<Time>, end: Option<Time>)
    : (r: Result<seq<Message>>)
    reads st
    ensures r.Ok? <==> MemberVerdict(st.groups, gid, uid).None?
    ensures r.Err? ==> r.failure == MemberVerdict(st.groups, gid, uid).value
    ensures r.Ok? ==> forall m :: m in r.value <==> m in st.messages && Matches(m, gid, keyword, start, end)
    ensures r.Ok? ==> forall m :: multiset(r.value)[m] ==
                        (if Matches(m, gid, keyword, start, end) then multiset(st.messages)[m] else 0)
    ensures r.Ok? ==> forall i, j :: 0 <= i < j < |r.value| ==> r.value[i].createdAt <= r.value[j].createdAt
  {
    match MemberVerdict(st.groups, gid, uid)
    case Some(f) => Err(f)
    case None =>
      var found := Chronological(Seqs.Filter(st.messages, (m: Message) => Matches(m, gid, keyword, start, end)));
      assert forall m :: m in found <==> m in multiset(found);
      Ok(found)
  }

  /** Search runs over the escaped text: a keyword holding `<`, `>`, `"` or `'` never finds
      a message sent through the text route, whatever was typed. */
  lemma MarkupKeywordNeverMatches(content: string, keyword: string, c: char)
    requires Html.IsMarkup(c) && c in keyword
    ensures !Seqs.ContainsIgnoringCase(Html.Escape(content), keyword)
  {
    var stored := Html.Escape(content);
    if Seqs.ContainsIgnoringCase(stored, keyword) {
      var i :| 0 <= i < |keyword| && keyword[i] == c;
      assert Seqs.LowerAll(keyword)[i] == c;
      Seqs.ContainsKeepsChars(Seqs.LowerAll(stored), Seqs.LowerAll(keyword), c);
      var j :| 0 <= j < |stored| && Seqs.LowerAll(stored)[j] == c;
      Html.EscapeHasNoMarkup(content);
      assert false;
    }
  }
}
