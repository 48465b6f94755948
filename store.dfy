/** The document store the route handlers read and write: one collection per model. */
module Storage {
  import opened Common
  import opened Entities
  import AnnouncementModel
  import MessageModel
  import ArticleModel

  /** Collections whose natural order the routes expose (listing, broadcast recipients) are
      sequences in insertion order; the others are maps keyed by document id. */
  class Store {
    var users: seq<Account>
    var groups: map<GroupId, Group>
    var requests: map<RequestId, GroupRequest>
    var blacklist: map<EntryId, BlacklistEntry>
    var announcements: seq<AnnouncementModel.Announcement>
    var messages: seq<MessageModel.Message>
    var articles: seq<ArticleModel.Article>

    constructor ()
      ensures users == [] && groups == map[] && requests == map[] && blacklist == map[]
      ensures announcements == [] && messages == [] && articles == []
    {
      users, groups, requests, blacklist := [], map[], map[], map[];
      announcements, messages, articles := [], [], [];
    }
  }
}
