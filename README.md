# WWCR group membership and messaging authorization, in Dafny

The WWCR backend is an Express application over a MongoDB document store. This project
models its core: who may do what to a group, a message, an announcement, an account and an
article. It covers the role and permission middleware, the membership changes of the group
and blacklist routes, and the checks every message, announcement, account, permission and
article route makes before it touches the store.

The store is the class `Storage.Store`. It has one field per collection:

- users, as a sequence in insertion order;
- groups, join requests and bans, as maps keyed by id;
- announcements, messages and articles, as sequences.

Each route handler that writes to the store is a method on that object. Its `modifies`
clause names the collections the route changes. Its contract gives the full outcome: the
failure (404, 403, 400 or 500, as `Result.Err`) or the new state of every collection it
writes. Read-only routes are functions of the store. The updates a handler applies to a
loaded document are pure functions (for example leaving a group, evicting a member, marking
a read receipt, merging an article edit). The lemmas about them state the rules the design
promises, and exhibit the places where the code does not keep them.

Module layout:

- `Common`: ids, `Option`, `Result`, and the four failure kinds.
- `Seqs`: the array operations the handlers use (`filter`, first-match lookups, sorting by a timestamp, literal case-insensitive matching).
- `Html`: `escapeHtml`, with an independent per-character reference and an inverse.
- `Resolver`: `middleware/permissions.js`.
- `Entities`, `AnnouncementModel`, `MessageModel`, `ArticleModel`: the documents and their schema rules.
- `Storage`: the store.
- `Groups`, `Blacklist`, `Announcements`, `Messages`, `Accounts`, `PermissionRoutes`, `Articles`: one module per route file.

Several methods return the store they build (`AdminKicksOwner`, `BanThenApprove`,
`JoinThenAcceptInvitation`, `DuplicateMembership`, `SecondOwnerOnCountFailure`). Each
starts from an empty or small store and calls the route methods. Its postconditions show
that the routes alone can break a design invariant.

## Model

| member | source | states |
|---|---|---|
| `Resolver.Parse` | backend/middleware/permissions.js:4-9 | a name maps to a role exactly when it is that role's key in `roleHierarchy`; any other name matches no role |
| `Resolver.RankTable` | backend/middleware/permissions.js:4-9 | owner 4, admin 3, moderator 2, user 1, and no two roles share a rank |
| `Resolver.ParseName` | backend/middleware/permissions.js:4-9 | every role's name looks up that role |
| `Resolver.CheckRoleByRank` | backend/middleware/permissions.js:20-32 | for known roles, `checkRole` passes exactly when the user's rank is at least the required rank |
| `Resolver.UnknownRoleDenied` | backend/middleware/permissions.js:23-26 | a user role or required role missing from the table is denied |
| `Resolver.CheckRoleMonotone` | backend/middleware/permissions.js:20-32 | passing the check for a role means passing it for every lower-ranked role |
| `Resolver.ExplicitGrantAllows` | backend/middleware/permissions.js:40-42 | a permission listed in the claim is allowed whatever the role |
| `Resolver.OwnerHasEveryPermission` | backend/middleware/permissions.js:13 | the owner's `*` passes every permission check |
| `Resolver.CheckPermissionByRole` | backend/middleware/permissions.js:35-52 | without an explicit grant, a permission is allowed exactly by the role's default list (everything for owner, nothing for an unknown role) |
| `Resolver.LogAccessIsViewLogs` | backend/middleware/permissions.js:63-78 | `checkLogAccess` decides exactly as `checkPermission('view_logs')` |
| `Resolver.LogAccessByRole` | backend/middleware/permissions.js:12-17 | owner, admin and moderator read logs; anyone else only with an explicit `view_logs` grant |
| `Resolver.CheckOwnerIsTopRank` | backend/middleware/permissions.js:55-60 | `checkOwner` admits exactly whom `checkRole('owner')` admits |
| `PermissionRoutes.AdminGateIsRankThree` | backend/routes/permissions.js:49 | the admin gate admits exactly the roles `admin` and `owner` |
| `PermissionRoutes.RoleNamesAreTheHierarchy` | backend/routes/permissions.js:10-18 | the role list has every role of the rank table, in strictly ascending rank |
| `PermissionRoutes.DefaultsAreAvailable` | backend/routes/permissions.js:23-44 | every default permission except `*` is one of the twelve available names |
| `PermissionRoutes.ListRoles` | backend/routes/permissions.js:10-18 | 403 unless the claim passes the admin gate, otherwise the four role names |
| `PermissionRoutes.ListAvailable` | backend/routes/permissions.js:23-44 | 403 unless the claim passes the admin gate, otherwise the twelve permission names |
| `PermissionRoutes.Overwrite` | backend/routes/permissions.js:59-63 | a supplied field replaces the stored one unvalidated; an absent one is kept; nothing else changes |
| `PermissionRoutes.UpdatePermissions` | backend/routes/permissions.js:49-79 | admin gate (403), then the owner-assignment guard (403), then 404 for a missing target, then the overwrite of exactly that account |
| `PermissionRoutes.AdminMayDemoteOwner` | backend/routes/permissions.js:54-57 | only assigning `owner` is guarded, so an admin can take the owner role away from the owner |
| `PermissionRoutes.GetPermissions` | backend/routes/permissions.js:84-102 | admin gate (403), 404 for a missing target, otherwise the stored account with that id |
| `Html.EscapeIsPerCharacter` | backend/routes/messages.js:12-19 | the chain of five replacements, `&` first, escapes each character on its own |
| `Html.EscapeOneChar` | backend/routes/messages.js:12-19 | the chain maps one character to its entity, or leaves it unchanged if it is not special |
| `Html.EscapeHasNoMarkup` | backend/routes/messages.js:12-19 | escaped text holds none of `<`, `>`, `"`, `'` |
| `Html.EscapeAmpersandsStartEntities` | backend/routes/messages.js:12-19 | every `&` of escaped text begins one of the five entities |
| `Html.UnescapeEscape` | backend/routes/messages.js:12-19 | escaping loses nothing: decoding the entities gives back the original text |
| `Html.EscapeEmpty` | backend/routes/articles.js:7-14 | escaped text is empty exactly when the original is |
| `Seqs.Without` | backend/routes/groups.js:154 | `filter(x => x !== u)` drops every occurrence of `u` and keeps every other element with its multiplicity |
| `Seqs.WithoutKeepsOrder` | backend/routes/groups.js:154-157 | the filtered array keeps the remaining elements in their original order |
| `Seqs.FirstIndex` | backend/routes/messages.js:350-360 | a lookup finds the first matching document, or reports that none matches |
| `Seqs.SortBy` | backend/routes/messages.js:40 | sorting by a key returns a permutation of the input in non-decreasing key order |
| `Seqs.ContainsIsWindow` | backend/routes/messages.js:429-434 | the substring test holds exactly when some window of the text equals the keyword |
| `Seqs.EmptyKeywordMatches` | backend/routes/messages.js:429 | the empty keyword matches every text |
| `Entities.FindAccount` | backend/routes/groups.js:401 | `User.findById` finds the account with that id, or none exists |
| `Groups.FoundedIsConsistent` | backend/routes/groups.js:24-29 | a new group has its creator as owner, sole admin and sole member, and is consistent |
| `Groups.LeaveRemovesOnlyLeaver` | backend/routes/groups.js:153-157 | leaving removes the leaver, and only the leaver, from the members and admins, keeping the others' order |
| `Groups.LeaveKeepsOwner` | backend/routes/groups.js:157-160 | when a non-owner leaves, the owner stays and the admins keep their order |
| `Groups.SuccessionToFirstAdmin` | backend/routes/groups.js:160-162 | an owner who leaves hands over to the first admin, in insertion order, who is not the owner |
| `Groups.SuccessionToFirstMember` | backend/routes/groups.js:163-165 | with no other admin, the first other member becomes owner and only admin |
| `Groups.DeletedIffOwnerWasAlone` | backend/routes/groups.js:166-170 | the group is deleted exactly when its owner leaves and nobody else is a member or an admin |
| `Groups.LeaveKeepsConsistency` | backend/routes/groups.js:153-173 | leaving keeps the owner and every admin among the members |
| `Groups.PromoteKeepsConsistency` | backend/routes/groups.js:199-208 | promoting a member keeps the group consistent |
| `Groups.DemoteKeepsConsistency` | backend/routes/groups.js:238 | demoting keeps the group consistent |
| `Groups.AdmitKeepsConsistency` | backend/routes/groups.js:339 | admitting keeps the group consistent |
| `Groups.EvictKeepsConsistency` | backend/routes/groups.js:270-273 | evicting anyone but the owner keeps the group consistent |
| `Groups.EvictingOwner` | backend/routes/groups.js:259-273 | nothing stops a kick from evicting the owner, who then is no member yet still owns and manages the group |
| `Groups.AdmitDuplicates` | backend/routes/groups.js:338-340 | approving a request of a current member lists that member twice |
| `Groups.OwnerLeavesToAdmin` | backend/routes/groups.js:153-162 | with admins [O, A], O leaving makes A the owner and only admin, and the remaining members keep their order |
| `Groups.LastAdminLeaves` | backend/routes/groups.js:153-165 | an owner who is the only admin leaves: the first remaining member becomes owner and only admin |
| `Groups.SuccessionScenario` | backend/routes/groups.js:153-171 | owner O, admin A and members M1, M2: O leaves and A owns; A leaves and M1 owns and is the only admin |
| `Groups.CreateGroup` | backend/routes/groups.js:13-40 | a taken name is 400; otherwise exactly the founded group is added; consistency of all groups is kept |
| `Groups.ListGroups` | backend/routes/groups.js:45-71 | 500 when the caller has no account; all groups for a system owner, otherwise exactly the groups listing the caller as a member |
| `Groups.GetGroup` | backend/routes/groups.js:76-93 | 404, then 403 unless the caller is listed as a member and still has an account (populate drops deleted accounts before the member test), otherwise the stored group |
| `Groups.Join` | backend/routes/groups.js:98-136 | 404, 400 for a member, 403 for a banned user, 400 for a pending request, in that order; otherwise exactly one pending request is filed; at most one pending request per user and group is kept |
| `Groups.Leave` | backend/routes/groups.js:141-179 | 404, 400 for a non-member; otherwise the group is replaced by its state after the leave or deleted; consistency is kept |
| `Groups.AddAdmin` | backend/routes/groups.js:184-215 | 404, 403 unless owner, 400 for a non-member or an existing admin; otherwise the target is appended to the admins |
| `Groups.RemoveAdmin` | backend/routes/groups.js:220-245 | 404, 403 unless owner, 400 for a non-admin; otherwise the target is no longer an admin and the members are untouched |
| `Groups.Kick` | backend/routes/groups.js:250-281 | 404, 403 unless owner or admin, 400 for a non-member; otherwise the target is evicted, owner included; consistency is kept when the owner is not the target |
| `Groups.ListRequests` | backend/routes/groups.js:286-305 | 404, 403 unless owner or admin; otherwise exactly the group's pending requests |
| `Groups.Review` | backend/routes/groups.js:312-336 | approve and reject proceed exactly for an owner or admin acting on an existing pending request of that group |
| `Groups.Approve` | backend/routes/groups.js:310-351 | on a passing review the requester is appended to the members with no membership or ban check and the request becomes approved; otherwise nothing changes |
| `Groups.Reject` | backend/routes/groups.js:356-393 | on a passing review only the request's status changes, to rejected |
| `Groups.DissolveVerdict` | backend/routes/groups.js:401-412 | dissolving is allowed exactly for the group's owner or a caller whose stored role is `owner` |
| `Groups.Dissolve` | backend/routes/groups.js:398-431 | on success the group is gone, and no message, request or ban of it is left, while every other document is kept |
| `Groups.AdminKicksOwner` | backend/routes/groups.js:259-275 | through the routes alone, an admin kicks the owner out of the members, which breaks group consistency |
| `Blacklist.Ban` | backend/routes/blacklist.js:10-48 | 404, 403 unless owner or admin, 400 if already banned; otherwise a member is evicted and one ban stored; the banned user is not a member; ban-excludes-membership and unique bans are kept |
| `Blacklist.Unban` | backend/routes/blacklist.js:53-77 | 404, 403, 400 unless banned; otherwise one matching entry is deleted, and with unique bans the user is no longer banned |
| `Blacklist.ListBlacklist` | backend/routes/blacklist.js:82-100 | 404, 403 unless owner or admin; otherwise exactly the group's ban entries |
| `Blacklist.BanThenApprove` | backend/routes/groups.js:338-344 | a request filed before a ban can still be approved, making a banned user a member |
| `AnnouncementModel.ParseKind` | backend/models/Announcement.js:4-8 | only the two enum names are accepted, each as its kind |
| `AnnouncementModel.KindNamesRoundTrip` | backend/models/Announcement.js:4-8 | each kind's name parses back to that kind |
| `AnnouncementModel.WithDefaults` | backend/models/Announcement.js:22-26 | a new announcement is unread and carries no invitation fields |
| `Announcements.Inbox` | backend/routes/announcements.js:12-28 | exactly the announcements that list the user as a recipient and are unread or read, each as often as stored, newest first |
| `Announcements.UserIds` | backend/routes/announcements.js:45 | the ids of all accounts, in stored order |
| `Announcements.SystemAnnouncement` | backend/routes/announcements.js:33-62 | 500 without an account, 403 unless the stored role is owner, 500 for empty content; otherwise one broadcast to every account, which then shows in every user's inbox |
| `Announcements.InvitationText` | backend/routes/announcements.js:94-97 | the invitation text begins with the group's name and is never empty |
| `Announcements.CreateInvitation` | backend/routes/announcements.js:67-111 | 404, 403 for a non-member, 404 for a missing recipient, 400 for a recipient who is a member; otherwise one pending invitation that shows in the recipient's inbox |
| `Announcements.RespondVerdict` | backend/routes/announcements.js:121-141 | an answer proceeds exactly for a recipient of an existing, still pending invitation |
| `Announcements.Answered` | backend/routes/announcements.js:141-143 | an answered invitation is responded, accepted or rejected, and otherwise unchanged |
| `Announcements.Respond` | backend/routes/announcements.js:116-163 | the invitation is answered and leaves the caller's inbox; acceptance files a pending join request with none of the join route's checks |
| `Announcements.MarkRead` | backend/routes/announcements.js:168-190 | 404, 403 for a non-recipient; otherwise the shared status becomes read, which makes the announcement visible to every recipient again |
| `Announcements.JoinThenAcceptInvitation` | backend/routes/announcements.js:147-154 | a user who asked to join and then accepts an invitation holds two identical pending requests |
| `Announcements.DuplicateMembership` | backend/routes/groups.js:338-340 | approving both of those requests lists the user twice among the members |
| `MessageModel.DefaultReadStatus` | backend/models/Message.js:3-16 | a receipt built from only its user is unread and has no read time |
| `MessageModel.EntryOf` | backend/routes/messages.js:350-360 | the positional operator selects the first receipt of the user, or there is none |
| `Messages.SeedReadStatus` | backend/routes/messages.js:70-74 | one receipt per member in member order; only the sender's is read, stamped with the send time |
| `Messages.MemberVerdict` | backend/routes/messages.js:56-66 | a message route proceeds exactly for a member of an existing group; 404 or 403 otherwise |
| `Messages.Chronological` | backend/routes/messages.js:40 | a permutation of the messages in creation order |
| `Messages.ListMessages` | backend/routes/messages.js:24-47 | members only; exactly the group's messages, each as often as it is stored, oldest first |
| `Messages.Send` | backend/routes/messages.js:52-100 | members only; 500 for empty content; the stored content is the escaped text, holds no markup and decodes back to what was sent; `replyTo` is stored unchecked |
| `Messages.FileUrl` | backend/routes/messages.js:130 | the public URL is `/uploads/` followed by the stored file name |
| `Messages.FileMessage` | backend/routes/messages.js:157-166 | a file message is valid, its content is the marker `[文件] ` followed by the original file name, and it carries the four file fields from the upload |
| `Messages.Upload` | backend/routes/messages.js:105-189 | members only; 400 without a file; otherwise one file message is appended |
| `Messages.UploadMany` | backend/routes/messages.js:194-298 | members only; 400 without files; otherwise one file message per file, in order, appended after the existing messages |
| `Messages.Delete` | backend/routes/messages.js:303-331 | 404, 500 when the group is gone, 403 unless owner, admin or sender; otherwise exactly that message is removed |
| `Messages.MarkEntry` | backend/routes/messages.js:350-360 | only the user's first receipt becomes read at the given time; the message is unchanged otherwise; nothing is marked when the user has no receipt |
| `Messages.MarkTwice` | backend/routes/messages.js:350-360 | marking twice equals marking once at the later time, so the first reading time is lost |
| `Messages.DuplicateEntryStaysUnread` | backend/routes/messages.js:350-360 | a second receipt for the same user stays unread |
| `Messages.LateJoinerHasNoEntry` | backend/routes/messages.js:70-74 | a user who joined after a message was sent has no receipt, and marking it read changes nothing |
| `Messages.MarkRead` | backend/routes/messages.js:336-369 | 404, 403 for a non-member; otherwise the first receipt of the caller is marked, or nothing changes and the reply is empty |
| `Messages.MarkAllIn` | backend/routes/messages.js:387-398 | every message of the group with a receipt of the user gets it marked; every other message is unchanged |
| `Messages.MarkAllReadsAll` | backend/routes/messages.js:387-398 | after read-all the user has read every message of the group that has a receipt for them |
| `Messages.MarkAllRead` | backend/routes/messages.js:374-405 | members only; the store's messages become their read-all update |
| `Messages.Search` | backend/routes/messages.js:410-459 | members only; exactly the group's messages matching the keyword and date bounds, each as often as it is stored, oldest first |
| `Messages.MarkupKeywordNeverMatches` | backend/routes/messages.js:429-434 | a keyword holding `<`, `>`, `"` or `'` never finds a message sent as text, since the stored text is escaped |
| `Accounts.OwnerCount` | backend/routes/auth.js:24 | there are no owners exactly when no account has the role owner |
| `Accounts.Enrolment` | backend/routes/auth.js:31-32 | the first registrant is owner and verified; everyone later is an unverified user |
| `Accounts.Register` | backend/routes/auth.js:11-69 | a taken username is 400; otherwise one account is appended whose role is owner exactly when the count found no owner; with a working count there is never a second owner |
| `Accounts.OwnerCountAppend` | backend/routes/auth.js:24 | appending an account adds one to the owner count exactly when it is an owner |
| `Accounts.SecondOwnerOnCountFailure` | backend/routes/auth.js:22-27 | when the owner count query fails, a later registrant becomes a second, verified owner |
| `Accounts.Login` | backend/routes/auth.js:79-168 | 400 for an unknown name, an unverified account or a wrong password; otherwise the token carries the account's id, role and permissions |
| `Accounts.UnverifiedNeverLogsIn` | backend/routes/auth.js:130-139 | an unverified account is refused whatever the password |
| `Accounts.StaffVerdict` | backend/routes/auth.js:241-246 | list and verify proceed exactly for a caller whose stored role is admin or owner; 500 without an account |
| `Accounts.ListUsers` | backend/routes/auth.js:241-256 | staff only; every account |
| `Accounts.VerifyUser` | backend/routes/auth.js:302-322 | staff only; the target becomes verified; a missing target is an empty reply with nothing changed |
| `Accounts.ChangeRole` | backend/routes/auth.js:327-347 | a stored owner only; the given role is stored unvalidated; a missing target is an empty reply |
| `Accounts.DeletionVerdict` | backend/routes/auth.js:366-384 | a deletion is allowed exactly when the actor is admin or owner, the target is not an owner, and not both are admins, whatever the role strings |
| `Accounts.DeletionFollowsRank` | backend/routes/auth.js:366-384 | among the system roles, admin and owner delete exactly the roles ranked strictly below them |
| `Accounts.DeleteUser` | backend/routes/auth.js:360-394 | 500, 403, 404, then the hierarchy; otherwise exactly that account is removed and the owner count is unchanged |
| `Accounts.OwnerCountRemove` | backend/routes/auth.js:377-387 | removing an account lowers the owner count exactly when it was an owner |
| `ArticleModel.ParseStatus` | backend/models/Article.js:32-36 | only `published` and `draft` are accepted, each as its status |
| `ArticleModel.Utf16Length` | backend/models/Article.js:4-17 | the length the validators measure lies between the character count and twice it, equals the character count exactly for text inside the Basic Multilingual Plane, and twice it exactly for text outside it |
| `ArticleModel.WideTitleRefused` | backend/models/Article.js:4-9 | a title of 128 characters outside the Basic Multilingual Plane exceeds `maxlength: 255` and the save fails |
| `ArticleModel.Save` | backend/models/Article.js:69-73 | a save succeeds exactly for a document the validators accept, and then changes only `updatedAt` |
| `Articles.Window` | backend/routes/articles.js:52-53 | skip then limit: the contiguous slice starting at `skip` of `limit` items, or of everything left when fewer remain or the limit is 0 |
| `Articles.Pages` | backend/routes/articles.js:62 | the page count is missing exactly when the limit is zero |
| `Articles.PagesIsCeiling` | backend/routes/articles.js:62 | the page count is the least number of pages of `limit` items holding the total |
| `Articles.FirstPagesArePrefix` | backend/routes/articles.js:46-53 | the first k pages are the first k times limit items |
| `Articles.PagesTile` | backend/routes/articles.js:46-62 | pages 1 to `pages` list every matching article exactly once, in order |
| `Articles.Matching` | backend/routes/articles.js:23-51 | exactly the published articles matching category, tag and search, each as often as it is stored, newest first |
| `Articles.ListArticles` | backend/routes/articles.js:19-70 | 500 for a negative skip; otherwise the requested window of the matches with their total and page count |
| `Articles.GetArticle` | backend/routes/articles.js:75-94 | 404; otherwise the view count goes up by one and only `updatedAt` changes besides |
| `Articles.StatusOrDefault` | backend/routes/articles.js:116 | a missing status is published; any other is checked against the enum |
| `Articles.Drafted` | backend/routes/articles.js:108-118 | a new article has an escaped title and summary, the content as given, and the schema defaults |
| `Articles.Create` | backend/routes/articles.js:99-130 | 400 for a missing title or content, 500 for an invalid status or document; otherwise the article is appended and its title decodes back to the input |
| `Articles.Merged` | backend/routes/articles.js:151-156 | a field is replaced only by a non-empty value; a supplied tag list replaces the tags even when empty |
| `Articles.EmptyUpdateKeepsArticle` | backend/routes/articles.js:151-156 | an update that supplies nothing leaves the article unchanged |
| `Articles.Update` | backend/routes/articles.js:135-169 | 404, 403 unless author, admin or owner; otherwise the merged article is saved in place |
| `Articles.Delete` | backend/routes/articles.js:174-195 | 404, 403 unless author, admin or owner; otherwise exactly that article is removed |
| `Articles.AddComment` | backend/routes/articles.js:200-234 | 404, 400 for empty content; otherwise one escaped comment is appended after the earlier ones and decodes back to the input |

## Left out

- Real-time notifications over Socket.IO, logging calls and the `.select` projections: none affects who may do what.
- `populate` of referenced documents is modelled only where it decides access: the member test of `Groups.GetGroup`. The documents the routes send back are the stored ones, without the referenced accounts filled in or the references to deleted accounts dropped.
- The schema files for User, Group, GroupRequest and Blacklist are not part of this model. Their fields are the ones the routes read and write. A new account's `permissions` are taken to be the empty list.
- Timestamps, generated ids, the hash comparison and the result of the owner-count query are parameters. `Date.now`, ObjectId generation, bcrypt and database failures are outside the model.
- JWT signing and verification: the authenticated caller is given as a user id or as a `Resolver.Claim`.
- The demo administrator login (`admin`/`admin123` when no account matches): it exists to bypass the store.
- The routes `/me`, `/user/:username`, `/users/search`, `/logout`, the article category and tag lists, the log routes, `app.js`, `init_owner.js`, the upload configuration and the frontend: they hold no authorization logic of the core.
- `$regex` with `$options: 'i'` is modelled as a literal, ASCII case-insensitive substring match. Regular-expression metacharacters and Unicode case folding are not modelled.
- File storage, `decodeURIComponent` of file names and `Buffer` conversions. `Messages.UploadMany` stamps every message of one request with the same time.
- Role names that are keys of `Object.prototype` (such as `constructor`): the model treats every name outside the four roles as unknown.
- Mongo's treatment of a negative limit: `limit` is a natural number. A `page` or `limit` given as a non-numeric string is not modelled.
- A message or announcement content of `undefined` is modelled as the empty string, which fails validation the same way.
- Concurrency: each handler runs as one atomic step. The source issues several separate writes (group then request in approve; four deletes in dissolve), which can interleave with other requests.
- Groups.Kick: consistency is promised only when the target is not the owner, because the route lets the owner be evicted (`Groups.EvictingOwner`).
- Blacklist.Ban: ban-excludes-membership is preserved by the ban itself; `Groups.Approve` does not keep it (`Blacklist.BanThenApprove`).
- Groups.Join: at-most-one-pending is preserved by the join route; `Announcements.Respond` does not keep it (`Announcements.JoinThenAcceptInvitation`).
