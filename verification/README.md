# fb-clone backend: relationship graph and mutations

A Dafny model of the data layer of the fb-clone GraphQL backend. The MongoDB database
`fb-clone` becomes an immutable `Store`. It has one map per document collection (`users`,
`posts`, `replies`, `tokens`) and one set per edge collection (`friendReqs`, `likes`). The
unique indexes on the edge collections make each edge its own key, so a set fits them.
Every handler is a pure transition. It returns an `Outcome`: either `Returned(store, value)`
or `Threw`.

Modules:

- `Model`: the records, the store, and the store invariants the unique indexes and the
  handlers' existence checks keep.
- `Graph`: derived relationships computed at read time:
  - mutual friendship (a request in each direction);
  - the two request flags;
  - posts, replies and threads;
  - like counts and the caller's own like.
- `Mutations`: `setFriendStatus`, `setLike`, `makePost`, `makeReply`, `makeAcct` and `login`.
- `Gate`: the pieces that wrap every resolver:
  - `tokToId`, which resolves a session;
  - `checkTokThen`, which fails closed;
  - the resolver table of error values and bypass flags;
  - gated endpoints built from them.
- `Images`: `imageToLink`, and a parser that shows the link identifies the S3 object.
- `Views`: the lazy per-request `user`, `post` and `reply` views. The first base-field read
  fetches the document once and keeps it. Derived fields ask the store every time.
- `Drafts`: the earlier drafts `graphql.js` and `index.js`. They keep friendship as one
  symmetric `friends` document per pair and use the `tok` argument directly as the caller's id.

Identifiers (ObjectIds) are natural numbers. JavaScript's `<` on two ObjectIds compares
their hex strings, which is the numeric order. The values the source draws from outside
become parameters:

- the clock (`now`);
- the random salt and token bytes (`salt`, `tok`);
- the id the driver assigns to an insert (`newId`);
- `keccak256` and base64 encoding (`Crypto`). Every property holds for any such pair of
  functions.

Where the source has a defect (see "Findings"), the model has both the code as written and
the corrected version. The gated endpoints, and the lemmas about them, use the corrected ones.

## Model

| member | source | states |
|---|---|---|
| Model.EmptyIsValid | initDb.js:9-13 | The empty database satisfies every store invariant: unique usernames, replies to existing posts, likes on existing content, no self or dangling friend requests. |
| Graph.Receivers | backend.js:202-203 | x is listed exactly when there is a request from id to x. |
| Graph.Senders | backend.js:204-205 | x is listed exactly when there is a request from x to id. |
| Graph.Enumerate | backend.js:203 | A listed query result holds each matching value once, in unspecified order, and nothing else. |
| Graph.UserFriends | backend.js:200-211 | The friends list holds x exactly when requests exist in both directions between id and x, agrees with the reference `Friends`, and lists nobody twice. |
| Graph.FriendsSymmetric | backend.js:200-211 | x is a friend of y exactly when y is a friend of x. |
| Graph.IsFriendReqIn | backend.js:108 | The flag holds exactly when the viewed user sent the caller a request; it is false for an anonymous caller. |
| Graph.IsFriendReqOut | backend.js:109 | The flag holds exactly when the caller sent the viewed user a request; it is false for an anonymous caller. |
| Graph.FlagsBothWaysIffFriends | backend.js:213-217 | Both flags hold exactly when viewer and viewed are friends. |
| Graph.PendingRequestIsNotFriendship | backend.js:213-217 | A one-way request shows as incoming without making either side a friend. |
| Graph.UserPosts | backend.js:219-224 | The listing holds each post by the user exactly once and nothing else. |
| Graph.UserReplies | backend.js:226-231 | The listing holds each reply by the user exactly once and nothing else. |
| Graph.PostReplies | backend.js:233-238 | The thread listing holds each reply that answers the post exactly once and nothing else. |
| Graph.Likers | backend.js:248 | l likes c exactly when the edge (l, c) exists. |
| Graph.EdgesOnMatchLikers | initDb.js:13 | Because a like edge is determined by its liker, the like edges on c are as many as the distinct likers of c. |
| Graph.LikeCount | backend.js:240-244 | The counted like documents of c equal the number of distinct users who like c. |
| Graph.Liked | backend.js:246-250 | The caller has liked c exactly when they are among c's likers; never when anonymous; then the count is at least one. |
| Mutations.SetFriendStatusAsWritten | backend.js:252-264 | As written, with no self check. A missing target answers `false` with no write. Any existing target, including the caller, answers `true` or throws on a duplicate insert. Only the edge caller→target changes, and after success it is present exactly when `val` asked for it. |
| Mutations.SelfRequestAsWritten | backend.js:257 | A user can request themselves and then counts as their own friend, breaking the no-self-request invariant. |
| Mutations.SetFriendStatus | backend.js:252-264 | `true` exactly when the target exists and is not the caller. A duplicate insert throws. Only the edge caller→target can change, and after success it is present exactly when `val` asked for it. A refusal writes nothing. |
| Mutations.RequestReflectsDesire | backend.js:258-262 | For an existing target other than the caller, whatever the prior edges, after the call (thrown or not) the edge caller→target is present exactly when `val` is true. |
| Mutations.MutualFriendship | backend.js:200-211 | A request each way makes two users friends of each other, and withdrawing either request ends it. |
| Mutations.SetFriendStatusPreservesValid | backend.js:254-257 | The corrected handler keeps the store invariants: no dangling and no self request. |
| Mutations.SetLikeEdges | backend.js:266-281 | Success exactly when the content exists and the like is not a duplicate. Only the edge (caller, content) changes, and with existing content it is present afterwards exactly when `like` asked for it. |
| Mutations.SetLikeIdempotent | backend.js:272-279 | Repeating the same like or unlike changes nothing further. |
| Mutations.SetLikeCounts | backend.js:272-279 | A new like adds one to the content's count, removing an existing like subtracts one, a no-op leaves it, and every other content's count is unchanged. |
| Mutations.SetLike | backend.js:266-281 | Never throws. Missing content answers `false` with no write. Only the likes collection changes, and the answer is `true` exactly when the content exists and the like is not a duplicate. |
| Mutations.SetLikePreservesValid | backend.js:268-270 | A like is only recorded on an existing post or reply. |
| Mutations.InsertPost | backend.js:284-297 | The insert throws exactly when the id is taken. Otherwise it adds exactly that post, stamped with `now`, and returns the post with zero likes, not liked and no replies. |
| Mutations.MakePost | backend.js:283-299 | Throws exactly when the id is taken. Otherwise only the posts change: every existing post is kept as it was, the new post by the caller is added, the caller's post list gains its id and no other user's list changes. |
| Mutations.NewPostIsTruthful | backend.js:295-297 | The returned zero likes, `liked = false` and empty replies agree with what the store then reports for the new post. |
| Mutations.MakePostPreservesValid | backend.js:283-299 | Posting keeps the store invariants. |
| Mutations.InsertReply | backend.js:301-320 | A missing target answers `undefined` with no write. Otherwise exactly one reply is added, pointing at the target, and returned with zero likes and not liked. |
| Mutations.MakeReply | backend.js:301-320 | A missing target answers `undefined` with no write; otherwise it throws exactly when the id is taken. On return only the replies change, every existing reply is kept, and no other post's thread changes. A successful reply joins the target post's thread and the caller's replies. |
| Mutations.MakeReplyPreservesValid | backend.js:303-304 | Every reply in the store answers an existing post. |
| Mutations.ThreadRoundTrip | backend.js:301-320 | After a post and a reply to it, the post's thread is exactly that reply, and the reply points back to the post. |
| Mutations.MakeAcct | backend.js:322-333 | `null` exactly when the username or id is taken, with no write. Otherwise exactly one user is added, holding the salted hash of the pre-hash. |
| Mutations.MakeAcctPreservesValid | initDb.js:9 | Account creation keeps usernames unique. |
| Mutations.UsernameClash | backend.js:326-332 | A second account with a taken username fails, and exactly one account has that name. |
| Mutations.Login | backend.js:335-348 | A token is issued exactly when the account exists and the salted hash matches. Then one session is recorded, expiring a week from now; otherwise nothing is written. |
| Mutations.LoginPreservesValid | backend.js:337-345 | Every session belongs to an existing account, because a session is only recorded after the account was found. |
| Mutations.SignUpThenLogin | backend.js:322-348 | An account just created accepts the password it was created with. |
| Gate.TokToIdAsWritten | backend.js:356-364 | As written: no credential is anonymous, an unknown one is rejected, and any stored one resolves to its session's user, whatever its expiry. |
| Gate.ExpiredTokenAcceptedAsWritten | backend.js:362 | A session one millisecond past its expiry still resolves to its user. |
| Gate.TokToId | backend.js:356-364 | Anonymous exactly when no credential, so a present credential is never read as anonymous. Rejected exactly when the credential is unknown or expired. Otherwise it resolves to the session's user. |
| Gate.CheckTokThen | backend.js:366-383 | With the corrected session lookup `TokToId`: a bypassing handler runs on the raw arguments. Otherwise the credential is resolved once: a rejection answers the error value with no write; the handler runs with the caller (`null` when anonymous), and a throw becomes the error value with no write. |
| Gate.FailClosed | backend.js:370-371 | With the corrected lookup, an unknown or expired credential on a gated operation gives the same answer whatever the handler, writes nothing, and answers `null` or `false`. |
| Gate.TableIsFailClosed | backend.js:385-406 | With the corrected lookup: every operation except `makeAcct`, `login` and `clearTok` is gated. A bad credential answers `false` for the four boolean mutations and `null` for the rest, and writes nothing. |
| Gate.Resolver | backend.js:385-406 | Exactly `makeAcct`, `login` and `clearTok` bypass the lookup. Exactly the four boolean mutations and `clearTok` have the error value `false`; every other entry has `undefined`. |
| Gate.SetFriendStatusEndpoint | backend.js:396 | With the corrected lookup and handler: a bad session answers `false` with no write. A valid one runs `setFriendStatus` as the session's user; a throw answers `false` with no write. |
| Gate.SetLikeEndpoint | backend.js:397 | With the corrected lookup: a bad session answers `false` with no write. A valid one answers `setLike`'s result as the session's user. |
| Gate.MakeReplyEndpoint | backend.js:399 | With the corrected lookup: a bad session answers `null` with no write. A valid one runs `makeReply` as the session's user; a throw answers `null` with no write. |
| Gate.MyUserEndpoint | backend.js:387 | With the corrected lookup: never writes. Answers `null` exactly when the session is unknown or expired, and otherwise the session's account. |
| Gate.LoginEndpoint | backend.js:403 | Bypassing the lookup: a token exactly when the account exists and the salted hash matches, and then one week-long session is recorded. Otherwise `null` and no write. |
| Gate.MakeAcctEndpoint | backend.js:402 | Bypassing the lookup: `null` with no write exactly when the username or id is taken. Otherwise the new id, with that one account added. |
| Gate.SetFriendStatusThroughGate | backend.js:396 | Through the corrected gate, with the corrected handler: answers `true` exactly when the session is valid, the target exists, is not the caller and is not a duplicate request. Otherwise nothing changes; on success only the caller's one edge changes. |
| Gate.SetLikeThroughGate | backend.js:397 | Through the gate: a bad session answers `false` with no write. Only the session user's like on that content can change. |
| Gate.ReplyToMissingPostThroughGate | backend.js:399 | A reply to a missing post is never stored, whoever asks. |
| Gate.LoginThenMyUser | backend.js:403 | With the corrected lookup, a token from `login` makes `myUser` the logged-in account for one week and `null` afterwards. A failed login writes nothing. |
| Gate.CheckTokThenAsWritten | backend.js:356-383 | The gate as written: an unknown credential answers the error value with no write; any stored credential, expired or not, runs the handler as its account; no exception escapes a gated call. |
| Gate.ExpiredSessionPassesGateAsWritten | backend.js:362 | A session past its expiry still answers `myUser` with its account through the gate as written, where the corrected gate answers `null`. |
| Gate.SignUpThenLoginThroughGate | backend.js:402-403 | Through the gate, a new account can log in with its password. |
| Images.ImageToLink | backend.js:91-93 | The link starts with `https://`, ends with `.` and the extension, and has the combined length of its parts. |
| Images.LinkRoundTrip | backend.js:91-93 | Parsing the link of an image whose uuid and extension hold no separators gives back its bucket, uuid and extension. |
| Images.LinkIdentifiesObject | backend.js:91-93 | Two such images share a link exactly when they name the same bucket, uuid and extension. |
| Views.GetField | backend.js:97-102 | The first read fetches the document present now; later reads fetch nothing and answer from the kept document. A missing document raises a TypeError. |
| Views.OneFetchPerView | backend.js:95-102 | However many fields are read, and whatever changes meanwhile, a view fetches at most once and every read answers from that one document. |
| Views.PostImageLinks | backend.js:144 | A post's `imageLinks` are the links of its images, in order. |
| Views.ReplyResolvesToPost | backend.js:181 | A reply's `replyTo` is a view of its post for the same caller; the post exists and has that reply in its thread. |
| Views.ReadUser | backend.js:94-107 | Keeps the view's caller and id. A view that has fetched issues no read and stays as it is. A fresh view fetches once and keeps the user document present now, or null when there is none. The read raises a TypeError exactly when the kept document is null. |
| Views.ReadPost | backend.js:131-149 | Keeps the view's caller and id. A view that has fetched issues no read and stays as it is. A fresh view fetches once and keeps the post document present now, or null when there is none. The read raises a TypeError exactly when the kept document is null. |
| Views.ReadReply | backend.js:166-183 | Keeps the view's caller and id. A view that has fetched issues no read and stays as it is. A fresh view fetches once and keeps the reply document present now, or null when there is none. The read raises a TypeError exactly when the kept document is null. |
| Views.UserViewKeepsFirstFetch | backend.js:95-107 | A user view read once answers later reads from its first fetch, with no further read, even after the store changes. |
| Views.UserFlags | backend.js:108-109 | A view's request flags are read from the store at read time, relative to the view's caller. |
| Views.ContentLikes | backend.js:145-146 | A view's like count and `liked` are read from the store at read time. |
| Drafts.Canon | graphql.js:222 | The pair document holds the two ids, smaller first. |
| Drafts.CanonSymmetric | index.js:152 | Both members of a pair address the same document. |
| Drafts.RemoveFirst | graphql.js:226 | `deleteOne` removes exactly one occurrence of the document, if any. |
| Drafts.SetFriendStatusAsWritten | graphql.js:216-228 | As written, with no effective self check: `true` exactly when the target exists, and then one pair document for caller and target is inserted or removed. |
| Drafts.SelfFriendshipAsWritten | graphql.js:221 | A caller befriending themselves succeeds and stores a pair with equal ids, breaking the smaller-first order. |
| Drafts.SetFriendStatus | graphql.js:216-228 | Corrected self check: `true` exactly when the target exists and differs from the caller. Only the friends collection changes, by one inserted or one removed pair document. |
| Drafts.SetFriendStatusKeepsPairsCanonical | index.js:147-158 | With the corrected self check, every pair document keeps its strictly smaller id first. |
| Drafts.SetFriendStatusEitherSide | graphql.js:221-222 | A call by either member of a pair has the same effect. |
| Drafts.RepeatedRequestDuplicates | graphql.js:223-224 | With no unique index, asking twice stores the pair twice. |
| Drafts.UserFriendsAsWritten | graphql.js:172-181 | As written: y is listed exactly when some `friends` document has `personA`/`personB` equal to id and y, in either order. |
| Drafts.UserFriends | graphql.js:222 | Reading the written fields: y is listed exactly when some `friends` document has `friendA`/`friendB` equal to id and y, in either order. |
| Drafts.FriendshipInvisibleAsWritten | graphql.js:172-181 | As written: any `setFriendStatus` call, befriending or unfriending, through the as-written or the corrected handler, leaves every user's friends list unchanged. |
| Drafts.OneDocumentMakesFriends | index.js:109-117 | As written: one `personA`/`personB` document lists each member as the other's friend, with no mutual check. |
| Drafts.FriendshipVisibleBothWays | graphql.js:222 | Reading the written fields: befriending adds each member to the other's list once, and nobody else's list changes. |
| Drafts.UnfriendRemovesBothWays | index.js:155-156 | Reading the written fields: unfriending removes one occurrence of each member from the other's list. |
| Drafts.SetLike | graphql.js:230-245 | Same contract as the backend's `setLike`, with `tok` as the liker. |
| Drafts.DraftLikeToggle | index.js:160-174 | On existing content the caller's like afterwards is what was asked, and repeating changes nothing. |
| Drafts.MakePost | graphql.js:247-262 | Throws exactly when the id is taken. On success only the posts change: every existing post is kept unchanged, exactly the new id is added, and it holds the caller's image-less post. |
| Drafts.DraftMakePostAddsOne | index.js:176-190 | One post by the caller is added and returned with zero likes, not liked and no replies. |
| Drafts.MakeReply | graphql.js:264-283 | A missing target answers `undefined` with no write. Throws exactly when the target exists and the new id is taken. On success only the replies change: every existing reply is kept unchanged, the threads of other posts are unchanged, and the post's thread gains one reply by the caller. |
| Drafts.DraftReplyCount | index.js:192-210 | A reply succeeds exactly when the post exists and the id is new, and then adds exactly one reply. |

## Left out

- Transport: the GraphQL schema text, Apollo and express-graphql wiring, and the MongoDB
  connection. They are plumbing around the modelled handlers.
- Async execution: the single-flight promise sharing and request interleavings. Each
  handler is modelled as one atomic step.
- `clearTok` (backend.js:350-354): it does not await `deleteOne` and reads `deletedCount`
  from the pending promise, so it deletes at most in the background and always answers
  `false`. Only its table entry (`false`, bypass) is modelled.
- `lookupUser`, `lookupPost`, `lookupReply` (backend.js:116-198): the eager variants of the
  views. A lookup by id is a map lookup (`Views.Lookup`). A lookup by username returns the one
  account with that name, which `UniqueUsernames` guarantees. Building the record field by
  field is object plumbing.
- `feed`, `setAcctPrivacy`, `setAcctPassword`: stubs that return a constant. Only their
  table entries are modelled.
- ObjectId parsing: `new ObjectId(id)` throws on a malformed string. Ids are taken as
  already parsed, so the exception escaping a bypassing resolver is not modelled.
- Base64 and Buffer conversions of the token and the password hash are taken as exact
  inverses: `login` returns the token's bytes, and the gate is given them back.
- `Mutations.Login`: the `tokens` collection has no unique index, so a repeated random token
  would add a second document. The model's map replaces the first session instead.
- `Gate.SetFriendStatusEndpoint` and the other gated mutation endpoints give the handler
  `Threw` when the caller is anonymous. The schema declares `tok` non-null for every
  mutation, so that branch cannot be reached.
- `Views.ReadUser`, `Views.ReadPost`, `Views.ReadReply` state which document a read keeps, not
  the projected value of each field. The projection is stated by `Views.GetField`.
- The `console.log(err)` in the gate's catch (backend.js:378) only writes to the console and
  is not modelled.
- The drafts' views (graphql.js, index.js) have these faults, none of which is modelled:
  - `isFriendReqIn` and `isFriendReqOut` are the constant `false`;
  - `pfpLink` reads a stored field;
  - index.js has several view defects.
- Draft users are a set of ids. The draft handlers only test whether a user exists.
- `makePost` in the drafts stores no `images` field; the model gives the draft post an empty
  image list.
- The returned post of `makePost` carries its raw images and no `imageLinks`, as in the source.
- `makeAcct` returns a view of the new user; the model returns the new user's id.
- The gated endpoints (`Gate.SetFriendStatusEndpoint`, `Gate.SetLikeEndpoint`,
  `Gate.MakeReplyEndpoint`, `Gate.MyUserEndpoint`) are built on the corrected session lookup
  and the corrected `setFriendStatus`. The gate as written appears only as
  `Gate.CheckTokThenAsWritten`.

## Findings

| source | as written | input that shows it | evidently intended | confidence | as-written member | corrected member |
|---|---|---|---|---|---|---|
| backend.js:362 | The expiry test reads `result.expiration`, but `login` writes the field `expires` (backend.js:345). `undefined < Date.now()` is false, so sessions never expire. | A session stored with `expires = 100`, resolved at time 101, still resolves to its user. | Reject a session when `expires < now`. | not executed; the field names differ in the text | Gate.TokToIdAsWritten, Gate.CheckTokThenAsWritten, lemmas Gate.ExpiredTokenAcceptedAsWritten and Gate.ExpiredSessionPassesGateAsWritten | Gate.TokToId, Gate.CheckTokThen, lemmas Gate.FailClosed, Gate.TableIsFailClosed, Gate.SetFriendStatusThroughGate and Gate.LoginThenMyUser |
| backend.js:257 | The self check `id === login` compares two distinct ObjectId objects by reference: one built from the argument, one read from the tokens collection. It never holds. graphql.js:221 and index.js:151 repeat it. | User 1 calls `setFriendStatus(id = 1, val = true)`. The edge (1, 1) is stored, and user 1 becomes their own friend. In the drafts the same call stores the pair document (1, 1). | Compare ids by value and refuse a self request. | not executed; relies on `===` being reference equality on objects | Mutations.SetFriendStatusAsWritten, Drafts.SetFriendStatusAsWritten, lemmas Mutations.SelfRequestAsWritten and Drafts.SelfFriendshipAsWritten | Mutations.SetFriendStatus, Drafts.SetFriendStatus, lemmas Mutations.SetFriendStatusPreservesValid and Drafts.SetFriendStatusKeepsPairsCanonical |
| graphql.js:175-179 | `userFriends` queries the fields `personA` and `personB`, but `setFriendStatus` (graphql.js:222) writes `friendA` and `friendB`. index.js:111-115 and index.js:152 repeat the mismatch. | Users 1 and 2 exist. After `setFriendStatus(tok = 1, id = 2, val = true)`, `userFriends(1)` is still empty. | Read the fields `setFriendStatus` writes. | not executed; the field names differ in the text | Drafts.UserFriendsAsWritten, lemma Drafts.FriendshipInvisibleAsWritten | Drafts.UserFriends, lemma Drafts.FriendshipVisibleBothWays |
