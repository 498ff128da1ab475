/** An optional value, standing for JavaScript's `null`/`undefined` results. */
module Wrappers {

  datatype Option<+T> = None | Some(value: T)
}

/**
 The in-memory store that replaces the MongoDB database `fb-clone`: one map per document
 collection keyed by `_id`, and one set per edge collection whose unique index makes the
 edge its own key.
 */
module Model {

  /** Record identifiers (MongoDB ObjectIds). An ObjectId is twelve bytes; JavaScript's `<`
      on two of them compares their hex strings, which is the order of the number they spell,
      so a natural number keeps both value equality and that order. */
  type Id = nat

  type Bytes = seq<bv8>

  /** A session token: the sixteen random bytes stored in the `tokens` collection. */
  type Token = Bytes

  /** An S3 object reference. */
  datatype Image = Image(bucket: string, region: string, uuid: string, ext: string)

  /** A `users` document. `pwHash` is the salted hash, `salt` the per-account random bytes. */
  datatype User = User(username: string, name: string, pfp: Image, pwHash: Bytes, salt: Bytes)

  /** A `posts` document. */
  datatype Post = Post(timestamp: int, poster: Id, message: string, images: seq<Image>)

  /** A `replies` document; `replyTo` is the id of the post it answers. */
  datatype Reply = Reply(timestamp: int, poster: Id, message: string, replyTo: Id)

  /** A `tokens` document, keyed by its token bytes. */
  datatype Session = Session(user: Id, expires: int)

  /** The database. `friendReqs` holds directed (sender, receiver) edges and `likes` holds
      (liker, content) edges; both collections carry a unique index on the pair. */
  datatype Store = Store(
    users: map<Id, User>,
    posts: map<Id, Post>,
    replies: map<Id, Reply>,
    friendReqs: set<(Id, Id)>,
    likes: set<(Id, Id)>,
    tokens: map<Token, Session>)

  /** The hash and encoding primitives the backend calls (`keccak256`, `Buffer#toString("base64")`).
      They are not modelled: every property below holds for any pair of functions. */
  datatype Crypto = Crypto(keccak: string -> Bytes, base64: Bytes -> string)

  /** The stored password hash: keccak256 of the base64 salt followed by the client's pre-hash. */
  function SaltedHash(c: Crypto, salt: Bytes, pwHashPreSalt: string): Bytes
  {
    c.keccak(c.base64(salt) + pwHashPreSalt)
  }

  /** Session lifetime in milliseconds: one week. */
  const WEEK_MS: int := 1000 * 60 * 60 * 24 * 7

  predicate UsernameTaken(s: Store, username: string)
  {
    exists u :: u in s.users && s.users[u].username == username
  }

  /** The unique index on `users.username`. */
  ghost predicate UniqueUsernames(s: Store)
  {
    forall a, b :: a in s.users && b in s.users && s.users[a].username == s.users[b].username ==> a == b
  }

  /** Referential integrity of threads: every reply answers an existing post. */
  ghost predicate RepliesReferencePosts(s: Store)
  {
    forall r :: r in s.replies ==> s.replies[r].replyTo in s.posts
  }

  /** Every like points at an existing post or reply. */
  ghost predicate LikesReferenceContent(s: Store)
  {
    forall e :: e in s.likes ==> e.1 in s.posts || e.1 in s.replies
  }

  /** Every friend request goes to an existing user and nobody sends one to themselves. */
  ghost predicate RequestsWellFormed(s: Store)
  {
    forall e :: e in s.friendReqs ==> e.1 in s.users && e.0 != e.1
  }

  /** Every session belongs to an existing account: `login` only records a session after
      finding the account, and no handler deletes accounts. */
  ghost predicate SessionsReferenceUsers(s: Store)
  {
    forall t :: t in s.tokens ==> s.tokens[t].user in s.users
  }

  ghost predicate Valid(s: Store)
  {
    && UniqueUsernames(s)
    && RepliesReferencePosts(s)
    && LikesReferenceContent(s)
    && RequestsWellFormed(s)
    && SessionsReferenceUsers(s)
  }

  /** The store the application starts from: every collection empty. */
  const Empty: Store := Store(map[], map[], map[], {}, {}, map[])

  lemma EmptyIsValid()
    ensures Valid(Empty)
  {
  }
}
