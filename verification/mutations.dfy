/**
 The mutation handlers of backend.js as pure transitions. Each takes the store and the
 handler's arguments (plus the values the source draws from the clock, the random number
 generator and the driver's ObjectId generator) and either returns a new store and a value
 or throws. Every throw in these handlers is a rejected insert, which is also the handler's
 only write, so a handler that throws leaves the store as it was.
 */
module Mutations {
  import opened Wrappers
  import opened Model
  import opened Graph

  datatype Outcome<S, V> = Returned(store: S, value: V) | Threw

  /** The store once a handler has finished, normally or not. */
  function StoreAfter<V>(o: Outcome<Store, V>, s: Store): Store
  {
    if o.Returned? then o.store else s
  }

  /** The write half of `setFriendStatus`: insert or delete the directed edge login -> id.
      A second insert of the same edge breaks the unique index and throws. */
  function WriteRequest(s: Store, login: Id, id: Id, val: bool): Outcome<Store, bool>
  {
    if val then
      if (login, id) in s.friendReqs then Threw
      else Returned(s.(friendReqs := s.friendReqs + {(login, id)}), true)
    else
      Returned(s.(friendReqs := s.friendReqs - {(login, id)}), true)
  }

  /** `setFriendStatus` as written. The self check `id === login` compares two distinct
      ObjectId objects (one built from the argument string, one read from the tokens
      collection) by reference, so it never holds and is absent here. */
  function SetFriendStatusAsWritten(s: Store, login: Id, id: Id, val: bool): (r: Outcome<Store, bool>)
    ensures id !in s.users ==> r == Returned(s, false)
    ensures r.Threw? <==> id in s.users && val && (login, id) in s.friendReqs
    ensures r.Returned? ==> (r.value <==> id in s.users)
    ensures r.Returned? ==> r.store.(friendReqs := s.friendReqs) == s
    ensures r.Returned? ==> r.store.friendReqs - {(login, id)} == s.friendReqs - {(login, id)}
    ensures r.Returned? && r.value ==> ((login, id) in r.store.friendReqs <==> val)
  {
    if id !in s.users then Returned(s, false)
    else WriteRequest(s, login, id, val)
  }

  /** A caller can send themselves a friend request, and then counts as their own friend. */
  lemma SelfRequestAsWritten()
    ensures var u := User("a", "a", Image("b", "r", "u", "e"), [], []);
            var s := Model.Empty.(users := map[1 := u]);
            var r := SetFriendStatusAsWritten(s, 1, 1, true);
            && r.Returned? && r.value
            && 1 in Friends(r.store, 1)
            && !RequestsWellFormed(r.store)
  {
    var u := User("a", "a", Image("b", "r", "u", "e"), [], []);
    var s := Model.Empty.(users := map[1 := u]);
    var r := SetFriendStatusAsWritten(s, 1, 1, true);
    assert (1, 1) in r.store.friendReqs;
  }

  /** `setFriendStatus` with the self check comparing identifiers by value. */
  function SetFriendStatus(s: Store, login: Id, id: Id, val: bool): (r: Outcome<Store, bool>)
    ensures id !in s.users || id == login ==> r == Returned(s, false)
    ensures r.Threw? <==> id in s.users && id != login && val && (login, id) in s.friendReqs
    ensures r.Returned? ==> (r.value <==> id in s.users && id != login)
    ensures r.Returned? ==> r.store.(friendReqs := s.friendReqs) == s
    ensures r.Returned? ==> r.store.friendReqs - {(login, id)} == s.friendReqs - {(login, id)}
    ensures r.Returned? && r.value ==> ((login, id) in r.store.friendReqs <==> val)
    ensures r.Returned? && !r.value ==> r.store == s
  {
    if id !in s.users then Returned(s, false)
    else if id == login then Returned(s, false)
    else WriteRequest(s, login, id, val)
  }

  /** Whatever the prior edges, once the target exists and differs from the caller the edge
      login -> id is present afterwards exactly when `val` asked for it (a duplicate insert
      throws, but the edge it tried to add is already there). */
  lemma {:induction false} RequestReflectsDesire(s: Store, login: Id, id: Id, val: bool)
    requires id in s.users && id != login
    ensures (login, id) in StoreAfter(SetFriendStatus(s, login, id, val), s).friendReqs <==> val
    ensures StoreAfter(SetFriendStatus(s, login, id, val), s).users == s.users
  {
  }

  /** A request each way makes two users friends; either withdrawing ends the friendship. */
  lemma {:induction false} MutualFriendship(s: Store, a: Id, b: Id)
    requires a in s.users && b in s.users && a != b
    ensures var s1 := StoreAfter(SetFriendStatus(s, a, b, true), s);
            var s2 := StoreAfter(SetFriendStatus(s1, b, a, true), s1);
            && b in Friends(s2, a) && a in Friends(s2, b)
            && b !in Friends(StoreAfter(SetFriendStatus(s2, a, b, false), s2), a)
            && a !in Friends(StoreAfter(SetFriendStatus(s2, b, a, false), s2), b)
  {
    var s1 := StoreAfter(SetFriendStatus(s, a, b, true), s);
    RequestReflectsDesire(s, a, b, true);
    assert (a, b) in s1.friendReqs;
    var s2 := StoreAfter(SetFriendStatus(s1, b, a, true), s1);
    RequestReflectsDesire(s1, b, a, true);
    assert (b, a) in s2.friendReqs;
    assert (a, b) in s2.friendReqs;
    RequestReflectsDesire(s2, a, b, false);
    RequestReflectsDesire(s2, b, a, false);
  }

  /** The corrected handler keeps every request pointed at an existing user and never
      records a self request. */
  lemma SetFriendStatusPreservesValid(s: Store, login: Id, id: Id, val: bool)
    requires Valid(s)
    ensures Valid(StoreAfter(SetFriendStatus(s, login, id, val), s))
  {
  }

  /** `setLike` on the likes collection: refuse missing content, refuse a like that already
      exists (the unique index throws and the handler catches it), otherwise add or delete
      the one edge (login, id). */
  function SetLikeEdges(likes: set<(Id, Id)>, contentExists: bool, login: Id, id: Id, like: bool)
    : (r: (set<(Id, Id)>, bool))
    ensures r.1 <==> contentExists && !(like && (login, id) in likes)
    ensures !r.1 ==> r.0 == likes
    ensures r.0 - {(login, id)} == likes - {(login, id)}
    ensures contentExists ==> ((login, id) in r.0 <==> like)
  {
    if !contentExists then (likes, false)
    else if like then
      if (login, id) in likes then (likes, false)
      else (likes + {(login, id)}, true)
    else (likes - {(login, id)}, true)
  }

  /** Re-asserting the same like value leaves the likes collection as the first call left it. */
  lemma SetLikeIdempotent(likes: set<(Id, Id)>, contentExists: bool, login: Id, id: Id, like: bool)
    ensures var once := SetLikeEdges(likes, contentExists, login, id, like).0;
            SetLikeEdges(once, contentExists, login, id, like).0 == once
  {
  }

  /** A new like adds one to the content's count, removing an existing like takes one off,
      and every other content's count stays as it was. */
  lemma {:induction false} SetLikeCounts(likes: set<(Id, Id)>, login: Id, id: Id, like: bool, other: Id)
    requires other != id
    ensures var r := SetLikeEdges(likes, true, login, id, like);
            && (like && (login, id) !in likes ==> LikeCount(r.0, id) == LikeCount(likes, id) + 1)
            && (!like && (login, id) in likes ==> LikeCount(r.0, id) + 1 == LikeCount(likes, id))
            && (like == ((login, id) in likes) ==> LikeCount(r.0, id) == LikeCount(likes, id))
            && LikeCount(r.0, other) == LikeCount(likes, other)
  {
    var r := SetLikeEdges(likes, true, login, id, like);
    assert Likers(r.0, other) == Likers(likes, other);
    if like && (login, id) !in likes {
      assert Likers(r.0, id) == Likers(likes, id) + {login};
    } else if !like && (login, id) in likes {
      assert Likers(r.0, id) + {login} == Likers(likes, id);
    } else {
      assert r.0 == likes;
    }
  }

  /** `setLike`: the content may be a post or a reply. */
  function SetLike(s: Store, login: Id, id: Id, like: bool): (r: Outcome<Store, bool>)
    ensures r.Returned?
    ensures id !in s.posts && id !in s.replies ==> r == Returned(s, false)
    ensures r.store.(likes := s.likes) == s
    ensures r.value <==> (id in s.posts || id in s.replies) && !(like && (login, id) in s.likes)
  {
    var (likes, ok) := SetLikeEdges(s.likes, id in s.posts || id in s.replies, login, id, like);
    Returned(s.(likes := likes), ok)
  }

  lemma SetLikePreservesValid(s: Store, login: Id, id: Id, like: bool)
    requires Valid(s)
    ensures Valid(SetLike(s, login, id, like).store)
  {
  }

  /** The object `makePost` hands back: the inserted fields plus zero likes, not liked, no replies. */
  datatype NewPost = NewPost(id: Id, timestamp: int, poster: Id, message: string, images: seq<Image>,
                             likes: nat, liked: bool, replies: seq<Id>)

  /** The insert of `makePost` into a posts collection; the driver-chosen `_id` must be new. */
  function InsertPost(posts: map<Id, Post>, poster: Id, message: string, images: seq<Image>, newId: Id, now: int)
    : (r: Outcome<map<Id, Post>, NewPost>)
    ensures r.Threw? <==> newId in posts
    ensures r.Returned? ==> && r.store.Keys == posts.Keys + {newId}
                            && (forall p :: p in posts ==> r.store[p] == posts[p])
                            && r.store[newId] == Post(now, poster, message, images)
    ensures r.Returned? ==> r.value == NewPost(newId, now, poster, message, images, 0, false, [])
  {
    if newId in posts then Threw
    else Returned(posts[newId := Post(now, poster, message, images)],
                  NewPost(newId, now, poster, message, images, 0, false, []))
  }

  /** `makePost`: one new post by the caller, stamped with the current time. */
  function MakePost(s: Store, login: Id, message: string, images: seq<Image>, newId: Id, now: int)
    : (r: Outcome<Store, NewPost>)
    ensures r.Threw? <==> newId in s.posts
    ensures r.Returned? ==> r.store.(posts := s.posts) == s
    ensures r.Returned? ==> r.store.posts.Keys == s.posts.Keys + {newId}
    ensures r.Returned? ==> forall p :: p in s.posts ==> r.store.posts[p] == s.posts[p]
    ensures r.Returned? ==> r.store.posts[newId] == Post(now, login, message, images)
    ensures r.Returned? ==> PostsBy(r.store.posts, login) == PostsBy(s.posts, login) + {newId}
    ensures r.Returned? ==> forall u :: u != login ==> PostsBy(r.store.posts, u) == PostsBy(s.posts, u)
  {
    match InsertPost(s.posts, login, message, images, newId, now)
    case Threw => Threw
    case Returned(posts, p) => Returned(s.(posts := posts), p)
  }

  /** The zero likes, `liked = false` and empty reply list reported by `makePost` agree with
      the store, given that the new id is not also a reply's id. */
  lemma NewPostIsTruthful(s: Store, login: Id, message: string, images: seq<Image>, newId: Id, now: int)
    requires Valid(s) && newId !in s.replies
    ensures var r := MakePost(s, login, message, images, newId, now);
            r.Returned? ==> && LikeCount(r.store.likes, newId) == r.value.likes
                            && Liked(r.store.likes, Some(login), newId) == r.value.liked
                            && RepliesTo(r.store.replies, newId) == set q | q in r.value.replies
  {
    var r := MakePost(s, login, message, images, newId, now);
    if r.Returned? {
      assert Likers(r.store.likes, newId) == {};
      assert RepliesTo(r.store.replies, newId) == {};
    }
  }

  lemma MakePostPreservesValid(s: Store, login: Id, message: string, images: seq<Image>, newId: Id, now: int)
    requires Valid(s)
    ensures Valid(StoreAfter(MakePost(s, login, message, images, newId, now), s))
  {
  }

  /** The object `makeReply` hands back: the inserted fields plus zero likes and not liked. */
  datatype NewReply = NewReply(id: Id, timestamp: int, poster: Id, message: string, replyTo: Id,
                               likes: nat, liked: bool)

  /** The check-then-insert of `makeReply` on a posts and a replies collection. A missing
      target answers `undefined` without writing. */
  function InsertReply(posts: map<Id, Post>, replies: map<Id, Reply>, poster: Id, replyTo: Id,
                       message: string, newId: Id, now: int)
    : (r: Outcome<map<Id, Reply>, Option<NewReply>>)
    ensures replyTo !in posts ==> r == Returned(replies, None)
    ensures r.Threw? <==> replyTo in posts && newId in replies
    ensures r.Returned? && r.value.Some? ==>
              && replyTo in posts
              && r.store.Keys == replies.Keys + {newId} && newId !in replies
              && (forall q :: q in replies ==> r.store[q] == replies[q])
              && r.store[newId] == Reply(now, poster, message, replyTo)
              && r.value.value == NewReply(newId, now, poster, message, replyTo, 0, false)
    ensures r.Returned? && r.value.None? ==> r.store == replies
  {
    if replyTo !in posts then Returned(replies, None)
    else if newId in replies then Threw
    else Returned(replies[newId := Reply(now, poster, message, replyTo)],
                  Some(NewReply(newId, now, poster, message, replyTo, 0, false)))
  }

  /** `makeReply`: a reply by the caller to an existing post, or `undefined`. */
  function MakeReply(s: Store, login: Id, replyTo: Id, message: string, newId: Id, now: int)
    : (r: Outcome<Store, Option<NewReply>>)
    ensures replyTo !in s.posts ==> r == Returned(s, None)
    ensures r.Threw? <==> replyTo in s.posts && newId in s.replies
    ensures r.Returned? ==> r.store.(replies := s.replies) == s
    ensures r.Returned? ==> forall q :: q in s.replies ==> q in r.store.replies && r.store.replies[q] == s.replies[q]
    ensures r.Returned? ==> forall p :: p != replyTo ==> RepliesTo(r.store.replies, p) == RepliesTo(s.replies, p)
    ensures r.Returned? && r.value.Some? ==>
              && r.store.replies.Keys == s.replies.Keys + {newId}
              && RepliesTo(r.store.replies, replyTo) == RepliesTo(s.replies, replyTo) + {newId}
              && RepliesBy(r.store.replies, login) == RepliesBy(s.replies, login) + {newId}
              && r.store.replies[newId].poster == login
              && r.value.value.likes == 0 && !r.value.value.liked
  {
    match InsertReply(s.posts, s.replies, login, replyTo, message, newId, now)
    case Threw => Threw
    case Returned(replies, q) => Returned(s.(replies := replies), q)
  }

  lemma MakeReplyPreservesValid(s: Store, login: Id, replyTo: Id, message: string, newId: Id, now: int)
    requires Valid(s)
    ensures Valid(StoreAfter(MakeReply(s, login, replyTo, message, newId, now), s))
  {
  }

  /** A post by one user, then a reply to it by another: the post's thread is exactly that
      reply, and the reply points back at the post. */
  lemma {:induction false} ThreadRoundTrip(s: Store, alice: Id, bob: Id, p: Id, q: Id, msg: string,
                                           images: seq<Image>, answer: string, t1: int, t2: int)
    requires Valid(s) && p !in s.posts && q !in s.replies
    ensures var r1 := MakePost(s, alice, msg, images, p, t1);
            && r1.Returned?
            && var r2 := MakeReply(r1.store, bob, p, answer, q, t2);
            && r2.Returned? && r2.value == Some(NewReply(q, t2, bob, answer, p, 0, false))
            && RepliesTo(r2.store.replies, p) == {q}
            && r2.store.replies[q].replyTo == p && r2.store.posts[p].poster == alice
  {
    var r1 := MakePost(s, alice, msg, images, p, t1);
    assert RepliesTo(s.replies, p) == {};
    var r2 := MakeReply(r1.store, bob, p, answer, q, t2);
    assert RepliesTo(r1.store.replies, p) == {};
  }

  /** `makeAcct`: salt and hash the client's pre-hash and insert the account. A taken
      username (unique index) or a taken `_id` makes the insert throw, which the handler
      turns into `null`. The result is the new user's id. */
  function MakeAcct(s: Store, c: Crypto, username: string, name: string, pfp: Image,
                    pwHashPreSalt: string, salt: Bytes, newId: Id)
    : (r: Outcome<Store, Option<Id>>)
    ensures r.Returned?
    ensures r.value.None? <==> UsernameTaken(s, username) || newId in s.users
    ensures r.value.None? ==> r.store == s
    ensures r.value.Some? ==> && r.value.value == newId
                              && r.store.(users := s.users) == s
                              && r.store.users == s.users[newId := User(username, name, pfp, SaltedHash(c, salt, pwHashPreSalt), salt)]
  {
    if UsernameTaken(s, username) || newId in s.users then Returned(s, None)
    else Returned(s.(users := s.users[newId := User(username, name, pfp, SaltedHash(c, salt, pwHashPreSalt), salt)]),
                  Some(newId))
  }

  lemma MakeAcctPreservesValid(s: Store, c: Crypto, username: string, name: string, pfp: Image,
                               pwHashPreSalt: string, salt: Bytes, newId: Id)
    requires Valid(s)
    ensures Valid(MakeAcct(s, c, username, name, pfp, pwHashPreSalt, salt, newId).store)
  {
  }

  /** Creating a second account with a taken username fails and leaves exactly one account
      with that username. */
  lemma {:induction false} UsernameClash(s: Store, c: Crypto, username: string, name1: string, name2: string,
                                         pfp1: Image, pfp2: Image, pw1: string, pw2: string,
                                         salt1: Bytes, salt2: Bytes, id1: Id, id2: Id)
    requires Valid(s) && !UsernameTaken(s, username) && id1 !in s.users
    ensures var r1 := MakeAcct(s, c, username, name1, pfp1, pw1, salt1, id1);
            var r2 := MakeAcct(r1.store, c, username, name2, pfp2, pw2, salt2, id2);
            && r1.value == Some(id1) && r2.value == None && r2.store == r1.store
            && (set u | u in r2.store.users && r2.store.users[u].username == username) == {id1}
  {
    var r1 := MakeAcct(s, c, username, name1, pfp1, pw1, salt1, id1);
    assert r1.store.users[id1].username == username;
  }

  /** `login`: check the pre-hash against the stored salted hash and, on a match, record a
      new session that expires one week from now. */
  function Login(s: Store, c: Crypto, id: Id, pwHashPreSalt: string, tok: Token, now: int)
    : (r: Outcome<Store, Option<Token>>)
    ensures r.Returned?
    ensures r.value.Some? <==> id in s.users && SaltedHash(c, s.users[id].salt, pwHashPreSalt) == s.users[id].pwHash
    ensures r.value.None? ==> r.store == s
    ensures r.value.Some? ==> && r.value.value == tok
                              && r.store.(tokens := s.tokens) == s
                              && r.store.tokens == s.tokens[tok := Session(id, now + 604800000)]
  {
    if id !in s.users then Returned(s, None)
    else
      var u := s.users[id];
      if SaltedHash(c, u.salt, pwHashPreSalt) != u.pwHash then Returned(s, None)
      else Returned(s.(tokens := s.tokens[tok := Session(id, now + WEEK_MS)]), Some(tok))
  }

  lemma LoginPreservesValid(s: Store, c: Crypto, id: Id, pwHashPreSalt: string, tok: Token, now: int)
    requires Valid(s)
    ensures Valid(Login(s, c, id, pwHashPreSalt, tok, now).store)
  {
  }

  /** An account just created accepts its own password: `login` right after `makeAcct`
      issues a token for the new id. */
  lemma {:induction false} SignUpThenLogin(s: Store, c: Crypto, username: string, name: string, pfp: Image,
                                           pw: string, salt: Bytes, newId: Id, tok: Token, now: int)
    ensures var r := MakeAcct(s, c, username, name, pfp, pw, salt, newId);
            r.value.Some? ==> && Login(r.store, c, r.value.value, pw, tok, now).value == Some(tok)
                              && Login(r.store, c, r.value.value, pw, tok, now).store.tokens[tok]
                                 == Session(newId, now + WEEK_MS)
  {
  }
}
