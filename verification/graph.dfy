/**
 The relationship engine of backend.js: derived relationships computed from the edge
 collections at the moment they are asked for (mutual friendship, request direction,
 like counts, threads). Nothing here is cached.
 */
module Graph {
  import opened Wrappers
  import opened Model

  /** No element occurs twice. */
  predicate NoDup(xs: seq<Id>)
  {
    forall i, j :: 0 <= i < j < |xs| ==> xs[i] != xs[j]
  }

  /** `find({ sender: id })` projected on `receiver`. */
  function Receivers(reqs: set<(Id, Id)>, id: Id): (r: set<Id>)
    ensures forall x :: x in r <==> (id, x) in reqs
  {
    set e | e in reqs && e.0 == id :: e.1
  }

  /** `find({ receiver: id })` projected on `sender`. */
  function Senders(reqs: set<(Id, Id)>, id: Id): (r: set<Id>)
    ensures forall x :: x in r <==> (x, id) in reqs
  {
    set e | e in reqs && e.1 == id :: e.0
  }

  /** Reference definition of mutual friendship: both directed requests exist. */
  function Friends(s: Store, id: Id): set<Id>
  {
    Receivers(s.friendReqs, id) * Senders(s.friendReqs, id)
  }

  /** The result order of a `find(...).toArray()` is not specified: any duplicate-free
      listing of the matching values. */
  method Enumerate(xs: set<Id>) returns (r: seq<Id>)
    ensures NoDup(r)
    ensures forall x :: x in r <==> x in xs
  {
    r := [];
    var rest := xs;
    while rest != {}
      invariant rest <= xs
      invariant NoDup(r)
      invariant forall x :: x in r <==> x in xs && x !in rest
      decreases rest
    {
      var x :| x in rest;
      r := r + [x];
      rest := rest - {x};
    }
  }

  /** `userFriends`: list the receivers of `id`'s requests, mark them in a lookup table,
      then keep those senders of requests to `id` that are marked. */
  method UserFriends(s: Store, id: Id) returns (r: seq<Id>)
    ensures forall x :: x in r <==> (id, x) in s.friendReqs && (x, id) in s.friendReqs
    ensures forall x :: x in r <==> x in Friends(s, id)
    ensures NoDup(r)
  {
    var listA := Enumerate(Receivers(s.friendReqs, id));
    var listB := Enumerate(Senders(s.friendReqs, id));
    var elemsA: set<Id> := {};
    var i := 0;
    while i < |listA|
      invariant 0 <= i <= |listA|
      invariant forall x :: x in elemsA <==> x in listA[..i]
    {
      elemsA := elemsA + {listA[i]};
      i := i + 1;
    }
    assert listA[..i] == listA;
    r := [];
    var j := 0;
    while j < |listB|
      invariant 0 <= j <= |listB|
      invariant NoDup(r)
      invariant forall x :: x in r <==> x in listB[..j] && x in elemsA
    {
      if listB[j] in elemsA {
        assert listB[j] !in listB[..j];
        r := r + [listB[j]];
      }
      assert listB[..j + 1] == listB[..j] + [listB[j]];
      j := j + 1;
    }
    assert listB[..j] == listB;
  }

  /** Mutual friendship is symmetric. */
  lemma FriendsSymmetric(s: Store, x: Id, y: Id)
    ensures x in Friends(s, y) <==> y in Friends(s, x)
  {
  }

  /** `isFriendReqIn` of the user viewed by `login`: did the viewed user send `login` a request?
      An anonymous viewer has none. */
  function IsFriendReqIn(s: Store, login: Option<Id>, viewed: Id): (r: bool)
    ensures r <==> login.Some? && viewed in Senders(s.friendReqs, login.value)
  {
    login.Some? && (viewed, login.value) in s.friendReqs
  }

  /** `isFriendReqOut`: did `login` send the viewed user a request? */
  function IsFriendReqOut(s: Store, login: Option<Id>, viewed: Id): (r: bool)
    ensures r <==> login.Some? && viewed in Receivers(s.friendReqs, login.value)
  {
    login.Some? && (login.value, viewed) in s.friendReqs
  }

  /** The two flags together say exactly that the viewer and the viewed user are friends. */
  lemma FlagsBothWaysIffFriends(s: Store, login: Id, viewed: Id)
    ensures IsFriendReqIn(s, Some(login), viewed) && IsFriendReqOut(s, Some(login), viewed)
            <==> viewed in Friends(s, login)
  {
  }

  /** The flags are independent point lookups: a pending request shows without friendship. */
  lemma PendingRequestIsNotFriendship(s: Store, a: Id, b: Id)
    requires (b, a) in s.friendReqs && (a, b) !in s.friendReqs
    ensures IsFriendReqIn(s, Some(a), b) && !IsFriendReqOut(s, Some(a), b)
    ensures b !in Friends(s, a) && a !in Friends(s, b)
  {
  }

  /** `userPosts`: the ids of the posts whose poster is `id`. */
  function PostsBy(posts: map<Id, Post>, id: Id): (r: set<Id>)
    ensures forall p :: p in r <==> p in posts && posts[p].poster == id
  {
    set p | p in posts && posts[p].poster == id
  }

  /** `userReplies`: the ids of the replies whose poster is `id`. */
  function RepliesBy(replies: map<Id, Reply>, id: Id): (r: set<Id>)
    ensures forall q :: q in r <==> q in replies && replies[q].poster == id
  {
    set q | q in replies && replies[q].poster == id
  }

  /** `postReplies`: the direct replies to post `id`. */
  function RepliesTo(replies: map<Id, Reply>, id: Id): (r: set<Id>)
    ensures forall q :: q in r <==> q in replies && replies[q].replyTo == id
  {
    set q | q in replies && replies[q].replyTo == id
  }

  /** `userPosts`: the listed ids of `find({ poster: id })`, each once, in any order. */
  method UserPosts(s: Store, id: Id) returns (r: seq<Id>)
    ensures NoDup(r)
    ensures forall p :: p in r <==> p in s.posts && s.posts[p].poster == id
  {
    r := Enumerate(PostsBy(s.posts, id));
  }

  /** `userReplies`: the listed ids of the replies the user wrote. */
  method UserReplies(s: Store, id: Id) returns (r: seq<Id>)
    ensures NoDup(r)
    ensures forall q :: q in r <==> q in s.replies && s.replies[q].poster == id
  {
    r := Enumerate(RepliesBy(s.replies, id));
  }

  /** `postReplies`: the listed ids of the replies that answer post `id`. */
  method PostReplies(s: Store, id: Id) returns (r: seq<Id>)
    ensures NoDup(r)
    ensures forall q :: q in r <==> q in s.replies && s.replies[q].replyTo == id
  {
    r := Enumerate(RepliesTo(s.replies, id));
  }

  /** The like edges on content `c`. */
  function LikesOn(likes: set<(Id, Id)>, c: Id): set<(Id, Id)>
  {
    set e | e in likes && e.1 == c
  }

  /** The distinct users who like content `c`. */
  function Likers(likes: set<(Id, Id)>, c: Id): (r: set<Id>)
    ensures forall l :: l in r <==> (l, c) in likes
  {
    set e | e in likes && e.1 == c :: e.0
  }

  /** Each like edge on `c` is determined by its liker, so there are as many edges as likers. */
  lemma {:induction false} EdgesOnMatchLikers(likes: set<(Id, Id)>, c: Id)
    ensures |LikesOn(likes, c)| == |Likers(likes, c)|
    decreases likes
  {
    if likes != {} {
      var e :| e in likes;
      var rest := likes - {e};
      EdgesOnMatchLikers(rest, c);
      if e.1 == c {
        assert LikesOn(likes, c) == LikesOn(rest, c) + {e};
        assert e !in LikesOn(rest, c);
        assert Likers(likes, c) == Likers(rest, c) + {e.0};
        assert e.0 !in Likers(rest, c);
      } else {
        assert LikesOn(likes, c) == LikesOn(rest, c);
        assert Likers(likes, c) == Likers(rest, c);
      }
    } else {
      assert LikesOn(likes, c) == {};
      assert Likers(likes, c) == {};
    }
  }

  /** `getLikes`: `count({ post: c })` on the likes collection, which is the number of
      distinct likers of `c`. */
  function LikeCount(likes: set<(Id, Id)>, c: Id): (r: nat)
    ensures r == |Likers(likes, c)|
  {
    EdgesOnMatchLikers(likes, c);
    |LikesOn(likes, c)|
  }

  /** `getLiked`: is there a like edge from the caller to `c`? Never for an anonymous caller. */
  function Liked(likes: set<(Id, Id)>, login: Option<Id>, c: Id): (r: bool)
    ensures r <==> login.Some? && login.value in Likers(likes, c)
    ensures r ==> LikeCount(likes, c) >= 1
  {
    login.Some? && (login.value, c) in likes
  }
}
