/**
 The earlier drafts of the backend, graphql.js and index.js, which share their data logic
 line for line. There is no session lookup: the `tok` argument is used directly as the
 caller's id. Friendship is one symmetric document per pair in a `friends` collection that
 has no unique index, ordered so that the smaller id comes first.
 */
module Drafts {
  import opened Wrappers
  import opened Model
  import opened Graph
  import opened Mutations

  /** A document of the `friends` collection. `setFriendStatus` writes `{ friendA, friendB }`;
      `userFriends` queries the fields `personA` and `personB`. */
  datatype FriendDoc = FriendPair(friendA: Id, friendB: Id) | PersonPair(personA: Id, personB: Id)

  /** The drafts' database. Only the existence of a user matters to the logic modelled here.
      `friends` is a sequence because the collection can hold equal documents. */
  datatype DraftStore = DraftStore(
    users: set<Id>,
    posts: map<Id, Post>,
    replies: map<Id, Reply>,
    friends: seq<FriendDoc>,
    likes: set<(Id, Id)>)

  /** The document `setFriendStatus` addresses: the two ids, smaller first. */
  function Canon(tok: Id, id: Id): (r: FriendDoc)
    ensures r.FriendPair?
    ensures r.friendA <= r.friendB
    ensures (r.friendA == tok && r.friendB == id) || (r.friendA == id && r.friendB == tok)
  {
    if id < tok then FriendPair(id, tok) else FriendPair(tok, id)
  }

  /** Either member of a pair addresses the same document. */
  lemma CanonSymmetric(a: Id, b: Id)
    ensures Canon(a, b) == Canon(b, a)
  {
  }

  /** `deleteOne`: remove the first document equal to `d`, if there is one. */
  function RemoveFirst(docs: seq<FriendDoc>, d: FriendDoc): (r: seq<FriendDoc>)
    ensures multiset(r) == multiset(docs) - multiset{d}
  {
    if |docs| == 0 then []
    else
      assert docs == [docs[0]] + docs[1..];
      if docs[0] == d then docs[1..]
      else [docs[0]] + RemoveFirst(docs[1..], d)
  }

  /** `setFriendStatus` as written. The self check `id === tok` compares two ObjectId objects
      each built afresh from the request's strings, by reference, so it never holds and is
      absent here. */
  function SetFriendStatusAsWritten(s: DraftStore, tok: Id, id: Id, val: bool): (r: (DraftStore, bool))
    ensures r.1 <==> id in s.users
    ensures !r.1 ==> r.0 == s
    ensures r.0.(friends := s.friends) == s
    ensures r.1 && val ==> multiset(r.0.friends) == multiset(s.friends) + multiset{Canon(tok, id)}
    ensures r.1 && !val ==> multiset(r.0.friends) == multiset(s.friends) - multiset{Canon(tok, id)}
  {
    if id !in s.users then (s, false)
    else
      var q := Canon(tok, id);
      if val then (s.(friends := s.friends + [q]), true)
      else (s.(friends := RemoveFirst(s.friends, q)), true)
  }

  /** A caller can befriend themselves: the call succeeds and stores a pair whose two ids
      are equal. */
  lemma SelfFriendshipAsWritten()
    ensures var s := DraftStore({1}, map[], map[], [], {});
            var r := SetFriendStatusAsWritten(s, 1, 1, true);
            && r.1
            && r.0.friends == [FriendPair(1, 1)]
            && !CanonicalPairs(r.0)
  {
    var s := DraftStore({1}, map[], map[], [], {});
    var r := SetFriendStatusAsWritten(s, 1, 1, true);
    assert r.0.friends[0] == FriendPair(1, 1);
  }

  /** `setFriendStatus`: the target must exist and differ from the caller; then one
      document for the pair is inserted or one is deleted. */
  function SetFriendStatus(s: DraftStore, tok: Id, id: Id, val: bool): (r: (DraftStore, bool))
    ensures r.1 <==> id in s.users && id != tok
    ensures !r.1 ==> r.0 == s
    ensures r.0.(friends := s.friends) == s
    ensures r.1 && val ==> multiset(r.0.friends) == multiset(s.friends) + multiset{Canon(tok, id)}
    ensures r.1 && !val ==> multiset(r.0.friends) == multiset(s.friends) - multiset{Canon(tok, id)}
  {
    if id !in s.users then (s, false)
    else if id == tok then (s, false)
    else
      var q := Canon(tok, id);
      if val then (s.(friends := s.friends + [q]), true)
      else (s.(friends := RemoveFirst(s.friends, q)), true)
  }

  /** Every pair document written by `setFriendStatus` has its smaller id first, strictly. */
  ghost predicate CanonicalPairs(s: DraftStore)
  {
    forall k :: 0 <= k < |s.friends| && s.friends[k].FriendPair? ==> s.friends[k].friendA < s.friends[k].friendB
  }

  lemma {:induction false} SetFriendStatusKeepsPairsCanonical(s: DraftStore, tok: Id, id: Id, val: bool)
    requires CanonicalPairs(s)
    ensures CanonicalPairs(SetFriendStatus(s, tok, id, val).0)
  {
    var r := SetFriendStatus(s, tok, id, val);
    if r.1 && !val {
      forall k | 0 <= k < |r.0.friends| && r.0.friends[k].FriendPair?
        ensures r.0.friends[k].friendA < r.0.friends[k].friendB
      {
        assert r.0.friends[k] in multiset(r.0.friends);
        assert r.0.friends[k] in multiset(s.friends);
        var j :| 0 <= j < |s.friends| && s.friends[j] == r.0.friends[k];
      }
    }
  }

  /** Both members of a pair reach the same document: calls from either side have the
      same effect. */
  lemma {:induction false} SetFriendStatusEitherSide(s: DraftStore, a: Id, b: Id, val: bool)
    requires a in s.users && b in s.users
    ensures SetFriendStatus(s, a, b, val) == SetFriendStatus(s, b, a, val)
  {
    CanonSymmetric(a, b);
  }

  /** Asking twice for a friendship stores the pair twice: there is no unique index. */
  lemma {:induction false} RepeatedRequestDuplicates(s: DraftStore, a: Id, b: Id)
    requires b in s.users && a != b
    ensures var s2 := SetFriendStatus(SetFriendStatus(s, a, b, true).0, a, b, true).0;
            multiset(s2.friends)[Canon(a, b)] == multiset(s.friends)[Canon(a, b)] + 2
  {
  }

  /** How a reader takes a document apart: the (A, B) pair it sees, if the document has the
      fields it asks for. */
  type Fields = FriendDoc -> Option<(Id, Id)>

  /** The fields `userFriends` queries: `personA` and `personB`. */
  function PersonFields(d: FriendDoc): Option<(Id, Id)>
  {
    if d.PersonPair? then Some((d.personA, d.personB)) else None
  }

  /** The fields `setFriendStatus` writes: `friendA` and `friendB`. */
  function FriendFields(d: FriendDoc): Option<(Id, Id)>
  {
    if d.FriendPair? then Some((d.friendA, d.friendB)) else None
  }

  /** One half of `userFriends`, in collection order: with `onA`, `find({ A: id })`
      projected on B; otherwise `find({ B: id })` projected on A. */
  function OneSide(docs: seq<FriendDoc>, id: Id, f: Fields, onA: bool): seq<Id>
  {
    if |docs| == 0 then []
    else
      var rest := OneSide(docs[1..], id, f, onA);
      var p := f(docs[0]);
      if p.None? then rest
      else if onA && p.value.0 == id then [p.value.1] + rest
      else if !onA && p.value.1 == id then [p.value.0] + rest
      else rest
  }

  /** `userFriends` for a given way of reading documents: the B side of documents whose A
      is `id`, then the A side of documents whose B is `id`, with no mutual filter. */
  function FriendsReading(docs: seq<FriendDoc>, id: Id, f: Fields): seq<Id>
  {
    OneSide(docs, id, f, true) + OneSide(docs, id, f, false)
  }

  /** Document pair `p` links `id` to `y` on the given side: with `onA`, its A is `id` and
      its B is `y`; otherwise its B is `id` and its A is `y`. */
  predicate Side(p: Option<(Id, Id)>, id: Id, y: Id, onA: bool)
  {
    p.Some? && (if onA then p.value.0 == id && p.value.1 == y else p.value.1 == id && p.value.0 == y)
  }

  /** `y` is in one half of `userFriends` exactly when some document links `id` to `y` on
      that side. */
  lemma {:induction false} OneSideMembers(docs: seq<FriendDoc>, id: Id, f: Fields, onA: bool, y: Id)
    ensures y in OneSide(docs, id, f, onA) <==> exists k :: 0 <= k < |docs| && Side(f(docs[k]), id, y, onA)
    decreases |docs|
  {
    if |docs| > 0 {
      var t := docs[1..];
      OneSideMembers(t, id, f, onA, y);
      if y in OneSide(docs, id, f, onA) {
        if !Side(f(docs[0]), id, y, onA) {
          assert y in OneSide(t, id, f, onA);
          var k :| 0 <= k < |t| && Side(f(t[k]), id, y, onA);
          assert docs[k + 1] == t[k];
        }
      }
      if exists k :: 0 <= k < |docs| && Side(f(docs[k]), id, y, onA) {
        var k :| 0 <= k < |docs| && Side(f(docs[k]), id, y, onA);
        if k > 0 {
          assert t[k - 1] == docs[k];
        }
      }
    }
  }

  /** `y` is listed by a `userFriends` reader exactly when some document, read that way,
      pairs `id` with `y` in either order. */
  lemma {:induction false} FriendsReadingMembers(docs: seq<FriendDoc>, id: Id, f: Fields)
    ensures forall y :: y in FriendsReading(docs, id, f) <==>
              exists k :: 0 <= k < |docs| && (Side(f(docs[k]), id, y, true) || Side(f(docs[k]), id, y, false))
  {
    forall y
      ensures y in FriendsReading(docs, id, f) <==>
              exists k :: 0 <= k < |docs| && (Side(f(docs[k]), id, y, true) || Side(f(docs[k]), id, y, false))
    {
      OneSideMembers(docs, id, f, true, y);
      OneSideMembers(docs, id, f, false, y);
    }
  }

  lemma {:induction false} OneSideConcat(xs: seq<FriendDoc>, ys: seq<FriendDoc>, id: Id, f: Fields, onA: bool)
    ensures OneSide(xs + ys, id, f, onA) == OneSide(xs, id, f, onA) + OneSide(ys, id, f, onA)
    decreases |xs|
  {
    if |xs| > 0 {
      assert (xs + ys)[1..] == xs[1..] + ys;
      OneSideConcat(xs[1..], ys, id, f, onA);
    } else {
      assert xs + ys == ys;
    }
  }

  /** Deleting one document takes exactly that document's contribution out of a projection. */
  lemma {:induction false} OneSideRemove(docs: seq<FriendDoc>, d: FriendDoc, id: Id, f: Fields, onA: bool)
    requires d in docs
    ensures multiset(OneSide(RemoveFirst(docs, d), id, f, onA)) + multiset(OneSide([d], id, f, onA))
            == multiset(OneSide(docs, id, f, onA))
    decreases |docs|
  {
    var h, t := docs[0], docs[1..];
    assert docs == [h] + t;
    OneSideConcat([h], t, id, f, onA);
    if h != d {
      OneSideRemove(t, d, id, f, onA);
      assert RemoveFirst(docs, d) == [h] + RemoveFirst(t, d);
      OneSideConcat([h], RemoveFirst(t, d), id, f, onA);
    }
  }

  /** `userFriends` as written: it reads the `personA`/`personB` fields. */
  function UserFriendsAsWritten(s: DraftStore, id: Id): (r: seq<Id>)
    ensures forall y :: y in r <==>
              exists k :: 0 <= k < |s.friends| && s.friends[k].PersonPair?
                          && ((s.friends[k].personA == id && s.friends[k].personB == y)
                              || (s.friends[k].personB == id && s.friends[k].personA == y))
  {
    FriendsReadingMembers(s.friends, id, PersonFields);
    FriendsReading(s.friends, id, PersonFields)
  }

  /** Deleting a `{ friendA, friendB }` document leaves what the `personA`/`personB` reader
      sees unchanged. */
  lemma {:induction false} PersonSideIgnoresRemoval(docs: seq<FriendDoc>, d: FriendDoc, id: Id, onA: bool)
    requires d.FriendPair?
    ensures OneSide(RemoveFirst(docs, d), id, PersonFields, onA) == OneSide(docs, id, PersonFields, onA)
    decreases |docs|
  {
    if |docs| > 0 {
      var h, t := docs[0], docs[1..];
      assert docs == [h] + t;
      OneSideConcat([h], t, id, PersonFields, onA);
      if h != d {
        PersonSideIgnoresRemoval(t, d, id, onA);
        assert RemoveFirst(docs, d) == [h] + RemoveFirst(t, d);
        OneSideConcat([h], RemoveFirst(t, d), id, PersonFields, onA);
      } else {
        assert [h][1..] == [];
        assert OneSide([h], id, PersonFields, onA) == OneSide([], id, PersonFields, onA) == [];
      }
    }
  }

  /** Appending a `{ friendA, friendB }` document leaves what the `personA`/`personB` reader
      sees unchanged. */
  lemma {:induction false} PersonSideIgnoresInsert(docs: seq<FriendDoc>, d: FriendDoc, id: Id)
    requires d.FriendPair?
    ensures FriendsReading(docs + [d], id, PersonFields) == FriendsReading(docs, id, PersonFields)
  {
    OneSideConcat(docs, [d], id, PersonFields, true);
    OneSideConcat(docs, [d], id, PersonFields, false);
    assert [d][1..] == [];
    assert OneSide([d], id, PersonFields, true) == OneSide([], id, PersonFields, true) == [];
    assert OneSide([d], id, PersonFields, false) == OneSide([], id, PersonFields, false) == [];
  }

  /** A friendship recorded or withdrawn by `setFriendStatus` never shows in `userFriends`
      as written: the friend lists of every user are the same before and after. */
  lemma {:induction false} FriendshipInvisibleAsWritten(s: DraftStore, a: Id, b: Id, val: bool, x: Id)
    ensures UserFriendsAsWritten(SetFriendStatusAsWritten(s, a, b, val).0, x) == UserFriendsAsWritten(s, x)
    ensures UserFriendsAsWritten(SetFriendStatus(s, a, b, val).0, x) == UserFriendsAsWritten(s, x)
  {
    var q := Canon(a, b);
    if val {
      PersonSideIgnoresInsert(s.friends, q, x);
    } else {
      PersonSideIgnoresRemoval(s.friends, q, x, true);
      PersonSideIgnoresRemoval(s.friends, q, x, false);
    }
  }

  /** There is no mutual filter: one `{ personA, personB }` document is enough to list each
      member as the other's friend. */
  lemma {:induction false} OneDocumentMakesFriends(s: DraftStore, a: Id, b: Id, x: Id)
    requires a != b
    ensures multiset(UserFriendsAsWritten(s.(friends := s.friends + [PersonPair(a, b)]), x))
            == multiset(UserFriendsAsWritten(s, x)) + Contribution(a, b, x)
  {
    var d := PersonPair(a, b);
    OneSideConcat(s.friends, [d], x, PersonFields, true);
    OneSideConcat(s.friends, [d], x, PersonFields, false);
    assert [d][1..] == [];
    assert OneSide([], x, PersonFields, true) == [] && OneSide([], x, PersonFields, false) == [];
    assert [d][0] == d;
    assert PersonFields(d) == Some((a, b));
  }

  /** `userFriends` reading the fields `setFriendStatus` writes. */
  function UserFriends(s: DraftStore, id: Id): (r: seq<Id>)
    ensures forall y :: y in r <==>
              exists k :: 0 <= k < |s.friends| && s.friends[k].FriendPair?
                          && ((s.friends[k].friendA == id && s.friends[k].friendB == y)
                              || (s.friends[k].friendB == id && s.friends[k].friendA == y))
  {
    FriendsReadingMembers(s.friends, id, FriendFields);
    FriendsReading(s.friends, id, FriendFields)
  }

  /** The one pair document's contribution to each member's friend list. */
  lemma {:induction false} PairContribution(a: Id, b: Id, x: Id)
    requires a != b
    ensures multiset(FriendsReading([Canon(a, b)], x, FriendFields)) == Contribution(a, b, x)
  {
    var q := Canon(a, b);
    assert [q][1..] == [];
    assert OneSide([], x, FriendFields, true) == [] && OneSide([], x, FriendFields, false) == [];
    assert [q][0] == q;
    assert FriendFields(q) == Some((q.friendA, q.friendB));
    var top := OneSide([q], x, FriendFields, true);
    var bottom := OneSide([q], x, FriendFields, false);
    assert top == if x == q.friendA then [q.friendB] else [];
    assert bottom == if x == q.friendB then [q.friendA] else [];
  }

  /** The change one pair document makes to a member's friend list. */
  function Contribution(a: Id, b: Id, x: Id): multiset<Id>
  {
    if x == a then multiset{b} else if x == b then multiset{a} else multiset{}
  }

  /** With the fields read as written, one `setFriendStatus(a, b, true)` adds `b` to `a`'s
      friends and `a` to `b`'s, and nobody else's list changes. */
  lemma {:induction false} FriendshipVisibleBothWays(s: DraftStore, a: Id, b: Id, x: Id)
    requires b in s.users && a != b
    ensures multiset(UserFriends(SetFriendStatus(s, a, b, true).0, x))
            == multiset(UserFriends(s, x)) + Contribution(a, b, x)
  {
    var q := Canon(a, b);
    OneSideConcat(s.friends, [q], x, FriendFields, true);
    OneSideConcat(s.friends, [q], x, FriendFields, false);
    PairContribution(a, b, x);
  }

  /** Withdrawing an existing friendship takes exactly those entries out again. */
  lemma {:induction false} UnfriendRemovesBothWays(s: DraftStore, a: Id, b: Id, x: Id)
    requires b in s.users && a != b && Canon(a, b) in s.friends
    ensures multiset(UserFriends(SetFriendStatus(s, a, b, false).0, x)) + Contribution(a, b, x)
            == multiset(UserFriends(s, x))
  {
    var q := Canon(a, b);
    OneSideRemove(s.friends, q, x, FriendFields, true);
    OneSideRemove(s.friends, q, x, FriendFields, false);
    PairContribution(a, b, x);
  }

  /** `setLike`, identical to the backend's, with `tok` as the liker. */
  function SetLike(s: DraftStore, tok: Id, id: Id, like: bool): (r: (DraftStore, bool))
    ensures r.0.(likes := s.likes) == s
    ensures r.1 <==> (id in s.posts || id in s.replies) && !(like && (tok, id) in s.likes)
    ensures !r.1 ==> r.0 == s
    ensures r.0.likes - {(tok, id)} == s.likes - {(tok, id)}
  {
    var (likes, ok) := SetLikeEdges(s.likes, id in s.posts || id in s.replies, tok, id, like);
    (s.(likes := likes), ok)
  }

  /** After any successful call the caller's like on that content is exactly what was asked;
      a second identical call leaves the store as the first left it. */
  lemma {:induction false} DraftLikeToggle(s: DraftStore, tok: Id, id: Id, like: bool)
    requires id in s.posts || id in s.replies
    ensures Liked(SetLike(s, tok, id, like).0.likes, Some(tok), id) == like
    ensures SetLike(SetLike(s, tok, id, like).0, tok, id, like).0 == SetLike(s, tok, id, like).0
  {
    SetLikeIdempotent(s.likes, true, tok, id, like);
  }

  /** `makePost` of the drafts: no images are stored. */
  function MakePost(s: DraftStore, tok: Id, message: string, newId: Id, now: int)
    : (r: Outcome<DraftStore, NewPost>)
    ensures r.Threw? <==> newId in s.posts
    ensures r.Returned? ==> r.store.(posts := s.posts) == s
    ensures r.Returned? ==> r.store.posts.Keys == s.posts.Keys + {newId}
    ensures r.Returned? ==> forall p :: p in s.posts ==> r.store.posts[p] == s.posts[p]
    ensures r.Returned? ==> r.store.posts[newId] == Post(now, tok, message, [])
  {
    match InsertPost(s.posts, tok, message, [], newId, now)
    case Threw => Threw
    case Returned(posts, p) => Returned(s.(posts := posts), p)
  }

  /** One post by the caller is added, and the returned object reports no likes, not liked,
      and no replies. */
  lemma {:induction false} DraftMakePostAddsOne(s: DraftStore, tok: Id, message: string, newId: Id, now: int)
    requires newId !in s.posts
    ensures var r := MakePost(s, tok, message, newId, now);
            && r.Returned?
            && r.store.posts.Keys == s.posts.Keys + {newId}
            && PostsBy(r.store.posts, tok) == PostsBy(s.posts, tok) + {newId}
            && r.value.poster == tok && r.value.likes == 0 && !r.value.liked && r.value.replies == []
  {
  }

  /** `makeReply` of the drafts: the backend's check-then-insert, with `tok` as the poster. */
  function MakeReply(s: DraftStore, tok: Id, replyTo: Id, message: string, newId: Id, now: int)
    : (r: Outcome<DraftStore, Option<NewReply>>)
    ensures replyTo !in s.posts ==> r == Returned(s, None)
    ensures r.Threw? <==> replyTo in s.posts && newId in s.replies
    ensures r.Returned? ==> r.store.(replies := s.replies) == s
    ensures r.Returned? ==> forall q :: q in s.replies ==> q in r.store.replies && r.store.replies[q] == s.replies[q]
    ensures r.Returned? ==> forall p :: p != replyTo ==> RepliesTo(r.store.replies, p) == RepliesTo(s.replies, p)
    ensures r.Returned? && r.value.Some? ==>
              && RepliesTo(r.store.replies, replyTo) == RepliesTo(s.replies, replyTo) + {newId}
              && newId !in s.replies
              && r.store.replies[newId] == Reply(now, tok, message, replyTo)
  {
    match InsertReply(s.posts, s.replies, tok, replyTo, message, newId, now)
    case Threw => Threw
    case Returned(replies, q) => Returned(s.(replies := replies), q)
  }

  /** A reply either answers an existing post and adds exactly one reply, or is refused and
      adds none. */
  lemma {:induction false} DraftReplyCount(s: DraftStore, tok: Id, replyTo: Id, message: string, newId: Id, now: int)
    ensures var r := MakeReply(s, tok, replyTo, message, newId, now);
            r.Returned? ==> |r.store.replies| == |s.replies| + (if r.value.Some? then 1 else 0)
    ensures var r := MakeReply(s, tok, replyTo, message, newId, now);
            r.Returned? && r.value.Some? <==> replyTo in s.posts && newId !in s.replies
  {
    var r := MakeReply(s, tok, replyTo, message, newId, now);
    if r.Returned? && r.value.Some? {
      assert r.store.replies.Keys == s.replies.Keys + {newId};
    }
  }
}
