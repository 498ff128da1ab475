/**
 The per-request entity views of backend.js (`user`, `post`, `reply`). Building a view
 reads nothing. The first base field read fetches the whole document and keeps it in the
 view; later reads project the kept document. Derived fields (request flags, like counts,
 threads) are not kept: each read asks the store as it is at that moment.
 */
module Views {
  import opened Wrappers
  import opened Model
  import opened Graph
  import opened Images

  /** The `vals` variable of a view: nothing fetched yet, or the fetched document, which is
      `null` when the collection has no document with the view's id. */
  datatype Memo<T> = Unloaded | Loaded(doc: Option<T>)

  /** A base field read: the projected value, or the TypeError `v[f]` raises on a `null` document. */
  datatype FieldResult<F> = Field(value: F) | TypeError

  /** A read's new memo, its result, and the number of storage reads it issued. */
  datatype Read<T, F> = Read(memo: Memo<T>, result: FieldResult<F>, fetches: nat)

  /** Project a fetched document. */
  function Project<T, F>(doc: Option<T>, f: T -> F): FieldResult<F>
  {
    if doc.Some? then Field(f(doc.value)) else TypeError
  }

  /** `getField(f)`: fetch on first use, otherwise reuse the kept document. `current` is what
      the collection holds for the view's id when the read happens. */
  function GetField<T, F>(m: Memo<T>, current: Option<T>, f: T -> F): (r: Read<T, F>)
    ensures r.memo.Loaded?
    ensures m.Loaded? ==> r.memo == m && r.fetches == 0
    ensures m.Unloaded? ==> r.memo.doc == current && r.fetches == 1
    ensures r.result == Project(r.memo.doc, f)
  {
    match m
    case Loaded(doc) => Read(m, Project(doc, f), 0)
    case Unloaded => Read(Loaded(current), Project(current, f), 1)
  }

  /** One field read on a view: the collection's document at that moment and the field asked for. */
  datatype Access<!T, F> = Access(current: Option<T>, field: T -> F)

  /** A run of base field reads on one view, in order. */
  function ReadAll<T, F>(m: Memo<T>, accesses: seq<Access<T, F>>): (r: (Memo<T>, seq<FieldResult<F>>, nat))
    ensures |r.1| == |accesses|
    decreases |accesses|
  {
    if |accesses| == 0 then (m, [], 0)
    else
      var first := GetField(m, accesses[0].current, accesses[0].field);
      var rest := ReadAll(first.memo, accesses[1..]);
      (rest.0, [first.result] + rest.1, first.fetches + rest.2)
  }

  /** The document a run of reads sees: the kept one, or the one present at the first read. */
  function Snapshot<T, F>(m: Memo<T>, accesses: seq<Access<T, F>>): Option<T>
  {
    if m.Loaded? then m.doc else if |accesses| == 0 then None else accesses[0].current
  }

  /** However many fields are read and however the collection changes meanwhile, a view
      fetches its document at most once, and every read answers from that one document. */
  lemma {:induction false} OneFetchPerView<T, F>(m: Memo<T>, accesses: seq<Access<T, F>>)
    ensures ReadAll(m, accesses).2 == if m.Unloaded? && |accesses| > 0 then 1 else 0
    ensures forall i :: 0 <= i < |accesses| ==>
              ReadAll(m, accesses).1[i] == Project(Snapshot(m, accesses), accesses[i].field)
    decreases |accesses|
  {
    if |accesses| > 0 {
      var first := GetField(m, accesses[0].current, accesses[0].field);
      OneFetchPerView(first.memo, accesses[1..]);
      assert Snapshot(first.memo, accesses[1..]) == Snapshot(m, accesses);
      forall i | 0 <= i < |accesses|
        ensures ReadAll(m, accesses).1[i] == Project(Snapshot(m, accesses), accesses[i].field)
      {
        if i > 0 {
          assert accesses[i] == accesses[1..][i - 1];
        }
      }
    }
  }

  /** A view of one record, on behalf of `login` (`null` for anonymous callers). */
  datatype View<T> = View(login: Option<Id>, id: Id, memo: Memo<T>)

  /** `user(login, id)` and its siblings: a view with nothing fetched. */
  function NewView<T>(login: Option<Id>, id: Id): View<T>
  {
    View(login, id, Unloaded)
  }

  function Lookup<T>(m: map<Id, T>, id: Id): (r: Option<T>)
    ensures r.Some? <==> id in m
    ensures r.Some? ==> r.value == m[id]
  {
    if id in m then Some(m[id]) else None
  }

  /** The value of a base field. Reference fields (`poster`, `replyTo`) are new views for the
      same caller. */
  datatype Value =
    | Text(text: string)
    | Number(n: int)
    | Links(links: seq<string>)
    | UserRef(user: View<User>)
    | PostRef(post: View<Post>)

  datatype UserField = Username | Name | PfpLink
  datatype PostField = PostTimestamp | PostPoster | PostMessage | ImageLinks
  datatype ReplyField = ReplyTimestamp | ReplyPoster | ReplyMessage | ReplyTo

  function UserValue(f: UserField): User -> Value
  {
    match f
    case Username => (u: User) => Text(u.username)
    case Name => (u: User) => Text(u.name)
    case PfpLink => (u: User) => Text(ImageToLink(u.pfp))
  }

  function PostValue(login: Option<Id>, f: PostField): Post -> Value
  {
    match f
    case PostTimestamp => (p: Post) => Number(p.timestamp)
    case PostPoster => (p: Post) => UserRef(NewView(login, p.poster))
    case PostMessage => (p: Post) => Text(p.message)
    case ImageLinks => (p: Post) => Links(seq(|p.images|, k requires 0 <= k < |p.images| => ImageToLink(p.images[k])))
  }

  function ReplyValue(login: Option<Id>, f: ReplyField): Reply -> Value
  {
    match f
    case ReplyTimestamp => (q: Reply) => Number(q.timestamp)
    case ReplyPoster => (q: Reply) => UserRef(NewView(login, q.poster))
    case ReplyMessage => (q: Reply) => Text(q.message)
    case ReplyTo => (q: Reply) => PostRef(NewView(login, q.replyTo))
  }

  /** Read a base field of a user view against the store as it is now. */
  function ReadUser(v: View<User>, s: Store, f: UserField): (r: (View<User>, FieldResult<Value>, nat))
    ensures r.0.login == v.login && r.0.id == v.id
    ensures v.memo.Loaded? ==> r.0 == v && r.2 == 0
    ensures v.memo.Unloaded? ==> r.2 == 1 && r.0.memo.Loaded? && (r.0.memo.doc.Some? <==> v.id in s.users)
    ensures v.memo.Unloaded? && v.id in s.users ==> r.0.memo.doc.value == s.users[v.id]
    ensures r.1.TypeError? <==> r.0.memo.doc.None?
  {
    var g := GetField(v.memo, Lookup(s.users, v.id), UserValue(f));
    (v.(memo := g.memo), g.result, g.fetches)
  }

  /** Read a base field of a post view. */
  function ReadPost(v: View<Post>, s: Store, f: PostField): (r: (View<Post>, FieldResult<Value>, nat))
    ensures r.0.login == v.login && r.0.id == v.id
    ensures v.memo.Loaded? ==> r.0 == v && r.2 == 0
    ensures v.memo.Unloaded? ==> r.2 == 1 && r.0.memo.Loaded? && (r.0.memo.doc.Some? <==> v.id in s.posts)
    ensures v.memo.Unloaded? && v.id in s.posts ==> r.0.memo.doc.value == s.posts[v.id]
    ensures r.1.TypeError? <==> r.0.memo.doc.None?
  {
    var g := GetField(v.memo, Lookup(s.posts, v.id), PostValue(v.login, f));
    (v.(memo := g.memo), g.result, g.fetches)
  }

  /** Read a base field of a reply view. */
  function ReadReply(v: View<Reply>, s: Store, f: ReplyField): (r: (View<Reply>, FieldResult<Value>, nat))
    ensures r.0.login == v.login && r.0.id == v.id
    ensures v.memo.Loaded? ==> r.0 == v && r.2 == 0
    ensures v.memo.Unloaded? ==> r.2 == 1 && r.0.memo.Loaded? && (r.0.memo.doc.Some? <==> v.id in s.replies)
    ensures v.memo.Unloaded? && v.id in s.replies ==> r.0.memo.doc.value == s.replies[v.id]
    ensures r.1.TypeError? <==> r.0.memo.doc.None?
  {
    var g := GetField(v.memo, Lookup(s.replies, v.id), ReplyValue(v.login, f));
    (v.(memo := g.memo), g.result, g.fetches)
  }

  /** A post view's image links are the links of its images, in order. */
  lemma PostImageLinks(v: View<Post>, s: Store)
    requires v.memo.Unloaded? && v.id in s.posts
    ensures var r := ReadPost(v, s, ImageLinks);
            && r.1.Field? && r.1.value.Links?
            && |r.1.value.links| == |s.posts[v.id].images|
            && forall k :: 0 <= k < |s.posts[v.id].images| ==> r.1.value.links[k] == ImageToLink(s.posts[v.id].images[k])
  {
  }

  /** A reply view's `replyTo` resolves to a view of the post it answers, for the same caller,
      and with the thread invariant that post exists. */
  lemma {:induction false} ReplyResolvesToPost(v: View<Reply>, s: Store)
    requires Valid(s) && v.memo.Unloaded? && v.id in s.replies
    ensures var r := ReadReply(v, s, ReplyTo);
            && r.1.Field? && r.1.value.PostRef?
            && r.1.value.post == NewView(v.login, s.replies[v.id].replyTo)
            && r.1.value.post.id in s.posts
            && v.id in RepliesTo(s.replies, r.1.value.post.id)
  {
  }

  /** A view read once keeps answering from its first fetch even after the user record is
      replaced, with no further storage read. */
  lemma {:induction false} UserViewKeepsFirstFetch(v: View<User>, s1: Store, s2: Store, f: UserField, g: UserField)
    requires v.memo.Unloaded?
    ensures var r1 := ReadUser(v, s1, f);
            var r2 := ReadUser(r1.0, s2, g);
            && r1.2 == 1 && r2.2 == 0
            && r2.1 == Project(Lookup(s1.users, v.id), UserValue(g))
  {
  }

  /** `isFriendReqIn`, `isFriendReqOut`, `likes` and `liked` of a view: computed from the
      store at read time, relative to the view's caller, whatever the view has kept. */
  function UserFlags(v: View<User>, s: Store): (r: (bool, bool))
    ensures r.0 <==> v.login.Some? && (v.id, v.login.value) in s.friendReqs
    ensures r.1 <==> v.login.Some? && (v.login.value, v.id) in s.friendReqs
  {
    (IsFriendReqIn(s, v.login, v.id), IsFriendReqOut(s, v.login, v.id))
  }

  function ContentLikes<T>(v: View<T>, s: Store): (r: (nat, bool))
    ensures r.0 == |Likers(s.likes, v.id)|
    ensures r.1 <==> v.login.Some? && (v.login.value, v.id) in s.likes
  {
    (LikeCount(s.likes, v.id), Liked(s.likes, v.login, v.id))
  }
}
