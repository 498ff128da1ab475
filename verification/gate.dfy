/**
 Identity resolution and the request gate of backend.js: `tokToId`, `checkTokThen`, the
 per-operation `(errCond, override)` table, and the gated endpoints built from them.
 */
module Gate {
  import opened Wrappers
  import opened Model
  import opened Mutations

  /** What a credential resolves to: a user, an anonymous caller (no credential), or a
      rejection (`tokToId` answering `id`, `false` and `null` respectively). */
  datatype Identity = Resolved(user: Id) | Anonymous | Rejected

  /** `tokToId` as written: it reads `result.expiration`, a field `login` never writes
      (it writes `expires`), and `undefined < Date.now()` is false, so an expired session
      is still accepted. */
  function TokToIdAsWritten(tokens: map<Token, Session>, tok: Option<Token>, now: int): (r: Identity)
    ensures tok.None? <==> r == Anonymous
    ensures r == Rejected <==> tok.Some? && tok.value !in tokens
    ensures r.Resolved? ==> tok.Some? && tok.value in tokens && r.user == tokens[tok.value].user
  {
    if tok.None? then Anonymous
    else if tok.value !in tokens then Rejected
    else Resolved(tokens[tok.value].user)
  }

  /** A session one millisecond past its expiry still resolves to its user. */
  lemma ExpiredTokenAcceptedAsWritten()
    ensures TokToIdAsWritten(map[[7 as bv8] := Session(3, 100)], Some([7 as bv8]), 101) == Resolved(3)
  {
  }

  /** `tokToId` with the expiry check reading the field `login` writes: a missing credential
      is anonymous, an unknown or expired one is rejected, any other resolves to its user. */
  function TokToId(tokens: map<Token, Session>, tok: Option<Token>, now: int): (r: Identity)
    ensures tok.None? <==> r == Anonymous
    ensures r == Rejected <==> tok.Some? && (tok.value !in tokens || tokens[tok.value].expires < now)
    ensures r.Resolved? ==> tok.Some? && tok.value in tokens && r.user == tokens[tok.value].user
  {
    if tok.None? then Anonymous
    else if tok.value !in tokens || tokens[tok.value].expires < now then Rejected
    else Resolved(tokens[tok.value].user)
  }

  /** A credential that is present is never read as anonymous. */
  lemma PresentTokenNeverAnonymous(tokens: map<Token, Session>, tok: Token, now: int)
    ensures TokToId(tokens, Some(tok), now) != Anonymous
  {
  }

  /** The raw error value of a resolver table entry: `undefined` or `false`. */
  datatype ErrCond = UndefinedCond | FalseCond

  /** One resolver table entry: its error value and whether it bypasses the token lookup. */
  datatype GateConfig = GateConfig(errCond: ErrCond, override: bool)

  /** What the gated resolver answers: the handler's value, `null`, `false`, or an
      exception that escapes to the transport (possible only on the bypass path). */
  datatype Answer<V> = Value(v: V) | Null | False | Raised

  /** The value a refused request answers: `errCond`, with `undefined` defaulting to `null`. */
  function ErrAnswer<V>(e: ErrCond): (r: Answer<V>)
    ensures e == UndefinedCond <==> r.Null?
    ensures e == FalseCond <==> r.False?
  {
    match e
    case UndefinedCond => Null
    case FalseCond => False
  }

  /** Everything the gate can return when it refuses a request: `null` or `false`. */
  predicate IsDefault<V>(a: Answer<V>)
  {
    a.Null? || a.False?
  }

  /** A handler: the store and the caller (`null` for anonymous) to an outcome. */
  type Handler<V> = (Store, Option<Id>) -> Outcome<Store, V>

  /** `checkTokThen`: with `override` run the handler on the raw arguments; otherwise
      resolve the credential once, refuse a rejected one with the error value, run the
      handler with the caller (`null` when anonymous), and turn a throw into the error value. */
  function CheckTokThen<V>(s: Store, now: int, cfg: GateConfig, tok: Option<Token>, handler: Handler<V>)
    : (r: (Store, Answer<V>))
    ensures !cfg.override ==> !r.1.Raised?
    ensures !cfg.override && TokToId(s.tokens, tok, now) == Rejected ==> r == (s, ErrAnswer(cfg.errCond))
    ensures !cfg.override && TokToId(s.tokens, tok, now) != Rejected ==>
              var login := if tok.None? then None else Some(TokToId(s.tokens, tok, now).user);
              match handler(s, login)
              case Threw => r == (s, ErrAnswer(cfg.errCond))
              case Returned(s', v) => r == (s', Value(v))
    ensures cfg.override ==> match handler(s, None)
                             case Threw => r == (s, Raised)
                             case Returned(s', v) => r == (s', Value(v))
  {
    Gated(s, cfg, TokToId(s.tokens, tok, now), handler)
  }

  /** The body of `checkTokThen` once the credential has been resolved to `who`. */
  function Gated<V>(s: Store, cfg: GateConfig, who: Identity, handler: Handler<V>): (Store, Answer<V>)
  {
    if cfg.override then
      match handler(s, None)
      case Threw => (s, Raised)
      case Returned(s', v) => (s', Value(v))
    else
      match who
      case Rejected => (s, ErrAnswer(cfg.errCond))
      case Anonymous => Guard(s, cfg.errCond, handler(s, None))
      case Resolved(u) => Guard(s, cfg.errCond, handler(s, Some(u)))
  }

  /** `checkTokThen` as written, resolving the credential with `tokToId` as written. Only the
      lookup differs; a session past its expiry is accepted like a live one. */
  function CheckTokThenAsWritten<V>(s: Store, now: int, cfg: GateConfig, tok: Option<Token>, handler: Handler<V>)
    : (r: (Store, Answer<V>))
    ensures !cfg.override ==> !r.1.Raised?
    ensures !cfg.override && tok.Some? && tok.value !in s.tokens ==> r == (s, ErrAnswer(cfg.errCond))
    ensures !cfg.override && tok.Some? && tok.value in s.tokens ==>
              match handler(s, Some(s.tokens[tok.value].user))
              case Threw => r == (s, ErrAnswer(cfg.errCond))
              case Returned(s', v) => r == (s', Value(v))
    ensures cfg.override || tok.None? ==> match handler(s, None)
                                          case Threw => r == (s, if cfg.override then Raised else ErrAnswer(cfg.errCond))
                                          case Returned(s', v) => r == (s', Value(v))
  {
    Gated(s, cfg, TokToIdAsWritten(s.tokens, tok, now), handler)
  }

  /** Through the gate as written, `myUser` on a session a week and a millisecond old still
      answers that session's account. */
  lemma {:induction false} ExpiredSessionPassesGateAsWritten(s: Store, tok: Token, u: Id, now: int)
    requires s.tokens == map[tok := Session(u, now - 1)]
    ensures CheckTokThenAsWritten(s, now, Resolver(MyUser), Some(tok),
                                  (st: Store, login: Option<Id>) => Returned(st, login))
            == (s, Value(Some(u)))
    ensures MyUserEndpoint(s, now, tok) == (s, Null)
  {
  }

  /** The `try`/`catch` around the handler call. */
  function Guard<V>(s: Store, e: ErrCond, o: Outcome<Store, V>): (Store, Answer<V>)
  {
    match o
    case Threw => (s, ErrAnswer(e))
    case Returned(s', v) => (s', Value(v))
  }

  /** Fail closed: for a gated operation, an unknown or expired credential answers the
      error value without running the handler, whatever the handler would have done. */
  lemma FailClosed<V>(s: Store, now: int, cfg: GateConfig, tok: Token, h1: Handler<V>, h2: Handler<V>)
    requires !cfg.override
    requires tok !in s.tokens || s.tokens[tok].expires < now
    ensures CheckTokThen(s, now, cfg, Some(tok), h1) == CheckTokThen(s, now, cfg, Some(tok), h2)
    ensures CheckTokThen(s, now, cfg, Some(tok), h1).0 == s
    ensures IsDefault(CheckTokThen(s, now, cfg, Some(tok), h1).1)
  {
  }

  /** The operations of the resolver table. */
  datatype Op =
    | MyUser | LookupUserId | LookupUsername | LookupPostId | LookupReplyId | Feed
    | SetFriendStatusOp | SetLikeOp | MakePostOp | MakeReplyOp | SetAcctPrivacy | SetAcctPassword
    | MakeAcctOp | LoginOp | ClearTok

  /** The resolver table: every query and `makePost`/`makeReply` default to `null`, the
      boolean mutations to `false`; only account creation, login and logout bypass the lookup. */
  function Resolver(op: Op): (r: GateConfig)
    ensures r.override <==> op in {MakeAcctOp, LoginOp, ClearTok}
    ensures r.errCond == FalseCond <==> op in {SetFriendStatusOp, SetLikeOp, SetAcctPrivacy, SetAcctPassword, ClearTok}
  {
    match op
    case MyUser | LookupUserId | LookupUsername | LookupPostId | LookupReplyId | Feed =>
      GateConfig(UndefinedCond, false)
    case SetFriendStatusOp | SetLikeOp | SetAcctPrivacy | SetAcctPassword =>
      GateConfig(FalseCond, false)
    case MakePostOp | MakeReplyOp => GateConfig(UndefinedCond, false)
    case MakeAcctOp | LoginOp => GateConfig(UndefinedCond, true)
    case ClearTok => GateConfig(FalseCond, true)
  }

  /** Every operation but the three public ones is gated; a gated operation refused for a
      bad credential answers `false` when its schema type is a non-null boolean and `null`
      otherwise. */
  lemma {:induction false} TableIsFailClosed<V>(op: Op, s: Store, now: int, tok: Option<Token>, h: Handler<V>)
    requires op !in {MakeAcctOp, LoginOp, ClearTok}
    requires TokToId(s.tokens, tok, now) == Rejected
    ensures CheckTokThen(s, now, Resolver(op), tok, h).0 == s
    ensures CheckTokThen(s, now, Resolver(op), tok, h).1
            == if op in {SetFriendStatusOp, SetLikeOp, SetAcctPrivacy, SetAcctPassword} then False else Null
  {
    match op
    case MyUser | LookupUserId | LookupUsername | LookupPostId | LookupReplyId | Feed =>
    case SetFriendStatusOp | SetLikeOp | SetAcctPrivacy | SetAcctPassword =>
    case MakePostOp | MakeReplyOp =>
  }

  /** The gated `setFriendStatus` mutation. The schema declares `tok` non-null for every
      mutation, so the handler never sees an anonymous caller (`PresentTokenNeverAnonymous`);
      the `Threw` in that branch is never reached. */
  function SetFriendStatusEndpoint(s: Store, now: int, tok: Token, id: Id, val: bool): (r: (Store, Answer<bool>))
    ensures TokToId(s.tokens, Some(tok), now) == Rejected ==> r == (s, False)
    ensures TokToId(s.tokens, Some(tok), now).Resolved? ==>
              match SetFriendStatus(s, TokToId(s.tokens, Some(tok), now).user, id, val)
              case Threw => r == (s, False)
              case Returned(s', v) => r == (s', Value(v))
  {
    CheckTokThen(s, now, Resolver(SetFriendStatusOp), Some(tok),
                 (st: Store, login: Option<Id>) =>
                   if login.Some? then SetFriendStatus(st, login.value, id, val) else Threw)
  }

  /** Through the gate `setFriendStatus` answers a boolean and never leaves more than the one
      edge changed: success writes the caller's edge, a duplicate insert comes back `false`
      with nothing written, and a bad session is refused with `false`. */
  lemma {:induction false} SetFriendStatusThroughGate(s: Store, now: int, tok: Token, id: Id, val: bool)
    ensures var (s', a) := SetFriendStatusEndpoint(s, now, tok, id, val);
            && (a.Value? || a.False?)
            && (a == Value(true) <==> TokToId(s.tokens, Some(tok), now).Resolved?
                                      && id in s.users && id != TokToId(s.tokens, Some(tok), now).user
                                      && !(val && (TokToId(s.tokens, Some(tok), now).user, id) in s.friendReqs))
            && (a != Value(true) ==> s' == s)
            && (a == Value(true) ==> var login := TokToId(s.tokens, Some(tok), now).user;
                                     && s'.(friendReqs := s.friendReqs) == s
                                     && s'.friendReqs == if val then s.friendReqs + {(login, id)}
                                                         else s.friendReqs - {(login, id)})
  {
    PresentTokenNeverAnonymous(s.tokens, tok, now);
  }

  /** The gated `setLike` mutation. */
  function SetLikeEndpoint(s: Store, now: int, tok: Token, id: Id, like: bool): (r: (Store, Answer<bool>))
    ensures TokToId(s.tokens, Some(tok), now) == Rejected ==> r == (s, False)
    ensures TokToId(s.tokens, Some(tok), now).Resolved? ==>
              var o := SetLike(s, TokToId(s.tokens, Some(tok), now).user, id, like);
              r == (o.store, Value(o.value))
  {
    CheckTokThen(s, now, Resolver(SetLikeOp), Some(tok),
                 (st: Store, login: Option<Id>) =>
                   if login.Some? then SetLike(st, login.value, id, like) else Threw)
  }

  /** Through the gate a like is recorded for the session's user only, and a refused or
      declined request writes nothing. */
  lemma {:induction false} SetLikeThroughGate(s: Store, now: int, tok: Token, id: Id, like: bool)
    ensures var (s', a) := SetLikeEndpoint(s, now, tok, id, like);
            && (a.Value? || a.False?)
            && (TokToId(s.tokens, Some(tok), now) == Rejected ==> a == False && s' == s)
            && (a != Value(true) ==> s'.likes == s.likes)
            && s'.(likes := s.likes) == s
            && (TokToId(s.tokens, Some(tok), now).Resolved? ==>
                  s'.likes - {(TokToId(s.tokens, Some(tok), now).user, id)}
                  == s.likes - {(TokToId(s.tokens, Some(tok), now).user, id)})
  {
    PresentTokenNeverAnonymous(s.tokens, tok, now);
  }

  /** The gated `makeReply` mutation. */
  function MakeReplyEndpoint(s: Store, now: int, tok: Token, replyTo: Id, message: string, newId: Id)
    : (r: (Store, Answer<Option<NewReply>>))
    ensures TokToId(s.tokens, Some(tok), now) == Rejected ==> r == (s, Null)
    ensures TokToId(s.tokens, Some(tok), now).Resolved? ==>
              match MakeReply(s, TokToId(s.tokens, Some(tok), now).user, replyTo, message, newId, now)
              case Threw => r == (s, Null)
              case Returned(s', v) => r == (s', Value(v))
  {
    CheckTokThen(s, now, Resolver(MakeReplyOp), Some(tok),
                 (st: Store, login: Option<Id>) =>
                   if login.Some? then MakeReply(st, login.value, replyTo, message, newId, now) else Threw)
  }

  /** A reply to a missing post is never inserted, whoever asks. */
  lemma {:induction false} ReplyToMissingPostThroughGate(s: Store, now: int, tok: Token, replyTo: Id,
                                                         message: string, newId: Id)
    requires replyTo !in s.posts
    ensures var (s', a) := MakeReplyEndpoint(s, now, tok, replyTo, message, newId);
            && s' == s && (a == Value(None) || a == Null)
  {
    PresentTokenNeverAnonymous(s.tokens, tok, now);
  }

  /** The gated `myUser` query: the view of the caller's own account. */
  function MyUserEndpoint(s: Store, now: int, tok: Token): (r: (Store, Answer<Option<Id>>))
    ensures r.0 == s
    ensures r.1 == Null <==> TokToId(s.tokens, Some(tok), now) == Rejected
    ensures r.1 != Null ==> r.1 == Value(Some(s.tokens[tok].user)) && s.tokens[tok].expires >= now
  {
    CheckTokThen(s, now, Resolver(MyUser), Some(tok), (st: Store, login: Option<Id>) => Returned(st, login))
  }

  /** The `login` mutation, which bypasses the gate. */
  function LoginEndpoint(s: Store, c: Crypto, now: int, id: Id, pwHashPreSalt: string, tok: Token)
    : (r: (Store, Answer<Option<Token>>))
    ensures r.1 == Value(Some(tok)) <==> id in s.users && SaltedHash(c, s.users[id].salt, pwHashPreSalt) == s.users[id].pwHash
    ensures r.1 != Value(Some(tok)) ==> r == (s, Value(None))
    ensures r.1 == Value(Some(tok)) ==> r.0 == s.(tokens := s.tokens[tok := Session(id, now + WEEK_MS)])
  {
    CheckTokThen(s, now, Resolver(LoginOp), None,
                 (st: Store, login: Option<Id>) => Login(st, c, id, pwHashPreSalt, tok, now))
  }

  /** Session round trip: a token issued by `login` identifies the account that logged in
      for one week, and `myUser` then shows that account; after the week it is refused. */
  lemma {:induction false} LoginThenMyUser(s: Store, c: Crypto, now: int, id: Id, pw: string, tok: Token, later: int)
    requires now <= later
    ensures var (s1, a) := LoginEndpoint(s, c, now, id, pw, tok);
            && (a == Value(Some(tok)) <==> id in s.users && SaltedHash(c, s.users[id].salt, pw) == s.users[id].pwHash)
            && (a != Value(Some(tok)) ==> s1 == s && a == Value(None))
            && (a == Value(Some(tok)) ==>
                  && (later <= now + WEEK_MS ==> MyUserEndpoint(s1, later, tok) == (s1, Value(Some(id))))
                  && (later > now + WEEK_MS ==> MyUserEndpoint(s1, later, tok) == (s1, Null)))
  {
  }

  /** The `makeAcct` mutation, which bypasses the gate. */
  function MakeAcctEndpoint(s: Store, c: Crypto, username: string, name: string, pfp: Image,
                            pwHashPreSalt: string, salt: Bytes, newId: Id)
    : (r: (Store, Answer<Option<Id>>))
    ensures r.1 == Value(None) <==> UsernameTaken(s, username) || newId in s.users
    ensures r.1 == Value(None) ==> r.0 == s
    ensures r.1 != Value(None) ==>
              && r.1 == Value(Some(newId))
              && r.0 == s.(users := s.users[newId := User(username, name, pfp, SaltedHash(c, salt, pwHashPreSalt), salt)])
  {
    CheckTokThen(s, 0, Resolver(MakeAcctOp), None,
                 (st: Store, login: Option<Id>) => MakeAcct(st, c, username, name, pfp, pwHashPreSalt, salt, newId))
  }

  /** A new account can log in with the password it was created with. */
  lemma {:induction false} SignUpThenLoginThroughGate(s: Store, c: Crypto, username: string, name: string,
                                                      pfp: Image, pw: string, salt: Bytes, newId: Id,
                                                      tok: Token, now: int)
    ensures var (s1, a) := MakeAcctEndpoint(s, c, username, name, pfp, pw, salt, newId);
            a == Value(Some(newId)) ==> LoginEndpoint(s1, c, now, newId, pw, tok).1 == Value(Some(tok))
  {
    SignUpThenLogin(s, c, username, name, pfp, pw, salt, newId, tok, now);
  }
}
