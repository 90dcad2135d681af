/**
 * The two in-memory repositories of user-service: users with their e-mail index, and
 * refresh tokens with their per-user lists. This file has them as values with
 * atomic operations; UserRepositories.dfy has the objects that the program mutates.
 */
module UserStores {
  import opened Common

  datatype Role = UNSPECIFIED | USER | PREMIUM | ADMIN

  datatype User = User(userId: Id, email: Id, username: string, password: string, role: Role, isActive: bool,
                       createdAt: Time, updatedAt: Time)

  datatype Token = Token(userId: Id, token: Id, expiresAt: Time, revoked: bool)

  datatype Error = ContextCancelled | UserNotFound | UserAlreadyExists | TokenNotFound | TokenRevoked | TokenExpired

  datatype Result<+T> = Ok(value: T) | Err(error: Error)

  // ----- Users -----

  datatype Users = Users(users: map<Id, User>, emailIndex: map<Id, Id>)

  function Create(s: Users, live: bool, user: User, now: Time): (Users, Result<User>) {
    if !live then (s, Err(ContextCancelled))
    else if user.email in s.emailIndex || user.userId in s.users then (s, Err(UserAlreadyExists))
    else
      var u := user.(createdAt := now, updatedAt := now);
      (Users(s.users[u.userId := u], s.emailIndex[u.email := u.userId]), Ok(u))
  }

  function GetByID(s: Users, live: bool, userId: Id): Result<User> {
    if !live then Err(ContextCancelled)
    else if userId !in s.users then Err(UserNotFound)
    else Ok(s.users[userId])
  }

  function GetByEmail(s: Users, live: bool, email: Id): Result<User> {
    if !live then Err(ContextCancelled)
    else if email !in s.emailIndex then Err(UserNotFound)
    else GetByID(s, live, s.emailIndex[email])
  }

  function Update(s: Users, live: bool, user: User, now: Time): (Users, Result<User>) {
    if !live then (s, Err(ContextCancelled))
    else if user.userId !in s.users then (s, Err(UserNotFound))
    else
      var u := user.(updatedAt := now);
      (s.(users := s.users[u.userId := u]), Ok(u))
  }

  /** `users` and `emailIndex` are mutually inverse. */
  ghost predicate Indexed(s: Users) {
    && (forall id :: id in s.users ==>
          s.users[id].userId == id && s.users[id].email in s.emailIndex && s.emailIndex[s.users[id].email] == id)
    && (forall email :: email in s.emailIndex ==>
          s.emailIndex[email] in s.users && s.users[s.emailIndex[email]].email == email)
  }

  lemma NoSharedEmail(s: Users, a: Id, b: Id)
    requires Indexed(s) && a in s.users && b in s.users && s.users[a].email == s.users[b].email
    ensures a == b
  {
  }

  /** With the index intact, looking a user up by e-mail finds exactly the user who has it. */
  lemma GetByEmailFinds(s: Users, email: Id)
    requires Indexed(s)
    ensures var r := GetByEmail(s, true, email);
      && (r.Ok? ==> r.value.userId in s.users && s.users[r.value.userId] == r.value && r.value.email == email)
      && (r.Err? ==> r.error == UserNotFound && forall id :: id in s.users ==> s.users[id].email != email)
  {
  }

  // ----- Tokens -----

  datatype Tokens = Tokens(tokens: map<Id, Token>, userTokens: map<Id, seq<Id>>)

  function ListOf(s: Tokens, userId: Id): seq<Id> {
    if userId in s.userTokens then s.userTokens[userId] else []
  }

  function Store(s: Tokens, live: bool, t: Token): (Tokens, Result<()>) {
    if !live then (s, Err(ContextCancelled))
    else (Tokens(s.tokens[t.token := t], s.userTokens[t.userId := ListOf(s, t.userId) + [t.token]]), Ok(()))
  }

  function Get(s: Tokens, live: bool, token: Id, now: Time): Result<Token> {
    if !live then Err(ContextCancelled)
    else if token !in s.tokens then Err(TokenNotFound)
    else if s.tokens[token].revoked then Err(TokenRevoked)
    else if now > s.tokens[token].expiresAt then Err(TokenExpired)
    else Ok(s.tokens[token])
  }

  function Revoke(s: Tokens, live: bool, token: Id): (Tokens, Result<()>) {
    if !live then (s, Err(ContextCancelled))
    else if token !in s.tokens then (s, Err(TokenNotFound))
    else (s.(tokens := s.tokens[token := s.tokens[token].(revoked := true)]), Ok(()))
  }

  /** Marks every token of a list that is stored. */
  function RevokeListed(tokens: map<Id, Token>, list: seq<Id>): map<Id, Token> {
    map t | t in tokens :: if t in list then tokens[t].(revoked := true) else tokens[t]
  }

  function RevokeAllByUser(s: Tokens, live: bool, userId: Id): (Tokens, Result<()>) {
    if !live then (s, Err(ContextCancelled))
    else (s.(tokens := RevokeListed(s.tokens, ListOf(s, userId))), Ok(()))
  }

  /** Every stored token is filed under its own name, and the lists name exactly the stored tokens of their user. */
  ghost predicate Listed(s: Tokens) {
    && (forall t :: t in s.tokens ==> s.tokens[t].token == t)
    && (forall u, t :: t in ListOf(s, u) <==> t in s.tokens && s.tokens[t].userId == u)
    && (forall u :: Distinct(ListOf(s, u)))
  }

  /** The tokens of a user that can still be refreshed with, expiry aside. */
  function Unrevoked(s: Tokens, userId: Id): set<Id> {
    set t | t in s.tokens && s.tokens[t].userId == userId && !s.tokens[t].revoked
  }

  /** A token of its own name that is not in the store yet keeps the lists right. */
  lemma StoreKeepsListed(s: Tokens, live: bool, t: Token)
    requires Listed(s) && t.token !in s.tokens
    ensures Listed(Store(s, live, t).0)
  {
    var s' := Store(s, live, t).0;
    forall u ensures Distinct(ListOf(s', u)) {
      assert t.token !in ListOf(s, u);
    }
    forall u, x ensures x in ListOf(s', u) <==> x in s'.tokens && s'.tokens[x].userId == u {
      assert x in ListOf(s, u) <==> x in s.tokens && s.tokens[x].userId == u;
      assert live && u == t.userId ==> ListOf(s', u) == ListOf(s, u) + [t.token];
      assert live && u != t.userId ==> ListOf(s', u) == ListOf(s, u);
    }
  }

  lemma RevokeKeepsListed(s: Tokens, live: bool, token: Id, userId: Id)
    requires Listed(s)
    ensures Listed(Revoke(s, live, token).0) && Listed(RevokeAllByUser(s, live, userId).0)
  {
    var r, a := Revoke(s, live, token).0, RevokeAllByUser(s, live, userId).0;
    assert forall u :: ListOf(r, u) == ListOf(s, u) && ListOf(a, u) == ListOf(s, u);
  }

  /** A RevokeAllByUser leaves its user no unrevoked token and touches nobody else. */
  lemma RevokeAllRevokesAll(s: Tokens, userId: Id)
    requires Listed(s)
    ensures Unrevoked(RevokeAllByUser(s, true, userId).0, userId) == {}
    ensures forall u :: u != userId ==> Unrevoked(RevokeAllByUser(s, true, userId).0, u) == Unrevoked(s, u)
  {
  }
}
