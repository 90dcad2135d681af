/**
 * What each call of AuthService, run on its own, does and answers, stated on the fields of the stored users and
 * tokens.
 */
module AuthMeaning {
  import opened Common
  import opened S = UserStores
  import opened P = AuthProtocol
  import opened A = AuthService

  /** The token is stored, not revoked, and not past its expiry. */
  predicate Usable(tokens: Tokens, presented: Id, now: Time) {
    presented in tokens.tokens && !tokens.tokens[presented].revoked && now <= tokens.tokens[presented].expiresAt
  }

  /** The stores with a token for the user added, and nothing else changed. */
  ghost predicate Added(before: Tokens, after: Tokens, userId: Id, token: Id, expiresAt: Time) {
    && after.tokens == before.tokens[token := Token(userId, token, expiresAt, false)]
    && after.userTokens ==
       before.userTokens[userId := (if userId in before.userTokens then before.userTokens[userId] else []) + [token]]
  }

  lemma RefreshMeans(users: Users, tokens: Tokens, ctx: Ctx, presented: Id, x: Inputs)
    ensures var f := RefreshCall(users, tokens, ctx, presented, x);
      var usable := Usable(tokens, presented, x.now);
      && f.users == users
      && (f.outcome.Refreshed? <==>
            && ctx.Live(3) && usable && x.signOk
            && tokens.tokens[presented].userId in users.users && users.users[tokens.tokens[presented].userId].isActive)
      && (f.outcome == Refused(ErrTokenInvalid) <==> ctx.Live(0) && !usable)
      && (f.outcome == Refused(ErrUnauthorized) <==>
            && ctx.Live(1) && usable && tokens.tokens[presented].userId in users.users
            && !users.users[tokens.tokens[presented].userId].isActive)
  {
  }

  /** A successful refresh revokes the presented token and stores the new one for the same user. */
  lemma RefreshStores(users: Users, tokens: Tokens, ctx: Ctx, presented: Id, x: Inputs)
    requires Indexed(users) && RefreshCall(users, tokens, ctx, presented, x).outcome.Refreshed?
    ensures var f := RefreshCall(users, tokens, ctx, presented, x);
      && f.outcome == Refreshed(presented, x.tokenUuid) && presented in tokens.tokens
      && var was := tokens.tokens[presented];
      && Added(Tokens(tokens.tokens[presented := Token(was.userId, was.token, was.expiresAt, true)], tokens.userTokens),
               f.tokens, was.userId, x.tokenUuid, x.expiresAt)
  {
    RefreshMeans(users, tokens, ctx, presented, x);
  }

  /** The user of that e-mail, if the index leads to one. */
  predicate Known(users: Users, email: Id) {
    email in users.emailIndex && users.emailIndex[email] in users.users
  }

  lemma LoginMeans(users: Users, tokens: Tokens, ctx: Ctx, email: Id, x: Inputs)
    ensures var f := LoginCall(users, tokens, ctx, email, x);
      var known := Known(users, email);
      && f.users == users
      && (f.outcome.LoggedIn? <==>
            ctx.Live(1) && known && x.cryptoOk && users.users[users.emailIndex[email]].isActive && x.signOk)
      && (f.outcome.LoggedIn? ==>
            var user := users.users[users.emailIndex[email]];
            f.outcome == LoggedIn(user) && Added(tokens, f.tokens, user.userId, x.tokenUuid, x.expiresAt))
      && (!f.outcome.LoggedIn? ==> f.tokens == tokens)
      && (f.outcome == Refused(ErrInvalidCredentials) <==> ctx.Live(0) && (!known || !x.cryptoOk))
      && (f.outcome == Refused(ErrUnauthorized) <==>
            ctx.Live(0) && known && x.cryptoOk && !users.users[users.emailIndex[email]].isActive)
  {
  }

  /** A user is created, unless the e-mail or the id is taken; the answer also needs a signature, not a stored token. */
  lemma RegisterMeans(
    users: Users, tokens: Tokens, ctx: Ctx, email: Id, username: string, password: string, x: Inputs)
    ensures var f := RegisterCall(users, tokens, ctx, email, username, password, x);
      var created := ctx.Live(1) && x.cryptoOk && email !in users.emailIndex && x.userUuid !in users.users;
      var user := User(x.userUuid, email, username, password, USER, true, x.now, x.now);
      && f.users == (if created then Users(users.users[x.userUuid := user], users.emailIndex[email := x.userUuid])
                     else users)
      && (f.outcome.Registered? <==> created && x.signOk)
      && (f.outcome.Registered? ==> f.outcome == Registered(user))
      && (f.outcome.Registered? && ctx.Live(2) ==> Added(tokens, f.tokens, x.userUuid, x.tokenUuid, x.expiresAt))
      && (!(f.outcome.Registered? && ctx.Live(2)) ==> f.tokens == tokens)
      && (f.outcome == Refused(ErrUserAlreadyExists) <==>
            || (ctx.Live(0) && Known(users, email))
            || (ctx.Live(1) && x.cryptoOk && (email in users.emailIndex || x.userUuid in users.users)))
  {
  }

  /** The token with its flag set. */
  function Flagged(t: Token): Token {
    Token(t.userId, t.token, t.expiresAt, true)
  }

  /** Exactly these stored tokens have been revoked. */
  ghost predicate RevokedExactly(before: Tokens, after: Tokens, which: set<Id>) {
    && after.userTokens == before.userTokens && after.tokens.Keys == before.tokens.Keys
    && forall t :: t in before.tokens ==>
         after.tokens[t] == if t in which then Flagged(before.tokens[t]) else before.tokens[t]
  }

  lemma LogoutMeans(users: Users, tokens: Tokens, ctx: Ctx, presented: Id)
    ensures var f := LogoutCall(users, tokens, ctx, presented);
      && f.users == users && f.outcome == (if ctx.Live(0) then LoggedOut else Refused(Internal))
      && RevokedExactly(tokens, f.tokens, if ctx.Live(0) then {presented} else {})
  {
  }

  lemma LogoutAllMeans(users: Users, tokens: Tokens, ctx: Ctx, userId: Id)
    requires Listed(tokens)
    ensures var f := LogoutAllCall(users, tokens, ctx, userId);
      && f.users == users && f.outcome == (if ctx.Live(0) then LoggedOut else Refused(Internal))
      && RevokedExactly(tokens, f.tokens,
                        if ctx.Live(0) then set t | t in tokens.tokens && tokens.tokens[t].userId == userId else {})
  {
    forall t | t in tokens.tokens ensures t in ListOf(tokens, userId) <==> tokens.tokens[t].userId == userId {
    }
  }

  /** The role asked for is stored, with the time, and nothing else of any user changes. */
  lemma UpdateRoleMeans(users: Users, tokens: Tokens, ctx: Ctx, userId: Id, newRole: Role, now: Time)
    requires Indexed(users)
    ensures var f := UpdateRoleCall(users, tokens, ctx, userId, newRole, now);
      && f.tokens == tokens && f.users.emailIndex == users.emailIndex
      && (f.outcome.RoleUpdated? <==> ctx.Live(1) && userId in users.users)
      && (f.outcome.RoleUpdated? ==>
            var u := users.users[userId];
            var v := User(userId, u.email, u.username, u.password, newRole, u.isActive, u.createdAt, now);
            f.outcome == RoleUpdated(v) && f.users.users == users.users[userId := v])
      && (!f.outcome.RoleUpdated? ==> f.users == users)
      && (f.outcome == Refused(ErrUserNotFound) <==> ctx.Live(0) && userId !in users.users)
  {
  }
}
