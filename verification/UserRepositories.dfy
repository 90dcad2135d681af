/** The repository objects of user-service, proved to do what the operations in UserStores say. */
module UserRepositories {
  import opened Common
  import opened S = UserStores

  /** domain.RefreshToken: the repository flips `revoked` in place. */
  class RefreshToken {
    const userId: Id
    const token: Id
    const expiresAt: Time
    var revoked: bool

    constructor (t: Token)
      ensures userId == t.userId && token == t.token && expiresAt == t.expiresAt && revoked == t.revoked
    {
      userId, token, expiresAt, revoked := t.userId, t.token, t.expiresAt, t.revoked;
    }

    ghost function Value(): Token
      reads this
    {
      Token(userId, token, expiresAt, revoked)
    }
  }

  class TokenRepository {
    var tokens: map<Id, RefreshToken>
    var userTokens: map<Id, seq<Id>>
    ghost var Repr: set<object>

    /** Every object is filed under its own token, so no two keys share an object. */
    ghost predicate Valid()
      reads this, Repr
      ensures Valid() ==> this in Repr
    {
      this in Repr && forall t :: t in tokens ==> tokens[t] in Repr && tokens[t].token == t
    }

    ghost function Contents(): Tokens
      requires Valid()
      reads this, Repr
    {
      Tokens(map t | t in tokens :: tokens[t].Value(), userTokens)
    }

    constructor ()
      ensures Valid() && fresh(Repr) && Contents() == Tokens(map[], map[])
    {
      tokens, userTokens, Repr := map[], map[], {this};
    }

    method Store(live: bool, t: RefreshToken) returns (r: Result<()>)
      requires Valid()
      modifies this
      ensures Valid() && Repr == old(Repr) + (if live then {t} else {})
      ensures (Contents(), r) == S.Store(old(Contents()), live, old(t.Value()))
    {
      if !live {
        return Err(ContextCancelled);
      }
      tokens := tokens[t.token := t];
      userTokens := userTokens[t.userId := (if t.userId in userTokens then userTokens[t.userId] else []) + [t.token]];
      Repr := Repr + {t};
      assert Contents().tokens == old(Contents()).tokens[t.token := t.Value()];
      return Ok(());
    }

    /** Returns a copy of the stored token. */
    method Get(live: bool, token: Id, now: Time) returns (r: Result<Token>)
      requires Valid()
      ensures r == S.Get(Contents(), live, token, now)
      ensures r.Ok? <==> live && token in tokens && !tokens[token].revoked && now <= tokens[token].expiresAt
      ensures r.Ok? ==> r.value == tokens[token].Value()
      ensures r == Err(TokenExpired) <==>
        live && token in tokens && !tokens[token].revoked && tokens[token].expiresAt < now
    {
      if !live {
        return Err(ContextCancelled);
      }
      if token !in tokens {
        return Err(TokenNotFound);
      }
      var rt := tokens[token];
      if rt.revoked {
        return Err(TokenRevoked);
      }
      if now > rt.expiresAt {
        return Err(TokenExpired);
      }
      return Ok(Token(rt.userId, rt.token, rt.expiresAt, rt.revoked));
    }

    method Revoke(live: bool, token: Id) returns (r: Result<()>)
      requires Valid()
      modifies Repr
      ensures Valid() && Repr == old(Repr)
      ensures (Contents(), r) == S.Revoke(old(Contents()), live, token)
    {
      if !live {
        return Err(ContextCancelled);
      }
      if token !in tokens {
        return Err(TokenNotFound);
      }
      tokens[token].revoked := true;
      assert Contents().tokens == S.Revoke(old(Contents()), true, token).0.tokens;
      return Ok(());
    }

    method RevokeAllByUser(live: bool, userId: Id) returns (r: Result<()>)
      requires Valid()
      modifies Repr
      ensures Valid() && Repr == old(Repr)
      ensures (Contents(), r) == S.RevokeAllByUser(old(Contents()), live, userId)
    {
      if !live {
        return Err(ContextCancelled);
      }
      if userId !in userTokens {
        assert Contents().tokens == RevokeListed(Contents().tokens, []);
        return Ok(());
      }
      var list := userTokens[userId];
      for i := 0 to |list|
        invariant Valid() && Repr == old(Repr) && tokens == old(tokens) && userTokens == old(userTokens)
        invariant Contents().tokens == RevokeListed(old(Contents()).tokens, list[..i])
      {
        if list[i] in tokens {
          tokens[list[i]].revoked := true;
        }
        assert list[..i + 1] == list[..i] + [list[i]];
      }
      assert list[..|list|] == list;
      return Ok(());
    }
  }

  class UserRepository {
    var users: map<Id, User>
    var emailIndex: map<Id, Id>

    ghost function Contents(): Users
      reads this
    {
      Users(users, emailIndex)
    }

    constructor ()
      ensures Contents() == Users(map[], map[])
    {
      users, emailIndex := map[], map[];
    }

    method Create(live: bool, user: User, now: Time) returns (r: Result<User>)
      modifies this
      ensures (Contents(), r) == S.Create(old(Contents()), live, user, now)
      ensures r.Ok? <==> live && user.email !in old(emailIndex) && user.userId !in old(users)
      ensures r.Ok? ==> r.value == user.(createdAt := now, updatedAt := now)
      ensures users == if r.Ok? then old(users)[user.userId := r.value] else old(users)
      ensures emailIndex == if r.Ok? then old(emailIndex)[user.email := user.userId] else old(emailIndex)
    {
      if !live {
        return Err(ContextCancelled);
      }
      if user.email in emailIndex {
        return Err(UserAlreadyExists);
      }
      if user.userId in users {
        return Err(UserAlreadyExists);
      }
      var u := user.(createdAt := now, updatedAt := now);
      users := users[u.userId := u];
      emailIndex := emailIndex[u.email := u.userId];
      return Ok(u);
    }

    method GetByID(live: bool, userId: Id) returns (r: Result<User>)
      ensures r == S.GetByID(Contents(), live, userId)
    {
      if !live {
        return Err(ContextCancelled);
      }
      return if userId in users then Ok(users[userId]) else Err(UserNotFound);
    }

    method GetByEmail(live: bool, email: Id) returns (r: Result<User>)
      ensures r == S.GetByEmail(Contents(), live, email)
    {
      if !live {
        return Err(ContextCancelled);
      }
      if email !in emailIndex {
        return Err(UserNotFound);
      }
      var userId := emailIndex[email];
      return if userId in users then Ok(users[userId]) else Err(UserNotFound);
    }

    method Update(live: bool, user: User, now: Time) returns (r: Result<User>)
      modifies this
      ensures (Contents(), r) == S.Update(old(Contents()), live, user, now)
      ensures r.Ok? <==> live && user.userId in old(users)
      ensures r.Ok? ==> r.value == user.(updatedAt := now)
      ensures users == if r.Ok? then old(users)[user.userId := r.value] else old(users)
      ensures emailIndex == old(emailIndex)
    {
      if !live {
        return Err(ContextCancelled);
      }
      if user.userId !in users {
        return Err(UserNotFound);
      }
      var u := user.(updatedAt := now);
      users := users[u.userId := u];
      return Ok(u);
    }
  }
}
