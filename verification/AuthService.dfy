/**
 * AuthService's methods as the program runs them over the repository objects. Each is proved to
 * compute a function of the stores, and that function is proved to be what the machine of
 * AuthProtocol does when nothing else happens in between.
 */
module AuthService {
  import opened Common
  import opened S = UserStores
  import opened UserRepositories
  import opened P = AuthProtocol

  /** What a call reads from outside besides its context: the clock, new uuids, cryptography. */
  datatype Inputs = Inputs(now: Time, userUuid: Id, tokenUuid: Id, expiresAt: Time, cryptoOk: bool, signOk: bool)

  /** The stores after a call, and its outcome. */
  datatype Final = Final(users: Users, tokens: Tokens, outcome: Outcome)

  // ----- What each call computes, from the given operation on; `look` numbers its context checks -----

  function NewToken(user: User, x: Inputs): Token {
    Token(user.userId, x.tokenUuid, x.expiresAt, false)
  }

  function RefreshFromGenerate(users: Users, tokens: Tokens, ctx: Ctx, presented: Id, user: User, x: Inputs): Final {
    if !x.signOk then Final(users, tokens, Refused(Internal))
    else
      var (tokens', r) := S.Store(tokens, ctx.Live(3), NewToken(user, x));
      Final(users, tokens', if r.Ok? then Refreshed(presented, x.tokenUuid) else Refused(Internal))
  }

  function RefreshFromGetByID(users: Users, tokens: Tokens, ctx: Ctx, presented: Id, copy: Token, x: Inputs): Final {
    var user := S.GetByID(users, ctx.Live(1), copy.userId);
    if user.Err? then Final(users, tokens, Refused(ErrUserNotFound))
    else if !user.value.isActive then Final(users, tokens, Refused(ErrUnauthorized))
    else RefreshFromGenerate(users, S.Revoke(tokens, ctx.Live(2), presented).0, ctx, presented, user.value, x)
  }

  function RefreshCall(users: Users, tokens: Tokens, ctx: Ctx, presented: Id, x: Inputs): Final {
    var got := S.Get(tokens, ctx.Live(0), presented, x.now);
    if got.Err? then
      Final(users, tokens, Refused(if got.error == ContextCancelled then Internal else ErrTokenInvalid))
    else RefreshFromGetByID(users, tokens, ctx, presented, got.value, x)
  }

  function LoginCall(users: Users, tokens: Tokens, ctx: Ctx, email: Id, x: Inputs): Final {
    var user := S.GetByEmail(users, ctx.Live(0), email);
    if user.Err? then
      Final(users, tokens, Refused(if user.error == UserNotFound then ErrInvalidCredentials else Internal))
    else if !x.cryptoOk then Final(users, tokens, Refused(ErrInvalidCredentials))
    else if !user.value.isActive then Final(users, tokens, Refused(ErrUnauthorized))
    else if !x.signOk then Final(users, tokens, Refused(Internal))
    else
      var (tokens', r) := S.Store(tokens, ctx.Live(1), NewToken(user.value, x));
      Final(users, tokens', if r.Ok? then LoggedIn(user.value) else Refused(Internal))
  }

  function RegisterFromCreate(users: Users, tokens: Tokens, ctx: Ctx, user: User, x: Inputs): Final {
    var (users', created) := S.Create(users, ctx.Live(1), user, x.now);
    if created.Err? then
      Final(users', tokens, Refused(if created.error == UserAlreadyExists then ErrUserAlreadyExists else Internal))
    else if !x.signOk then Final(users', tokens, Refused(Internal))
    else Final(users', S.Store(tokens, ctx.Live(2), NewToken(created.value, x)).0, Registered(created.value))
  }

  function RegisterCall(
    users: Users, tokens: Tokens, ctx: Ctx, email: Id, username: string, password: string, x: Inputs): Final
  {
    var existing := S.GetByEmail(users, ctx.Live(0), email);
    if existing.Ok? then Final(users, tokens, Refused(ErrUserAlreadyExists))
    else if existing.error != UserNotFound || !x.cryptoOk then Final(users, tokens, Refused(Internal))
    else RegisterFromCreate(users, tokens, ctx, User(x.userUuid, email, username, password, USER, true, 0, 0), x)
  }

  function LogoutCall(users: Users, tokens: Tokens, ctx: Ctx, presented: Id): Final {
    var (tokens', r) := S.Revoke(tokens, ctx.Live(0), presented);
    Final(users, tokens', if r.Ok? || r.error == TokenNotFound then LoggedOut else Refused(Internal))
  }

  function LogoutAllCall(users: Users, tokens: Tokens, ctx: Ctx, userId: Id): Final {
    var (tokens', r) := S.RevokeAllByUser(tokens, ctx.Live(0), userId);
    Final(users, tokens', if r.Ok? then LoggedOut else Refused(Internal))
  }

  function UpdateRoleFromUpdate(users: Users, tokens: Tokens, ctx: Ctx, user: User, now: Time): Final {
    var (users', r) := S.Update(users, ctx.Live(1), user, now);
    Final(users', tokens, if r.Ok? then RoleUpdated(r.value) else Refused(Internal))
  }

  function UpdateRoleCall(users: Users, tokens: Tokens, ctx: Ctx, userId: Id, newRole: Role, now: Time): Final {
    var user := S.GetByID(users, ctx.Live(0), userId);
    if user.Err? then
      Final(users, tokens, Refused(if user.error == UserNotFound then ErrUserNotFound else Internal))
    else UpdateRoleFromUpdate(users, tokens, ctx, user.value.(role := newRole, updatedAt := now), now)
  }

  class AuthService {
    const userRepo: UserRepository
    const tokenRepo: TokenRepository

    constructor (userRepo: UserRepository, tokenRepo: TokenRepository)
      ensures this.userRepo == userRepo && this.tokenRepo == tokenRepo
    {
      this.userRepo, this.tokenRepo := userRepo, tokenRepo;
    }

    ghost predicate Valid()
      reads this, userRepo, tokenRepo, tokenRepo.Repr
    {
      userRepo !in tokenRepo.Repr && tokenRepo.Valid()
    }

    /** Stores the refresh token that GenerateTokens has just made. */
    method StoreNew(live: bool, t: Token) returns (r: Result<()>)
      requires Valid()
      modifies tokenRepo.Repr
      ensures Valid() && fresh(tokenRepo.Repr - old(tokenRepo.Repr)) && userRepo.Contents() == old(userRepo.Contents())
      ensures (tokenRepo.Contents(), r) == S.Store(old(tokenRepo.Contents()), live, t)
    {
      var rt := new RefreshToken(t);
      r := tokenRepo.Store(live, rt);
    }

    method RefreshToken(ctx: Ctx, presented: Id, x: Inputs) returns (outcome: Outcome)
      requires Valid()
      modifies tokenRepo.Repr
      ensures Valid() && fresh(tokenRepo.Repr - old(tokenRepo.Repr))
      ensures Final(userRepo.Contents(), tokenRepo.Contents(), outcome) ==
        RefreshCall(old(userRepo.Contents()), old(tokenRepo.Contents()), ctx, presented, x)
    {
      var stored := tokenRepo.Get(ctx.Live(0), presented, x.now);
      if stored.Err? {
        return Refused(if stored.error == ContextCancelled then Internal else ErrTokenInvalid);
      }
      var user := userRepo.GetByID(ctx.Live(1), stored.value.userId);
      if user.Err? {
        return Refused(ErrUserNotFound);
      }
      if !user.value.isActive {
        return Refused(ErrUnauthorized);
      }
      var _ := tokenRepo.Revoke(ctx.Live(2), presented);
      if !x.signOk {
        return Refused(Internal);
      }
      var r := StoreNew(ctx.Live(3), NewToken(user.value, x));
      return if r.Ok? then Refreshed(presented, x.tokenUuid) else Refused(Internal);
    }

    method Login(ctx: Ctx, email: Id, x: Inputs) returns (outcome: Outcome)
      requires Valid()
      modifies tokenRepo.Repr
      ensures Valid() && fresh(tokenRepo.Repr - old(tokenRepo.Repr))
      ensures Final(userRepo.Contents(), tokenRepo.Contents(), outcome) ==
        LoginCall(old(userRepo.Contents()), old(tokenRepo.Contents()), ctx, email, x)
    {
      var user := userRepo.GetByEmail(ctx.Live(0), email);
      if user.Err? {
        return Refused(if user.error == UserNotFound then ErrInvalidCredentials else Internal);
      }
      if !x.cryptoOk {
        return Refused(ErrInvalidCredentials);
      }
      if !user.value.isActive {
        return Refused(ErrUnauthorized);
      }
      if !x.signOk {
        return Refused(Internal);
      }
      var r := StoreNew(ctx.Live(1), NewToken(user.value, x));
      return if r.Ok? then LoggedIn(user.value) else Refused(Internal);
    }

    method Register(ctx: Ctx, email: Id, username: string, password: string, x: Inputs) returns (outcome: Outcome)
      requires Valid()
      modifies userRepo, tokenRepo.Repr
      ensures Valid() && fresh(tokenRepo.Repr - old(tokenRepo.Repr))
      ensures Final(userRepo.Contents(), tokenRepo.Contents(), outcome) ==
        RegisterCall(old(userRepo.Contents()), old(tokenRepo.Contents()), ctx, email, username, password, x)
    {
      var existing := userRepo.GetByEmail(ctx.Live(0), email);
      if existing.Ok? {
        return Refused(ErrUserAlreadyExists);
      }
      if existing.error != UserNotFound || !x.cryptoOk {
        return Refused(Internal);
      }
      var user := User(x.userUuid, email, username, password, USER, true, 0, 0);
      var created := userRepo.Create(ctx.Live(1), user, x.now);
      if created.Err? {
        return Refused(if created.error == UserAlreadyExists then ErrUserAlreadyExists else Internal);
      }
      if !x.signOk {
        return Refused(Internal);
      }
      var _ := StoreNew(ctx.Live(2), NewToken(created.value, x));
      return Registered(created.value);
    }

    /** Logging out with a token that is not stored is a success. */
    method Logout(ctx: Ctx, presented: Id) returns (outcome: Outcome)
      requires Valid()
      modifies tokenRepo.Repr
      ensures Valid() && fresh(tokenRepo.Repr - old(tokenRepo.Repr))
      ensures Final(userRepo.Contents(), tokenRepo.Contents(), outcome) ==
        LogoutCall(old(userRepo.Contents()), old(tokenRepo.Contents()), ctx, presented)
    {
      var r := tokenRepo.Revoke(ctx.Live(0), presented);
      if r.Err? && r.error != TokenNotFound {
        return Refused(Internal);
      }
      return LoggedOut;
    }

    method LogoutAll(ctx: Ctx, userId: Id) returns (outcome: Outcome)
      requires Valid()
      modifies tokenRepo.Repr
      ensures Valid() && fresh(tokenRepo.Repr - old(tokenRepo.Repr))
      ensures Final(userRepo.Contents(), tokenRepo.Contents(), outcome) ==
        LogoutAllCall(old(userRepo.Contents()), old(tokenRepo.Contents()), ctx, userId)
    {
      var r := tokenRepo.RevokeAllByUser(ctx.Live(0), userId);
      return if r.Err? then Refused(Internal) else LoggedOut;
    }

    /** Only an administrator may; the role is changed on a copy, which then replaces the user. */
    method UpdateRole(ctx: Ctx, userId: Id, newRole: Role, actorRole: Role, now: Time) returns (outcome: Outcome)
      requires Valid()
      modifies userRepo
      ensures Valid() && tokenRepo.Contents() == old(tokenRepo.Contents())
      ensures actorRole != ADMIN ==>
        outcome == Refused(ErrPermissionDenied) && userRepo.Contents() == old(userRepo.Contents())
      ensures actorRole == ADMIN ==>
        Final(userRepo.Contents(), tokenRepo.Contents(), outcome) ==
        UpdateRoleCall(old(userRepo.Contents()), old(tokenRepo.Contents()), ctx, userId, newRole, now)
    {
      if actorRole != ADMIN {
        return Refused(ErrPermissionDenied);
      }
      var user := userRepo.GetByID(ctx.Live(0), userId);
      if user.Err? {
        return Refused(if user.error == UserNotFound then ErrUserNotFound else Internal);
      }
      var changed := user.value.(role := newRole, updatedAt := now);
      var r := userRepo.Update(ctx.Live(1), changed, now);
      return if r.Ok? then RoleUpdated(r.value) else Refused(Internal);
    }
  }

  // ----- The machine, with nothing else going on, does the same -----

  /** Some lone run of call `c` from `s` ends with these stores and this outcome. */
  ghost predicate Reaches(s: State, c: nat, f: Final) {
    exists trace :: Alone(trace, c) && EndsAt(Run(s, trace), c, f)
  }

  ghost predicate EndsAt(t: State, c: nat, f: Final) {
    t.users == f.users && t.tokens == f.tokens && c in t.calls && t.calls[c] == Done(f.outcome)
  }

  /** One look at the context, which may find it cancelled, and one step. */
  function Moved(s: State, c: nat, live: bool, a: Action): State {
    Step(if live then s else Step(s, Cancel(c)), a)
  }

  lemma ReachesEnd(s: State, c: nat, f: Final)
    requires EndsAt(s, c, f)
    ensures Reaches(s, c, f)
  {
    assert Run(s, []) == s && Alone([], c);
  }

  lemma ReachesMove(s: State, c: nat, live: bool, a: Action, f: Final)
    requires a.Advance? && a.c == c && Reaches(Moved(s, c, live, a), c, f)
    ensures Reaches(s, c, f)
  {
    var trace :| Alone(trace, c) && EndsAt(Run(Moved(s, c, live, a), trace), c, f);
    var first := if live then [a] else [Cancel(c), a];
    assert [Cancel(c), a][..1] == [Cancel(c)] && [Cancel(c)][..0] == [] && [a][..0] == [];
    assert Run(s, [Cancel(c)]) == Step(s, Cancel(c));
    assert Run(s, first) == Moved(s, c, live, a);
    RunAppend(s, first, trace);
    assert Alone(first + trace, c);
  }

  lemma RefreshIsLoneRun(s: State, c: nat, ctx: Ctx, presented: Id, x: Inputs)
    requires c in s.calls && s.calls[c] == RefreshGet(presented) && c !in s.cancelled && x.tokenUuid !in s.issued
    ensures Reaches(s, c, RefreshCall(s.users, s.tokens, ctx, presented, x))
  {
    var a := Advance(c, x.now, x.tokenUuid, x.expiresAt, x.signOk);
    var t := Moved(s, c, ctx.Live(0), a);
    var got := S.Get(s.tokens, ctx.Live(0), presented, x.now);
    if got.Err? {
      ReachesEnd(t, c, RefreshCall(s.users, s.tokens, ctx, presented, x));
    } else {
      RefreshGetByIDIsLoneRun(t, c, ctx, presented, got.value, x);
    }
    ReachesMove(s, c, ctx.Live(0), a, RefreshCall(s.users, s.tokens, ctx, presented, x));
  }

  lemma RefreshGetByIDIsLoneRun(s: State, c: nat, ctx: Ctx, presented: Id, copy: Token, x: Inputs)
    requires c in s.calls && s.calls[c] == RefreshGetByID(presented, copy) && x.tokenUuid !in s.issued
    requires c in s.cancelled ==> !ctx.Live(1)
    ensures Reaches(s, c, RefreshFromGetByID(s.users, s.tokens, ctx, presented, copy, x))
  {
    var a := Advance(c, x.now, x.tokenUuid, x.expiresAt, x.signOk);
    var t := Moved(s, c, ctx.Live(1), a);
    var f := RefreshFromGetByID(s.users, s.tokens, ctx, presented, copy, x);
    var user := S.GetByID(s.users, ctx.Live(1), copy.userId);
    if user.Err? || !user.value.isActive {
      ReachesEnd(t, c, f);
    } else {
      RefreshRevokeIsLoneRun(t, c, ctx, presented, user.value, x);
    }
    ReachesMove(s, c, ctx.Live(1), a, f);
  }

  lemma RefreshRevokeIsLoneRun(s: State, c: nat, ctx: Ctx, presented: Id, user: User, x: Inputs)
    requires c in s.calls && s.calls[c] == RefreshRevoke(presented, user) && x.tokenUuid !in s.issued
    requires c in s.cancelled ==> !ctx.Live(2)
    ensures Reaches(s, c,
      RefreshFromGenerate(s.users, S.Revoke(s.tokens, ctx.Live(2), presented).0, ctx, presented, user, x))
  {
    var a := Advance(c, x.now, x.tokenUuid, x.expiresAt, x.signOk);
    var t := Moved(s, c, ctx.Live(2), a);
    RefreshGenerateIsLoneRun(t, c, ctx, presented, user, x);
    ReachesMove(s, c, ctx.Live(2), a, RefreshFromGenerate(t.users, t.tokens, ctx, presented, user, x));
  }

  lemma RefreshGenerateIsLoneRun(s: State, c: nat, ctx: Ctx, presented: Id, user: User, x: Inputs)
    requires c in s.calls && s.calls[c] == RefreshGenerate(presented, user) && x.tokenUuid !in s.issued
    requires c in s.cancelled ==> !ctx.Live(3)
    ensures Reaches(s, c, RefreshFromGenerate(s.users, s.tokens, ctx, presented, user, x))
  {
    var a := Advance(c, x.now, x.tokenUuid, x.expiresAt, x.signOk);
    var f := RefreshFromGenerate(s.users, s.tokens, ctx, presented, user, x);
    var t := Moved(s, c, true, a);
    if !x.signOk {
      ReachesEnd(t, c, f);
    } else {
      StoreIsLoneRun(t, c, ctx.Live(3), f);
    }
    ReachesMove(s, c, true, a, f);
  }

  /** The last step of each of the three calls. */
  lemma StoreIsLoneRun(s: State, c: nat, live: bool, f: Final)
    requires c in s.calls && Pending(s.calls[c]).Some? && (c in s.cancelled ==> !live)
    requires f.users == s.users && f.tokens == S.Store(s.tokens, live, Pending(s.calls[c]).value).0
    requires f.outcome ==
      (match s.calls[c]
       case RegisterStore(user, _) => Registered(user)
       case LoginStore(user, _) => if live then LoggedIn(user) else Refused(Internal)
       case RefreshStore(presented, _, t) => if live then Refreshed(presented, t.token) else Refused(Internal))
    ensures Reaches(s, c, f)
  {
    var a := Advance(c, 0, "", 0, true);
    ReachesEnd(Moved(s, c, live, a), c, f);
    ReachesMove(s, c, live, a, f);
  }

  lemma LoginIsLoneRun(s: State, c: nat, ctx: Ctx, email: Id, x: Inputs)
    requires c in s.calls && s.calls[c] == LoginGetByEmail(email) && c !in s.cancelled && x.tokenUuid !in s.issued
    ensures Reaches(s, c, LoginCall(s.users, s.tokens, ctx, email, x))
  {
    var a := Advance(c, x.now, x.tokenUuid, x.expiresAt, x.cryptoOk);
    var f := LoginCall(s.users, s.tokens, ctx, email, x);
    var t := Moved(s, c, ctx.Live(0), a);
    if t.calls[c].LoginGenerate? {
      GenerateIsLoneRun(t, c, ctx.Live(1), x, f);
    } else {
      ReachesEnd(t, c, f);
    }
    ReachesMove(s, c, ctx.Live(0), a, f);
  }

  /** GenerateTokens and Store, the end of Register and Login. */
  lemma GenerateIsLoneRun(s: State, c: nat, live: bool, x: Inputs, f: Final)
    requires c in s.calls && (s.calls[c].LoginGenerate? || s.calls[c].RegisterGenerate?)
    requires x.tokenUuid !in s.issued && (c in s.cancelled ==> !live)
    requires f.users == s.users
    requires var user := s.calls[c].user;
      if !x.signOk then f.tokens == s.tokens && f.outcome == Refused(Internal)
      else
        && f.tokens == S.Store(s.tokens, live, NewToken(user, x)).0
        && f.outcome == if s.calls[c].RegisterGenerate? then Registered(user)
                        else if live then LoggedIn(user) else Refused(Internal)
    ensures Reaches(s, c, f)
  {
    var a := Advance(c, x.now, x.tokenUuid, x.expiresAt, x.signOk);
    var t := Moved(s, c, true, a);
    if !x.signOk {
      ReachesEnd(t, c, f);
    } else {
      StoreIsLoneRun(t, c, live, f);
    }
    ReachesMove(s, c, true, a, f);
  }

  lemma RegisterIsLoneRun(s: State, c: nat, ctx: Ctx, email: Id, username: string, password: string, x: Inputs)
    requires c in s.calls && s.calls[c] == RegisterGetByEmail(email, username, password) && c !in s.cancelled
    requires x.userUuid !in s.issued && x.tokenUuid !in s.issued && x.userUuid != x.tokenUuid
    ensures Reaches(s, c, RegisterCall(s.users, s.tokens, ctx, email, username, password, x))
  {
    var a := Advance(c, x.now, x.userUuid, x.expiresAt, x.cryptoOk);
    var f := RegisterCall(s.users, s.tokens, ctx, email, username, password, x);
    var t := Moved(s, c, ctx.Live(0), a);
    if t.calls[c].RegisterCreate? {
      RegisterCreateIsLoneRun(t, c, ctx, t.calls[c].user, x);
    } else {
      ReachesEnd(t, c, f);
    }
    ReachesMove(s, c, ctx.Live(0), a, f);
  }

  lemma RegisterCreateIsLoneRun(s: State, c: nat, ctx: Ctx, user: User, x: Inputs)
    requires c in s.calls && s.calls[c] == RegisterCreate(user) && x.tokenUuid !in s.issued
    requires c in s.cancelled ==> !ctx.Live(1)
    ensures Reaches(s, c, RegisterFromCreate(s.users, s.tokens, ctx, user, x))
  {
    var a := Advance(c, x.now, x.tokenUuid, x.expiresAt, x.signOk);
    var f := RegisterFromCreate(s.users, s.tokens, ctx, user, x);
    var t := Moved(s, c, ctx.Live(1), a);
    if t.calls[c].RegisterGenerate? {
      GenerateIsLoneRun(t, c, ctx.Live(2), x, f);
    } else {
      ReachesEnd(t, c, f);
    }
    ReachesMove(s, c, ctx.Live(1), a, f);
  }

  lemma LogoutsAreLoneRuns(s: State, c: nat, ctx: Ctx)
    requires c in s.calls && c !in s.cancelled
    ensures s.calls[c].LogoutRevoke? ==> Reaches(s, c, LogoutCall(s.users, s.tokens, ctx, s.calls[c].presented))
    ensures s.calls[c].LogoutAllRevoke? ==> Reaches(s, c, LogoutAllCall(s.users, s.tokens, ctx, s.calls[c].userId))
  {
    var a := Advance(c, 0, "", 0, true);
    var t := Moved(s, c, ctx.Live(0), a);
    if s.calls[c].LogoutRevoke? || s.calls[c].LogoutAllRevoke? {
      var f := Final(t.users, t.tokens, t.calls[c].outcome);
      ReachesEnd(t, c, f);
      ReachesMove(s, c, ctx.Live(0), a, f);
    }
  }

  lemma UpdateRoleIsLoneRun(s: State, c: nat, ctx: Ctx, userId: Id, newRole: Role, now: Time)
    requires c in s.calls && s.calls[c] == UpdateRoleGetByID(userId, newRole) && c !in s.cancelled
    ensures Reaches(s, c, UpdateRoleCall(s.users, s.tokens, ctx, userId, newRole, now))
  {
    var a := Advance(c, now, "", 0, true);
    var t := Moved(s, c, ctx.Live(0), a);
    var f := UpdateRoleCall(s.users, s.tokens, ctx, userId, newRole, now);
    if t.calls[c].UpdateRoleUpdate? {
      var u := Moved(t, c, ctx.Live(1), a);
      ReachesEnd(u, c, f);
      ReachesMove(t, c, ctx.Live(1), a, f);
    } else {
      ReachesEnd(t, c, f);
    }
    ReachesMove(s, c, ctx.Live(0), a, f);
  }
}
