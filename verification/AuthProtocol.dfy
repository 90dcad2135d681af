/**
 * AuthService as a machine: any number of Register, Login, RefreshToken, Logout, LogoutAll
 * and UpdateRole calls in flight, each a program counter with its local copies. One step
 * of a call is one repository operation (they are atomic: each holds the repository's
 * lock) or one generation of tokens. Contexts are cancelled at any moment and stay so.
 */
module AuthProtocol {
  import opened Common
  import opened S = UserStores

  datatype Reason =
    | ErrUserAlreadyExists | ErrInvalidCredentials | ErrTokenInvalid
    | ErrUserNotFound | ErrUnauthorized | ErrPermissionDenied | Internal

  datatype Outcome =
    | Registered(user: User)
    | LoggedIn(user: User)
    | Refreshed(presented: Id, issued: Id)
    | LoggedOut
    | RoleUpdated(user: User)
    | Refused(reason: Reason)

  /** A call, just before the operation that gives the state its name. */
  datatype Pc =
    | RegisterGetByEmail(email: Id, username: string, password: string)
    | RegisterCreate(user: User)
    | RegisterGenerate(user: User)
    | RegisterStore(user: User, newToken: Token)
    | LoginGetByEmail(email: Id)
    | LoginGenerate(user: User)
    | LoginStore(user: User, newToken: Token)
    | RefreshGet(presented: Id)
    | RefreshGetByID(presented: Id, copy: Token)
    | RefreshRevoke(presented: Id, user: User)
    | RefreshGenerate(presented: Id, user: User)
    | RefreshStore(presented: Id, user: User, newToken: Token)
    | LogoutRevoke(presented: Id)
    | LogoutAllRevoke(userId: Id)
    | UpdateRoleGetByID(userId: Id, role: Role)
    | UpdateRoleUpdate(user: User)
    | Done(outcome: Outcome)

  /** `issued` holds every uuid generated so far. */
  datatype State = State(users: Users, tokens: Tokens, calls: map<nat, Pc>, cancelled: set<nat>, issued: set<Id>)

  /**
   * `Advance` moves call `c` by one step. The other arguments are what the step may read from
   * outside: the clock, a new uuid, the expiry of a new token, and whether a password check,
   * a hash or a signature succeeds.
   */
  datatype Action =
    | Begin(c: nat, pc: Pc)
    | Cancel(c: nat)
    | Advance(c: nat, now: Time, uuid: Id, expiresAt: Time, ok: bool)

  predicate IsStart(pc: Pc) {
    pc.RegisterGetByEmail? || pc.LoginGetByEmail? || pc.RefreshGet? || pc.LogoutRevoke? ||
    pc.LogoutAllRevoke? || pc.UpdateRoleGetByID?
  }

  const EMPTY := State(Users(map[], map[]), Tokens(map[], map[]), map[], {}, {})

  function Refuse(s: State, c: nat, reason: Reason): State {
    Goto(s, c, Done(Refused(reason)))
  }

  function Goto(s: State, c: nat, pc: Pc): State {
    s.(calls := s.calls[c := pc])
  }

  /** One step; an action that does not apply, or whose uuid is not new, leaves the state alone. */
  function Step(s: State, a: Action): State {
    match a
    case Begin(c, pc) => if c !in s.calls && IsStart(pc) then Goto(s, c, pc) else s
    case Cancel(c) => s.(cancelled := s.cancelled + {c})
    case Advance(c, now, uuid, expiresAt, ok) =>
      if c !in s.calls then s
      else
        var pc := s.calls[c];
        var live := c !in s.cancelled;
        if AtUsers(pc) then UserStep(s, c, live, now, uuid, ok)
        else if AtGenerate(pc) then GenerateStep(s, c, uuid, expiresAt, ok)
        else TokenStep(s, c, live, now)
  }

  /** The next operation is one of the user repository, and needs no token. */
  predicate AtUsers(pc: Pc) {
    pc.RegisterGetByEmail? || pc.RegisterCreate? || pc.LoginGetByEmail? || pc.UpdateRoleGetByID? || pc.UpdateRoleUpdate?
  }

  predicate AtGenerate(pc: Pc) {
    pc.RegisterGenerate? || pc.LoginGenerate? || pc.RefreshGenerate?
  }

  /** The steps that look at or change the user repository only. */
  function UserStep(s: State, c: nat, live: bool, now: Time, uuid: Id, ok: bool): State
    requires c in s.calls
  {
    match s.calls[c]
    case RegisterGetByEmail(email, username, password) =>
      var r := S.GetByEmail(s.users, live, email);
      if r.Ok? then Refuse(s, c, ErrUserAlreadyExists)
      else if r.error != UserNotFound || !ok then Refuse(s, c, Internal)
      else if uuid in s.issued then s
      else
        var user := User(uuid, email, username, password, USER, true, 0, 0);
        Goto(s.(issued := s.issued + {uuid}), c, RegisterCreate(user))
    case RegisterCreate(user) =>
      var (users, r) := S.Create(s.users, live, user, now);
      var next :=
        if r.Ok? then RegisterGenerate(r.value)
        else Done(Refused(if r.error == UserAlreadyExists then ErrUserAlreadyExists else Internal));
      Goto(s.(users := users), c, next)
    case LoginGetByEmail(email) =>
      var r := S.GetByEmail(s.users, live, email);
      if r.Err? then Refuse(s, c, if r.error == UserNotFound then ErrInvalidCredentials else Internal)
      else if !ok then Refuse(s, c, ErrInvalidCredentials)
      else if !r.value.isActive then Refuse(s, c, ErrUnauthorized)
      else Goto(s, c, LoginGenerate(r.value))
    case UpdateRoleGetByID(userId, role) =>
      var r := S.GetByID(s.users, live, userId);
      if r.Err? then Refuse(s, c, if r.error == UserNotFound then ErrUserNotFound else Internal)
      else Goto(s, c, UpdateRoleUpdate(r.value.(role := role, updatedAt := now)))
    case UpdateRoleUpdate(user) =>
      var (users, r) := S.Update(s.users, live, user, now);
      Goto(s.(users := users), c, Done(if r.Ok? then RoleUpdated(r.value) else Refused(Internal)))
    case _ => s
  }

  /** Signer.GenerateTokens, which needs no repository. */
  function GenerateStep(s: State, c: nat, uuid: Id, expiresAt: Time, ok: bool): State
    requires c in s.calls && AtGenerate(s.calls[c])
  {
    var pc := s.calls[c];
    if !ok then Refuse(s, c, Internal)
    else if uuid in s.issued then s
    else
      var t := Token(pc.user.userId, uuid, expiresAt, false);
      var next :=
        if pc.RegisterGenerate? then RegisterStore(pc.user, t)
        else if pc.LoginGenerate? then LoginStore(pc.user, t)
        else RefreshStore(pc.presented, pc.user, t);
      Goto(s.(issued := s.issued + {uuid}), c, next)
  }

  /** The steps of a call that look at or change the token repository. */
  function TokenStep(s: State, c: nat, live: bool, now: Time): State
    requires c in s.calls
  {
    match s.calls[c]
    case RegisterStore(user, t) =>
      Goto(s.(tokens := S.Store(s.tokens, live, t).0), c, Done(Registered(user)))
    case LoginStore(user, t) =>
      var (tokens, r) := S.Store(s.tokens, live, t);
      Goto(s.(tokens := tokens), c, Done(if r.Ok? then LoggedIn(user) else Refused(Internal)))
    case RefreshGet(presented) =>
      var r := S.Get(s.tokens, live, presented, now);
      if r.Ok? then Goto(s, c, RefreshGetByID(presented, r.value))
      else Refuse(s, c, if r.error == ContextCancelled then Internal else ErrTokenInvalid)
    case RefreshGetByID(presented, copy) =>
      var r := S.GetByID(s.users, live, copy.userId);
      if r.Err? then Refuse(s, c, ErrUserNotFound)
      else if !r.value.isActive then Refuse(s, c, ErrUnauthorized)
      else Goto(s, c, RefreshRevoke(presented, r.value))
    case RefreshRevoke(presented, user) =>
      Goto(s.(tokens := S.Revoke(s.tokens, live, presented).0), c, RefreshGenerate(presented, user))
    case RefreshStore(presented, user, t) =>
      var (tokens, r) := S.Store(s.tokens, live, t);
      Goto(s.(tokens := tokens), c, Done(if r.Ok? then Refreshed(presented, t.token) else Refused(Internal)))
    case LogoutRevoke(presented) =>
      var (tokens, r) := S.Revoke(s.tokens, live, presented);
      Goto(s.(tokens := tokens), c,
        Done(if r.Ok? || r.error == TokenNotFound then LoggedOut else Refused(Internal)))
    case LogoutAllRevoke(userId) =>
      var (tokens, r) := S.RevokeAllByUser(s.tokens, live, userId);
      Goto(s.(tokens := tokens), c, Done(if r.Ok? then LoggedOut else Refused(Internal)))
    case _ => s
  }

  function Run(s: State, trace: seq<Action>): State {
    if trace == [] then s else Step(Run(s, trace[..|trace| - 1]), trace[|trace| - 1])
  }

  // ----- Invariants -----

  /** The token that a call has generated and not stored yet. */
  function Pending(pc: Pc): Option<Token> {
    if pc.RegisterStore? || pc.LoginStore? || pc.RefreshStore? then Some(pc.newToken) else None
  }

  ghost predicate IsRevoked(s: State, token: Id) {
    token in s.tokens.tokens && s.tokens.tokens[token].revoked
  }

  /** What a call relies on between its steps. */
  ghost predicate CallOk(s: State, c: nat) {
    c in s.calls ==>
      var pc := s.calls[c];
      && (Pending(pc).Some? ==>
            && Pending(pc).value.token in s.issued && Pending(pc).value.token !in s.tokens.tokens
            && Pending(pc).value.userId == pc.user.userId && !Pending(pc).value.revoked)
      && (pc.RefreshGetByID? ==>
            pc.presented in s.tokens.tokens && s.tokens.tokens[pc.presented].userId == pc.copy.userId)
      && (pc.RefreshRevoke? || pc.RefreshGenerate? || pc.RefreshStore? ==>
            pc.presented in s.tokens.tokens && s.tokens.tokens[pc.presented].userId == pc.user.userId)
      && (pc.RefreshGenerate? || pc.RefreshStore? ==> IsRevoked(s, pc.presented) || c in s.cancelled)
      && (pc.Done? && pc.outcome.Refreshed? ==> IsRevoked(s, pc.outcome.presented))
      && (pc.UpdateRoleUpdate? ==>
            pc.user.userId in s.users.users && s.users.users[pc.user.userId].email == pc.user.email)
  }

  /** No two calls hold the same new token. */
  ghost predicate PendingDistinct(s: State, c: nat, d: nat) {
    c in s.calls && d in s.calls && c != d && Pending(s.calls[c]).Some? && Pending(s.calls[d]).Some? ==>
      Pending(s.calls[c]).value.token != Pending(s.calls[d]).value.token
  }

  ghost predicate Inv(s: State) {
    && Indexed(s.users)
    && Listed(s.tokens)
    && s.tokens.tokens.Keys <= s.issued
    && (forall c :: CallOk(s, c))
    && (forall c, d :: PendingDistinct(s, c, d))
  }

  /** Users stay, with their e-mails. */
  ghost predicate UsersLater(s: Users, t: Users) {
    forall id :: id in s.users ==> id in t.users && t.users[id].email == s.users[id].email
  }

  /** Stored tokens stay, with their owners, and revoked ones stay revoked. */
  ghost predicate TokensLater(s: Tokens, t: Tokens) {
    forall x :: x in s.tokens ==>
      x in t.tokens && t.tokens[x].userId == s.tokens[x].userId && (s.tokens[x].revoked ==> t.tokens[x].revoked)
  }

  /** What never goes back. */
  ghost predicate Later(s: State, t: State) {
    && UsersLater(s.users, t.users) && TokensLater(s.tokens, t.tokens)
    && s.cancelled <= t.cancelled && s.issued <= t.issued
  }

  /** The step is a Store that succeeds, for user `userId`. */
  predicate StoresFor(s: State, a: Action, userId: Id) {
    && a.Advance? && a.c in s.calls && a.c !in s.cancelled
    && Pending(s.calls[a.c]).Some? && Pending(s.calls[a.c]).value.userId == userId
  }

  // ----- What one step does to the stores -----

  datatype TokenEffect = NoChange | Stores(newToken: Token) | Revokes(token: Id) | RevokesAll(userId: Id)

  function Apply(tokens: Tokens, e: TokenEffect): Tokens {
    match e
    case NoChange => tokens
    case Stores(t) => S.Store(tokens, true, t).0
    case Revokes(x) => S.Revoke(tokens, true, x).0
    case RevokesAll(u) => S.RevokeAllByUser(tokens, true, u).0
  }

  function EffectOf(s: State, a: Action): TokenEffect {
    if !a.Advance? || a.c !in s.calls || a.c in s.cancelled then NoChange
    else
      var pc := s.calls[a.c];
      if Pending(pc).Some? then Stores(Pending(pc).value)
      else if pc.RefreshRevoke? || pc.LogoutRevoke? then Revokes(pc.presented)
      else if pc.LogoutAllRevoke? then RevokesAll(pc.userId)
      else NoChange
  }

  lemma EffectIs(s: State, a: Action)
    ensures Step(s, a).tokens == Apply(s.tokens, EffectOf(s, a))
  {
  }

  lemma TokensKeep(s: State, a: Action)
    requires Inv(s)
    ensures Listed(Step(s, a).tokens) && Step(s, a).tokens.tokens.Keys <= s.issued
    ensures TokensLater(s.tokens, Step(s, a).tokens)
  {
    EffectIs(s, a);
    var e := EffectOf(s, a);
    if e.Stores? {
      assert CallOk(s, a.c);
      StoreKeepsListed(s.tokens, true, e.newToken);
    } else {
      RevokeKeepsListed(s.tokens, true, if e.Revokes? then e.token else "", if e.RevokesAll? then e.userId else "");
    }
  }

  /** The user repository changes only by a Create or an Update of a call that holds that user. */
  lemma UsersKeep(s: State, a: Action)
    requires Inv(s)
    ensures Indexed(Step(s, a).users) && UsersLater(s.users, Step(s, a).users)
  {
    if a.Advance? && a.c in s.calls {
      assert CallOk(s, a.c);
      var pc := s.calls[a.c];
      if pc.RegisterCreate? {
        CreateKeeps(s.users, a.c !in s.cancelled, pc.user, a.now);
      } else if pc.UpdateRoleUpdate? {
        UpdateKeeps(s.users, a.c !in s.cancelled, pc.user, a.now);
      }
    }
  }

  lemma CreateKeeps(s: Users, live: bool, user: User, now: Time)
    requires Indexed(s)
    ensures Indexed(S.Create(s, live, user, now).0) && UsersLater(s, S.Create(s, live, user, now).0)
  {
  }

  /** An update from a stale copy is harmless to the index, because the copy's e-mail is still right. */
  lemma UpdateKeeps(s: Users, live: bool, user: User, now: Time)
    requires Indexed(s) && user.userId in s.users && s.users[user.userId].email == user.email
    ensures Indexed(S.Update(s, live, user, now).0) && UsersLater(s, S.Update(s, live, user, now).0)
  {
  }

  lemma StepIsLater(s: State, a: Action)
    requires Inv(s)
    ensures Later(s, Step(s, a))
  {
    TokensKeep(s, a);
    UsersKeep(s, a);
  }

  /** A call that does not move keeps what it relies on. */
  lemma OthersKeep(s: State, a: Action, d: nat)
    requires Inv(s) && Later(s, Step(s, a)) && d in s.calls && Step(s, a).calls[d] == s.calls[d]
    requires a.Advance? ==> a.c != d
    ensures CallOk(Step(s, a), d)
  {
    assert CallOk(s, d);
    EffectIs(s, a);
    if EffectOf(s, a).Stores? {
      assert PendingDistinct(s, a.c, d);
    }
  }

  /** A call that advances arrives with what it relies on. */
  lemma AdvanceKeeps(s: State, a: Action)
    requires Inv(s) && Later(s, Step(s, a)) && a.Advance? && a.c in s.calls
    ensures CallOk(Step(s, a), a.c)
  {
    var live := a.c !in s.cancelled;
    if AtUsers(s.calls[a.c]) {
      UserStepKeeps(s, a.c, live, a.now, a.uuid, a.ok);
    } else if AtGenerate(s.calls[a.c]) {
      GenerateStepKeeps(s, a.c, a.uuid, a.expiresAt, a.ok);
    } else {
      TokenStepKeeps(s, a.c, live, a.now);
    }
  }

  lemma UserStepKeeps(s: State, c: nat, live: bool, now: Time, uuid: Id, ok: bool)
    requires Inv(s) && c in s.calls && AtUsers(s.calls[c])
    ensures CallOk(UserStep(s, c, live, now, uuid, ok), c)
  {
    if s.calls[c].UpdateRoleGetByID? {
      assert Indexed(s.users);
    }
  }

  lemma GenerateStepKeeps(s: State, c: nat, uuid: Id, expiresAt: Time, ok: bool)
    requires Inv(s) && c in s.calls && AtGenerate(s.calls[c])
    ensures CallOk(GenerateStep(s, c, uuid, expiresAt, ok), c)
  {
    assert CallOk(s, c);
  }

  lemma TokenStepKeeps(s: State, c: nat, live: bool, now: Time)
    requires Inv(s) && c in s.calls && !AtUsers(s.calls[c]) && !AtGenerate(s.calls[c]) && live == (c !in s.cancelled)
    requires TokensLater(s.tokens, TokenStep(s, c, live, now).tokens)
    ensures CallOk(TokenStep(s, c, live, now), c)
  {
    assert CallOk(s, c);
    if s.calls[c].RefreshGetByID? {
      assert Indexed(s.users);
    }
  }

  lemma PendingKeep(s: State, a: Action, c: nat, d: nat)
    requires Inv(s)
    ensures PendingDistinct(Step(s, a), c, d)
  {
    assert PendingDistinct(s, c, d) && CallOk(s, c) && CallOk(s, d);
    if a.Advance? && a.c in s.calls {
      NewTokenIsNew(s, a);
    }
  }

  /** A step that leaves its call with a token to store has just drawn the token's uuid. */
  lemma NewTokenIsNew(s: State, a: Action)
    requires a.Advance? && a.c in s.calls
    ensures var t := Step(s, a);
      && (forall d :: d != a.c && d in t.calls ==> d in s.calls && t.calls[d] == s.calls[d])
      && (Pending(t.calls[a.c]).Some? ==>
            Pending(t.calls[a.c]) == Pending(s.calls[a.c]) || Pending(t.calls[a.c]).value.token !in s.issued)
  {
    if AtUsers(s.calls[a.c]) {
      UserStepDrawsNone(s, a.c, a.c !in s.cancelled, a.now, a.uuid, a.ok);
    } else if !AtGenerate(s.calls[a.c]) {
      TokenStepDrawsNone(s, a.c, a.c !in s.cancelled, a.now);
    }
  }

  /** The step moves only its own call, and leaves it no token to store. */
  ghost predicate DrawsNone(s: State, t: State, c: nat) {
    && c in s.calls && t.calls.Keys == s.calls.Keys && (forall d :: d != c && d in s.calls ==> t.calls[d] == s.calls[d])
    && (t.calls[c] == s.calls[c] || Pending(t.calls[c]).None?)
  }

  lemma UserStepDrawsNone(s: State, c: nat, live: bool, now: Time, uuid: Id, ok: bool)
    requires c in s.calls
    ensures DrawsNone(s, UserStep(s, c, live, now, uuid, ok), c)
  {
  }

  lemma TokenStepDrawsNone(s: State, c: nat, live: bool, now: Time)
    requires c in s.calls
    ensures DrawsNone(s, TokenStep(s, c, live, now), c)
  {
  }

  lemma CallKeeps(s: State, a: Action, c: nat)
    requires Inv(s) && Later(s, Step(s, a))
    ensures CallOk(Step(s, a), c)
  {
    if a.Advance? && a.c == c {
      if c in s.calls {
        AdvanceKeeps(s, a);
      }
    } else if c in s.calls {
      OthersKeep(s, a, c);
    }
  }

  lemma StepKeepsInv(s: State, a: Action)
    requires Inv(s)
    ensures Inv(Step(s, a)) && Later(s, Step(s, a))
  {
    StepIsLater(s, a);
    TokensKeep(s, a);
    UsersKeep(s, a);
    forall c ensures CallOk(Step(s, a), c) {
      CallKeeps(s, a, c);
    }
    forall c, d ensures PendingDistinct(Step(s, a), c, d) {
      PendingKeep(s, a, c, d);
    }
  }

  lemma {:induction false} RunKeepsInv(s: State, trace: seq<Action>)
    requires Inv(s)
    ensures Inv(Run(s, trace)) && Later(s, Run(s, trace))
  {
    if trace != [] {
      RunKeepsInv(s, trace[..|trace| - 1]);
      StepKeepsInv(Run(s, trace[..|trace| - 1]), trace[|trace| - 1]);
    }
  }

  lemma EmptyInv()
    ensures Inv(EMPTY)
  {
  }

  lemma RunAppend(s: State, first: seq<Action>, second: seq<Action>)
    ensures Run(s, first + second) == Run(Run(s, first), second)
  {
    if second == [] {
      assert first + second == first;
    } else {
      assert (first + second)[..|first + second| - 1] == first + second[..|second| - 1];
      RunAppend(s, first, second[..|second| - 1]);
    }
  }

  /** Nothing but call `c` acts: it takes steps, and its context may be cancelled at any moment. */
  predicate Alone(trace: seq<Action>, c: nat) {
    forall i :: 0 <= i < |trace| ==> (trace[i].Advance? || trace[i].Cancel?) && trace[i].c == c
  }

  lemma RevokeTakes(before: Tokens, x: Id)
    requires x in before.tokens
    ensures forall u :: Unrevoked(S.Revoke(before, true, x).0, u) == Unrevoked(before, u) - {x}
  {
  }

  lemma StoreAdds(before: Tokens, t: Token)
    requires t.token !in before.tokens && !t.revoked
    ensures forall u ::
      Unrevoked(S.Store(before, true, t).0, u) == Unrevoked(before, u) + (if u == t.userId then {t.token} else {})
  {
  }
}
