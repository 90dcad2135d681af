/**
 * What holds of every run of the AuthService machine: intact indexes, revocation that stays, and refreshes that
 * succeed only once their token is revoked.
 */
module AuthResults {
  import opened Common
  import opened S = UserStores
  import opened P = AuthProtocol

  // ----- Results over every interleaving -----

  /** Both indexes are right in every reachable state. */
  lemma IndexesAreRight(trace: seq<Action>)
    ensures var s := Run(EMPTY, trace);
      && (forall u, t :: t in ListOf(s.tokens, u) <==> t in s.tokens.tokens && s.tokens.tokens[t].userId == u)
      && (forall u :: Distinct(ListOf(s.tokens, u)))
      && (forall id :: id in s.users.users ==>
            s.users.users[id].email in s.users.emailIndex && s.users.emailIndex[s.users.users[id].email] == id)
      && (forall email :: email in s.users.emailIndex ==>
            s.users.emailIndex[email] in s.users.users && s.users.users[s.users.emailIndex[email]].email == email)
  {
    EmptyInv();
    RunKeepsInv(EMPTY, trace);
  }

  /** Between any two moments: users keep their e-mails, tokens stay stored, and revoked ones revoked. */
  lemma NothingGoesBack(past: seq<Action>, future: seq<Action>)
    ensures var (s, t) := (Run(EMPTY, past), Run(EMPTY, past + future));
      && (forall id :: id in s.users.users ==>
            id in t.users.users && t.users.users[id].email == s.users.users[id].email)
      && (forall x :: x in s.tokens.tokens ==>
            x in t.tokens.tokens && (s.tokens.tokens[x].revoked ==> t.tokens.tokens[x].revoked))
  {
    EmptyInv();
    RunKeepsInv(EMPTY, past);
    RunKeepsInv(Run(EMPTY, past), future);
    RunAppend(EMPTY, past, future);
  }

  /** The number of successful Store steps for a user in the trace. */
  function StoreCount(s: State, trace: seq<Action>, userId: Id): nat {
    if trace == [] then 0
    else
      var init := trace[..|trace| - 1];
      StoreCount(s, init, userId) + if StoresFor(Run(s, init), trace[|trace| - 1], userId) then 1 else 0
  }

  /** The user's unrevoked tokens that the effect revokes: the one a Revoke names, or all at a RevokeAllByUser. */
  function TakenFrom(tokens: Tokens, e: TokenEffect, userId: Id): set<Id> {
    match e
    case Revokes(x) => Unrevoked(tokens, userId) * {x}
    case RevokesAll(u) => if u == userId then Unrevoked(tokens, userId) else {}
    case _ => {}
  }

  function Taken(s: State, a: Action, userId: Id): set<Id> {
    TakenFrom(s.tokens, EffectOf(s, a), userId)
  }

  /** The number of the user's tokens that the steps of the trace revoke. */
  function TakenCount(s: State, trace: seq<Action>, userId: Id): nat {
    if trace == [] then 0
    else
      var init := trace[..|trace| - 1];
      TakenCount(s, init, userId) + |Taken(Run(s, init), trace[|trace| - 1], userId)|
  }

  lemma RevokeCounts(tokens: Tokens, e: TokenEffect, userId: Id)
    requires Listed(tokens) && !e.Stores?
    ensures |Unrevoked(Apply(tokens, e), userId)| == |Unrevoked(tokens, userId)| - |TakenFrom(tokens, e, userId)|
  {
    var mine := Unrevoked(tokens, userId);
    match e {
      case NoChange =>
      case Revokes(x) =>
        if x in tokens.tokens {
          RevokeTakes(tokens, x);
        }
        assert Unrevoked(Apply(tokens, e), userId) == mine - TakenFrom(tokens, e, userId);
      case RevokesAll(u) =>
        RevokeAllRevokesAll(tokens, u);
    }
  }

  lemma StoreCounts(tokens: Tokens, t: Token, userId: Id)
    requires t.token !in tokens.tokens && !t.revoked
    ensures |Unrevoked(Apply(tokens, Stores(t)), userId)| ==
      |Unrevoked(tokens, userId)| + if t.userId == userId then 1 else 0
  {
    StoreAdds(tokens, t);
    assert t.token !in Unrevoked(tokens, userId);
  }

  /** A step stores one unrevoked token, or revokes some, or leaves the user's tokens as they are. */
  lemma UnrevokedStep(s: State, a: Action, userId: Id)
    requires Inv(s)
    ensures |Unrevoked(Step(s, a).tokens, userId)| ==
      |Unrevoked(s.tokens, userId)| - |Taken(s, a, userId)| + (if StoresFor(s, a, userId) then 1 else 0)
  {
    EffectIs(s, a);
    var e := EffectOf(s, a);
    if e.Stores? {
      assert CallOk(s, a.c);
      StoreCounts(s.tokens, e.newToken, userId);
    } else {
      RevokeCounts(s.tokens, e, userId);
    }
  }

  /** Over any run a user's unrevoked tokens change by the Store steps for the user, less the tokens revoked. */
  lemma {:induction false} UnrevokedGrowth(s: State, trace: seq<Action>, userId: Id)
    requires Inv(s)
    ensures |Unrevoked(Run(s, trace).tokens, userId)| ==
      |Unrevoked(s.tokens, userId)| + StoreCount(s, trace, userId) - TakenCount(s, trace, userId)
  {
    if trace != [] {
      var init := trace[..|trace| - 1];
      UnrevokedGrowth(s, init, userId);
      RunKeepsInv(s, init);
      UnrevokedStep(Run(s, init), trace[|trace| - 1], userId);
    }
  }

  /**
   * Revocation safety: after the step of a LogoutAll call that reaches the repository, however
   * the other calls go on, no token stored before it is ever unrevoked again, and the user's
   * unrevoked tokens number at most the Store steps for the user since.
   */
  lemma LogoutAllIsFinal(past: seq<Action>, a: Action, future: seq<Action>)
    requires a.Advance? && a.c in Run(EMPTY, past).calls && Run(EMPTY, past).calls[a.c].LogoutAllRevoke?
    requires a.c !in Run(EMPTY, past).cancelled
    ensures var s := Run(EMPTY, past);
      var (userId, now) := (s.calls[a.c].userId, Run(Step(s, a), future));
      && Unrevoked(now.tokens, userId) !! s.tokens.tokens.Keys
      && |Unrevoked(now.tokens, userId)| <= StoreCount(Step(s, a), future, userId)
  {
    EmptyInv();
    RunKeepsInv(EMPTY, past);
    var s := Run(EMPTY, past);
    var userId := s.calls[a.c].userId;
    RevokeAllRevokesAll(s.tokens, userId);
    StepKeepsInv(s, a);
    NothingUnrevokedStays(Step(s, a), future, userId);
  }

  lemma NothingUnrevokedStays(s: State, future: seq<Action>, userId: Id)
    requires Inv(s) && Unrevoked(s.tokens, userId) == {}
    ensures Unrevoked(Run(s, future).tokens, userId) !! s.tokens.tokens.Keys
    ensures |Unrevoked(Run(s, future).tokens, userId)| <= StoreCount(s, future, userId)
  {
    RunKeepsInv(s, future);
    UnrevokedGrowth(s, future, userId);
    forall x | x in s.tokens.tokens ensures x !in Unrevoked(Run(s, future).tokens, userId) {
      assert x !in Unrevoked(s.tokens, userId);
    }
  }

  /**
   * A successful RefreshToken implies that the presented token is revoked, although Revoke's
   * error is only logged, at that moment and for ever after.
   */
  lemma RefreshImpliesRevoked(past: seq<Action>, c: nat, future: seq<Action>)
    requires c in Run(EMPTY, past).calls && Run(EMPTY, past).calls[c].Done?
    requires Run(EMPTY, past).calls[c].outcome.Refreshed?
    ensures IsRevoked(Run(EMPTY, past), Run(EMPTY, past).calls[c].outcome.presented)
    ensures IsRevoked(Run(Run(EMPTY, past), future), Run(EMPTY, past).calls[c].outcome.presented)
  {
    EmptyInv();
    RunKeepsInv(EMPTY, past);
    assert CallOk(Run(EMPTY, past), c);
    RunKeepsInv(Run(EMPTY, past), future);
  }

  /** Hence every RefreshToken call that reaches its Get later is told that the token is invalid. */
  lemma RefreshedTokenIsSpent(past: seq<Action>, c: nat, future: seq<Action>, a: Action)
    requires c in Run(EMPTY, past).calls && Run(EMPTY, past).calls[c].Done?
    requires Run(EMPTY, past).calls[c].outcome.Refreshed?
    requires var s := Run(Run(EMPTY, past), future);
      && a.Advance? && a.c in s.calls && a.c !in s.cancelled
      && s.calls[a.c] == RefreshGet(Run(EMPTY, past).calls[c].outcome.presented)
    ensures Step(Run(Run(EMPTY, past), future), a).calls[a.c] == Done(Refused(ErrTokenInvalid))
  {
    RefreshImpliesRevoked(past, c, future);
  }

  // ----- One refresh on its own -----

  /** The user of the presented token swaps it for the new one; other users' tokens are as before. */
  ghost predicate Swapped(before: Tokens, after: Tokens, presented: Id, issued: Id) {
    && presented in before.tokens
    && var owner := before.tokens[presented].userId;
    && presented in Unrevoked(before, owner) && issued !in before.tokens
    && Unrevoked(after, owner) == Unrevoked(before, owner) - {presented} + {issued}
    && forall u :: u != owner ==> Unrevoked(after, u) == Unrevoked(before, u)
  }

  /** How far a lone refresh has come since state `s`. */
  ghost predicate Progress(s: State, t: State, c: nat, presented: Id) {
    && c in t.calls && t.users == s.users
    && match t.calls[c]
       case RefreshGet(x) => x == presented && t.tokens == s.tokens
       case RefreshGetByID(x, copy) => x == presented && t.tokens == s.tokens && IsLiveToken(s, x, copy.userId)
       case RefreshRevoke(x, user) => x == presented && t.tokens == s.tokens && IsLiveToken(s, x, user.userId)
       case RefreshGenerate(x, user) => x == presented && HalfWay(s, t, c, presented, user.userId)
       case RefreshStore(x, user, t') =>
         x == presented && HalfWay(s, t, c, presented, user.userId) && t'.userId == user.userId && !t'.revoked
       case Done(Refreshed(x, y)) => x == presented && Swapped(s.tokens, t.tokens, presented, y)
       case Done(_) => true
       case _ => false
  }

  ghost predicate IsLiveToken(s: State, token: Id, owner: Id) {
    token in s.tokens.tokens && !s.tokens.tokens[token].revoked && s.tokens.tokens[token].userId == owner
  }

  ghost predicate HalfWay(s: State, t: State, c: nat, presented: Id, owner: Id) {
    && IsLiveToken(s, presented, owner)
    && (c in t.cancelled || t.tokens == S.Revoke(s.tokens, true, presented).0)
  }

  lemma ProgressStep(s: State, t: State, a: Action, presented: Id)
    requires Inv(s) && Inv(t) && Progress(s, t, a.c, presented) && (a.Advance? || a.Cancel?)
    ensures Progress(s, Step(t, a), a.c, presented)
  {
    assert CallOk(t, a.c);
    if a.Advance? && t.calls[a.c].RefreshStore? && a.c !in t.cancelled {
      StoreSwaps(s.tokens, presented, t.calls[a.c].newToken);
    }
  }

  lemma StoreSwaps(before: Tokens, presented: Id, newToken: Token)
    requires presented in before.tokens && !before.tokens[presented].revoked
    requires newToken.token !in before.tokens && !newToken.revoked && newToken.userId == before.tokens[presented].userId
    ensures Swapped(before, S.Store(S.Revoke(before, true, presented).0, true, newToken).0, presented, newToken.token)
  {
    RevokeTakes(before, presented);
    StoreAdds(S.Revoke(before, true, presented).0, newToken);
  }

  lemma {:induction false} LoneRefreshProgress(s: State, c: nat, trace: seq<Action>)
    requires Inv(s) && c in s.calls && s.calls[c].RefreshGet? && Alone(trace, c)
    ensures Progress(s, Run(s, trace), c, s.calls[c].presented)
  {
    if trace != [] {
      LoneRefreshProgress(s, c, trace[..|trace| - 1]);
      RunKeepsInv(s, trace[..|trace| - 1]);
      ProgressStep(s, Run(s, trace[..|trace| - 1]), trace[|trace| - 1], s.calls[c].presented);
    }
  }

  /**
   * Run on its own, a successful refresh trades the presented token for the new one, so the
   * number of unrevoked tokens of every user is conserved.
   */
  lemma LoneRefreshConserves(past: seq<Action>, c: nat, trace: seq<Action>, userId: Id)
    requires c in Run(EMPTY, past).calls && Run(EMPTY, past).calls[c].RefreshGet? && Alone(trace, c)
    ensures var (s, t) := (Run(EMPTY, past), Run(Run(EMPTY, past), trace));
      c in t.calls && t.calls[c].Done? && t.calls[c].outcome.Refreshed? ==>
        && Swapped(s.tokens, t.tokens, s.calls[c].presented, t.calls[c].outcome.issued)
        && |Unrevoked(t.tokens, userId)| == |Unrevoked(s.tokens, userId)|
  {
    EmptyInv();
    RunKeepsInv(EMPTY, past);
    LoneRefreshProgress(Run(EMPTY, past), c, trace);
  }
}
