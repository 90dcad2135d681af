/**
 * Over every interleaving: a refresh succeeds only with a token that was stored, unrevoked and unexpired when it was
 * looked up, for a user who was active when looked up.
 */
module AuthRefresh {
  import opened Common
  import opened S = UserStores
  import opened P = AuthProtocol

  /** The step looks a refresh's token up, under a live context. */
  predicate LooksUp(s: State, a: Action, x: Id) {
    a.Advance? && a.c in s.calls && a.c !in s.cancelled && s.calls[a.c] == RefreshGet(x)
  }

  /**
   * Such a step is refused if and only if the token is not stored, is revoked, or has expired by the clock; otherwise
   * the call goes on with a copy of it. The stores stay as they are.
   */
  lemma LookUpMeans(s: State, a: Action, x: Id)
    requires LooksUp(s, a, x)
    ensures var (t, tokens) := (Step(s, a), s.tokens.tokens);
      && t.users == s.users && t.tokens == s.tokens
      && (t.calls[a.c] == Done(Refused(ErrTokenInvalid)) <==>
            x !in tokens || tokens[x].revoked || tokens[x].expiresAt < a.now)
      && (t.calls[a.c] != Done(Refused(ErrTokenInvalid)) ==> t.calls[a.c] == RefreshGetByID(x, tokens[x]))
  {
  }

  /** The step finds the token good. */
  ghost predicate FindsGood(s: State, a: Action, x: Id) {
    && LooksUp(s, a, x)
    && x in s.tokens.tokens && !s.tokens.tokens[x].revoked && a.now <= s.tokens.tokens[x].expiresAt
  }

  /** The step finds the token's user active. */
  ghost predicate FindsActive(s: State, a: Action, x: Id) {
    && a.Advance? && a.c in s.calls && s.calls[a.c].RefreshGetByID? && s.calls[a.c].presented == x
    && x in s.tokens.tokens && s.tokens.tokens[x].userId in s.users.users
    && s.users.users[s.tokens.tokens[x].userId].isActive
  }

  /** The call has looked its token up, and its user. */
  predicate PastUser(pc: Pc, x: Id) {
    || ((pc.RefreshRevoke? || pc.RefreshGenerate? || pc.RefreshStore?) && pc.presented == x)
    || (pc.Done? && pc.outcome.Refreshed? && pc.outcome.presented == x)
  }

  predicate PastToken(pc: Pc, x: Id) {
    (pc.RefreshGetByID? && pc.presented == x) || PastUser(pc, x)
  }

  lemma PastTokenStep(s: State, a: Action, c: nat, x: Id)
    requires c in Step(s, a).calls && PastToken(Step(s, a).calls[c], x)
    ensures c in s.calls && (PastToken(s.calls[c], x) || (FindsGood(s, a, x) && a.c == c))
  {
    if a.Advance? && a.c == c && c in s.calls {
      UserStepRefreshesNothing(s, c, c !in s.cancelled, a.now, a.uuid, a.ok);
    }
  }

  /** The steps at the user repository alone belong to other calls. */
  lemma UserStepRefreshesNothing(s: State, c: nat, live: bool, now: Time, uuid: Id, ok: bool)
    requires c in s.calls
    ensures var pc := UserStep(s, c, live, now, uuid, ok).calls[c];
      pc == s.calls[c] || forall x :: !PastToken(pc, x)
  {
  }

  lemma PastUserStep(s: State, a: Action, c: nat, x: Id)
    requires Inv(s) && c in Step(s, a).calls && PastUser(Step(s, a).calls[c], x)
    ensures c in s.calls && (PastUser(s.calls[c], x) || (FindsActive(s, a, x) && a.c == c))
  {
    if a.Advance? && a.c == c && c in s.calls {
      if AtUsers(s.calls[c]) {
        UserStepRefreshesNothing(s, c, c !in s.cancelled, a.now, a.uuid, a.ok);
      } else if !AtGenerate(s.calls[c]) && !PastUser(s.calls[c], x) {
        TokenStepFindsActive(s, c, c !in s.cancelled, a.now, x);
      }
    }
  }

  lemma TokenStepFindsActive(s: State, c: nat, live: bool, now: Time, x: Id)
    requires Inv(s) && c in s.calls && !AtUsers(s.calls[c]) && !AtGenerate(s.calls[c])
    requires PastUser(TokenStep(s, c, live, now).calls[c], x) && !PastUser(s.calls[c], x)
    ensures s.calls[c].RefreshGetByID? && s.calls[c].presented == x && x in s.tokens.tokens
    ensures var owner := s.tokens.tokens[x].userId; owner in s.users.users && s.users.users[owner].isActive
  {
    assert CallOk(s, c);
  }

  lemma {:induction false} TokenStepOf(trace: seq<Action>, c: nat, x: Id) returns (g: nat)
    requires var s := Run(EMPTY, trace); c in s.calls && PastToken(s.calls[c], x)
    ensures g < |trace| && trace[g].Advance? && trace[g].c == c && FindsGood(Run(EMPTY, trace[..g]), trace[g], x)
  {
    var (before, a) := (trace[..|trace| - 1], trace[|trace| - 1]);
    var s := Run(EMPTY, before);
    PastTokenStep(s, a, c, x);
    if PastToken(s.calls[c], x) {
      g := TokenStepOf(before, c, x);
      assert before[..g] == trace[..g];
    } else {
      g := |trace| - 1;
    }
  }

  lemma {:induction false} UserStepOf(trace: seq<Action>, c: nat, x: Id) returns (g: nat)
    requires var s := Run(EMPTY, trace); c in s.calls && PastUser(s.calls[c], x)
    ensures g < |trace| && trace[g].Advance? && trace[g].c == c && FindsActive(Run(EMPTY, trace[..g]), trace[g], x)
  {
    var (before, a) := (trace[..|trace| - 1], trace[|trace| - 1]);
    var s := Run(EMPTY, before);
    EmptyInv();
    RunKeepsInv(EMPTY, before);
    PastUserStep(s, a, c, x);
    if PastUser(s.calls[c], x) {
      g := UserStepOf(before, c, x);
      assert before[..g] == trace[..g];
    } else {
      g := |trace| - 1;
    }
  }

  /**
   * Every successful refresh, whatever else runs: at step `g` it found its token stored, unrevoked and, by the clock
   * of that step, unexpired; and at step `u` it found the token's user active.
   */
  lemma RefreshedTokenWasGood(trace: seq<Action>, c: nat) returns (g: nat, u: nat)
    requires var s := Run(EMPTY, trace); c in s.calls && s.calls[c].Done? && s.calls[c].outcome.Refreshed?
    ensures g < |trace| && u < |trace| && trace[g].Advance? && trace[g].c == trace[u].c == c
    ensures var (s, x) := (Run(EMPTY, trace[..g]), Run(EMPTY, trace).calls[c].outcome.presented);
      && x in s.tokens.tokens && !s.tokens.tokens[x].revoked && trace[g].now <= s.tokens.tokens[x].expiresAt
    ensures FindsActive(Run(EMPTY, trace[..u]), trace[u], Run(EMPTY, trace).calls[c].outcome.presented)
  {
    var x := Run(EMPTY, trace).calls[c].outcome.presented;
    g := TokenStepOf(trace, c, x);
    u := UserStepOf(trace, c, x);
  }
}
