/**
 * When refreshing conserves the number of a user's unrevoked tokens: exactly when the presented token is still
 * unrevoked as the refresh comes to revoke it. Hence k overlapping refreshes of one token leave k - 1 too many.
 */
module AuthConservation {
  import opened Common
  import opened S = UserStores
  import opened P = AuthProtocol

  function Count(s: State, userId: Id): nat {
    |Unrevoked(s.tokens, userId)|
  }

  // ----- The two steps of a refresh that matter -----

  /** The step is the Revoke of a refresh, and its context is live. */
  predicate RevokesFor(s: State, a: Action) {
    a.Advance? && a.c in s.calls && a.c !in s.cancelled && s.calls[a.c].RefreshRevoke?
  }

  /** The step is the Store of a refresh, and its context is live. */
  predicate StoresNew(s: State, a: Action) {
    a.Advance? && a.c in s.calls && a.c !in s.cancelled && s.calls[a.c].RefreshStore?
  }

  lemma RevokeEffect(s: State, a: Action, userId: Id)
    requires Inv(s) && RevokesFor(s, a)
    ensures var x := s.calls[a.c].presented;
      && x in s.tokens.tokens
      && Count(Step(s, a), userId) == Count(s, userId) - (if x in Unrevoked(s.tokens, userId) then 1 else 0)
      && (x in Unrevoked(s.tokens, userId) <==>
            userId == s.tokens.tokens[x].userId && !s.tokens.tokens[x].revoked)
  {
    assert CallOk(s, a.c);
    RevokeTakes(s.tokens, s.calls[a.c].presented);
    EffectIs(s, a);
  }

  lemma StoreEffect(s: State, a: Action, userId: Id)
    requires Inv(s) && StoresNew(s, a) && !s.calls[a.c].newToken.revoked
    ensures var x := s.calls[a.c].presented;
      && x in s.tokens.tokens
      && Count(Step(s, a), userId) == Count(s, userId) + (if userId == s.tokens.tokens[x].userId then 1 else 0)
  {
    assert CallOk(s, a.c);
    EffectIs(s, a);
    StoreAdds(s.tokens, s.calls[a.c].newToken);
    assert s.calls[a.c].newToken.token !in Unrevoked(s.tokens, userId);
  }

  /** A refresh that is past its Revoke ran it at step `r` of the trace. */
  lemma {:induction false} RevokeStepOf(trace: seq<Action>, c: nat) returns (r: nat)
    requires var s := Run(EMPTY, trace); c in s.calls && (s.calls[c].RefreshGenerate? || s.calls[c].RefreshStore?)
    ensures r < |trace| && trace[r].Advance? && trace[r].c == c
    ensures var (s, past) := (Run(EMPTY, trace), Run(EMPTY, trace[..r]));
      && c in past.calls && past.calls[c] == RefreshRevoke(s.calls[c].presented, s.calls[c].user)
      && (s.calls[c].RefreshStore? ==> !s.calls[c].newToken.revoked)
  {
    var (before, a) := (trace[..|trace| - 1], trace[|trace| - 1]);
    var (s, t) := (Run(EMPTY, before), Run(EMPTY, trace));
    PcBefore(s, a, c);
    if c in s.calls && s.calls[c].RefreshRevoke? && t.calls[c].RefreshGenerate? {
      r := |trace| - 1;
    } else {
      r := RevokeStepOf(before, c);
      assert before[..r] == trace[..r];
    }
  }

  lemma PcBefore(s: State, a: Action, c: nat)
    requires c in Step(s, a).calls
    requires Step(s, a).calls[c].RefreshGenerate? || Step(s, a).calls[c].RefreshStore?
    ensures var pc := Step(s, a).calls[c];
      && c in s.calls
      && (s.calls[c] == pc
          || (pc.RefreshGenerate? && a.Advance? && a.c == c && s.calls[c] == RefreshRevoke(pc.presented, pc.user))
          || (pc.RefreshStore? && s.calls[c] == RefreshGenerate(pc.presented, pc.user) && !pc.newToken.revoked))
  {
  }

  /** Where a successful refresh ran its Revoke, step `r`, and its Store, step `t`. */
  lemma {:induction false} StepsOf(trace: seq<Action>, c: nat) returns (r: nat, t: nat)
    requires var s := Run(EMPTY, trace); c in s.calls && s.calls[c].Done? && s.calls[c].outcome.Refreshed?
    ensures r < t < |trace| && trace[r].c == trace[t].c == c
    ensures RevokesFor(Run(EMPTY, trace[..r]), trace[r]) && StoresNew(Run(EMPTY, trace[..t]), trace[t])
    ensures var (x, y) := (Run(EMPTY, trace).calls[c].outcome.presented, Run(EMPTY, trace).calls[c].outcome.issued);
      && Run(EMPTY, trace[..r]).calls[c].presented == Run(EMPTY, trace[..t]).calls[c].presented == x
      && Run(EMPTY, trace[..t]).calls[c].newToken.token == y && !Run(EMPTY, trace[..t]).calls[c].newToken.revoked
  {
    var (before, a) := (trace[..|trace| - 1], trace[|trace| - 1]);
    var s := Run(EMPTY, before);
    DoneBefore(s, a, c);
    if c in s.calls && s.calls[c].Done? {
      r, t := StepsOf(before, c);
      assert before[..r] == trace[..r] && before[..t] == trace[..t];
    } else {
      t := |trace| - 1;
      r := RevokeStepOf(before, c);
      assert before[..r] == trace[..r];
      Moments(trace, r, t);
    }
  }

  lemma DoneBefore(s: State, a: Action, c: nat)
    requires c in Step(s, a).calls && Step(s, a).calls[c].Done? && Step(s, a).calls[c].outcome.Refreshed?
    ensures c in s.calls
    ensures s.calls[c] == Step(s, a).calls[c] ||
      (StoresNew(s, a) && a.c == c && s.calls[c].presented == Step(s, a).calls[c].outcome.presented
       && s.calls[c].newToken.token == Step(s, a).calls[c].outcome.issued)
  {
  }

  /** Two moments of one run. */
  lemma Moments(trace: seq<Action>, r: nat, t: nat)
    requires r <= t <= |trace|
    ensures Inv(Run(EMPTY, trace[..r])) && Inv(Run(EMPTY, trace[..t]))
    ensures Later(Run(EMPTY, trace[..r]), Run(EMPTY, trace[..t]))
  {
    EmptyInv();
    RunKeepsInv(EMPTY, trace[..r]);
    RunKeepsInv(Run(EMPTY, trace[..r]), trace[r..t]);
    RunAppend(EMPTY, trace[..r], trace[r..t]);
    assert trace[..r] + trace[r..t] == trace[..t];
  }

  /** What the step adds to the number of the user's unrevoked tokens. */
  function Change(s: State, a: Action, userId: Id): int {
    Count(Step(s, a), userId) - Count(s, userId)
  }

  /**
   * Whatever else goes on: the two effects of a successful refresh on the numbers of unrevoked tokens cancel out
   * for every user if and only if the presented token was still unrevoked when the refresh revoked it.
   */
  lemma ConservesExactlyWhen(trace: seq<Action>, c: nat) returns (r: nat, t: nat)
    requires var s := Run(EMPTY, trace); c in s.calls && s.calls[c].Done? && s.calls[c].outcome.Refreshed?
    ensures r < t < |trace| && trace[r].c == trace[t].c == c
    ensures var (p, q) := (Run(EMPTY, trace[..r]), Run(EMPTY, trace[..t]));
      && RevokesFor(p, trace[r]) && StoresNew(q, trace[t])
      && p.calls[c].presented == Run(EMPTY, trace).calls[c].outcome.presented
      && ((forall u :: Change(p, trace[r], u) + Change(q, trace[t], u) == 0) <==> !IsRevoked(p, p.calls[c].presented))
  {
    r, t := StepsOf(trace, c);
    var (p, q) := (Run(EMPTY, trace[..r]), Run(EMPTY, trace[..t]));
    Moments(trace, r, t);
    var x := p.calls[c].presented;
    assert CallOk(p, c);
    forall u ensures Change(p, trace[r], u) + Change(q, trace[t], u) ==
                     if IsRevoked(p, x) && u == p.tokens.tokens[x].userId then 1 else 0
    {
      RevokeEffect(p, trace[r], u);
      StoreEffect(q, trace[t], u);
    }
    assert IsRevoked(p, x) ==>
      Change(p, trace[r], p.tokens.tokens[x].userId) + Change(q, trace[t], p.tokens.tokens[x].userId) == 1;
  }

  // ----- Refreshes of one token, interleaved in any way -----

  /** Nothing but the calls of the group acts; their contexts may be cancelled at any moment. */
  predicate Only(trace: seq<Action>, group: set<nat>) {
    forall i :: 0 <= i < |trace| ==> (trace[i].Advance? || trace[i].Cancel?) && trace[i].c in group
  }

  /** A refresh of the token, at any point. */
  predicate OfToken(pc: Pc, x: Id) {
    || ((pc.RefreshGet? || pc.RefreshGetByID? || pc.RefreshRevoke? || pc.RefreshGenerate? || pc.RefreshStore?)
        && pc.presented == x && (pc.RefreshStore? ==> !pc.newToken.revoked))
    || (pc.Done? && (pc.outcome.Refused? || (pc.outcome.Refreshed? && pc.outcome.presented == x)))
  }

  function Succeeded(s: State, group: set<nat>): set<nat> {
    set c | c in group && c in s.calls && s.calls[c].Done? && s.calls[c].outcome.Refreshed?
  }

  ghost predicate AllOfToken(s: State, group: set<nat>, x: Id) {
    x in s.tokens.tokens && forall c :: c in group ==> c in s.calls && OfToken(s.calls[c], x)
  }

  /** The user's unrevoked tokens, less the new ones, plus the presented one if it is revoked. */
  function Balance(s: State, group: set<nat>, x: Id, userId: Id): int
    requires x in s.tokens.tokens
  {
    if userId == s.tokens.tokens[x].userId then
      Count(s, userId) - |Succeeded(s, group)| + (if s.tokens.tokens[x].revoked then 1 else 0)
    else Count(s, userId)
  }

  lemma GroupStep(s: State, a: Action, group: set<nat>, x: Id, userId: Id)
    requires Inv(s) && AllOfToken(s, group, x) && Only([a], group)
    ensures AllOfToken(Step(s, a), group, x)
    ensures Step(s, a).tokens.tokens[x].userId == s.tokens.tokens[x].userId
    ensures Balance(Step(s, a), group, x, userId) == Balance(s, group, x, userId)
  {
    assert [a][0] == a;
    StepIsLater(s, a);
    GroupPcs(s, a, group, x);
    if RevokesFor(s, a) {
      RevokeBalances(s, a, group, x, userId);
    } else if StoresNew(s, a) {
      StoreBalances(s, a, group, x, userId);
    } else {
      EffectIs(s, a);
      assert Succeeded(Step(s, a), group) == Succeeded(s, group);
    }
  }

  lemma RevokeBalances(s: State, a: Action, group: set<nat>, x: Id, userId: Id)
    requires Inv(s) && AllOfToken(s, group, x) && a.c in group && RevokesFor(s, a)
    ensures x in Step(s, a).tokens.tokens && Balance(Step(s, a), group, x, userId) == Balance(s, group, x, userId)
  {
    assert OfToken(s.calls[a.c], x);
    RevokeEffect(s, a, userId);
    EffectIs(s, a);
    assert Succeeded(Step(s, a), group) == Succeeded(s, group);
  }

  lemma StoreBalances(s: State, a: Action, group: set<nat>, x: Id, userId: Id)
    requires Inv(s) && AllOfToken(s, group, x) && a.c in group && StoresNew(s, a)
    ensures x in Step(s, a).tokens.tokens && Balance(Step(s, a), group, x, userId) == Balance(s, group, x, userId)
  {
    assert OfToken(s.calls[a.c], x) && CallOk(s, a.c);
    StoreEffect(s, a, userId);
    EffectIs(s, a);
    assert Succeeded(Step(s, a), group) == Succeeded(s, group) + {a.c};
  }

  lemma GroupPcs(s: State, a: Action, group: set<nat>, x: Id)
    requires AllOfToken(s, group, x) && a.c in group && (a.Advance? || a.Cancel?)
    ensures forall c :: c in group ==> c in Step(s, a).calls && OfToken(Step(s, a).calls[c], x)
    ensures forall c :: c in group && c != a.c ==> Step(s, a).calls[c] == s.calls[c]
    ensures s.calls[a.c].Done? ==> Step(s, a).calls[a.c] == s.calls[a.c]
    ensures !s.calls[a.c].Done? && Step(s, a).calls[a.c].Done? && Step(s, a).calls[a.c].outcome.Refreshed? ==>
      StoresNew(s, a)
    ensures StoresNew(s, a) ==> Step(s, a).calls[a.c].Done? && Step(s, a).calls[a.c].outcome.Refreshed?
  {
  }

  lemma {:induction false} GroupRun(s: State, trace: seq<Action>, group: set<nat>, x: Id, userId: Id)
    requires Inv(s) && AllOfToken(s, group, x) && Only(trace, group)
    ensures Inv(Run(s, trace)) && AllOfToken(Run(s, trace), group, x)
    ensures Run(s, trace).tokens.tokens[x].userId == s.tokens.tokens[x].userId
    ensures Balance(Run(s, trace), group, x, userId) == Balance(s, group, x, userId)
  {
    if trace != [] {
      var (before, a) := (trace[..|trace| - 1], trace[|trace| - 1]);
      GroupRun(s, before, group, x, userId);
      GroupStep(Run(s, before), a, group, x, userId);
      StepKeepsInv(Run(s, before), a);
    }
  }

  /**
   * Any refreshes of one live token, interleaved in any way and cancelled at any moment, with nothing else going on:
   * its user ends with one token more for every success, and one less if the token has been revoked; and it has
   * been if any succeeded. Nobody else's tokens change. So k >= 1 successes leave k - 1 tokens more than before, and
   * a refresh that fails after its Revoke leaves one less.
   */
  lemma RefreshesOfOneToken(past: seq<Action>, trace: seq<Action>, group: set<nat>, x: Id, userId: Id)
    requires Only(trace, group)
    requires var s := Run(EMPTY, past);
      && (forall c :: c in group ==> c in s.calls && s.calls[c] == RefreshGet(x))
      && x in s.tokens.tokens && !s.tokens.tokens[x].revoked
    ensures var (s, t) := (Run(EMPTY, past), Run(Run(EMPTY, past), trace));
      && x in t.tokens.tokens
      && (userId == s.tokens.tokens[x].userId ==>
            Count(t, userId) == Count(s, userId) + |Succeeded(t, group)| - if IsRevoked(t, x) then 1 else 0)
      && (userId != s.tokens.tokens[x].userId ==> Count(t, userId) == Count(s, userId))
      && (Succeeded(t, group) != {} ==> IsRevoked(t, x))
  {
    EmptyInv();
    RunKeepsInv(EMPTY, past);
    var s := Run(EMPTY, past);
    var t := Run(s, trace);
    GroupRun(s, trace, group, x, userId);
    assert Succeeded(s, group) == {};
    if Succeeded(t, group) != {} {
      var c :| c in Succeeded(t, group);
      assert CallOk(t, c) && OfToken(t.calls[c], x);
    }
  }

  // ----- And k of them can succeed -----

  const OWNER := User("u", "e", "n", "p", USER, true, 0, 0)
  const TOKEN: Id := "t"

  /** A registration on empty stores. */
  const REGISTRATION: seq<Action> := [
    Begin(0, RegisterGetByEmail("e", "n", "p")), Advance(0, 0, "u", 0, true), Advance(0, 0, "", 0, true),
    Advance(0, 0, TOKEN, 0, true), Advance(0, 0, "", 0, true)]

  const REGISTERED := State(
    Users(map["u" := OWNER], map["e" := "u"]),
    Tokens(map[TOKEN := Token("u", TOKEN, 0, false)], map["u" := [TOKEN]]),
    map[0 := Done(Registered(OWNER))], {}, {"u", TOKEN})

  lemma RunOne(s: State, trace: seq<Action>, a: Action)
    ensures Run(s, trace + [a]) == Step(Run(s, trace), a)
  {
    assert (trace + [a])[..|trace|] == trace;
  }

  lemma RunTwo(s: State, a: Action, b: Action)
    ensures Run(s, [a, b]) == Step(Step(s, a), b)
  {
    RunOne(s, [], a);
    RunOne(s, [a], b);
    assert [] + [a] == [a] && [a] + [b] == [a, b];
  }

  lemma RunThree(s: State, a: Action, b: Action, c: Action)
    ensures Run(s, [a, b, c]) == Step(Step(Step(s, a), b), c)
  {
    RunTwo(s, a, b);
    RunOne(s, [a, b], c);
    assert [a, b] + [c] == [a, b, c];
  }

  lemma RegistrationRuns()
    ensures Run(EMPTY, REGISTRATION) == REGISTERED
  {
    var trace := REGISTRATION;
    var created := EMPTY.(users := REGISTERED.users, calls := map[0 := RegisterGenerate(OWNER)], issued := {"u"});
    RegistrationCreates(created);
    RunThree(EMPTY, trace[0], trace[1], trace[2]);
    assert trace[..3] == [trace[0], trace[1], trace[2]] && trace[..4] == trace[..3] + [trace[3]];
    assert trace == trace[..4] + [trace[4]];
    RunOne(EMPTY, trace[..3], trace[3]);
    RunOne(EMPTY, trace[..4], trace[4]);
    RegistrationStores(created);
  }

  lemma RegistrationCreates(created: State)
    requires created ==
      EMPTY.(users := REGISTERED.users, calls := map[0 := RegisterGenerate(OWNER)], issued := {"u"})
    ensures Step(Step(Step(EMPTY, REGISTRATION[0]), REGISTRATION[1]), REGISTRATION[2]) == created
  {
    var s1 := Step(EMPTY, REGISTRATION[0]);
    assert s1.calls == map[0 := RegisterGetByEmail("e", "n", "p")];
    var s2 := Step(s1, REGISTRATION[1]);
    assert s2.calls == map[0 := RegisterCreate(OWNER)] && s2.issued == {"u"};
    assert Step(s2, REGISTRATION[2]).calls == created.calls;
  }

  lemma RegistrationStores(created: State)
    requires created ==
      EMPTY.(users := REGISTERED.users, calls := map[0 := RegisterGenerate(OWNER)], issued := {"u"})
    ensures Step(Step(created, REGISTRATION[3]), REGISTRATION[4]) == REGISTERED
  {
    var s4 := Step(created, REGISTRATION[3]);
    assert s4.calls == map[0 := RegisterStore(OWNER, Token("u", TOKEN, 0, false))];
    assert s4.issued == {"u", TOKEN};
    var s5 := Step(s4, REGISTRATION[4]);
    assert s5.calls == REGISTERED.calls;
    assert [] + [TOKEN] == [TOKEN];
    assert s5.tokens.userTokens == REGISTERED.tokens.userTokens;
    assert s5.tokens.tokens == REGISTERED.tokens.tokens;
  }

  function Group(k: nat): (group: set<nat>)
    ensures |group| == k && forall i: nat :: i in group <==> 1 <= i <= k
  {
    if k == 0 then {} else Group(k - 1) + {k}
  }

  /** `k` refreshes of the token have begun, and the first `j` of them are past their checks. */
  ghost predicate Crowd(s: State, k: nat, j: nat) {
    && s.users == REGISTERED.users && s.tokens == REGISTERED.tokens && s.cancelled == {}
    && (forall i :: i in s.calls ==> i <= k)
    && forall i :: 1 <= i <= k ==>
         && i in s.calls
         && s.calls[i] == if i <= j then RefreshRevoke(TOKEN, OWNER) else RefreshGet(TOKEN)
  }

  lemma BeginOne(s: State, k: nat)
    requires Crowd(s, k, 0)
    ensures Crowd(Step(s, Begin(k + 1, RefreshGet(TOKEN))), k + 1, 0)
  {
  }

  lemma {:induction false} BeginAll(k: nat) returns (past: seq<Action>)
    ensures Crowd(Run(EMPTY, past), k, 0)
  {
    if k == 0 {
      past := REGISTRATION;
      RegistrationRuns();
    } else {
      var before := BeginAll(k - 1);
      BeginOne(Run(EMPTY, before), k - 1);
      RunOne(EMPTY, before, Begin(k, RefreshGet(TOKEN)));
      past := before + [Begin(k, RefreshGet(TOKEN))];
    }
  }

  /** A step of a call, with a new uuid where it needs one. */
  function Go(c: nat, uuid: Id): Action {
    Advance(c, 0, uuid, 0, true)
  }

  lemma CheckOne(s: State, k: nat, j: nat)
    requires 1 <= j <= k && Crowd(s, k, j - 1)
    ensures Crowd(Run(s, [Go(j, ""), Go(j, "")]), k, j)
  {
    RunTwo(s, Go(j, ""), Go(j, ""));
    CheckSteps(s, j);
  }

  lemma CheckSteps(s: State, j: nat)
    requires s.users == REGISTERED.users && s.tokens == REGISTERED.tokens && s.cancelled == {}
    requires j in s.calls && s.calls[j] == RefreshGet(TOKEN)
    ensures Step(Step(s, Go(j, "")), Go(j, "")) == s.(calls := s.calls[j := RefreshRevoke(TOKEN, OWNER)])
  {
    var s1 := Step(s, Go(j, ""));
    assert s1 == s.(calls := s.calls[j := RefreshGetByID(TOKEN, Token("u", TOKEN, 0, false))]);
  }

  lemma {:induction false} CheckAll(s: State, k: nat, j: nat) returns (trace: seq<Action>)
    requires j <= k && Crowd(s, k, 0)
    ensures Only(trace, Group(k)) && Crowd(Run(s, trace), k, j)
  {
    if j == 0 {
      trace := [];
    } else {
      var before := CheckAll(s, k, j - 1);
      var last := [Go(j, ""), Go(j, "")];
      CheckOne(Run(s, before), k, j);
      RunAppend(s, before, last);
      trace := before + last;
    }
  }

  /** The first `j` refreshes have succeeded, the others are past their checks. */
  ghost predicate Finished(s: State, k: nat, j: nat) {
    && s.cancelled == {} && TOKEN in s.tokens.tokens
    && forall i :: 1 <= i <= k ==>
         && i in s.calls
         && (i <= j ==> s.calls[i].Done? && s.calls[i].outcome.Refreshed?)
         && (i > j ==> s.calls[i] == RefreshRevoke(TOKEN, OWNER))
  }

  lemma FinishOne(s: State, k: nat, j: nat, uuid: Id)
    requires 1 <= j <= k && Finished(s, k, j - 1) && uuid !in s.issued
    ensures Finished(Run(s, [Go(j, ""), Go(j, uuid), Go(j, "")]), k, j)
  {
    RunThree(s, Go(j, ""), Go(j, uuid), Go(j, ""));
    var t := Step(Step(Step(s, Go(j, "")), Go(j, uuid)), Go(j, ""));
    RefreshSteps(s, j, uuid);
    assert forall i :: 1 <= i <= k && i != j ==> t.calls[i] == s.calls[i];
  }

  lemma RefreshSteps(s: State, j: nat, uuid: Id)
    requires j in s.calls && j !in s.cancelled && s.calls[j] == RefreshRevoke(TOKEN, OWNER)
    requires uuid !in s.issued && TOKEN in s.tokens.tokens
    ensures var t := Step(Step(Step(s, Go(j, "")), Go(j, uuid)), Go(j, ""));
      && t.calls == s.calls[j := Done(Refreshed(TOKEN, uuid))] && t.cancelled == s.cancelled
      && TOKEN in t.tokens.tokens
  {
    var s1 := Step(s, Go(j, ""));
    assert s1.calls == s.calls[j := RefreshGenerate(TOKEN, OWNER)];
    var s2 := Step(s1, Go(j, uuid));
    assert s2.calls == s.calls[j := RefreshStore(TOKEN, OWNER, Token("u", uuid, 0, false))];
  }

  lemma {:induction false} LengthBound(ids: set<Id>) returns (n: nat)
    ensures forall x :: x in ids ==> |x| < n
  {
    if ids == {} {
      n := 0;
    } else {
      var y :| y in ids;
      n := LengthBound(ids - {y});
      n := if n > |y| then n else |y| + 1;
    }
  }

  /** There is always a new uuid. */
  lemma NewUuid(issued: set<Id>) returns (uuid: Id)
    ensures uuid !in issued
  {
    var n := LengthBound(issued);
    uuid := seq(n, _ => 'a');
  }

  lemma {:induction false} FinishAll(s: State, k: nat, j: nat) returns (trace: seq<Action>)
    requires j <= k && Finished(s, k, 0)
    ensures Only(trace, Group(k)) && Finished(Run(s, trace), k, j)
  {
    if j == 0 {
      trace := [];
    } else {
      var before := FinishAll(s, k, j - 1);
      var uuid := NewUuid(Run(s, before).issued);
      var last := [Go(j, ""), Go(j, uuid), Go(j, "")];
      FinishOne(Run(s, before), k, j, uuid);
      RunAppend(s, before, last);
      trace := before + last;
    }
  }

  /**
   * For every k >= 1 a run on new stores in which k refreshes of one user's only token overlap and all succeed: the
   * user ends with k unrevoked tokens.
   */
  lemma InterleavedRefreshesDoNotConserve(k: nat) returns (past: seq<Action>, trace: seq<Action>)
    requires k >= 1
    ensures Only(trace, Group(k))
    ensures var (s, t) := (Run(EMPTY, past), Run(Run(EMPTY, past), trace));
      && (forall c :: c in Group(k) ==> c in s.calls && s.calls[c] == RefreshGet(TOKEN))
      && Unrevoked(s.tokens, "u") == {TOKEN}
      && Succeeded(t, Group(k)) == Group(k)
      && Count(t, "u") == k
  {
    past := BeginAll(k);
    var s := Run(EMPTY, past);
    var checks := CheckAll(s, k, k);
    var finish := FinishAll(Run(s, checks), k, k);
    trace := checks + finish;
    RunAppend(s, checks, finish);
    AllSucceed(Run(s, trace), k);
    assert Unrevoked(s.tokens, "u") == {TOKEN};
    RefreshesOfOneToken(past, trace, Group(k), TOKEN, "u");
  }

  lemma AllSucceed(t: State, k: nat)
    requires k >= 1 && Finished(t, k, k)
    ensures Succeeded(t, Group(k)) == Group(k) != {}
  {
    assert 1 in Group(k);
  }
}
