/**
 * What becomes of the users over every interleaving: they are registered as asked, only their roles change, and a
 * stored role is the one last given.
 */
module AuthRoles {
  import opened Common
  import opened S = UserStores
  import opened P = AuthProtocol

  /** The users agree but for their role and the time of the last change. */
  predicate SameButRole(u: User, v: User) {
    && u.userId == v.userId && u.email == v.email && u.username == v.username && u.password == v.password
    && u.isActive == v.isActive && u.createdAt == v.createdAt
  }

  ghost predicate Begun(trace: seq<Action>, c: nat, pc: Pc) {
    exists i :: 0 <= i < |trace| && trace[i] == Begin(c, pc)
  }

  lemma BegunStays(trace: seq<Action>, a: Action, c: nat, pc: Pc)
    requires Begun(trace, c, pc) || a == Begin(c, pc)
    ensures Begun(trace + [a], c, pc)
  {
    if Begun(trace, c, pc) {
      var i :| 0 <= i < |trace| && trace[i] == Begin(c, pc);
      assert (trace + [a])[i] == Begin(c, pc);
    } else {
      assert (trace + [a])[|trace|] == Begin(c, pc);
    }
  }

  /** The call was begun as the user it carries or has answered says. */
  ghost predicate Asked(trace: seq<Action>, c: nat, pc: Pc) {
    match pc
    case RegisterGetByEmail(email, username, password) => Begun(trace, c, pc)
    case RegisterCreate(user) => AskedToRegister(trace, c, user)
    case RegisterGenerate(user) => AskedToRegister(trace, c, user)
    case RegisterStore(user, _) => AskedToRegister(trace, c, user)
    case Done(Registered(user)) => AskedToRegister(trace, c, user)
    case UpdateRoleGetByID(userId, role) => Begun(trace, c, pc)
    case UpdateRoleUpdate(user) => Begun(trace, c, UpdateRoleGetByID(user.userId, user.role))
    case Done(RoleUpdated(user)) => Begun(trace, c, UpdateRoleGetByID(user.userId, user.role))
    case _ => true
  }

  /** A new user has the data given, the role USER, and is active. */
  ghost predicate AskedToRegister(trace: seq<Action>, c: nat, user: User) {
    Begun(trace, c, RegisterGetByEmail(user.email, user.username, user.password)) && user.role == USER && user.isActive
  }

  /** What a step does to the call that it moves: the data stay, or are those of the stored user with the new role. */
  lemma MovedCall(s: State, a: Action)
    requires Inv(s) && a.Advance? && a.c in s.calls
    ensures var (pc, pc') := (s.calls[a.c], Step(s, a).calls[a.c]);
      && (pc'.RegisterCreate? && pc' != pc ==>
            && pc.RegisterGetByEmail? && pc'.user.role == USER && pc'.user.isActive
            && pc'.user.email == pc.email && pc'.user.username == pc.username && pc'.user.password == pc.password)
      && (pc'.UpdateRoleUpdate? && pc' != pc ==>
            && pc.UpdateRoleGetByID? && pc.userId in s.users.users
            && SameButRole(pc'.user, s.users.users[pc.userId]) && pc'.user.role == pc.role)
  {
    assert Indexed(s.users);
  }

  lemma AskedStep(trace: seq<Action>, a: Action, c: nat)
    requires var s := Run(EMPTY, trace); Inv(s) && (c in s.calls ==> Asked(trace, c, s.calls[c]))
    ensures var t := Run(EMPTY, trace + [a]); c in t.calls ==> Asked(trace + [a], c, t.calls[c])
  {
    assert (trace + [a])[..|trace|] == trace;
    var (s, t) := (Run(EMPTY, trace), Run(EMPTY, trace + [a]));
    if c in t.calls {
      if a == Begin(c, t.calls[c]) {
        BegunStays(trace, a, c, t.calls[c]);
      } else {
        AskedBefore(trace, s, a, c);
      }
    }
  }

  lemma AskedBefore(trace: seq<Action>, s: State, a: Action, c: nat)
    requires Inv(s) && (c in s.calls ==> Asked(trace, c, s.calls[c]))
    requires c in Step(s, a).calls && a != Begin(c, Step(s, a).calls[c])
    ensures Asked(trace + [a], c, Step(s, a).calls[c])
  {
    if c in s.calls {
      AskedStays(trace, a, c, s.calls[c]);
    }
    if a.Advance? && a.c in s.calls {
      if a.c == c {
        MovedCall(s, a);
      } else {
        OnlyOneMoves(s, a);
      }
    }
  }

  lemma AskedStays(trace: seq<Action>, a: Action, c: nat, pc: Pc)
    requires Asked(trace, c, pc)
    ensures Asked(trace + [a], c, pc)
  {
    forall begun | Begun(trace, c, begun) ensures Begun(trace + [a], c, begun) {
      BegunStays(trace, a, c, begun);
    }
  }

  lemma {:induction false} AlwaysAsked(trace: seq<Action>, c: nat)
    requires c in Run(EMPTY, trace).calls
    ensures Asked(trace, c, Run(EMPTY, trace).calls[c])
  {
    var before := trace[..|trace| - 1];
    EmptyInv();
    RunKeepsInv(EMPTY, before);
    if c in Run(EMPTY, before).calls {
      AlwaysAsked(before, c);
    }
    AskedStep(before, trace[|trace| - 1], c);
    assert before + [trace[|trace| - 1]] == trace;
  }

  /** A registration that succeeds is of the e-mail, name and password asked for, with the role USER, and active. */
  lemma RegisteredAsAsked(trace: seq<Action>, c: nat)
    requires var s := Run(EMPTY, trace); c in s.calls && s.calls[c].Done? && s.calls[c].outcome.Registered?
    ensures var user := Run(EMPTY, trace).calls[c].outcome.user;
      && Begun(trace, c, RegisterGetByEmail(user.email, user.username, user.password))
      && user.role == USER && user.isActive
  {
    AlwaysAsked(trace, c);
  }

  /** A change of role that succeeds is of the user and to the role asked for. */
  lemma RoleUpdatedAsAsked(trace: seq<Action>, c: nat)
    requires var s := Run(EMPTY, trace); c in s.calls && s.calls[c].Done? && s.calls[c].outcome.RoleUpdated?
    ensures var user := Run(EMPTY, trace).calls[c].outcome.user;
      Begun(trace, c, UpdateRoleGetByID(user.userId, user.role))
  {
    AlwaysAsked(trace, c);
  }

  // ----- What a step does to the stored users -----

  /** The step ends a call with a changed role. */
  predicate EndsInRole(s: State, a: Action) {
    && a.Advance? && a.c in s.calls && s.calls[a.c].UpdateRoleUpdate?
    && Step(s, a).calls[a.c].Done? && Step(s, a).calls[a.c].outcome.RoleUpdated?
  }

  /** The step creates a user. */
  predicate Creates(s: State, a: Action) {
    && a.Advance? && a.c in s.calls && s.calls[a.c].RegisterCreate?
    && Step(s, a).calls[a.c].RegisterGenerate?
  }

  /**
   * A role is reported as changed exactly when the context is live and the user is stored. Then the user reported is
   * the one stored, with the data of the copy read and the time; no other user changes.
   */
  lemma RoleUpdatedIsStored(s: State, a: Action)
    requires a.Advance? && a.c in s.calls && s.calls[a.c].UpdateRoleUpdate?
    ensures var (t, copy) := (Step(s, a), s.calls[a.c].user);
      && (EndsInRole(s, a) <==> a.c !in s.cancelled && copy.userId in s.users.users)
      && (EndsInRole(s, a) ==>
            var user := t.calls[a.c].outcome.user;
            && user == User(copy.userId, copy.email, copy.username, copy.password, copy.role, copy.isActive,
                            copy.createdAt, a.now)
            && user.userId in t.users.users && t.users.users[user.userId] == user
            && t.users.users.Keys == s.users.users.Keys && t.users.emailIndex == s.users.emailIndex
            && forall id :: id in s.users.users && id != user.userId ==> t.users.users[id] == s.users.users[id])
      && (!EndsInRole(s, a) ==> t.users == s.users)
  {
  }

  /** A new user is stored with the data of the call, created and changed now; nothing else changes but the index. */
  lemma CreatedIsStored(s: State, a: Action)
    requires Creates(s, a)
    ensures var (t, user) := (Step(s, a), s.calls[a.c].user);
      && user.userId !in s.users.users && user.email !in s.users.emailIndex
      && t.users.users == s.users.users[user.userId :=
           User(user.userId, user.email, user.username, user.password, user.role, user.isActive, a.now, a.now)]
      && t.users.emailIndex == s.users.emailIndex[user.email := user.userId]
  {
  }

  lemma OthersLeaveUsers(s: State, a: Action)
    requires !EndsInRole(s, a) && !Creates(s, a)
    ensures Step(s, a).users == s.users
  {
  }

  // ----- Over runs -----

  /** A call about to write a user holds a copy that differs from the stored user at most in role and time. */
  ghost predicate CopyOk(s: State, c: nat) {
    c in s.calls && s.calls[c].UpdateRoleUpdate? ==>
      && s.calls[c].user.userId in s.users.users
      && SameButRole(s.calls[c].user, s.users.users[s.calls[c].user.userId])
  }

  ghost predicate RoleInv(s: State) {
    Inv(s) && forall c :: CopyOk(s, c)
  }

  /** Stored users stay, and keep everything but their role and the time of the last change. */
  ghost predicate Kept(s: Users, t: Users) {
    forall id :: id in s.users ==> id in t.users && SameButRole(s.users[id], t.users[id])
  }

  lemma StepKeepsUsers(s: State, a: Action)
    requires RoleInv(s)
    ensures Kept(s.users, Step(s, a).users)
  {
    if EndsInRole(s, a) {
      assert CopyOk(s, a.c);
      RoleUpdatedIsStored(s, a);
    } else if Creates(s, a) {
      CreatedIsStored(s, a);
    } else {
      OthersLeaveUsers(s, a);
    }
  }

  lemma StepKeepsRoleInv(s: State, a: Action)
    requires RoleInv(s)
    ensures RoleInv(Step(s, a))
  {
    StepKeepsInv(s, a);
    StepKeepsUsers(s, a);
    forall c ensures CopyOk(Step(s, a), c) {
      CopyStep(s, a, c);
    }
  }

  lemma CopyStep(s: State, a: Action, c: nat)
    requires RoleInv(s) && Kept(s.users, Step(s, a).users)
    ensures CopyOk(Step(s, a), c)
  {
    assert CopyOk(s, c);
    if a.Advance? && a.c in s.calls {
      if a.c == c {
        MovedCall(s, a);
      }
      OnlyOneMoves(s, a);
    }
  }

  lemma OnlyOneMoves(s: State, a: Action)
    requires a.Advance? && a.c in s.calls
    ensures Step(s, a).calls.Keys == s.calls.Keys
    ensures forall d :: d in s.calls && d != a.c ==> Step(s, a).calls[d] == s.calls[d]
  {
    NewTokenIsNew(s, a);
  }

  lemma {:induction false} OnlyRolesChange(s: State, trace: seq<Action>)
    requires RoleInv(s)
    ensures RoleInv(Run(s, trace)) && Kept(s.users, Run(s, trace).users)
  {
    if trace != [] {
      var before := trace[..|trace| - 1];
      OnlyRolesChange(s, before);
      StepKeepsRoleInv(Run(s, before), trace[|trace| - 1]);
      StepKeepsUsers(Run(s, before), trace[|trace| - 1]);
    }
  }

  /** Between any two moments a stored user keeps its id, e-mail, name, password, activity and creation time. */
  lemma UsersKeepTheirData(past: seq<Action>, future: seq<Action>)
    ensures Kept(Run(EMPTY, past).users, Run(EMPTY, past + future).users)
  {
    EmptyInv();
    OnlyRolesChange(EMPTY, past);
    OnlyRolesChange(Run(EMPTY, past), future);
    RunAppend(EMPTY, past, future);
  }

  /** The role that the run has last given the user, at its registration or by a change reported as made. */
  function RoleGiven(trace: seq<Action>, id: Id): Option<Role> {
    if trace == [] then None
    else
      var (before, a) := (trace[..|trace| - 1], trace[|trace| - 1]);
      var s := Run(EMPTY, before);
      if EndsInRole(s, a) && Step(s, a).calls[a.c].outcome.user.userId == id then
        Some(Step(s, a).calls[a.c].outcome.user.role)
      else if Creates(s, a) && s.calls[a.c].user.userId == id then Some(USER)
      else RoleGiven(before, id)
  }

  /** Over every interleaving, the stored role of every user is the one last given. */
  lemma {:induction false} RoleIsLastGiven(trace: seq<Action>, id: Id)
    ensures RoleGiven(trace, id) ==
      (var users := Run(EMPTY, trace).users.users; if id in users then Some(users[id].role) else None)
  {
    if trace != [] {
      var (before, a) := (trace[..|trace| - 1], trace[|trace| - 1]);
      RoleIsLastGiven(before, id);
      RoleStep(before, Run(EMPTY, before), a, id);
    }
  }

  lemma RoleStep(before: seq<Action>, s: State, a: Action, id: Id)
    requires s == Run(EMPTY, before)
    ensures var (users, users') := (s.users.users, Step(s, a).users.users);
      if EndsInRole(s, a) && Step(s, a).calls[a.c].outcome.user.userId == id then
        id in users' && users'[id].role == Step(s, a).calls[a.c].outcome.user.role
      else if Creates(s, a) && s.calls[a.c].user.userId == id then id in users' && users'[id].role == USER
      else (id in users' <==> id in users) && (id in users ==> users'[id].role == users[id].role)
  {
    if EndsInRole(s, a) {
      RoleUpdatedIsStored(s, a);
    } else if Creates(s, a) {
      AlwaysAsked(before, a.c);
      CreatedIsStored(s, a);
    } else {
      OthersLeaveUsers(s, a);
    }
  }
}
