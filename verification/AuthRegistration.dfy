/** Of any number of Register calls for one e-mail, however they interleave, at most one succeeds. */
module AuthRegistration {
  import opened Common
  import opened S = UserStores
  import opened P = AuthProtocol

  /** The user that a Register call has made up. */
  function Drawn(pc: Pc): Option<User> {
    match pc
    case RegisterCreate(user) => Some(user)
    case RegisterGenerate(user) => Some(user)
    case RegisterStore(user, _) => Some(user)
    case Done(Registered(user)) => Some(user)
    case _ => None
  }

  /** It has a uuid of its own, and once created it stays with its e-mail. */
  ghost predicate DrawnOk(s: State, c: nat) {
    c in s.calls && Drawn(s.calls[c]).Some? ==>
      var user := Drawn(s.calls[c]).value;
      && user.userId in s.issued
      && (!s.calls[c].RegisterCreate? ==>
            user.userId in s.users.users && s.users.users[user.userId].email == user.email)
  }

  ghost predicate DrawnDistinct(s: State, c: nat, d: nat) {
    c in s.calls && d in s.calls && c != d && Drawn(s.calls[c]).Some? && Drawn(s.calls[d]).Some? ==>
      Drawn(s.calls[c]).value.userId != Drawn(s.calls[d]).value.userId
  }

  ghost predicate RegInv(s: State) {
    Inv(s) && (forall c :: DrawnOk(s, c)) && (forall c, d :: DrawnDistinct(s, c, d))
  }

  /** The call keeps the user it has, draws one with a new uuid, or has none; a user is created before it goes on. */
  ghost predicate DrawsRight(s: State, t: State, c: nat)
    requires c in s.calls && c in t.calls
  {
    var (before, after) := (Drawn(s.calls[c]), Drawn(t.calls[c]));
    after.Some? ==>
      && after.value.userId in t.issued
      && (if before.Some? then
            after.value.userId == before.value.userId && after.value.email == before.value.email
          else t.calls[c].RegisterCreate? && after.value.userId !in s.issued)
      && (t.calls[c].RegisterCreate? || !s.calls[c].RegisterCreate? ||
          (after.value.userId in t.users.users && t.users.users[after.value.userId].email == after.value.email))
  }

  lemma UserStepDraws(s: State, c: nat, live: bool, now: Time, uuid: Id, ok: bool)
    requires c in s.calls && DrawnOk(s, c)
    ensures var t := UserStep(s, c, live, now, uuid, ok); c in t.calls && DrawsRight(s, t, c)
  {
  }

  lemma TokenStepDraws(s: State, c: nat, live: bool, now: Time)
    requires c in s.calls && !AtUsers(s.calls[c]) && DrawnOk(s, c)
    ensures var t := TokenStep(s, c, live, now); c in t.calls && DrawsRight(s, t, c)
  {
  }

  /** A step leaves the other calls alone, and its own call as it should be. */
  lemma DrawStep(s: State, a: Action)
    requires Inv(s) && a.Advance? && a.c in s.calls && DrawnOk(s, a.c)
    ensures var t := Step(s, a);
      && t.calls.Keys == s.calls.Keys && (forall d :: d != a.c && d in s.calls ==> t.calls[d] == s.calls[d])
      && DrawsRight(s, t, a.c)
  {
    var live := a.c !in s.cancelled;
    if AtUsers(s.calls[a.c]) {
      UserStepDraws(s, a.c, live, a.now, a.uuid, a.ok);
      UserStepDrawsNone(s, a.c, live, a.now, a.uuid, a.ok);
    } else if !AtGenerate(s.calls[a.c]) {
      TokenStepDraws(s, a.c, live, a.now);
      TokenStepDrawsNone(s, a.c, live, a.now);
    }
  }

  lemma StepKeepsRegInv(s: State, a: Action)
    requires RegInv(s)
    ensures RegInv(Step(s, a))
  {
    var t := Step(s, a);
    StepKeepsInv(s, a);
    if a.Advance? && a.c in s.calls {
      assert DrawnOk(s, a.c);
      DrawStep(s, a);
    }
    forall c ensures DrawnOk(t, c) {
      assert DrawnOk(s, c);
    }
    forall c, d ensures DrawnDistinct(t, c, d) {
      assert DrawnDistinct(s, c, d) && DrawnOk(s, c) && DrawnOk(s, d);
    }
  }

  lemma {:induction false} RunKeepsRegInv(trace: seq<Action>)
    ensures RegInv(Run(EMPTY, trace))
  {
    if trace == [] {
      EmptyInv();
    } else {
      RunKeepsRegInv(trace[..|trace| - 1]);
      StepKeepsRegInv(Run(EMPTY, trace[..|trace| - 1]), trace[|trace| - 1]);
    }
  }

  /** Over every interleaving, two calls that registered one e-mail are the same call. */
  lemma RegisteredAtMostOnce(trace: seq<Action>, c: nat, d: nat)
    requires var s := Run(EMPTY, trace);
      && c in s.calls && s.calls[c].Done? && s.calls[c].outcome.Registered?
      && d in s.calls && s.calls[d].Done? && s.calls[d].outcome.Registered?
      && s.calls[c].outcome.user.email == s.calls[d].outcome.user.email
    ensures c == d
  {
    var s := Run(EMPTY, trace);
    RunKeepsRegInv(trace);
    assert DrawnOk(s, c) && DrawnOk(s, d) && DrawnDistinct(s, c, d);
    NoSharedEmail(s.users, s.calls[c].outcome.user.userId, s.calls[d].outcome.user.userId);
  }
}
