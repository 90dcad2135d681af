/**
 * The client's token manager under concurrency: any number of calls that take and release its lock step by step,
 * failing file operations, and restarts at any moment.
 */
module TokenProtocol {
  import opened Common
  import opened TokenManager

  /** A call before its next step: its RPC, its wait for the lock, or what it does while it holds it. */
  datatype Pc =
    | LoginCall | LoginLock(token: Id) | LoginHeld(token: Id) | SaveRLock | SaveHeld
    | RefreshLock | RefreshHeld | RefreshRLock | RefreshBothHeld
    | LogoutLock | LogoutHeld
    | GetRLock | GetHeld
    | Done(given: Option<Id>)

  datatype State = State(mem: Memory, file: Option<File>, writer: Option<nat>, readers: set<nat>, calls: map<nat, Pc>)

  datatype Action =
    | Begin(c: nat, pc: Pc)
    | Advance(c: nat, response: Option<Id>, now: Time, write: Write, removed: bool)
    | Restart

  predicate IsStart(pc: Pc) {
    pc.LoginCall? || pc.RefreshLock? || pc.LogoutLock? || pc.GetRLock?
  }

  predicate WantsWrite(pc: Pc) {
    pc.LoginLock? || pc.RefreshLock? || pc.LogoutLock?
  }

  predicate WantsRead(pc: Pc) {
    pc.SaveRLock? || pc.RefreshRLock? || pc.GetRLock?
  }

  predicate HoldsWrite(pc: Pc) {
    pc.LoginHeld? || pc.RefreshHeld? || pc.RefreshRLock? || pc.RefreshBothHeld? || pc.LogoutHeld?
  }

  predicate HoldsRead(pc: Pc) {
    pc.SaveHeld? || pc.RefreshBothHeld? || pc.GetHeld?
  }

  /** The call goes on with the lock it has waited for. */
  function Granted(pc: Pc): Pc {
    match pc
    case LoginLock(token) => LoginHeld(token)
    case SaveRLock => SaveHeld
    case RefreshLock => RefreshHeld
    case RefreshRLock => RefreshBothHeld
    case LogoutLock => LogoutHeld
    case GetRLock => GetHeld
    case _ => pc
  }

  /** Lock is granted to nobody but one, RLock unless somebody has Lock. */
  function Step(s: State, a: Action): State {
    match a
    case Begin(c, pc) => if c in s.calls || !IsStart(pc) then s else s.(calls := s.calls[c := pc])
    case Restart => Start(s.file)
    case Advance(c, response, now, write, removed) =>
      if c !in s.calls then s
      else
        var pc := s.calls[c];
        if WantsWrite(pc) then
          if s.writer.Some? || s.readers != {} then s
          else s.(writer := Some(c), calls := s.calls[c := Granted(pc)])
        else if WantsRead(pc) then
          if s.writer.Some? then s
          else s.(readers := s.readers + {c}, calls := s.calls[c := Granted(pc)])
        else Work(s, a)
  }

  /** What a call does between two waits: its RPC, or all it does under a lock, which it then releases. */
  function Work(s: State, a: Action): State
    requires a.Advance? && a.c in s.calls
  {
    var unlocked := s.(writer := None);
    var runlocked := s.(readers := s.readers - {a.c});
    match s.calls[a.c]
    case LoginCall => Goto(s, a.c, if a.response.None? then Done(None) else LoginLock(a.response.value))
    case LoginHeld(token) =>
      Goto(unlocked.(mem := Memory(token, "", a.now + DEFAULT_ACCESS_TTL)), a.c, SaveRLock)
    case SaveHeld => Goto(runlocked.(file := Saved(s.file, s.mem, a.write)), a.c, Done(None))
    case RefreshHeld =>
      if s.mem.refreshToken == "" || a.response.None? then Goto(unlocked, a.c, Done(None))
      else
        Goto(s.(mem := s.mem.(accessToken := a.response.value, expiresAt := a.now + DEFAULT_ACCESS_TTL)),
             a.c, RefreshRLock)
    case RefreshBothHeld =>
      Goto(runlocked.(writer := None, file := Saved(s.file, s.mem, a.write)), a.c, Done(Some(s.mem.accessToken)))
    case LogoutHeld => Goto(unlocked.(mem := EMPTY, file := if a.removed then None else s.file), a.c, Done(None))
    case GetHeld => Goto(runlocked, a.c, Done(if Accepts(s.mem, a.now) then Some(s.mem.accessToken) else None))
    case _ => s
  }

  function Goto(s: State, c: nat, pc: Pc): State {
    s.(calls := s.calls[c := pc])
  }

  function Run(s: State, trace: seq<Action>): State {
    if trace == [] then s else Step(Run(s, trace[..|trace| - 1]), trace[|trace| - 1])
  }

  /** A process that starts on the file it finds. */
  function Start(file: Option<File>): State {
    State(FromFile(file), file, None, {}, map[])
  }

  // ----- The lock -----

  ghost predicate LockOk(s: State, c: nat) {
    && (s.writer == Some(c) <==> c in s.calls && HoldsWrite(s.calls[c]))
    && (c in s.readers <==> c in s.calls && HoldsRead(s.calls[c]))
  }

  /** The lock's state is what the calls hold, and a writer has it alone. */
  ghost predicate LockInv(s: State) {
    (forall c: nat :: LockOk(s, c)) && (s.writer.Some? ==> s.readers == {})
  }

  lemma StepKeepsLockInv(s: State, a: Action)
    requires LockInv(s)
    ensures LockInv(Step(s, a))
  {
    var t := Step(s, a);
    forall c: nat ensures LockOk(t, c) {
      assert LockOk(s, c);
      if a.Advance? {
        assert LockOk(s, a.c);
      }
    }
    if a.Advance? && a.c in s.calls {
      assert LockOk(s, a.c);
    }
  }

  lemma {:induction false} RunKeepsLockInv(file: Option<File>, trace: seq<Action>)
    ensures LockInv(Run(Start(file), trace))
  {
    if trace != [] {
      RunKeepsLockInv(file, trace[..|trace| - 1]);
      StepKeepsLockInv(Run(Start(file), trace[..|trace| - 1]), trace[|trace| - 1]);
    }
  }

  /** In every run the lock excludes: a call that writes memory is the only one that touches it. */
  lemma WritersAreAlone(file: Option<File>, trace: seq<Action>, c: nat, d: nat)
    ensures var s := Run(Start(file), trace);
      c in s.calls && d in s.calls && c != d && HoldsWrite(s.calls[c]) ==>
        !HoldsWrite(s.calls[d]) && !HoldsRead(s.calls[d])
  {
    var s := Run(Start(file), trace);
    RunKeepsLockInv(file, trace);
    assert LockOk(s, c) && LockOk(s, d);
  }

  /** The call waits for a lock that it holds itself, in a mode that excludes what it waits for. */
  predicate WaitsForItself(s: State, c: nat) {
    && c in s.calls
    && ((WantsRead(s.calls[c]) && s.writer == Some(c)) ||
        (WantsWrite(s.calls[c]) && (s.writer == Some(c) || c in s.readers)))
  }

  predicate NoRestart(trace: seq<Action>) {
    forall i :: 0 <= i < |trace| ==> !trace[i].Restart?
  }

  lemma StuckStep(s: State, a: Action, c: nat)
    requires LockInv(s) && WaitsForItself(s, c) && !a.Restart?
    ensures WaitsForItself(Step(s, a), c) && Step(s, a).mem == s.mem && Step(s, a).file == s.file
  {
    assert LockOk(s, c);
    if a.Advance? {
      assert LockOk(s, a.c);
    }
  }

  /** Such a call never moves again, and neither memory nor file ever changes, until the process is restarted. */
  lemma {:induction false} StuckForEver(s: State, trace: seq<Action>, c: nat)
    requires LockInv(s) && WaitsForItself(s, c) && NoRestart(trace)
    ensures var t := Run(s, trace); LockInv(t) && WaitsForItself(t, c) && t.mem == s.mem && t.file == s.file
  {
    if trace != [] {
      var before := trace[..|trace| - 1];
      StuckForEver(s, before, c);
      StuckStep(Run(s, before), trace[|trace| - 1], c);
      StepKeepsLockInv(Run(s, before), trace[|trace| - 1]);
    }
  }

  // ----- Why no call gets stuck -----

  predicate NoRefreshToken(file: Option<File>) {
    file.Some? && file.value.Stored? ==> file.value.refreshToken == ""
  }

  /** No refresh token in memory or on disk, and no call on the path that saves under the write lock. */
  ghost predicate Harmless(s: State) {
    && LockInv(s) && s.mem.refreshToken == "" && NoRefreshToken(s.file)
    && forall c :: c in s.calls ==> !s.calls[c].RefreshRLock? && !s.calls[c].RefreshBothHeld?
  }

  lemma {:induction false} StaysHarmless(start: State, trace: seq<Action>)
    requires Harmless(start)
    ensures Harmless(Run(start, trace))
  {
    if trace != [] {
      StaysHarmless(start, trace[..|trace| - 1]);
      StepKeepsLockInv(Run(start, trace[..|trace| - 1]), trace[|trace| - 1]);
    }
  }

  lemma StartIsHarmless(file: Option<File>)
    requires NoRefreshToken(file)
    ensures Harmless(Start(file))
  {
  }

  /** A call that holds the lock does not wait. */
  lemma HarmlessCallsMove(s: State, c: nat)
    requires Harmless(s)
    ensures !WaitsForItself(s, c)
    ensures c in s.calls && (HoldsWrite(s.calls[c]) || HoldsRead(s.calls[c])) ==>
      !WantsWrite(s.calls[c]) && !WantsRead(s.calls[c])
  {
    assert LockOk(s, c);
  }

  /**
   * Started on no file, or on any file without a refresh token, as are all it writes: whatever the interleaving, the
   * failures and the restarts, the refresh token is empty in memory and on disk, no call waits for a lock it holds,
   * and whoever holds the lock can go on.
   */
  lemma NeverStuck(file: Option<File>, trace: seq<Action>, c: nat)
    requires NoRefreshToken(file)
    ensures var s := Run(Start(file), trace);
      && s.mem.refreshToken == "" && NoRefreshToken(s.file) && !WaitsForItself(s, c)
      && (s.writer == Some(c) || c in s.readers ==>
            c in s.calls && !WantsWrite(s.calls[c]) && !WantsRead(s.calls[c]))
  {
    StartIsHarmless(file);
    StaysHarmless(Start(file), trace);
    HarmlessCallsMove(Run(Start(file), trace), c);
    assert LockOk(Run(Start(file), trace), c);
  }

  /** And only then: a file with a refresh token leads to a call that waits for itself. */
  lemma StuckExactlyWhen(file: Option<File>)
    ensures (exists trace, c: nat :: WaitsForItself(Run(Start(file), trace), c)) <==> !NoRefreshToken(file)
  {
    if NoRefreshToken(file) {
      forall trace, c: nat ensures !WaitsForItself(Run(Start(file), trace), c) {
        NeverStuck(file, trace, c);
      }
    } else {
      var a := Advance(0, Some(""), 0, Written, false);
      RunThree(Start(file), Begin(0, RefreshLock), a, a);
      RefreshGetsStuck(Start(file), 0, a);
      assert WaitsForItself(Run(Start(file), [Begin(0, RefreshLock), a, a]), 0);
    }
  }

  lemma RunThree(s: State, a: Action, b: Action, c: Action)
    ensures Run(s, [a, b, c]) == Step(Step(Step(s, a), b), c)
  {
    var trace := [a, b, c];
    assert trace[..2] == [a, b] && [a, b][..1] == [a] && [a][..0] == [];
    assert Run(s, [a]) == Step(s, a);
    assert Run(s, [a, b]) == Step(Step(s, a), b);
  }

  // ----- The program's methods are the machine's lone calls -----

  /** The call runs on its own for `n` steps. */
  function Steps(s: State, a: Action, n: nat): State {
    if n == 0 then s else Step(Steps(s, a, n - 1), a)
  }

  predicate Free(s: State) {
    s.writer == None && s.readers == {}
  }

  lemma LoginIsLoneRun(s: State, c: nat, response: Option<Id>, now: Time, write: Write)
    requires c !in s.calls && Free(s)
    ensures var (mem, file) := LoginAlone(s.mem, s.file, response, now, write);
      Steps(Step(s, Begin(c, LoginCall)), Advance(c, response, now, write, false), 5)
        == State(mem, file, None, {}, s.calls[c := Done(None)])
  {
    var a := Advance(c, response, now, write, false);
    var s0 := Step(s, Begin(c, LoginCall));
    if response.Some? {
      var m := Memory(response.value, "", now + DEFAULT_ACCESS_TTL);
      assert Steps(s0, a, 1) == s.(calls := s.calls[c := LoginLock(response.value)]);
      assert Steps(s0, a, 2) == s.(writer := Some(c), calls := s.calls[c := LoginHeld(response.value)]);
      assert Steps(s0, a, 3) == s.(mem := m, calls := s.calls[c := SaveRLock]);
      assert Steps(s0, a, 4) == s.(mem := m, readers := {c}, calls := s.calls[c := SaveHeld]);
    } else {
      DoneStays(s0, a, 1, None);
    }
  }

  lemma {:induction false} DoneStays(s: State, a: Action, n: nat, given: Option<Id>)
    requires a.Advance? && n >= 1 && a.c in Steps(s, a, 1).calls && Steps(s, a, 1).calls[a.c] == Done(given)
    ensures Steps(s, a, n) == Steps(s, a, 1)
    ensures Steps(s, a, 5) == Steps(s, a, 1)
  {
    assert Steps(s, a, 2) == Steps(s, a, 1);
    assert Steps(s, a, 3) == Steps(s, a, 1);
    assert Steps(s, a, 4) == Steps(s, a, 1);
    if n > 1 {
      DoneStays(s, a, n - 1, given);
    }
  }

  lemma LogoutIsLoneRun(s: State, c: nat, removed: bool)
    requires c !in s.calls && Free(s)
    ensures var (mem, file) := LogoutAlone(s.file, removed);
      Steps(Step(s, Begin(c, LogoutLock)), Advance(c, None, 0, Written, removed), 2)
        == State(mem, file, None, {}, s.calls[c := Done(None)])
  {
    var a := Advance(c, None, 0, Written, removed);
    assert Steps(Step(s, Begin(c, LogoutLock)), a, 1) == s.(writer := Some(c), calls := s.calls[c := LogoutHeld]);
  }

  lemma GetIsLoneRun(s: State, c: nat, now: Time)
    requires c !in s.calls && Free(s)
    ensures Steps(Step(s, Begin(c, GetRLock)), Advance(c, None, now, Written, false), 2)
      == s.(calls := s.calls[c := Done(if Accepts(s.mem, now) then Some(s.mem.accessToken) else None)])
  {
    var a := Advance(c, None, now, Written, false);
    assert Steps(Step(s, Begin(c, GetRLock)), a, 1) == s.(readers := {c}, calls := s.calls[c := GetHeld]);
  }

  /** Alone, RefreshToken ends with its lock released and the memory of RefreshAlone, or waits for itself. */
  lemma RefreshIsLoneRun(s: State, c: nat, response: Option<Id>, now: Time, write: Write)
    requires c !in s.calls && Free(s)
    ensures var (mem, result) := RefreshAlone(s.mem, response, now);
      var t := Steps(Step(s, Begin(c, RefreshLock)), Advance(c, response, now, write, false), 2);
      && t.mem == mem && t.file == s.file && t.readers == {} && c in t.calls
      && (result.Stuck? <==> WaitsForItself(t, c))
      && (!result.Stuck? ==> t.writer == None && t.calls[c] == Done(None))
  {
    var a := Advance(c, response, now, write, false);
    var s0 := Step(s, Begin(c, RefreshLock));
    assert Steps(s0, a, 0) == s0;
    assert Steps(s0, a, 1) == s.(writer := Some(c), calls := s.calls[c := RefreshHeld]);
  }

  lemma RefreshGetsStuck(s: State, c: nat, a: Action)
    requires c !in s.calls && Free(s) && s.mem.refreshToken != "" && a.Advance? && a.c == c && a.response.Some?
    ensures WaitsForItself(Step(Step(Step(s, Begin(c, RefreshLock)), a), a), c)
  {
    var s1 := Step(Step(s, Begin(c, RefreshLock)), a);
    assert s1 == s.(writer := Some(c), calls := s.calls[c := RefreshHeld]);
  }

  // ----- Which tokens are given out -----

  /** The i-th step of the run is a login or registration that puts the token its RPC obtained into memory. */
  predicate Obtains(start: State, trace: seq<Action>, i: nat, token: Id) {
    && i < |trace| && trace[i].Advance?
    && var s := Run(start, trace[..i]); trace[i].c in s.calls && s.calls[trace[i].c] == LoginHeld(token)
  }

  /** The expiry of a token obtained at `at`, with its fraction of a second or without. */
  predicate IssuedAt(expiresAt: Time, at: Time) {
    var full := at + DEFAULT_ACCESS_TTL;
    expiresAt == full || expiresAt == Parse(Format(full))
  }

  ghost predicate Genuine(start: State, trace: seq<Action>, token: Id, expiresAt: Time) {
    token == "" || exists i: nat :: Obtains(start, trace, i, token) && IssuedAt(expiresAt, trace[i].now)
  }

  ghost predicate FileGenuine(start: State, trace: seq<Action>, file: Option<File>) {
    file.Some? && file.value.Stored? ==>
      Genuine(start, trace, file.value.accessToken, ExpiryOf(file.value.expiresAt))
  }

  ghost predicate AllGenuine(start: State, trace: seq<Action>) {
    var s := Run(start, trace);
    Genuine(start, trace, s.mem.accessToken, s.mem.expiresAt) && FileGenuine(start, trace, s.file)
  }

  lemma StaysGenuine(start: State, trace: seq<Action>, a: Action, token: Id, expiresAt: Time)
    requires Genuine(start, trace, token, expiresAt)
    ensures Genuine(start, trace + [a], token, expiresAt)
    ensures Genuine(start, trace + [a], token, Parse(Format(expiresAt)))
  {
    if token != "" {
      var i: nat :| Obtains(start, trace, i, token) && IssuedAt(expiresAt, trace[i].now);
      assert (trace + [a])[..i] == trace[..i] && (trace + [a])[i] == trace[i];
      assert Obtains(start, trace + [a], i, token);
      FlooredIssue(expiresAt, trace[i].now);
    }
  }

  lemma FlooredIssue(expiresAt: Time, at: Time)
    requires IssuedAt(expiresAt, at)
    ensures IssuedAt(Parse(Format(expiresAt)), at)
  {
    FloorIsIdempotent(Parse(Format(at + DEFAULT_ACCESS_TTL)));
  }

  /** No access token anywhere: a new installation, or one that has logged out. */
  ghost predicate Blank(s: State) {
    && Harmless(s) && s.mem.accessToken == ""
    && (s.file.Some? && s.file.value.Stored? ==> s.file.value.accessToken == "")
    && forall c :: c in s.calls ==> !s.calls[c].LoginHeld?
  }

  /** Memory after a step is what it was, empty, loaded from the file, or what a login has obtained. */
  lemma MemoryStep(s: State, a: Action)
    requires Harmless(s)
    ensures var m := Step(s, a).mem;
      || m == s.mem || m == EMPTY || m == FromFile(s.file)
      || (a.Advance? && a.c in s.calls && s.calls[a.c] == LoginHeld(m.accessToken) && IssuedAt(m.expiresAt, a.now))
    ensures var f := Step(s, a).file; f == s.file || f == None || f == Some(Garbled) || f == Some(ToFile(s.mem))
  {
  }

  lemma StepKeepsGenuine(start: State, trace: seq<Action>, a: Action)
    requires Harmless(start) && AllGenuine(start, trace)
    ensures AllGenuine(start, trace + [a])
  {
    var s := Run(start, trace);
    StaysHarmless(start, trace);
    assert (trace + [a])[..|trace|] == trace;
    MemoryStep(s, a);
    StaysGenuine(start, trace, a, s.mem.accessToken, s.mem.expiresAt);
    if s.file.Some? && s.file.value.Stored? {
      StaysGenuine(start, trace, a, s.file.value.accessToken, ExpiryOf(s.file.value.expiresAt));
    }
    var m := Step(s, a).mem;
    if a.Advance? && a.c in s.calls && s.calls[a.c] == LoginHeld(m.accessToken) {
      assert Obtains(start, trace + [a], |trace|, m.accessToken);
    }
  }

  lemma {:induction false} TokensAreGenuine(start: State, trace: seq<Action>)
    requires Blank(start)
    ensures AllGenuine(start, trace)
  {
    if trace != [] {
      TokensAreGenuine(start, trace[..|trace| - 1]);
      StepKeepsGenuine(start, trace[..|trace| - 1], trace[|trace| - 1]);
      assert trace[..|trace| - 1] + [trace[|trace| - 1]] == trace;
    }
  }

  /**
   * From a state without tokens, over any interleaving, failing writes and restarts: a token is
   * given out only if a login or registration of this run has obtained it, and not for longer
   * than its time from then; what the restarts take off is less than a second.
   */
  lemma AcceptedWasIssued(start: State, trace: seq<Action>, now: Time) returns (i: nat)
    requires Blank(start)
    requires Accepts(Run(start, trace).mem, now)
    ensures Obtains(start, trace, i, Run(start, trace).mem.accessToken)
    ensures now <= trace[i].now + 900_000_000_000
    ensures trace[i].now + 899_000_000_000 < Run(start, trace).mem.expiresAt
  {
    TokensAreGenuine(start, trace);
    var m := Run(start, trace).mem;
    i :| Obtains(start, trace, i, m.accessToken) && IssuedAt(m.expiresAt, trace[i].now);
  }

  /** A Logout that removes the file leaves no token, so only later logins count. */
  lemma LogoutForgets(s: State, a: Action)
    requires Harmless(s) && a.Advance? && a.removed && a.c in s.calls && s.calls[a.c].LogoutHeld?
    ensures Blank(Step(s, a))
  {
    assert LockOk(s, a.c);
    StepKeepsLockInv(s, a);
    forall c | c in Step(s, a).calls ensures !Step(s, a).calls[c].LoginHeld? {
      assert LockOk(s, c);
    }
  }

  /** The step changes the file: a save that writes something, or a Logout that removes it. */
  predicate ChangesFile(s: State, a: Action) {
    && a.Advance? && a.c in s.calls
    && (((s.calls[a.c].SaveHeld? || s.calls[a.c].RefreshBothHeld?) && !a.write.Untouched?) ||
        (s.calls[a.c].LogoutHeld? && a.removed))
  }

  /** No step of the trace changes the file. */
  predicate FileKept(s: State, trace: seq<Action>) {
    trace == [] || (FileKept(s, trace[..|trace| - 1]) && !ChangesFile(Run(s, trace[..|trace| - 1]), trace[|trace| - 1]))
  }

  predicate LogsIn(s: State, a: Action) {
    a.Advance? && a.c in s.calls && s.calls[a.c].LoginHeld?
  }

  /** The trace has no restart, and no login that gets as far as to change memory. */
  predicate Quiet(s: State, trace: seq<Action>) {
    trace == [] ||
    (Quiet(s, trace[..|trace| - 1]) && !trace[|trace| - 1].Restart? &&
     !LogsIn(Run(s, trace[..|trace| - 1]), trace[|trace| - 1]))
  }

  /** The file gives a new process no access token. */
  predicate Tokenless(file: Option<File>) {
    FromFile(file).accessToken == ""
  }

  lemma QuietStep(s: State, a: Action)
    requires Harmless(s) && s.mem == EMPTY && !a.Restart? && !LogsIn(s, a)
    ensures var t := Step(s, a);
      && t.mem == EMPTY && (!ChangesFile(s, a) ==> t.file == s.file) && (ChangesFile(s, a) ==> Tokenless(t.file))
  {
  }

  lemma {:induction false} QuietRun(s: State, trace: seq<Action>)
    requires Harmless(s) && s.mem == EMPTY && Quiet(s, trace)
    ensures var t := Run(s, trace);
      && t.mem == EMPTY && (FileKept(s, trace) ==> t.file == s.file) && (!FileKept(s, trace) ==> Tokenless(t.file))
  {
    if trace != [] {
      var before := trace[..|trace| - 1];
      QuietRun(s, before);
      StaysHarmless(s, before);
      QuietStep(Run(s, before), trace[|trace| - 1]);
    }
  }

  /**
   * After a Logout, whatever goes on short of a new login: the next start accepts a token exactly when the Logout
   * did not remove the file, nothing has changed it since, and it holds a token whose time is not over. If the last
   * save before the Logout had succeeded, that is the token logged out, as long as its whole seconds last.
   */
  lemma LoggedOutTokenReturnsExactlyWhen(s: State, a: Action, more: seq<Action>, now: Time)
    requires Harmless(s) && a.Advance? && a.c in s.calls && s.calls[a.c].LogoutHeld?
    requires Quiet(Step(s, a), more)
    ensures var t := Step(Run(Step(s, a), more), Restart);
      var kept := !a.removed && FileKept(Step(s, a), more);
      && (Accepts(t.mem, now) <==> kept && Accepts(FromFile(s.file), now))
      && (s.file == Some(ToFile(s.mem)) ==>
            (Accepts(t.mem, now) && t.mem.accessToken == s.mem.accessToken <==>
               kept && s.mem.accessToken != "" && now <= Parse(Format(s.mem.expiresAt))))
  {
    var out := Step(s, a);
    StaysHarmless(s, [a]);
    assert [a][..0] == [] && Run(s, [a]) == out;
    QuietRun(out, more);
  }

  // ----- A logout that is undone -----

  function Times(a: Action, n: nat): seq<Action> {
    seq(n, _ => a)
  }

  lemma {:induction false} RunTimes(s: State, a: Action, n: nat)
    ensures Run(s, Times(a, n)) == Steps(s, a, n)
  {
    if n > 0 {
      assert Times(a, n)[..n - 1] == Times(a, n - 1);
      RunTimes(s, a, n - 1);
    }
  }

  lemma {:induction false} RunAppend(s: State, first: seq<Action>, second: seq<Action>)
    ensures Run(s, first + second) == Run(Run(s, first), second)
  {
    if second == [] {
      assert first + second == first;
    } else {
      assert (first + second)[..|first + second| - 1] == first + second[..|second| - 1];
      RunAppend(s, first, second[..|second| - 1]);
    }
  }

  /** A call on its own: it begins and takes `n` steps. */
  function Lone(c: nat, pc: Pc, a: Action, n: nat): seq<Action> {
    [Begin(c, pc)] + Times(a, n)
  }

  lemma RunLone(s: State, c: nat, pc: Pc, a: Action, n: nat)
    ensures Run(s, Lone(c, pc, a, n)) == Steps(Step(s, Begin(c, pc)), a, n)
  {
    RunAppend(s, [Begin(c, pc)], Times(a, n));
    assert [Begin(c, pc)][..0] == [] && Run(s, [Begin(c, pc)]) == Step(s, Begin(c, pc));
    RunTimes(Step(s, Begin(c, pc)), a, n);
  }

  /** A login that is saved, and a logout that cannot remove the file. */
  function LoginAndLogout(token: Id, at: Time): seq<Action> {
    LoginTrace(token, at) + LogoutTrace()
  }

  function LoginTrace(token: Id, at: Time): seq<Action> {
    Lone(0, LoginCall, Advance(0, Some(token), at, Written, false), 5)
  }

  function LogoutTrace(): seq<Action> {
    Lone(1, LogoutLock, Advance(1, None, 0, Written, false), 2)
  }

  /** Such a run on no file: memory is empty after the logout, and the next start gives out the token again. */
  lemma LogoutIsUndone(token: Id, at: Time, now: Time)
    requires token != "" && now <= Parse(Format(at + DEFAULT_ACCESS_TTL))
    ensures var s := Run(Start(None), LoginAndLogout(token, at));
      s.mem == EMPTY && s.calls == map[0 := Done(None), 1 := Done(None)]
    ensures var t := Run(Start(None), LoginAndLogout(token, at) + [Restart]);
      Accepts(t.mem, now) && t.mem.accessToken == token
  {
    LoginRuns(token, at);
    var s1 := LoggedIn(token, at);
    LogoutIsLoneRun(s1, 1, false);
    RunLone(s1, 1, LogoutLock, Advance(1, None, 0, Written, false), 2);
    RunAppend(Start(None), LoginTrace(token, at), LogoutTrace());
    RunAppend(Start(None), LoginAndLogout(token, at), [Restart]);
    RestartRuns(Run(Start(None), LoginAndLogout(token, at)));
  }

  lemma RestartRuns(s: State)
    ensures Run(s, [Restart]) == Start(s.file)
  {
    assert [Restart][..0] == [];
  }

  function LoggedIn(token: Id, at: Time): State {
    var m := Memory(token, "", at + DEFAULT_ACCESS_TTL);
    State(m, Some(ToFile(m)), None, {}, map[0 := Done(None)])
  }

  lemma LoginRuns(token: Id, at: Time)
    ensures Run(Start(None), LoginTrace(token, at)) == LoggedIn(token, at)
  {
    LoginIsLoneRun(Start(None), 0, Some(token), at, Written);
    RunLone(Start(None), 0, LoginCall, Advance(0, Some(token), at, Written, false), 5);
  }
}
