/**
 * The shutdown handler under concurrency: any number of Register, Run and Trigger calls, the
 * goroutines that close, and their one-slot channels, in any interleaving. Deadlines may pass
 * at any time.
 */
module ShutdownProtocol {
  import opened Common

  /** The sync.Once: unused, in the hands of a call, or used up. */
  datatype Once = Unused | HeldBy(c: nat) | Used

  /** Where a call is. `left` closers, of the `total` there were at the start of the loop, are still to be started. */
  datatype Pc =
    | RegisterLock(name: Id) | RegisterCheck(name: Id) | RegisterAppend(name: Id)
    | RunEnter | RunStore | RunWait | RunLoop(left: nat, total: nat) | RunSelect(left: nat, total: nat)
    | RunFinal(total: nat) | RunLeave(ok: bool)
    | TriggerEnter | TriggerStore | TriggerCancel | TriggerLeave
    | Done(ok: bool)

  /** A closer's goroutine: in Close, about to send its result, about to leave, gone. */
  datatype Routine = Closing | Sending | Leaving | Gone

  datatype State = State(
    closers: seq<Id>, mu: Option<nat>, shutdown: bool, cancelled: bool, once: Once, wg: int,
    calls: map<nat, Pc>, routines: map<nat, Routine>, buffers: map<nat, bool>, started: seq<nat>)

  const NEW := State([], None, false, false, Unused, 0, map[], map[], map[], [])

  datatype Action =
    | Begin(c: nat, what: Pc)
    | Advance(c: nat)
    | Signal(c: nat)
    | Expire(c: nat)
    | Continue(r: nat)

  predicate IsStart(pc: Pc) {
    pc.RegisterLock? || pc.RunEnter? || pc.TriggerEnter?
  }

  function At(s: State, c: nat, pc: Pc): State {
    s.(calls := s.calls[c := pc])
  }

  function Step(s: State, a: Action): State {
    match a
    case Begin(c, what) => if c in s.calls || !IsStart(what) then s else At(s, c, what)
    case Advance(c) => if c in s.calls then Advanced(s, c, s.calls[c]) else s
    case Signal(c) => if c in s.calls && s.calls[c].RunWait? then At(s, c, Begun(s)).(cancelled := true) else s
    case Expire(c) => if c in s.calls then Expired(s, c, s.calls[c]) else s
    case Continue(r) => if r in s.routines then Continued(s, r, s.routines[r]) else s
  }

  /** The start of the loop of doShutdown, which cancels the context first. */
  function Begun(s: State): Pc {
    RunLoop(|s.closers|, |s.closers|)
  }

  /** The next step of a call; a call that has to wait does not move. */
  function Advanced(s: State, c: nat, pc: Pc): State {
    match pc
    case RegisterLock(name) => if s.mu.Some? then s else At(s, c, RegisterCheck(name)).(mu := Some(c))
    case RegisterCheck(name) =>
      if s.shutdown then At(s, c, Done(true)).(mu := None) else At(s, c, RegisterAppend(name))
    case RegisterAppend(name) => At(s, c, Done(true)).(mu := None, closers := s.closers + [name])
    case RunEnter => Entered(s, c, RunStore)
    case RunStore => At(s, c, RunWait).(shutdown := true)
    case RunWait => if s.cancelled then At(s, c, Begun(s)) else s
    case RunLoop(left, total) =>
      if left == 0 then At(s, c, RunFinal(total))
      else
        At(s, c, RunSelect(left - 1, total)).(
          wg := s.wg + 1, routines := s.routines[left - 1 := Closing], buffers := s.buffers[left - 1 := false],
          started := s.started + [left - 1])
    case RunSelect(left, total) =>
      if left in s.buffers && s.buffers[left] then At(s, c, RunLoop(left, total)).(buffers := s.buffers[left := false])
      else s
    case RunFinal(total) => if s.wg == 0 then At(s, c, RunLeave(true)) else s
    case RunLeave(ok) => At(s, c, Done(ok)).(once := Used)
    case TriggerEnter => Entered(s, c, TriggerStore)
    case TriggerStore => At(s, c, TriggerCancel).(shutdown := true)
    case TriggerCancel => At(s, c, TriggerLeave).(cancelled := true)
    case TriggerLeave => At(s, c, Done(true)).(once := Used)
    case Done(_) => s
  }

  /** once.Do: the first call goes in, the others wait for it and then return nil. */
  function Entered(s: State, c: nat, pc: Pc): State {
    match s.once
    case Unused => At(s, c, pc).(once := HeldBy(c))
    case HeldBy(_) => s
    case Used => At(s, c, Done(true))
  }

  /** A deadline passes while the call waits. */
  function Expired(s: State, c: nat, pc: Pc): State {
    match pc
    case RunSelect(left, total) => At(s, c, RunLoop(left, total))
    case RunFinal(total) => At(s, c, RunLeave(false))
    case _ => s
  }

  /** A goroutine: Close returns, fails or panics; its one result is sent when the slot is free; it is done. */
  function Continued(s: State, r: nat, routine: Routine): State {
    match routine
    case Closing => s.(routines := s.routines[r := Sending])
    case Sending =>
      if r !in s.buffers || s.buffers[r] then s
      else s.(routines := s.routines[r := Leaving], buffers := s.buffers[r := true])
    case Leaving => s.(routines := s.routines[r := Gone], wg := s.wg - 1)
    case Gone => s
  }

  function Run(s: State, trace: seq<Action>): State {
    if trace == [] then s else Step(Run(s, trace[..|trace| - 1]), trace[|trace| - 1])
  }

  // ----- The invariant -----

  /** The call is inside the function that once.Do runs. */
  predicate InOnce(pc: Pc) {
    pc.RunStore? || pc.TriggerStore? || pc.TriggerCancel? || pc.TriggerLeave? || InRun(pc)
  }

  predicate InRun(pc: Pc) {
    pc.RunWait? || Closes(pc)
  }

  /** The call is inside doShutdown, or has just left it. */
  predicate Closes(pc: Pc) {
    pc.RunLoop? || pc.RunSelect? || pc.RunFinal? || pc.RunLeave?
  }

  predicate HoldsMu(pc: Pc) {
    pc.RegisterCheck? || pc.RegisterAppend?
  }

  ghost predicate CallInv(s: State, c: nat) {
    c in s.calls ==>
      && (HoldsMu(s.calls[c]) <==> s.mu == Some(c))
      && (InOnce(s.calls[c]) <==> s.once == HeldBy(c))
  }

  /** What doShutdown has done so far: nothing, before a signal; then the last closers, last first. */
  ghost predicate Progress(s: State) {
    match s.once
    case Unused => !s.shutdown && !s.cancelled && s.started == []
    case HeldBy(c) =>
      && c in s.calls
      && (match s.calls[c]
          case RunStore => !s.cancelled && s.started == []
          case TriggerStore => !s.cancelled && s.started == []
          case RunWait => s.shutdown && !s.cancelled && s.started == []
          case TriggerCancel => s.shutdown && !s.cancelled && s.started == []
          case TriggerLeave => s.shutdown && s.cancelled && s.started == []
          case RunLoop(left, total) => s.shutdown && s.cancelled && Descends(s, left, total)
          case RunSelect(left, total) => s.shutdown && s.cancelled && Descends(s, left, total) && left < total
          case RunFinal(total) => s.shutdown && s.cancelled && Descends(s, 0, total)
          case RunLeave(ok) => s.shutdown && s.cancelled && Descends(s, 0, |s.started|) && (ok ==> AllGone(s))
          case _ => true)
    case Used => s.shutdown && s.cancelled && Descends(s, 0, |s.started|)
  }

  /** The closers from `left` to `total` have been started, the last one first. */
  ghost predicate Descends(s: State, left: nat, total: nat) {
    && left <= total <= |s.closers| && |s.started| == total - left
    && forall j :: 0 <= j < |s.started| ==> s.started[j] == total - 1 - j
  }

  /** Exactly the started closers have a goroutine and a channel; a goroutine that has not sent finds the slot free. */
  ghost predicate RoutineInv(s: State, r: nat) {
    && (r in s.routines <==> r in s.started)
    && (r in s.buffers <==> r in s.routines)
    && (r in s.routines && (s.routines[r].Closing? || s.routines[r].Sending?) ==> !s.buffers[r])
  }

  ghost predicate AllGone(s: State) {
    forall r :: r in s.routines ==> s.routines[r].Gone?
  }

  function Alive(routines: map<nat, Routine>): set<nat> {
    set r | r in routines && !routines[r].Gone?
  }

  ghost predicate Inv(s: State) {
    && (s.mu.Some? ==> s.mu.value in s.calls)
    && (forall c :: CallInv(s, c))
    && Progress(s)
    && (forall r :: RoutineInv(s, r))
    && s.wg == |Alive(s.routines)|
  }

  lemma WaitGroupCounts(routines: map<nat, Routine>, r: nat, next: Routine)
    ensures |Alive(routines[r := next])| ==
      |Alive(routines) - {r}| + if next.Gone? then 0 else 1
  {
    var alive := Alive(routines) - {r};
    assert Alive(routines[r := next]) == if next.Gone? then alive else alive + {r};
  }

  lemma RoutineStepCounts(s: State, r: nat)
    requires s.wg == |Alive(s.routines)| && r in s.routines
    ensures var t := Continued(s, r, s.routines[r]); t.wg == |Alive(t.routines)|
  {
    var t := Continued(s, r, s.routines[r]);
    WaitGroupCounts(s.routines, r, t.routines[r]);
    assert s.routines[r := t.routines[r]] == t.routines;
    if !s.routines[r].Gone? {
      assert r in Alive(s.routines);
    }
  }

  lemma RoutineStepKeepsInv(s: State, r: nat)
    requires Inv(s) && r in s.routines
    ensures Inv(Continued(s, r, s.routines[r]))
  {
    var t := Continued(s, r, s.routines[r]);
    RoutineStepCounts(s, r);
    forall c ensures CallInv(t, c) {
      assert CallInv(s, c);
    }
    forall q ensures RoutineInv(t, q) {
      assert RoutineInv(s, q) && RoutineInv(s, r);
    }
    assert Progress(t) by {
      assert s.routines[r].Gone? ==> t == s;
    }
  }

  /** A step that moves one call and leaves the goroutines alone. */
  lemma CallMovesKeepInv(s: State, t: State, c: nat)
    requires Inv(s) && c in t.calls && t.calls == s.calls[c := t.calls[c]]
    requires t.routines == s.routines && t.buffers == s.buffers && t.started == s.started && t.wg == s.wg
    requires t.mu == s.mu || (s.mu == None && t.mu == Some(c)) || (s.mu == Some(c) && t.mu == None)
    requires t.once == s.once || (s.once == Unused && t.once == HeldBy(c)) || (s.once == HeldBy(c) && t.once == Used)
    requires CallInv(t, c) && Progress(t)
    ensures Inv(t)
  {
    assert CallInv(s, c);
    forall d ensures CallInv(t, d) {
      assert CallInv(s, d);
    }
    forall q ensures RoutineInv(t, q) {
      assert RoutineInv(s, q);
    }
  }

  lemma StartKeepsInv(s: State, c: nat)
    requires Inv(s) && c in s.calls && s.calls[c].RunLoop? && s.calls[c].left > 0
    ensures Inv(Advanced(s, c, s.calls[c]))
  {
    var t := Advanced(s, c, s.calls[c]);
    var r := s.calls[c].left - 1;
    assert CallInv(s, c);
    forall d ensures CallInv(t, d) {
      assert CallInv(s, d);
    }
    assert r !in s.started;
    assert RoutineInv(s, r);
    forall q ensures RoutineInv(t, q) {
      assert RoutineInv(s, q);
      assert q in t.started <==> q in s.started || q == r;
    }
    WaitGroupCounts(s.routines, r, Closing);
    assert Alive(s.routines) - {r} == Alive(s.routines);
  }

  lemma ReceiveKeepsInv(s: State, c: nat)
    requires Inv(s) && c in s.calls && s.calls[c].RunSelect?
    ensures Inv(Advanced(s, c, s.calls[c]))
  {
    var t := Advanced(s, c, s.calls[c]);
    assert CallInv(s, c);
    forall d ensures CallInv(t, d) {
      assert CallInv(s, d);
    }
    forall q ensures RoutineInv(t, q) {
      assert RoutineInv(s, q);
    }
  }

  lemma AppendKeepsProgress(s: State, t: State)
    requires Progress(s) && t.once == s.once && t.shutdown == s.shutdown && t.cancelled == s.cancelled
    requires t.started == s.started && t.routines == s.routines && |t.closers| >= |s.closers|
    requires s.once.HeldBy? ==> s.once.c in t.calls && s.once.c in s.calls && t.calls[s.once.c] == s.calls[s.once.c]
    ensures Progress(t)
  {
  }

  lemma RegisterKeepsInv(s: State, c: nat)
    requires Inv(s) && c in s.calls
    requires s.calls[c].RegisterLock? || s.calls[c].RegisterCheck? || s.calls[c].RegisterAppend?
    ensures Inv(Advanced(s, c, s.calls[c]))
  {
    var t := Advanced(s, c, s.calls[c]);
    assert CallInv(s, c);
    if t != s {
      assert s.once != HeldBy(c);
      AppendKeepsProgress(s, t);
      CallMovesKeepInv(s, t, c);
    }
  }

  lemma EnterKeepsInv(s: State, c: nat)
    requires Inv(s) && c in s.calls
    requires s.calls[c].RunEnter? || s.calls[c].TriggerEnter?
    ensures Inv(Advanced(s, c, s.calls[c]))
  {
    var t := Advanced(s, c, s.calls[c]);
    assert CallInv(s, c);
    if t != s {
      CallMovesKeepInv(s, t, c);
    }
  }

  lemma InOnceKeepsInv(s: State, c: nat)
    requires Inv(s) && c in s.calls && InOnce(s.calls[c])
    requires !s.calls[c].RunSelect? && (s.calls[c].RunLoop? ==> s.calls[c].left == 0)
    ensures Inv(Advanced(s, c, s.calls[c]))
  {
    var t := Advanced(s, c, s.calls[c]);
    assert CallInv(s, c);
    if t != s {
      if s.calls[c].RunFinal? {
        forall r | r in s.routines ensures s.routines[r].Gone? {
          assert Alive(s.routines) == {} && r !in Alive(s.routines);
        }
      }
      CallMovesKeepInv(s, t, c);
    }
  }

  lemma AdvanceKeepsInv(s: State, c: nat)
    requires Inv(s) && c in s.calls
    ensures Inv(Advanced(s, c, s.calls[c]))
  {
    match s.calls[c] {
      case RegisterLock(_) => RegisterKeepsInv(s, c);
      case RegisterCheck(_) => RegisterKeepsInv(s, c);
      case RegisterAppend(_) => RegisterKeepsInv(s, c);
      case RunEnter => EnterKeepsInv(s, c);
      case TriggerEnter => EnterKeepsInv(s, c);
      case RunLoop(left, _) => if left > 0 { StartKeepsInv(s, c); } else { InOnceKeepsInv(s, c); }
      case RunSelect(_, _) => ReceiveKeepsInv(s, c);
      case Done(_) =>
      case _ => InOnceKeepsInv(s, c);
    }
  }

  lemma BeginKeepsInv(s: State, c: nat, what: Pc)
    requires Inv(s) && c !in s.calls && IsStart(what)
    ensures Inv(At(s, c, what))
  {
    assert CallInv(s, c);
    assert s.once != HeldBy(c);
    CallMovesKeepInv(s, At(s, c, what), c);
  }

  lemma WakeKeepsInv(s: State, c: nat)
    requires Inv(s) && c in s.calls
    ensures Inv(Step(s, Signal(c))) && Inv(Step(s, Expire(c)))
  {
    assert CallInv(s, c);
    if s.calls[c].RunWait? {
      CallMovesKeepInv(s, Step(s, Signal(c)), c);
    }
    if s.calls[c].RunSelect? || s.calls[c].RunFinal? {
      CallMovesKeepInv(s, Step(s, Expire(c)), c);
    }
  }

  lemma StepKeepsInv(s: State, a: Action)
    requires Inv(s)
    ensures Inv(Step(s, a))
  {
    match a {
      case Continue(r) => if r in s.routines { RoutineStepKeepsInv(s, r); }
      case Advance(c) => if c in s.calls { AdvanceKeepsInv(s, c); }
      case Begin(c, what) => if c !in s.calls && IsStart(what) { BeginKeepsInv(s, c, what); }
      case Signal(c) => if c in s.calls { WakeKeepsInv(s, c); }
      case Expire(c) => if c in s.calls { WakeKeepsInv(s, c); }
    }
  }

  lemma {:induction false} StaysInv(s: State, trace: seq<Action>)
    requires Inv(s)
    ensures Inv(Run(s, trace))
  {
    if trace != [] {
      StaysInv(s, trace[..|trace| - 1]);
      StepKeepsInv(Run(s, trace[..|trace| - 1]), trace[|trace| - 1]);
    }
  }

  lemma RunKeepsInv(trace: seq<Action>)
    ensures Inv(Run(NEW, trace))
  {
    NewInv();
    StaysInv(NEW, trace);
  }

  lemma NewInv()
    ensures Inv(NEW)
  {
  }

  // ----- What holds of every run -----

  /**
   * The goroutine of a closer never blocks on its channel: when it is about to send, the slot is
   * free, although the loop may have stopped waiting for it.
   */
  lemma NeverBlocks(trace: seq<Action>, r: nat)
    ensures var s := Run(NEW, trace);
      r in s.routines && s.routines[r].Sending? ==> Step(s, Continue(r)).routines[r] == Leaving
  {
    RunKeepsInv(trace);
    assert RoutineInv(Run(NEW, trace), r);
  }

  /** While Run waits, its context is never cancelled: only a signal can end the wait. */
  lemma ContextBranchIsDead(trace: seq<Action>, c: nat)
    ensures var s := Run(NEW, trace);
      c in s.calls && s.calls[c].RunWait? ==> !s.cancelled && Step(s, Advance(c)) == s
  {
    RunKeepsInv(trace);
    assert CallInv(Run(NEW, trace), c);
  }

  /** Call `c` runs doShutdown, or has run it, on a list of `n` closers. */
  ghost predicate Shuts(s: State, c: nat, n: nat) {
    && c in s.calls
    && match s.calls[c]
       case RunLoop(_, total) => total == n
       case RunSelect(_, total) => total == n
       case RunFinal(total) => total == n
       case RunLeave(ok) => |s.started| == n
       case Done(ok) => s.once == Used && |s.started| == n && (ok ==> AllGone(s))
       case _ => false
  }

  lemma ShutsAdvances(s: State, d: nat, c: nat, n: nat)
    requires Inv(s) && Shuts(s, c, n) && d in s.calls
    ensures var t := Advanced(s, d, s.calls[d]);
      Shuts(t, c, n) && |s.closers| <= |t.closers| && t.closers[..|s.closers|] == s.closers
  {
    assert CallInv(s, c) && CallInv(s, d);
    var t := Advanced(s, d, s.calls[d]);
    if d != c {
      assert t.calls[c] == s.calls[c] && t.started == s.started && t.routines == s.routines;
    }
  }

  lemma ShutsStays(s: State, a: Action, c: nat, n: nat)
    requires Inv(s) && Shuts(s, c, n)
    ensures Shuts(Step(s, a), c, n)
    ensures |s.closers| <= |Step(s, a).closers| && Step(s, a).closers[..|s.closers|] == s.closers
  {
    assert CallInv(s, c);
    match a {
      case Begin(_, _) =>
      case Advance(d) => if d in s.calls { ShutsAdvances(s, d, c, n); }
      case Signal(d) => if d in s.calls { assert CallInv(s, d); }
      case Expire(d) => if d in s.calls { assert CallInv(s, d); }
      case Continue(_) =>
    }
  }

  lemma {:induction false} ShutsStaysOn(s: State, trace: seq<Action>, c: nat, n: nat)
    requires Inv(s) && Shuts(s, c, n)
    ensures Inv(Run(s, trace)) && Shuts(Run(s, trace), c, n)
    ensures |s.closers| <= |Run(s, trace).closers| && Run(s, trace).closers[..|s.closers|] == s.closers
  {
    if trace != [] {
      var shorter := trace[..|trace| - 1];
      ShutsStaysOn(s, shorter, c, n);
      var u := Run(s, shorter);
      ShutsStays(u, trace[|trace| - 1], c, n);
      StepKeepsInv(u, trace[|trace| - 1]);
      assert Step(u, trace[|trace| - 1]).closers[..|u.closers|][..|s.closers|] == s.closers;
    }
  }

  /**
   * A signal that finds Run waiting starts the one shutdown there is. Whatever happens after it,
   * the closers started are those registered by then, each once, the last first; when Run has
   * returned all of them have been started, and if it returned nil every Close has come back.
   */
  lemma EveryCloserOnceLastFirst(s: State, c: nat, trace: seq<Action>)
    requires Inv(s) && c in s.calls && s.calls[c].RunWait?
    ensures var u := Run(Step(s, Signal(c)), trace);
      && |u.started| <= |s.closers| <= |u.closers| && u.closers[..|s.closers|] == s.closers
      && (forall j :: 0 <= j < |u.started| ==> u.started[j] == |s.closers| - 1 - j)
      && c in u.calls
      && (u.calls[c].Done? ==> |u.started| == |s.closers|)
      && (u.calls[c] == Done(true) ==> forall r :: 0 <= r < |s.closers| ==> r in u.routines && u.routines[r].Gone?)
  {
    var n := |s.closers|;
    StepKeepsInv(s, Signal(c));
    ShutsStaysOn(Step(s, Signal(c)), trace, c, n);
    var u := Run(Step(s, Signal(c)), trace);
    assert CallInv(u, c);
    if u.calls[c] == Done(true) {
      forall r | 0 <= r < n ensures r in u.routines && u.routines[r].Gone? {
        assert RoutineInv(u, r) && u.started[n - 1 - r] == r;
      }
    }
  }

  /** The Once is with a Trigger, or has been with one. */
  ghost predicate Triggered(s: State) {
    match s.once
    case Unused => false
    case HeldBy(c) =>
      c in s.calls && (s.calls[c].TriggerStore? || s.calls[c].TriggerCancel? || s.calls[c].TriggerLeave?)
    case Used => s.started == []
  }

  lemma TriggeredStays(s: State, a: Action)
    requires Inv(s) && Triggered(s)
    ensures Triggered(Step(s, a))
  {
    match a {
      case Begin(_, _) =>
      case Advance(d) => if d in s.calls { assert CallInv(s, d); }
      case Signal(d) => if d in s.calls { assert CallInv(s, d); }
      case Expire(d) => if d in s.calls { assert CallInv(s, d); }
      case Continue(_) =>
    }
  }

  /**
   * Trigger does not shut down anything: once a Trigger has taken the Once, no closer is ever
   * started, by it or by any Run.
   */
  lemma {:induction false} TriggerClosesNothing(s: State, trace: seq<Action>)
    requires Inv(s) && Triggered(s)
    ensures Inv(Run(s, trace)) && Triggered(Run(s, trace)) && Run(s, trace).started == []
  {
    if trace != [] {
      TriggerClosesNothing(s, trace[..|trace| - 1]);
      var u := Run(s, trace[..|trace| - 1]);
      StepKeepsInv(u, trace[|trace| - 1]);
      TriggeredStays(u, trace[|trace| - 1]);
    }
    assert Progress(Run(s, trace));
  }

  predicate InShutdown(s: State) {
    s.once.HeldBy? && s.once.c in s.calls && Closes(s.calls[s.once.c])
  }

  lemma AdvanceClosesNothing(s: State, c: nat)
    requires Inv(s) && !InShutdown(s) && c in s.calls
    ensures var t := Advanced(s, c, s.calls[c]); t.started == s.started && !InShutdown(t)
  {
    assert CallInv(s, c);
    assert !Closes(s.calls[c]);
  }

  lemma SignalsStartClosers(s: State, a: Action)
    requires Inv(s) && !a.Signal? && !InShutdown(s)
    ensures var t := Step(s, a); t.started == s.started && !InShutdown(t)
  {
    match a {
      case Begin(_, _) =>
      case Advance(d) => if d in s.calls { AdvanceClosesNothing(s, d); }
      case Expire(d) => if d in s.calls { assert CallInv(s, d); }
      case Continue(_) =>
    }
  }

  /** Without a signal no closer is ever started. */
  lemma {:induction false} NoSignalNoClose(trace: seq<Action>)
    requires forall i :: 0 <= i < |trace| ==> !trace[i].Signal?
    ensures var s := Run(NEW, trace); s.started == [] && !InShutdown(s)
  {
    if trace != [] {
      NoSignalNoClose(trace[..|trace| - 1]);
      RunKeepsInv(trace[..|trace| - 1]);
      SignalsStartClosers(Run(NEW, trace[..|trace| - 1]), trace[|trace| - 1]);
    }
  }

  /** A registration that has passed its check and not yet appended. */
  predicate Pending(s: State) {
    s.mu.Some? && s.mu.value in s.calls && s.calls[s.mu.value].RegisterAppend?
  }

  /** The closers there are, and the one that may still come. */
  function Registered(s: State): nat {
    |s.closers| + if Pending(s) then 1 else 0
  }

  lemma AdvanceRegistersNoMore(s: State, c: nat)
    requires Inv(s) && s.shutdown && c in s.calls
    ensures var t := Advanced(s, c, s.calls[c]);
      && t.shutdown && |t.closers| >= |s.closers| && t.closers[..|s.closers|] == s.closers
      && Registered(t) <= Registered(s)
  {
    assert CallInv(s, c);
    var t := Advanced(s, c, s.calls[c]);
    if HoldsMu(s.calls[c]) || s.calls[c].RegisterLock? {
    } else {
      assert t.mu == s.mu && t.closers == s.closers && t.shutdown;
    }
  }

  lemma StepRegistersNoMore(s: State, a: Action)
    requires Inv(s) && s.shutdown
    ensures var t := Step(s, a);
      && t.shutdown && |t.closers| >= |s.closers| && t.closers[..|s.closers|] == s.closers
      && Registered(t) <= Registered(s)
  {
    match a {
      case Begin(_, _) =>
      case Advance(d) => if d in s.calls { AdvanceRegistersNoMore(s, d); }
      case Signal(d) => if d in s.calls { assert CallInv(s, d); }
      case Expire(d) => if d in s.calls { assert CallInv(s, d); }
      case Continue(_) =>
    }
  }

  /**
   * After the shutdown flag is set, at most one more closer is ever registered: that of a call
   * which had already checked the flag.
   */
  lemma {:induction false} AtMostOneLateRegistration(s: State, trace: seq<Action>)
    requires Inv(s) && s.shutdown
    ensures var t := Run(s, trace);
      && Inv(t) && t.shutdown && |t.closers| >= |s.closers| && t.closers[..|s.closers|] == s.closers
      && Registered(t) <= Registered(s)
  {
    if trace != [] {
      AtMostOneLateRegistration(s, trace[..|trace| - 1]);
      var u := Run(s, trace[..|trace| - 1]);
      StepKeepsInv(u, trace[|trace| - 1]);
      StepRegistersNoMore(u, trace[|trace| - 1]);
      assert Step(u, trace[|trace| - 1]).closers[..|u.closers|][..|s.closers|] == s.closers;
    }
  }

  lemma RunOne(s: State, trace: seq<Action>, a: Action)
    ensures Run(s, trace + [a]) == Step(Run(s, trace), a)
  {
    assert (trace + [a])[..|trace|] == trace;
  }

  lemma {:induction false} RunAppend(s: State, first: seq<Action>, second: seq<Action>)
    ensures Run(s, first + second) == Run(Run(s, first), second)
  {
    if second == [] {
      assert first + second == first;
    } else {
      assert (first + second)[..|first + second| - 1] == first + second[..|second| - 1];
      RunAppend(s, first, second[..|second| - 1]);
    }
  }

  lemma RunThree(s: State, a: Action, b: Action, c: Action)
    ensures Run(s, [a, b, c]) == Step(Step(Step(s, a), b), c)
  {
    assert [a, b, c][..2] == [a, b] && [a, b][..1] == [a] && [a][..0] == [];
    assert Run(s, [a]) == Step(s, a);
    assert Run(s, [a, b]) == Step(Step(s, a), b);
  }

  /** A registration takes the lock and checks the flag; Run sets the flag and waits. */
  function LateRun(name: Id): seq<Action> {
    [Begin(0, RegisterLock(name)), Advance(0), Advance(0)] + [Begin(1, RunEnter), Advance(1), Advance(1)]
  }

  /** The state this leads to: the registration is about to append its closer. */
  function LateState(name: Id): State {
    NEW.(mu := Some(0), shutdown := true, once := HeldBy(1), calls := map[0 := RegisterAppend(name)][1 := RunWait])
  }

  lemma LateStateIsReached(name: Id)
    ensures Run(NEW, LateRun(name)) == LateState(name)
  {
    var checked := NEW.(mu := Some(0), calls := map[0 := RegisterAppend(name)]);
    RegisterChecks(name);
    RunWaits(checked);
    RunThree(NEW, Begin(0, RegisterLock(name)), Advance(0), Advance(0));
    RunThree(checked, Begin(1, RunEnter), Advance(1), Advance(1));
    RunAppend(
      NEW, [Begin(0, RegisterLock(name)), Advance(0), Advance(0)], [Begin(1, RunEnter), Advance(1), Advance(1)]);
  }

  /** There is such a run: a signal starts the loop with no closer, and then the closer is registered. */
  lemma LateRegistrationHappens(name: Id)
    ensures Run(NEW, LateRun(name)).shutdown && Pending(Run(NEW, LateRun(name)))
    ensures var s := Run(NEW, LateRun(name) + [Signal(1)] + [Advance(0)]);
      && s.closers == [name] && s.started == []
      && 0 in s.calls && s.calls[0] == Done(true) && 1 in s.calls && s.calls[1] == RunLoop(0, 0)
  {
    LateStateIsReached(name);
    RunOne(NEW, LateRun(name), Signal(1));
    RunOne(NEW, LateRun(name) + [Signal(1)], Advance(0));
  }

  lemma RegisterChecks(name: Id)
    ensures Step(Step(Step(NEW, Begin(0, RegisterLock(name))), Advance(0)), Advance(0))
      == NEW.(mu := Some(0), calls := map[0 := RegisterAppend(name)])
  {
    var s2 := Step(Step(NEW, Begin(0, RegisterLock(name))), Advance(0));
    assert s2 == NEW.(mu := Some(0), calls := map[0 := RegisterCheck(name)]);
  }

  lemma RunWaits(s: State)
    requires 1 !in s.calls && s.once == Unused
    ensures Step(Step(Step(s, Begin(1, RunEnter)), Advance(1)), Advance(1))
      == s.(shutdown := true, once := HeldBy(1), calls := s.calls[1 := RunWait])
  {
    var s2 := Step(Step(s, Begin(1, RunEnter)), Advance(1));
    assert s2 == s.(once := HeldBy(1), calls := s.calls[1 := RunStore]);
  }

  /**
   * Whether a closer is ever closed is decided at the signal: one registered later never starts, and when Run has
   * returned, exactly those registered by then have been started.
   */
  lemma StartedExactlyWhen(s: State, c: nat, trace: seq<Action>, i: nat)
    requires Inv(s) && c in s.calls && s.calls[c].RunWait?
    ensures var u := Run(Step(s, Signal(c)), trace);
      && (i in u.started ==> i < |s.closers|)
      && (i in u.routines <==> i in u.started)
      && c in u.calls
      && (u.calls[c].Done? ==> (i in u.started <==> i < |s.closers|))
  {
    var n := |s.closers|;
    EveryCloserOnceLastFirst(s, c, trace);
    StepKeepsInv(s, Signal(c));
    StaysInv(Step(s, Signal(c)), trace);
    var u := Run(Step(s, Signal(c)), trace);
    assert RoutineInv(u, i);
    if u.calls[c].Done? && i < n {
      assert u.started[n - 1 - i] == i;
    }
  }

  // ----- A trigger, and then a run -----

  /** A closer is registered, Trigger runs, and then Run is called. */
  function TriggerThenRun(name: Id): seq<Action> {
    RegisterCall(name) + TriggerCall() + RunCall()
  }

  function RegisterCall(name: Id): seq<Action> {
    [Begin(0, RegisterLock(name)), Advance(0), Advance(0)] + [Advance(0)]
  }

  function TriggerCall(): seq<Action> {
    [Begin(1, TriggerEnter), Advance(1)] + [Advance(1), Advance(1), Advance(1)]
  }

  function RunCall(): seq<Action> {
    [Begin(2, RunEnter), Advance(2)]
  }

  lemma RunTwo(s: State, a: Action, b: Action)
    ensures Run(s, [a, b]) == Step(Step(s, a), b)
  {
    assert [a, b][..1] == [a] && [a][..0] == [];
    assert Run(s, [a]) == Step(s, a);
  }

  lemma RegisterRuns(name: Id)
    ensures Run(NEW, RegisterCall(name)) == NEW.(closers := [name], calls := map[0 := Done(true)])
  {
    var first := [Begin(0, RegisterLock(name)), Advance(0), Advance(0)];
    RunThree(NEW, first[0], first[1], first[2]);
    RegisterChecks(name);
    RunOne(NEW, first, Advance(0));
    assert [] + [name] == [name];
  }

  lemma TriggerRuns(s: State)
    requires 1 !in s.calls && s.once == Unused
    ensures Run(s, TriggerCall())
      == s.(shutdown := true, cancelled := true, once := Used, calls := s.calls[1 := Done(true)])
  {
    var (first, second) := ([Begin(1, TriggerEnter), Advance(1)], [Advance(1), Advance(1), Advance(1)]);
    RunAppend(s, first, second);
    RunTwo(s, first[0], first[1]);
    TriggerEnters(s);
    RunThree(Run(s, first), second[0], second[1], second[2]);
    TriggerCancels(Run(s, first));
    assert s.calls[1 := TriggerStore][1 := Done(true)] == s.calls[1 := Done(true)];
  }

  lemma TriggerEnters(s: State)
    requires 1 !in s.calls && s.once == Unused
    ensures Step(Step(s, Begin(1, TriggerEnter)), Advance(1))
      == s.(once := HeldBy(1), calls := s.calls[1 := TriggerStore])
  {
  }

  lemma TriggerCancels(s: State)
    requires 1 in s.calls && s.calls[1] == TriggerStore
    ensures Step(Step(Step(s, Advance(1)), Advance(1)), Advance(1))
      == s.(shutdown := true, cancelled := true, once := Used, calls := s.calls[1 := Done(true)])
  {
    var s2 := Step(Step(s, Advance(1)), Advance(1));
    assert s2 == s.(shutdown := true, cancelled := true, calls := s.calls[1 := TriggerLeave]);
  }

  lemma RunReturnsAtOnce(s: State)
    requires 2 !in s.calls && s.once == Used
    ensures Run(s, RunCall()) == s.(calls := s.calls[2 := Done(true)])
  {
    RunTwo(s, Begin(2, RunEnter), Advance(2));
  }

  /** The closer is registered and the shutdown flag set, Run returns nil, and nothing has been closed. */
  lemma TriggerThenRunHappens(name: Id)
    ensures var s := Run(NEW, TriggerThenRun(name));
      && s.closers == [name] && s.shutdown && s.cancelled && s.started == []
      && 2 in s.calls && s.calls[2] == Done(true)
  {
    RegisterRuns(name);
    RunAppend(NEW, RegisterCall(name), TriggerCall());
    TriggerRuns(Run(NEW, RegisterCall(name)));
    RunAppend(NEW, RegisterCall(name) + TriggerCall(), RunCall());
    RunReturnsAtOnce(Run(NEW, RegisterCall(name) + TriggerCall()));
  }

  // ----- A shutdown that succeeds -----

  /** When every goroutine is gone, the final wait of Run ends with nil. */
  lemma AllGoneReturnsNil(s: State, c: nat)
    requires Inv(s) && c in s.calls && s.calls[c].RunFinal? && AllGone(s)
    ensures Step(s, Advance(c)).calls[c] == RunLeave(true)
  {
    assert Alive(s.routines) == {};
  }

  lemma Extend(trace: seq<Action>, s: State, a: Action) returns (longer: seq<Action>)
    requires Run(NEW, trace) == s
    ensures Run(NEW, longer) == Step(s, a)
  {
    RunOne(NEW, trace, a);
    longer := trace + [a];
  }

  /** One closer is registered, Run waits, and a signal comes. */
  function Signalled(name: Id): State {
    State([name], None, true, true, HeldBy(1), 0, map[0 := Done(true), 1 := RunLoop(1, 1)], map[], map[], [])
  }

  lemma SignalComes(name: Id) returns (trace: seq<Action>)
    ensures Run(NEW, trace) == Signalled(name)
  {
    RegisterRuns(name);
    var s := Run(NEW, RegisterCall(name));
    trace := Extend(RegisterCall(name), s, Begin(1, RunEnter));
    var s1 := s.(calls := map[0 := Done(true), 1 := RunEnter]);
    assert Step(s, Begin(1, RunEnter)) == s1;
    trace := Extend(trace, s1, Advance(1));
    var s2 := s1.(once := HeldBy(1), calls := map[0 := Done(true), 1 := RunStore]);
    assert Step(s1, Advance(1)) == s2;
    trace := Extend(trace, s2, Advance(1));
    var s3 := s2.(shutdown := true, calls := map[0 := Done(true), 1 := RunWait]);
    assert Step(s2, Advance(1)) == s3;
    trace := Extend(trace, s3, Signal(1));
    assert Step(s3, Signal(1)).calls == Signalled(name).calls;
  }

  /** The closer is started: where Run is, where the goroutine is, whether the slot is full, and the wait group. */
  function InClose(name: Id, pc: Pc, routine: Routine, full: bool, wg: int): State {
    State(
      [name], None, true, true, HeldBy(1), wg,
      map[0 := Done(true), 1 := pc], map[0 := routine], map[0 := full], [0])
  }

  lemma CloserSteps(name: Id)
    ensures Step(Signalled(name), Advance(1)) == InClose(name, RunSelect(0, 1), Closing, false, 1)
    ensures Step(InClose(name, RunSelect(0, 1), Closing, false, 1), Continue(0))
      == InClose(name, RunSelect(0, 1), Sending, false, 1)
    ensures Step(InClose(name, RunSelect(0, 1), Sending, false, 1), Continue(0))
      == InClose(name, RunSelect(0, 1), Leaving, true, 1)
  {
  }

  lemma ReceiveSteps(name: Id)
    ensures Step(InClose(name, RunSelect(0, 1), Leaving, true, 1), Advance(1))
      == InClose(name, RunLoop(0, 1), Leaving, false, 1)
    ensures Step(InClose(name, RunLoop(0, 1), Leaving, false, 1), Continue(0))
      == InClose(name, RunLoop(0, 1), Gone, false, 0)
  {
  }

  lemma FinalSteps(name: Id)
    ensures Step(InClose(name, RunLoop(0, 1), Gone, false, 0), Advance(1)) == InClose(name, RunFinal(1), Gone, false, 0)
    ensures Step(InClose(name, RunFinal(1), Gone, false, 0), Advance(1))
      == InClose(name, RunLeave(true), Gone, false, 0)
    ensures Step(InClose(name, RunLeave(true), Gone, false, 0), Advance(1))
      == InClose(name, Done(true), Gone, false, 0).(once := Used)
  {
  }

  /** A run of a new handler in which a closer is registered, a signal comes, it is closed, and Run returns nil. */
  lemma ShutdownSucceeds(name: Id) returns (trace: seq<Action>)
    ensures var s := Run(NEW, trace);
      && s.closers == [name] && s.started == [0] && s.routines == map[0 := Gone] && s.wg == 0 && s.once == Used
      && s.calls == map[0 := Done(true), 1 := Done(true)]
  {
    CloserSteps(name);
    ReceiveSteps(name);
    FinalSteps(name);
    trace := SignalComes(name);
    trace := Extend(trace, Signalled(name), Advance(1));
    trace := Extend(trace, InClose(name, RunSelect(0, 1), Closing, false, 1), Continue(0));
    trace := Extend(trace, InClose(name, RunSelect(0, 1), Sending, false, 1), Continue(0));
    trace := Extend(trace, InClose(name, RunSelect(0, 1), Leaving, true, 1), Advance(1));
    trace := Extend(trace, InClose(name, RunLoop(0, 1), Leaving, false, 1), Continue(0));
    trace := Extend(trace, InClose(name, RunLoop(0, 1), Gone, false, 0), Advance(1));
    trace := Extend(trace, InClose(name, RunFinal(1), Gone, false, 0), Advance(1));
    trace := Extend(trace, InClose(name, RunLeave(true), Gone, false, 0), Advance(1));
  }
}
