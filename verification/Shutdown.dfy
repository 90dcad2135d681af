/**
 * The shutdown handler with one caller at a time, and the timing of one shutdown. Time runs
 * from the start of DoShutdown; the handler's own steps take none.
 */
module Shutdown {
  import opened Common

  /** What a Close will do once it is started. */
  datatype Behaviour = Returns(after: nat, ok: bool) | Panics(after: nat) | Hangs

  datatype NamedCloser = NamedCloser(name: Id, behaviour: Behaviour)

  datatype Start = Start(closer: NamedCloser, at: Time)

  const DEFAULT_TIMEOUT: Time := 30 * SECOND

  /** When the goroutine of a closer started at `at` is gone, if ever; a panic is recovered. */
  function Finish(b: Behaviour, at: Time): Option<Time> {
    match b
    case Returns(after, _) => Some(at + after)
    case Panics(after) => Some(at + after)
    case Hangs => None
  }

  /** The later of two instants, either of which may never come. */
  function Later(a: Option<Time>, b: Option<Time>): Option<Time> {
    if a.None? || b.None? then None else Some(Max(a.value, b.value))
  }

  function Max(a: Time, b: Time): Time {
    if a < b then b else a
  }

  function Min(a: Time, b: Time): Time {
    if a < b then a else b
  }

  function PerResource(timeout: Time): Time {
    Max(timeout / 10, SECOND)
  }

  /** When the wait for a closer started at `at` ends: it is done, its own time is up, or all time is up. */
  function WaitEnd(b: Behaviour, at: Time, timeout: Time): Time {
    var deadline := Min(timeout, at + PerResource(timeout));
    match Finish(b, at) case None => deadline case Some(t) => Min(t, deadline)
  }

  /** The closers in the order in which they are closed. */
  function Reversed<T>(s: seq<T>): seq<T> {
    if s == [] then [] else [s[|s| - 1]] + Reversed(s[..|s| - 1])
  }

  lemma {:induction false} ReversedAt<T>(s: seq<T>, j: nat)
    ensures |Reversed(s)| == |s|
    ensures j < |s| ==> Reversed(s)[j] == s[|s| - 1 - j]
  {
    if s != [] {
      ReversedAt(s[..|s| - 1], if j == 0 then 0 else j - 1);
    }
  }

  /** Starting the closers of `order` one after the other from `now` on. */
  function Schedule(order: seq<NamedCloser>, now: Time, timeout: Time): seq<Start> {
    if order == [] then []
    else [Start(order[0], now)] + Schedule(order[1..], WaitEnd(order[0].behaviour, now, timeout), timeout)
  }

  /** When the last of the started goroutines is gone. */
  function Drained(starts: seq<Start>): Option<Time> {
    if starts == [] then Some(0)
    else Later(Finish(starts[0].closer.behaviour, starts[0].at), Drained(starts[1..]))
  }

  class ShutdownHandler {
    const timeout: Time
    var closers: seq<NamedCloser>
    var shutdown: bool
    /** Whether the context handed out has been cancelled. */
    var cancelled: bool
    /** Whether the sync.Once has been used. */
    var used: bool

    predicate Valid()
      reads this
    {
      timeout > 0 && shutdown == used && (cancelled ==> used)
    }

    constructor (timeout: Time)
      ensures Valid() && closers == [] && !used && !cancelled
      ensures this.timeout == if timeout <= 0 then 30_000_000_000 else timeout
    {
      this.timeout := if timeout <= 0 then DEFAULT_TIMEOUT else timeout;
      closers, shutdown, cancelled, used := [], false, false, false;
    }

    /** A nil closer is ignored, and so is every closer once the shutdown has begun. */
    method Register(name: Id, closer: Option<Behaviour>)
      requires Valid()
      modifies this
      ensures Valid() && used == old(used) && cancelled == old(cancelled)
      ensures closers == if closer.None? || old(used) then old(closers)
                         else old(closers) + [NamedCloser(name, closer.value)]
    {
      if closer.None? {
        return;
      }
      if shutdown {
        return;
      }
      closers := closers + [NamedCloser(name, closer.value)];
    }

    /** A signal comes while Run waits; `tie` is the choice when all is done just at the deadline. */
    method Run(tie: bool) returns (ok: bool, starts: seq<Start>, returned: Time)
      requires Valid()
      modifies this
      ensures Valid() && used && closers == old(closers)
      ensures old(used) ==> ok && starts == [] && returned == 0 && cancelled == old(cancelled)
      ensures !old(used) ==> cancelled && starts == Schedule(Reversed(closers), 0, timeout)
      ensures !old(used) ==> (ok, returned) == Outcome(starts, timeout, tie)
    {
      if used {
        return true, [], 0;
      }
      used, shutdown := true, true;
      ok, starts, returned := DoShutdown(tie);
    }

    method DoShutdown(tie: bool) returns (ok: bool, starts: seq<Start>, returned: Time)
      requires Valid() && used
      modifies this
      ensures Valid() && used && closers == old(closers) && cancelled
      ensures starts == Schedule(Reversed(closers), 0, timeout)
      ensures (ok, returned) == Outcome(starts, timeout, tie)
    {
      cancelled := true;
      var now: Time := 0;
      var drained: Option<Time> := Some(0);
      starts := [];
      assert closers[..|closers|] == closers;
      ghost var whole := Schedule(Reversed(closers), 0, timeout);
      for i := |closers| downto 0
        invariant Valid() && used && closers == old(closers) && cancelled
        invariant whole == starts + Schedule(Reversed(closers[..i]), now, timeout)
        invariant drained == Drained(starts) && 0 <= now <= timeout
        invariant drained.Some? ==> now <= drained.value
      {
        var nc := closers[i];
        ScheduleTurn(whole, starts, closers, i, now, timeout);
        DrainedOneMore(starts, Start(nc, now));
        starts := starts + [Start(nc, now)];
        drained := Later(drained, Finish(nc.behaviour, now));
        now := WaitEnd(nc.behaviour, now, timeout);
      }
      assert closers[..0] == [];
      if drained.Some? && (drained.value < timeout || (drained.value == timeout && tie)) {
        return true, starts, drained.value;
      }
      return false, starts, timeout;
    }

    /** Trigger cancels the context; it uses up the sync.Once. */
    method Trigger()
      requires Valid()
      modifies this
      ensures Valid() && used && closers == old(closers)
      ensures cancelled == (old(cancelled) || !old(used))
    {
      if !used {
        used, shutdown, cancelled := true, true, true;
      }
    }
  }

  /** One turn of the loop. */
  lemma ScheduleTurn(
    whole: seq<Start>, starts: seq<Start>, closers: seq<NamedCloser>, i: nat, now: Time, timeout: Time)
    requires i < |closers| && 0 <= now <= timeout
    requires whole == starts + Schedule(Reversed(closers[..i + 1]), now, timeout)
    ensures var next := WaitEnd(closers[i].behaviour, now, timeout);
      && whole == starts + [Start(closers[i], now)] + Schedule(Reversed(closers[..i]), next, timeout)
      && now <= next <= timeout
      && (Finish(closers[i].behaviour, now).Some? ==> next <= Finish(closers[i].behaviour, now).value)
  {
    var next := WaitEnd(closers[i].behaviour, now, timeout);
    assert closers[..i + 1][..i] == closers[..i];
    assert Reversed(closers[..i + 1])[1..] == Reversed(closers[..i]);
    var (one, rest) := ([Start(closers[i], now)], Schedule(Reversed(closers[..i]), next, timeout));
    assert starts + (one + rest) == starts + one + rest;
  }

  /** Whether the shutdown succeeds, and when it returns. */
  function Outcome(starts: seq<Start>, timeout: Time, tie: bool): (bool, Time) {
    var drained := Drained(starts);
    if drained.Some? && (drained.value < timeout || (drained.value == timeout && tie)) then (true, drained.value)
    else (false, timeout)
  }

  lemma {:induction false} DrainedOneMore(starts: seq<Start>, s: Start)
    requires s.at >= 0
    ensures Drained(starts + [s]) == Later(Drained(starts), Finish(s.closer.behaviour, s.at))
  {
    if starts == [] {
      assert ([] + [s])[1..] == [];
    } else {
      DrainedOneMore(starts[1..], s);
      assert (starts + [s])[1..] == starts[1..] + [s];
    }
  }

  /** The goroutine of the start is gone by `t`. */
  predicate GoneBy(s: Start, t: Time) {
    var f := Finish(s.closer.behaviour, s.at);
    f.Some? && f.value <= t
  }

  lemma {:induction false} DrainedMeans(starts: seq<Start>, t: Time)
    requires t >= 0
    ensures (forall i :: 0 <= i < |starts| ==> GoneBy(starts[i], t))
            <==> (Drained(starts).Some? && Drained(starts).value <= t)
  {
    if starts != [] {
      DrainedMeans(starts[1..], t);
      if forall i :: 0 <= i < |starts| ==> GoneBy(starts[i], t) {
        assert GoneBy(starts[0], t);
        forall i | 0 <= i < |starts[1..]| ensures GoneBy(starts[1..][i], t) {
          assert GoneBy(starts[i + 1], t);
        }
      } else {
        var i :| 0 <= i < |starts| && !GoneBy(starts[i], t);
        assert i > 0 ==> !GoneBy(starts[1..][i - 1], t);
      }
    }
  }

  /**
   * Whatever the closers do: each is started exactly once, in the order given, the j-th no later
   * than j times the time of one resource and never after the deadline, and a closer that is
   * done within its time is followed at once.
   */
  lemma {:induction false} ScheduleBounds(order: seq<NamedCloser>, now: Time, timeout: Time, j: nat)
    requires 0 <= now <= timeout && j < |order|
    ensures var starts := Schedule(order, now, timeout);
      && |starts| == |order| && starts[j].closer == order[j]
      && now <= starts[j].at <= Min(timeout, now + j * PerResource(timeout))
      && (j + 1 < |order| ==> starts[j + 1].at == WaitEnd(order[j].behaviour, starts[j].at, timeout) >= starts[j].at)
  {
    var next := WaitEnd(order[0].behaviour, now, timeout);
    if j > 0 {
      ScheduleBounds(order[1..], next, timeout, j - 1);
      assert (j - 1) * PerResource(timeout) + PerResource(timeout) == j * PerResource(timeout);
    } else if |order| > 1 {
      ScheduleBounds(order[1..], next, timeout, 0);
    }
    ScheduleLength(order, now, timeout);
  }

  lemma {:induction false} ScheduleLength(order: seq<NamedCloser>, now: Time, timeout: Time)
    ensures |Schedule(order, now, timeout)| == |order|
  {
    if order != [] {
      ScheduleLength(order[1..], WaitEnd(order[0].behaviour, now, timeout), timeout);
    }
  }

  /**
   * One shutdown: last registered, first closed; the j-th closer from the end is started by
   * min(timeout, j * max(timeout / 10, 1 s)), though the others hang, fail or panic.
   */
  lemma LastInFirstClosed(closers: seq<NamedCloser>, timeout: Time, j: nat)
    requires timeout > 0 && j < |closers|
    ensures var starts := Schedule(Reversed(closers), 0, timeout);
      && |starts| == |closers| && starts[j].closer == closers[|closers| - 1 - j]
      && 0 <= starts[j].at <= Min(timeout, j * Max(timeout / 10, SECOND))
  {
    ReversedAt(closers, j);
    ScheduleBounds(Reversed(closers), 0, timeout, j);
  }

  /** The call returns by its deadline, and succeeds only if every Close has come back by then. */
  lemma ReturnsInTime(starts: seq<Start>, timeout: Time, tie: bool)
    requires timeout > 0 && forall i :: 0 <= i < |starts| ==> starts[i].at >= 0
    ensures var (ok, returned) := Outcome(starts, timeout, tie);
      && returned <= timeout
      && (ok ==> forall i :: 0 <= i < |starts| ==> GoneBy(starts[i], returned))
      && ((forall i :: 0 <= i < |starts| ==> GoneBy(starts[i], timeout - 1)) ==> ok)
      && (!ok ==> returned == timeout && exists i :: 0 <= i < |starts| && !GoneBy(starts[i], timeout - 1))
  {
    DrainedMeans(starts, timeout - 1);
    var (ok, returned) := Outcome(starts, timeout, tie);
    if ok {
      DrainedNotNegative(starts);
      DrainedMeans(starts, returned);
    }
  }

  lemma {:induction false} DrainedNotNegative(starts: seq<Start>)
    ensures Drained(starts).Some? ==> Drained(starts).value >= 0
  {
    if starts != [] {
      DrainedNotNegative(starts[1..]);
    }
  }

  function TotalTime(order: seq<NamedCloser>): nat {
    if order == [] then 0
    else (match order[0].behaviour case Returns(d, _) => d case Panics(d) => d case Hangs => 0) + TotalTime(order[1..])
  }

  /** A Close that comes back within the time of one resource. */
  predicate Prompt(b: Behaviour, timeout: Time) {
    !b.Hangs? && b.after <= PerResource(timeout)
  }

  /**
   * When every Close comes back within its time and all of them together before the deadline,
   * no two overlap, and the shutdown succeeds after exactly their total time.
   */
  lemma {:induction false} PromptClosersRunInTurn(order: seq<NamedCloser>, now: Time, timeout: Time)
    requires 0 <= now && now + TotalTime(order) < timeout
    requires forall i :: 0 <= i < |order| ==> Prompt(order[i].behaviour, timeout)
    ensures var starts := Schedule(order, now, timeout);
      && (order != [] ==> Drained(starts) == Some(now + TotalTime(order)))
      && (forall i :: 0 <= i < |starts| - 1 ==>
            Finish(starts[i].closer.behaviour, starts[i].at) == Some(starts[i + 1].at))
  {
    if order != [] {
      assert Prompt(order[0].behaviour, timeout);
      var next := WaitEnd(order[0].behaviour, now, timeout);
      assert next == now + order[0].behaviour.after;
      PromptClosersRunInTurn(order[1..], next, timeout);
    }
  }

  // ----- The schedule, instant by instant -----

  /** The Close is back by `t`, with an error, a panic or neither, if it is started at `at`. */
  predicate BackBy(b: Behaviour, at: Time, t: Time) {
    match b
    case Returns(after, _) => at + after <= t
    case Panics(after) => at + after <= t
    case Hangs => false
  }

  lemma GoneByMeans(s: Start, t: Time)
    ensures GoneBy(s, t) <==> BackBy(s.closer.behaviour, s.at, t)
  {
  }

  /**
   * The next closer starts at the very instant at which this one is back, if that is within its own time and the
   * whole; if it is not, or never comes back, when the first of the two is over: not before and not after.
   */
  lemma {:induction false} NextStartsExactly(order: seq<NamedCloser>, now: Time, timeout: Time, j: nat)
    requires 0 <= now <= timeout && j + 1 < |order|
    ensures var (starts, per) :=
        (Schedule(order, now, timeout), if timeout / 10 < 1_000_000_000 then 1_000_000_000 else timeout / 10);
      && |starts| == |order| && starts[0].at == now
      && var (b, at) := (order[j].behaviour, starts[j].at);
         var limit := if at + per < timeout then at + per else timeout;
      && (BackBy(b, at, limit) ==> !b.Hangs? && starts[j + 1].at == at + b.after)
      && (!BackBy(b, at, limit) ==> starts[j + 1].at == limit)
  {
    ScheduleLength(order, now, timeout);
    var next := WaitEnd(order[0].behaviour, now, timeout);
    ScheduleLength(order[1..], next, timeout);
    if j > 0 {
      NextStartsExactly(order[1..], next, timeout, j - 1);
    }
  }

  /** When no closer ever comes back, each gets its full time: the j-th starts at min(timeout, j * per resource). */
  lemma {:induction false} HangingClosersGetTheirTime(order: seq<NamedCloser>, timeout: Time, j: nat)
    requires timeout > 0 && j < |order| && forall i :: 0 <= i < |order| ==> order[i].behaviour.Hangs?
    ensures var (starts, per) :=
        (Schedule(order, 0, timeout), if timeout / 10 < 1_000_000_000 then 1_000_000_000 else timeout / 10);
      |starts| == |order| && starts[j].at == if j * per < timeout then j * per else timeout
  {
    ScheduleLength(order, 0, timeout);
    if j > 0 {
      HangingClosersGetTheirTime(order, timeout, j - 1);
      NextStartsExactly(order, 0, timeout, j - 1);
      var per := if timeout / 10 < 1_000_000_000 then 1_000_000_000 else timeout / 10;
      assert (j - 1) * per + per == j * per;
    }
  }
}
