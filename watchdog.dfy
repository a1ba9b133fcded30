/** src/HeartRate/HeartRateServiceWatchdog.cs: the newer watchdog. A check
    that finds the stopwatch past the timeout calls InitiateDefault and
    restarts the stopwatch only when that call returns; a failure is logged
    and retried on the next iteration. */
module Watchdog {
  import opened Wrappers
  import opened Exceptions
  import opened WatchdogModel

  /** The effect of one event on the watchdog's state. */
  function Step(timeout: int, s: State, e: Event): State
  {
    match e
    case Reading(delay) =>
      var now := s.clock + delay;
      s.(clock := now, lastUpdate := now)
    case Dispose(delay) =>
      s.(clock := s.clock + delay, isDisposed := true)
    case Check(delay, serviceDisposed, outcome, duration) =>
      if !s.running then s
      else
        var now := CheckTime(s, delay);
        if s.isDisposed || serviceDisposed then s.(clock := now, running := false)
        else if now - s.lastUpdate > timeout then
          var returned := now + duration;
          s.(clock := returned, calls := s.calls + [now], wakeAt := returned + SleepMs,
             lastUpdate := if outcome.Pass? then returned else s.lastUpdate)
        else s.(clock := now, wakeAt := now + SleepMs)
  }

  /** The state after a run of events. */
  function Run(timeout: int, s: State, events: seq<Event>): State
    decreases |events|
  {
    if events == [] then s else Run(timeout, Step(timeout, s, events[0]), events[1..])
  }

  /** A running, undisposed watchdog reconnects on a check iff the time since
      the stopwatch's last restart strictly exceeds the timeout; a reading
      restarts the stopwatch. */
  lemma CheckDecides(timeout: int, s: State, delay: nat, outcome: Outcome<Exception>, duration: nat)
    requires s.running && !s.isDisposed
    ensures var t := Step(timeout, s, Check(delay, false, outcome, duration));
      && (|t.calls| == |s.calls| + 1 <==> CheckTime(s, delay) - s.lastUpdate > timeout)
      && (|t.calls| == |s.calls| + 1 ==> t.calls[|s.calls|] == CheckTime(s, delay))
      && t.running
    ensures Step(timeout, s, Reading(delay)).lastUpdate == s.clock + delay
  {
  }

  /** A failed reconnect leaves the stopwatch alone, so the next iteration,
      if no reading came in between, reconnects again; a successful one
      restarts the stopwatch when InitiateDefault returns. */
  lemma RetryAfterFailure(timeout: int, s: State, d1: nat, e: Exception, dur1: nat,
                          d2: nat, outcome2: Outcome<Exception>, dur2: nat)
    requires s.running && !s.isDisposed
    requires CheckTime(s, d1) - s.lastUpdate > timeout
    ensures var s1 := Step(timeout, s, Check(d1, false, Fail(e), dur1));
      var s2 := Step(timeout, s1, Check(d2, false, outcome2, dur2));
      && s1.lastUpdate == s.lastUpdate
      && s2.calls == s.calls + [CheckTime(s, d1), CheckTime(s1, d2)]
  {
    var s1 := Step(timeout, s, Check(d1, false, Fail(e), dur1));
    assert CheckTime(s1, d2) >= s1.clock >= CheckTime(s, d1);
  }

  lemma SuccessRestarts(timeout: int, s: State, delay: nat, duration: nat)
    requires s.running && !s.isDisposed
    requires CheckTime(s, delay) - s.lastUpdate > timeout
    ensures Step(timeout, s, Check(delay, false, Pass, duration)).lastUpdate == CheckTime(s, delay) + duration
  {
  }

  /** Disposal is never undone, and once the thread has exited nothing calls
      InitiateDefault again. */
  lemma {:induction false} DisposedStays(timeout: int, s: State, events: seq<Event>)
    ensures s.isDisposed ==> Run(timeout, s, events).isDisposed
    ensures !s.running ==> !Run(timeout, s, events).running && Run(timeout, s, events).calls == s.calls
    decreases |events|
  {
    if events != [] {
      DisposedStays(timeout, Step(timeout, s, events[0]), events[1..]);
    }
  }

  /** After Dispose, the next iteration ends the thread without a call. */
  lemma {:induction false} NoCallsAfterDispose(timeout: int, s: State, events: seq<Event>)
    requires s.isDisposed
    ensures Run(timeout, s, events).calls == s.calls
    decreases |events|
  {
    if events != [] {
      var t := Step(timeout, s, events[0]);
      assert t.isDisposed && t.calls == s.calls;
      NoCallsAfterDispose(timeout, t, events[1..]);
    }
  }

  /** What every reachable state satisfies: the thread's wake-up time is
      past every call by at least the sleep, and calls are that far apart. */
  predicate Inv(s: State) {
    && Spaced(s.calls, SleepMs)
    && (|s.calls| > 0 ==> s.calls[|s.calls| - 1] + SleepMs <= s.wakeAt)
  }

  lemma StepInv(timeout: int, s: State, e: Event)
    requires Inv(s)
    ensures Inv(Step(timeout, s, e))
  {
    if e.Check? && s.running && !s.isDisposed && !e.serviceDisposed {
      var now := CheckTime(s, e.delay);
      if now - s.lastUpdate > timeout {
        SpacedSnoc(s.calls, SleepMs, now);
      }
    }
  }

  /** Reconnects are at least one sleep (10 s) apart, however short the
      timeout and however often InitiateDefault fails. */
  lemma {:induction false} CallsPaced(timeout: int, s: State, events: seq<Event>)
    requires Inv(s)
    ensures Inv(Run(timeout, s, events))
    ensures Spaced(Run(timeout, s, events).calls, SleepMs)
    decreases |events|
  {
    if events != [] {
      StepInv(timeout, s, events[0]);
      CallsPaced(timeout, Step(timeout, s, events[0]), events[1..]);
    }
  }

  class HeartRateServiceWatchdog {
    const timeout: int
    var clock: int
    var lastUpdate: int
    var wakeAt: int
    var isDisposed: bool
    var running: bool
    var calls: seq<int>

    function Snapshot(): State
      reads this
    {
      State(clock, lastUpdate, wakeAt, isDisposed, running, calls)
    }

    constructor (timeout: int)
      ensures this.timeout == timeout && Snapshot() == Initial()
    {
      this.timeout := timeout;
      clock := 0;
      lastUpdate := 0;
      wakeAt := 0;
      isDisposed := false;
      running := true;
      calls := [];
    }

    /** Service_HeartRateUpdated: restart the stopwatch. */
    method ServiceHeartRateUpdated(delay: nat)
      modifies this
      ensures Snapshot() == Step(timeout, old(Snapshot()), Reading(delay))
    {
      clock := clock + delay;
      lastUpdate := clock;
    }

    /** One iteration of WatchdogThread; `exited` when the loop ends. */
    method Iteration(delay: nat, serviceDisposed: bool, outcome: Outcome<Exception>, duration: nat)
      returns (exited: bool)
      modifies this
      ensures Snapshot() == Step(timeout, old(Snapshot()), Check(delay, serviceDisposed, outcome, duration))
      ensures exited == !running
    {
      if !running {
        return true;
      }
      clock := CheckTime(Snapshot(), delay);
      if isDisposed || serviceDisposed {
        running := false;
        return true;
      }
      var needsRefresh := clock - lastUpdate > timeout;
      if needsRefresh {
        calls := calls + [clock];
        clock := clock + duration;
        if outcome.Pass? {
          lastUpdate := clock;
        }
      }
      wakeAt := clock + SleepMs;
      exited := false;
    }

    /** Dispose: set the flag; the thread notices it on its next iteration. */
    method Dispose(delay: nat)
      modifies this
      ensures Snapshot() == Step(timeout, old(Snapshot()), WatchdogModel.Dispose(delay))
    {
      clock := clock + delay;
      isDisposed := true;
    }
  }

  /** The constructor: a null service throws ArgumentNullException. */
  method Create(timeout: int, serviceIsNull: bool) returns (r: Result<HeartRateServiceWatchdog, Exception>)
    ensures serviceIsNull ==> r == Failure(ArgumentNullException)
    ensures !serviceIsNull ==> r.Success? && fresh(r.value) && r.value.timeout == timeout && r.value.Snapshot() == Initial()
  {
    if serviceIsNull {
      return Failure(ArgumentNullException);
    }
    var w := new HeartRateServiceWatchdog(timeout);
    r := Success(w);
  }
}
