/** HeartRate/HeartRateServiceWatchdog.cs: the older watchdog. A check that
    finds the stopwatch past the timeout restarts it at once, before calling
    InitiateDefault, and nothing catches what that call throws. On .NET such
    an exception ends the process; the model only stops the watchdog's
    loop. */
module LegacyWatchdog {
  import opened Wrappers
  import opened Exceptions
  import opened WatchdogModel

  /** The effect of one event on the watchdog's state. */
  function Step(timeout: int, s: State, e: Event): State
  {
    match e
    case Reading(delay) =>
      var now := s.clock + delay;
      s.(clock := now, lastUpdate := now)
    case Dispose(delay) =>
      s.(clock := s.clock + delay, isDisposed := true)
    case Check(delay, serviceDisposed, outcome, duration) =>
      if !s.running then s
      else
        var now := CheckTime(s, delay);
        if s.isDisposed || serviceDisposed then s.(clock := now, running := false)
        else if now - s.lastUpdate > timeout then
          var returned := now + duration;
          s.(clock := returned, lastUpdate := now, calls := s.calls + [now],
             wakeAt := returned + SleepMs, running := outcome.Pass?)
        else s.(clock := now, wakeAt := now + SleepMs)
  }

  /** The state after a run of events. */
  function Run(timeout: int, s: State, events: seq<Event>): State
    decreases |events|
  {
    if events == [] then s else Run(timeout, Step(timeout, s, events[0]), events[1..])
  }

  /** A running, undisposed watchdog reconnects on a check iff the time since
      the stopwatch's last restart strictly exceeds the timeout; when it does,
      the stopwatch restarts at the check, whatever the call's outcome, and a
      failing call ends the thread. */
  lemma CheckDecides(timeout: int, s: State, delay: nat, outcome: Outcome<Exception>, duration: nat)
    requires s.running && !s.isDisposed
    ensures var t := Step(timeout, s, Check(delay, false, outcome, duration));
      && (|t.calls| == |s.calls| + 1 <==> CheckTime(s, delay) - s.lastUpdate > timeout)
      && (|t.calls| == |s.calls| + 1 ==>
            t.calls[|s.calls|] == CheckTime(s, delay) && t.lastUpdate == CheckTime(s, delay)
            && t.running == outcome.Pass?)
      && (|t.calls| == |s.calls| ==> t.running && t.lastUpdate == s.lastUpdate)
    ensures Step(timeout, s, Reading(delay)).lastUpdate == s.clock + delay
  {
  }

  /** Disposal is never undone, and once the thread has exited, by disposal
      or by an escaping exception, nothing calls InitiateDefault again. */
  lemma {:induction false} DisposedStays(timeout: int, s: State, events: seq<Event>)
    ensures s.isDisposed ==> Run(timeout, s, events).isDisposed
    ensures !s.running ==> !Run(timeout, s, events).running && Run(timeout, s, events).calls == s.calls
    decreases |events|
  {
    if events != [] {
      DisposedStays(timeout, Step(timeout, s, events[0]), events[1..]);
    }
  }

  /** After Dispose, the next iteration ends the thread without a call. */
  lemma {:induction false} NoCallsAfterDispose(timeout: int, s: State, events: seq<Event>)
    requires s.isDisposed
    ensures Run(timeout, s, events).calls == s.calls
    decreases |events|
  {
    if events != [] {
      var t := Step(timeout, s, events[0]);
      assert t.isDisposed && t.calls == s.calls;
      NoCallsAfterDispose(timeout, t, events[1..]);
    }
  }

  /** The gap two consecutive reconnects keep at least. */
  function Gap(timeout: int): int {
    Max(SleepMs, timeout + 1)
  }

  /** What every reachable state satisfies: the last call is no later than the
      clock and the stopwatch's last restart, and at least one sleep before
      the thread wakes; calls are Gap apart. */
  predicate Inv(timeout: int, s: State) {
    && Spaced(s.calls, Gap(timeout))
    && (|s.calls| > 0 ==>
          var last := s.calls[|s.calls| - 1];
          last <= s.clock && last <= s.lastUpdate && last + SleepMs <= s.wakeAt)
  }

  lemma StepInv(timeout: int, s: State, e: Event)
    requires Inv(timeout, s)
    ensures Inv(timeout, Step(timeout, s, e))
  {
    if e.Check? && s.running && !s.isDisposed && !e.serviceDisposed {
      var now := CheckTime(s, e.delay);
      if now - s.lastUpdate > timeout {
        SpacedSnoc(s.calls, Gap(timeout), now);
      }
    }
  }

  /** Reconnects are more than a timeout apart, and at least one sleep: the
      stopwatch restarted at the previous reconnect has to run out again. */
  lemma {:induction false} AtMostOnePerTimeout(timeout: int, s: State, events: seq<Event>)
    requires Inv(timeout, s)
    ensures Inv(timeout, Run(timeout, s, events))
    ensures Spaced(Run(timeout, s, events).calls, Gap(timeout))
    decreases |events|
  {
    if events != [] {
      StepInv(timeout, s, events[0]);
      AtMostOnePerTimeout(timeout, Step(timeout, s, events[0]), events[1..]);
    }
  }

  class HeartRateServiceWatchdog {
    const timeout: int
    var clock: int
    var lastUpdate: int
    var wakeAt: int
    var isDisposed: bool
    var running: bool
    var calls: seq<int>

    function Snapshot(): State
      reads this
    {
      State(clock, lastUpdate, wakeAt, isDisposed, running, calls)
    }

    constructor (timeout: int)
      ensures this.timeout == timeout && Snapshot() == Initial()
    {
      this.timeout := timeout;
      clock := 0;
      lastUpdate := 0;
      wakeAt := 0;
      isDisposed := false;
      running := true;
      calls := [];
    }

    /** Service_HeartRateUpdated: restart the stopwatch. */
    method ServiceHeartRateUpdated(delay: nat)
      modifies this
      ensures Snapshot() == Step(timeout, old(Snapshot()), Reading(delay))
    {
      clock := clock + delay;
      lastUpdate := clock;
    }

    /** One iteration of WatchdogThread; `exited` when the loop ends, either
        normally or by InitiateDefault's exception. */
    method Iteration(delay: nat, serviceDisposed: bool, outcome: Outcome<Exception>, duration: nat)
      returns (exited: bool)
      modifies this
      ensures Snapshot() == Step(timeout, old(Snapshot()), Check(delay, serviceDisposed, outcome, duration))
      ensures exited == !running
    {
      if !running {
        return true;
      }
      clock := CheckTime(Snapshot(), delay);
      if isDisposed || serviceDisposed {
        running := false;
        return true;
      }
      var needsRefresh := false;
      if clock - lastUpdate > timeout {
        needsRefresh := true;
        lastUpdate := clock;
      }
      if needsRefresh {
        calls := calls + [clock];
        clock := clock + duration;
        if outcome.Fail? {
          wakeAt := clock + SleepMs;
          running := false;
          return true;
        }
      }
      wakeAt := clock + SleepMs;
      exited := false;
    }

    /** Dispose: set the flag; the thread notices it on its next iteration. */
    method Dispose(delay: nat)
      modifies this
      ensures Snapshot() == Step(timeout, old(Snapshot()), WatchdogModel.Dispose(delay))
    {
      clock := clock + delay;
      isDisposed := true;
    }
  }

  /** The constructor: a null service throws ArgumentNullException. */
  method Create(timeout: int, serviceIsNull: bool) returns (r: Result<HeartRateServiceWatchdog, Exception>)
    ensures serviceIsNull ==> r == Failure(ArgumentNullException)
    ensures !serviceIsNull ==> r.Success? && fresh(r.value) && r.value.timeout == timeout && r.value.Snapshot() == Initial()
  {
    if serviceIsNull {
      return Failure(ArgumentNullException);
    }
    var w := new HeartRateServiceWatchdog(timeout);
    r := Success(w);
  }
}
