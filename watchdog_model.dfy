/** What both generations of HeartRateServiceWatchdog share: the state the
    watchdog keeps against an abstract clock in milliseconds, and the things
    that happen to it. */
module WatchdogModel {
  import opened Wrappers
  import opened Exceptions

  /** Thread.Sleep(10000) after every iteration of the watchdog loop. */
  const SleepMs: nat := 10000

  /** clock: the current time. lastUpdate: when the staleness stopwatch was
      last (re)started. wakeAt: when the watchdog thread's sleep ends.
      calls: the times at which InitiateDefault was called, in order.
      running: the watchdog thread has not exited. */
  datatype State = State(
    clock: int,
    lastUpdate: int,
    wakeAt: int,
    isDisposed: bool,
    running: bool,
    calls: seq<int>)

  /** A reading arrives, the watchdog thread runs one loop iteration, or the
      watchdog is disposed, each `delay` ms after the last thing that
      happened (an iteration after the thread's sleep ends). An iteration
      sees whether the service is disposed, and, if it reconnects, how
      InitiateDefault ends and how long it takes. */
  datatype Event =
    | Reading(delay: nat)
    | Check(delay: nat, serviceDisposed: bool, outcome: Outcome<Exception>, duration: nat)
    | Dispose(delay: nat)

  /** A new watchdog: the stopwatch started at time 0, the thread running. */
  function Initial(): State {
    State(0, 0, 0, false, true, [])
  }

  function Max(a: int, b: int): int {
    if a < b then b else a
  }

  /** When an iteration runs: once its sleep is over, and not before now. */
  function CheckTime(s: State, delay: nat): (t: int)
    ensures t >= s.clock && t >= s.wakeAt
  {
    Max(s.clock, s.wakeAt) + delay
  }

  /** Consecutive entries at least `gap` apart. */
  predicate Spaced(calls: seq<int>, gap: int) {
    forall i :: 0 <= i < |calls| - 1 ==> calls[i] + gap <= calls[i + 1]
  }

  lemma SpacedSnoc(calls: seq<int>, gap: int, t: int)
    requires Spaced(calls, gap)
    requires |calls| > 0 ==> calls[|calls| - 1] + gap <= t
    ensures Spaced(calls + [t], gap)
  {
  }
}
