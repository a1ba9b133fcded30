/** HeartRate/TestHeartRateService.cs: a stand-in service whose timer
    emits canned readings. Each tick advances a 32-bit counter (unchecked,
    so it wraps) and emits the reading at that index while it is below ten. */
module TestService {
  import opened Wrappers
  import opened Exceptions
  import opened HeartRateData

  const Int32Min: int := -0x8000_0000
  const Int32Max: int := 0x7FFF_FFFF

  predicate IsInt32(x: int) {
    Int32Min <= x <= Int32Max
  }

  /** An unchecked Int32 result: x reduced into range modulo 2^32. */
  function Wrap32(x: int): (r: int)
    ensures IsInt32(r)
    ensures (r - x) % 0x1_0000_0000 == 0
    ensures IsInt32(x) ==> r == x
  {
    (x - Int32Min) % 0x1_0000_0000 + Int32Min
  }

  /** The canned rates. */
  const Rates: seq<int> := [10, 20, 30, 40, 50, 60, 70, 80, 90, 99]

  /** A reading with only its BPM set; the rest keep their defaults. */
  function Canned(bpm: int): HeartRateReading {
    HeartRateReading(NotSupported, bpm, None, None, false, None)
  }

  /** HeartRates: one canned reading per rate. */
  function HeartRates(): (r: seq<HeartRateReading>)
    ensures |r| == |Rates| == 10
    ensures forall i :: 0 <= i < |r| ==> r[i] == Canned(Rates[i])
  {
    seq(|Rates|, i requires 0 <= i < |Rates| => Canned(Rates[i]))
  }

  /** One HeartRateUpdated invocation: the status and the reading. */
  datatype Emission = Emission(status: ContactSensorStatus, reading: HeartRateReading)

  /** What a tick that left the counter at `count` emits to a subscriber;
      a negative count indexes the array out of range instead. */
  function TickEmission(count: int): seq<Emission> {
    if 0 <= count < |Rates| then [Emission(Contact, HeartRates()[count])] else []
  }

  class TestHeartRateService {
    var isDisposed: bool
    var count: int
    var timerStarted: bool
    var timerDisposed: bool
    var emitted: seq<Emission>

    /** The counter is an Int32. */
    predicate Valid()
      reads this
    {
      IsInt32(count)
    }

    constructor ()
      ensures Valid()
      ensures !isDisposed && count == 0 && !timerStarted && !timerDisposed && emitted == []
    {
      isDisposed := false;
      count := 0;
      timerStarted := false;
      timerDisposed := false;
      emitted := [];
    }

    /** InitiateDefault: start a periodic timer (a fresh one each call). */
    method InitiateDefault()
      modifies this
      ensures timerStarted && !timerDisposed
      ensures isDisposed == old(isDisposed) && count == old(count) && emitted == old(emitted)
    {
      timerStarted := true;
      timerDisposed := false;
    }

    /** Timer_Tick: `count = _count = ++_count`, return once count reaches
        ten, else invoke the event, if anyone subscribed, with the reading at
        that index. The null-conditional invocation evaluates its arguments
        only with a subscriber, so only then does a negative index throw. */
    method TimerTick(subscribed: bool) returns (o: Outcome<Exception>)
      requires Valid()
      modifies this
      ensures Valid()
      ensures count == Wrap32(old(count) + 1)
      ensures count >= 0 || !subscribed ==>
        o == Pass && emitted == old(emitted) + (if subscribed then TickEmission(count) else [])
      ensures count < 0 && subscribed ==> o == Fail(IndexOutOfRangeException) && emitted == old(emitted)
      ensures isDisposed == old(isDisposed) && timerStarted == old(timerStarted) && timerDisposed == old(timerDisposed)
    {
      count := Wrap32(count + 1);
      var c := count;
      if c >= |HeartRates()| {
        return Pass;
      }
      if !subscribed {
        return Pass;
      }
      if c < 0 {
        return Fail(IndexOutOfRangeException);
      }
      emitted := emitted + [Emission(Contact, HeartRates()[c])];
      o := Pass;
    }

    /** Dispose: mark the service disposed and dispose the timer, if one
        was started. */
    method Dispose()
      modifies this
      ensures isDisposed
      ensures timerDisposed == (old(timerDisposed) || old(timerStarted))
      ensures count == old(count) && emitted == old(emitted) && timerStarted == old(timerStarted)
    {
      isDisposed := true;
      if timerStarted {
        timerDisposed := true;
      }
    }

    /** Cleanup: the same as Dispose. */
    method Cleanup()
      modifies this
      ensures isDisposed
      ensures timerDisposed == (old(timerDisposed) || old(timerStarted))
      ensures count == old(count) && emitted == old(emitted) && timerStarted == old(timerStarted)
    {
      Dispose();
    }
  }

  /** The counter after n ticks of a new service. */
  function CountAfter(n: nat): (c: int)
    ensures IsInt32(c)
  {
    if n == 0 then 0 else Wrap32(CountAfter(n - 1) + 1)
  }

  /** What n ticks of a new service emit to a subscriber, as long as none
      has failed. */
  function EmittedAfter(n: nat): seq<Emission> {
    if n == 0 then [] else EmittedAfter(n - 1) + TickEmission(CountAfter(n))
  }

  /** Until it wraps, the counter counts the ticks. */
  lemma {:induction false} CountsTicks(n: nat)
    requires n <= Int32Max
    ensures CountAfter(n) == n
  {
    if n > 0 {
      CountsTicks(n - 1);
    }
  }

  /** The first tick already uses index 1, so the BPM-10 reading is never
      emitted: the subscriber sees 20, 30, ..., 90, 99, nine readings at
      most, all with Contact status, and nothing after the ninth tick. */
  lemma {:induction false} EmitsNineAtMost(n: nat)
    requires n <= Int32Max
    ensures |EmittedAfter(n)| == if n < 10 then n else 9
    ensures forall i :: 0 <= i < |EmittedAfter(n)| ==>
      EmittedAfter(n)[i] == Emission(Contact, Canned(Rates[i + 1]))
  {
    if n > 0 {
      EmitsNineAtMost(n - 1);
      CountsTicks(n);
      var prev := EmittedAfter(n - 1);
      if n < 10 {
        var e := Emission(Contact, Canned(Rates[n]));
        assert TickEmission(n) == [e];
        var next := prev + [e];
        assert EmittedAfter(n) == next;
        assert |prev| == n - 1;
        forall i | 0 <= i < |next|
          ensures next[i] == Emission(Contact, Canned(Rates[i + 1]))
        {
          if i < |prev| {
            assert next[i] == prev[i];
          } else {
            assert i == n - 1 && next[i] == e;
          }
        }
      } else {
        assert TickEmission(n) == [];
        assert EmittedAfter(n) == prev + [];
      }
    }
  }

  /** The counter wraps at the 2^31st tick, and that tick, with a
      subscriber, indexes HeartRates with a negative count. */
  lemma CounterWraps()
    ensures CountAfter(0x8000_0000) == Int32Min
    ensures CountAfter(0x8000_0000) < 0 && TickEmission(CountAfter(0x8000_0000)) == []
  {
    CountsTicks(Int32Max);
  }

  /** The counter as evidently intended: it stops once it reaches the end
      of the rates, so it can neither wrap nor go negative. */
  function SaturatingNext(count: int): int {
    if count >= |Rates| then count else count + 1
  }

  function SaturatingCountAfter(n: nat): int {
    if n == 0 then 0 else SaturatingNext(SaturatingCountAfter(n - 1))
  }

  /** However many ticks, the saturating counter stays within 0..10, so the
      index is never out of range; it agrees with the Int32 counter as long
      as no tick could have wrapped it. */
  lemma {:induction false} SaturatingStaysInRange(n: nat)
    ensures SaturatingCountAfter(n) == if n < 10 then n else 10
    ensures n <= Int32Max ==> (SaturatingCountAfter(n) < 10 <==> CountAfter(n) < 10)
  {
    if n > 0 {
      SaturatingStaysInRange(n - 1);
    }
    if n <= Int32Max {
      CountsTicks(n);
    }
  }
}

/** Lennox.HeartRate.Tests/TestHeartRateService.cs: the test project's copy,
    which emits plain BPM values and cycles the counter with a remainder. */
module LennoxTestService {
  import opened HeartRateData

  const Rates: seq<int> := [10, 20, 30, 40, 50, 60, 70, 80, 90, 99]

  /** The length of the rates array, the divisor of the tick's remainder. */
  const Length: int := 10

  /** C#'s `a % HeartRates.Length` on int: the remainder truncated toward
      zero, so it takes the sign of the dividend. */
  function CsRem(a: int): (r: int)
    ensures a >= 0 ==> 0 <= r < Length
    ensures a < 0 ==> -Length < r <= 0
    ensures (a - r) % Length == 0
    ensures -Length < a < Length ==> r == a
  {
    if a >= 0 then a % Length else -((-a) % Length)
  }

  /** One HeartRateUpdated invocation: the status and the BPM. */
  datatype Emission = Emission(status: ContactSensorStatus, bpm: int)

  class TestHeartRateService {
    var count: int
    var timerStarted: bool
    var timerDisposed: bool
    var emitted: seq<Emission>

    /** Every count the service reaches is an index into the rates. */
    predicate Valid()
      reads this
    {
      0 <= count < |Rates|
    }

    constructor ()
      ensures Valid()
      ensures count == 0 && !timerStarted && !timerDisposed && emitted == []
    {
      count := 0;
      timerStarted := false;
      timerDisposed := false;
      emitted := [];
    }

    /** InitiateDefault: start a periodic timer. */
    method InitiateDefault()
      modifies this
      ensures timerStarted && !timerDisposed && count == old(count) && emitted == old(emitted)
    {
      timerStarted := true;
      timerDisposed := false;
    }

    /** Timer_Tick: `count = _count = _count++ % Length`. The post-increment
        yields the old value, and the assignment then overwrites the
        incremented field with that value's remainder, so the counter keeps
        its value: every tick emits the same rate. */
    method TimerTick(subscribed: bool)
      requires Valid()
      modifies this
      ensures Valid()
      ensures count == CsRem(old(count)) == old(count)
      ensures emitted == old(emitted) + (if subscribed then [Emission(Contact, Rates[count])] else [])
      ensures timerStarted == old(timerStarted) && timerDisposed == old(timerDisposed)
    {
      var before := count;
      count := count + 1;
      count := CsRem(before);
      var c := count;
      if subscribed {
        emitted := emitted + [Emission(Contact, Rates[c])];
      }
    }

    /** Dispose: dispose the timer, if one was started. */
    method Dispose()
      modifies this
      ensures timerDisposed == (old(timerDisposed) || old(timerStarted))
      ensures count == old(count) && emitted == old(emitted) && timerStarted == old(timerStarted)
    {
      if timerStarted {
        timerDisposed := true;
      }
    }

    /** Cleanup: the same as Dispose. */
    method Cleanup()
      modifies this
      ensures timerDisposed == (old(timerDisposed) || old(timerStarted))
      ensures count == old(count) && emitted == old(emitted) && timerStarted == old(timerStarted)
    {
      Dispose();
    }
  }

  /** The counter after one tick, as written. */
  function NextCount(count: int): int
    requires 0 <= count < |Rates|
  {
    CsRem(count)
  }

  /** The index emitted by tick k (from 0) of a new service, as written. */
  function IndexAt(k: nat): (i: int)
    ensures 0 <= i < |Rates|
  {
    if k == 0 then NextCount(0) else NextCount(IndexAt(k - 1))
  }

  /** As written, the counter never leaves 0: every tick emits 10. */
  lemma {:induction false} AlwaysTen(k: nat)
    ensures IndexAt(k) == 0 && Rates[IndexAt(k)] == 10
  {
    if k > 0 {
      AlwaysTen(k - 1);
    }
  }

  /** The tick as evidently intended (`count = _count++ % Length`): emit the
      current index and advance, cycling through the rates. The tick count
      is unbounded: the Int32 counter of that line would wrap after 2^31
      ticks, as TestService.CounterWraps shows for the older service. */
  function IntendedIndexAt(k: nat): (i: int)
    ensures 0 <= i < |Rates|
  {
    CsRem(k)
  }

  /** The intended counter emits every rate once in each run of ten ticks,
      in order, and starts with 10 as the written one does. */
  lemma IntendedCycles(k: nat)
    ensures IntendedIndexAt(k) == k % 10
    ensures Rates[IntendedIndexAt(k)] == Rates[k % 10]
    ensures IntendedIndexAt(k + 1) == if IntendedIndexAt(k) == 9 then 0 else IntendedIndexAt(k) + 1
    ensures IntendedIndexAt(0) == IndexAt(0)
  {
    AlwaysTen(0);
  }
}
