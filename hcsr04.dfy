/**
 * The HC-SR04 ultrasonic distance sensor driver for Mongoose OS.
 *
 * A measurement fires a 10 µs trigger pulse, busy-waits for the echo line to
 * rise and then to fall, and takes the time between the two from the
 * microsecond clock. The width of the echo pulse becomes a distance in
 * millimetres through the speed of sound at a given air temperature. A
 * failed echo is -1, as in C; a failed distance (C's NAN) is `None`.
 */
module Hcsr04 {
  import opened Mgos

  datatype Option<T> = None | Some(value: T)

  /** The counter each echo busy-wait starts from. */
  const EchoTimeout: nat := 1000000
  /** Echo widths above this many microseconds are rejected. */
  const MaxEcho: int := 4003
  /** The temperature at which sound travels at 343 m/s (0.343 mm/µs). */
  const DefaultTemperature: real := 19.307
  /** DEFAULT_AVG_ATTEMPTS_DELAY, milliseconds between averaged attempts. */
  const DefaultAvgAttemptsDelay: nat := 5

  /** An open sensor: the two pins it was created with. */
  class Sensor {
    const trigPin: int
    const echoPin: int

    constructor (trigPin: int, echoPin: int)
      ensures this.trigPin == trigPin && this.echoPin == echoPin
    {
      this.trigPin := trigPin;
      this.echoPin := echoPin;
    }
  }

  /**
   * Configures the trigger pin as an output driven low and the echo pin as a
   * pulled-up input, then allocates the handle. The echo pin is not touched
   * when the trigger pin is refused. Any failure gives `null`.
   */
  method Create(b: Board, trigPin: int, echoPin: int) returns (h: Sensor?)
    modifies b`log
    ensures h == null <==> !b.outputOk(trigPin) || !b.inputOk(echoPin) || !b.heapOk
    ensures h != null ==> fresh(h) && h.trigPin == trigPin && h.echoPin == echoPin
    ensures b.log == old(b.log) + [SetupOutput(trigPin, false)]
                     + (if b.outputOk(trigPin) then [SetupInput(echoPin, PullUp)] else [])
  {
    var ok := b.SetupOutput(trigPin, false);
    if ok {
      ok := b.SetupInput(echoPin, PullUp);
    }
    if !ok || !b.heapOk {
      return null;
    }
    h := new Sensor(trigPin, echoPin);
  }

  // ---------------------------------------------------------------------------
  // Echo acquisition
  // ---------------------------------------------------------------------------

  /**
   * The writes and sleeps that make the trigger pulse: the pin starts and
   * ends low, is driven only low or high, stays high for 10 µs, and no
   * millisecond sleep is involved.
   */
  function TriggerPulse(trigPin: int): (p: seq<Event>)
    ensures |p| == 5 && p[0] == Write(trigPin, false) && p[|p| - 1] == Write(trigPin, false)
    ensures forall k :: 0 <= k < |p| ==> !p[k].MSleep?
  {
    [Write(trigPin, false), USleep(5), Write(trigPin, true), USleep(10), Write(trigPin, false)]
  }

  /**
   * The number of times a busy-wait that polls `pin` until it shows `level`
   * decrements its counter, when its reads are the board's reads number
   * `at`, `at + 1`, ... Each round reads first and checks the counter second,
   * so the wait performs one read more than it decrements: it stops at the
   * first read showing `level`, or at the read that finds the counter spent.
   */
  function Wait(signal: (int, nat) -> bool, pin: int, at: nat, level: bool, counter: nat): (n: nat)
    ensures n <= counter
    decreases counter
  {
    if signal(pin, at) == level || counter == 0 then 0
    else 1 + Wait(signal, pin, at + 1, level, counter - 1)
  }

  /**
   * A wait stops at the first read that shows `level`: every read it
   * decrements after shows the other level, and unless the counter ran out
   * the read it stops at shows `level`.
   */
  lemma {:induction false} WaitStops(signal: (int, nat) -> bool, pin: int, at: nat, level: bool, counter: nat)
    ensures var n := Wait(signal, pin, at, level, counter);
      && (forall k :: at <= k < at + n ==> signal(pin, k) != level)
      && (n < counter ==> signal(pin, at + n) == level)
    decreases counter
  {
    if signal(pin, at) != level && counter > 0 {
      WaitStops(signal, pin, at + 1, level, counter - 1);
    }
  }

  /** The properties `WaitStops` states determine the wait. */
  lemma {:induction false} WaitIsFirst(signal: (int, nat) -> bool, pin: int, at: nat, level: bool, counter: nat, n: nat)
    requires n <= counter
    requires forall k :: at <= k < at + n ==> signal(pin, k) != level
    requires n < counter ==> signal(pin, at + n) == level
    ensures Wait(signal, pin, at, level, counter) == n
    decreases n
  {
    if n > 0 {
      assert signal(pin, at) != level;
      WaitIsFirst(signal, pin, at + 1, level, counter - 1, n - 1);
    }
  }

  /**
   * One busy-wait of the measurement: poll `pin` until it shows `level`,
   * decrementing a counter that starts at 1,000,000, and give back what is
   * left of the counter. Waiting for the pulse to start polls for `true`,
   * waiting for it to end polls for `false`.
   */
  method BusyWait(b: Board, pin: int, level: bool) returns (timeout: nat)
    modifies b`samples
    ensures var n := Wait(b.trace.signal, pin, old(b.samples), level, EchoTimeout);
      timeout == EchoTimeout - n && b.samples == old(b.samples) + n + 1
  {
    timeout := EchoTimeout;
    var current := b.Read(pin);
    while current != level && timeout > 0
      invariant timeout <= EchoTimeout
      invariant b.samples == old(b.samples) + (EchoTimeout - timeout) + 1
      invariant current == b.trace.signal(pin, b.samples - 1)
      invariant forall k :: old(b.samples) <= k < b.samples - 1 ==> b.trace.signal(pin, k) != level
    {
      timeout := timeout - 1;
      current := b.Read(pin);
    }
    WaitIsFirst(b.trace.signal, pin, old(b.samples), level, EchoTimeout, EchoTimeout - timeout);
  }

  /**
   * One echo measurement: the value returned, and how many reads and clock
   * queries it used up.
   */
  datatype EchoRun = EchoRun(result: int, samples: nat, ticks: nat)

  /**
   * What a measurement on echo pin `pin` returns when the board has already
   * done `at` reads and `tick` clock queries. The clock is queried once when
   * the pulse starts and once more only when the pulse also ends in time.
   */
  function Echo(tr: Trace, pin: int, at: nat, tick: nat): (run: EchoRun)
    ensures run.samples <= 2 * EchoTimeout + 2 && run.ticks <= 2
    ensures run.result != -1 ==> run.ticks == 2
  {
    var rise := Wait(tr.signal, pin, at, true, EchoTimeout);
    if rise == EchoTimeout then EchoRun(-1, rise + 1, 0)
    else
      var fall := Wait(tr.signal, pin, at + rise + 1, false, EchoTimeout);
      if fall == EchoTimeout then EchoRun(-1, rise + fall + 2, 1)
      else EchoRun(tr.clock(tick + 1) - tr.clock(tick), rise + fall + 2, 2)
  }

  /** A measurement as determined by the lengths of its two waits. */
  lemma EchoByWaits(tr: Trace, pin: int, at: nat, tick: nat, rise: nat, fall: nat)
    requires rise == Wait(tr.signal, pin, at, true, EchoTimeout)
    requires rise < EchoTimeout ==> fall == Wait(tr.signal, pin, at + rise + 1, false, EchoTimeout)
    ensures var run := Echo(tr, pin, at, tick);
      && run.result == (if rise == EchoTimeout || fall == EchoTimeout then -1 else tr.clock(tick + 1) - tr.clock(tick))
      && run.samples == (if rise == EchoTimeout then rise + 1 else rise + fall + 2)
      && run.ticks == (if rise == EchoTimeout then 0 else if fall == EchoTimeout then 1 else 2)
  {
  }

  /** The trigger pulse: the line is made low for 5 µs, then held high for 10 µs. */
  method Trigger(b: Board, trigPin: int)
    modifies b`log
    ensures b.log == old(b.log) + TriggerPulse(trigPin)
  {
    b.Write(trigPin, false);
    b.USleep(5);
    b.Write(trigPin, true);
    b.USleep(10);
    b.Write(trigPin, false);
  }

  /**
   * The timing half of a measurement: wait for the echo pulse to start,
   * read the clock, wait for it to end, and read the clock again, or give
   * -1 as soon as a wait spends its counter.
   */
  method TimeEcho(b: Board, echoPin: int) returns (r: int)
    modifies b`samples, b`ticks
    ensures var run := Echo(b.trace, echoPin, old(b.samples), old(b.ticks));
      && r == run.result
      && b.samples == old(b.samples) + run.samples
      && b.ticks == old(b.ticks) + run.ticks
  {
    ghost var at, tick := b.samples, b.ticks;
    var timeout := BusyWait(b, echoPin, true);
    ghost var rise: nat := EchoTimeout - timeout;
    ghost var fall: nat := 0;
    // src/mgos_hcsr04.c:78 declares pulse_start inside the branch below and
    // line 86 uses it after the branch; here it is declared before.
    var pulseStart := 0;
    if timeout != 0 {
      pulseStart := b.TimeMicros();
      assert b.samples == at + rise + 1;
      // Polls while the echo line is high and the counter is positive. At
      // src/mgos_hcsr04.c:82 a misplaced parenthesis moves the counter test
      // into the argument of the read, which does not compile.
      timeout := BusyWait(b, echoPin, false);
      fall := EchoTimeout - timeout;
    }
    EchoByWaits(b.trace, echoPin, at, tick, rise, fall);
    if timeout > 0 {
      var now := b.TimeMicros();
      r := now - pulseStart;
    } else {
      r := -1;
    }
  }

  /**
   * Fires the trigger pulse and times the echo pulse in microseconds, or
   * gives -1 when either busy-wait runs its counter down to 0. A `null`
   * handle gives -1 and touches nothing.
   */
  method GetEcho(b: Board, h: Sensor?) returns (r: int)
    modifies b
    ensures h == null ==> r == -1 && b.samples == old(b.samples) && b.ticks == old(b.ticks) && b.log == old(b.log)
    ensures h != null ==>
      var run := Echo(b.trace, h.echoPin, old(b.samples), old(b.ticks));
      && r == run.result
      && b.samples == old(b.samples) + run.samples
      && b.ticks == old(b.ticks) + run.ticks
      && b.log == old(b.log) + TriggerPulse(h.trigPin)
  {
    if h == null {
      return -1;
    }
    Trigger(b, h.trigPin);
    r := TimeEcho(b, h.echoPin);
  }

  /**
   * A measurement fails exactly when one of the two waits spends its counter;
   * when the first does, the second never runs and the clock is not read.
   * With a clock that never runs backwards, a measurement that does not fail
   * is a non-negative width.
   */
  lemma EchoFailsIff(tr: Trace, pin: int, at: nat, tick: nat)
    requires Monotone(tr.clock)
    ensures
      var rise := Wait(tr.signal, pin, at, true, EchoTimeout);
      var fall := Wait(tr.signal, pin, at + rise + 1, false, EchoTimeout);
      var run := Echo(tr, pin, at, tick);
      && (rise == EchoTimeout ==> run == EchoRun(-1, EchoTimeout + 1, 0))
      && (rise < EchoTimeout ==> (run.result == -1 <==> fall == EchoTimeout))
      && (run.result != -1 ==> run.result >= 0)
  {
    var rise := Wait(tr.signal, pin, at, true, EchoTimeout);
    if rise < EchoTimeout {
      assert tr.clock(tick) <= tr.clock(tick + 1);
    }
  }

  /**
   * If the echo line stays low for the first 1,000,000 reads of the first
   * wait, the measurement fails after 1,000,001 reads and queries no clock:
   * the last read finds the counter spent, so a rise seen there still
   * counts as a timeout.
   */
  lemma EchoNoRise(tr: Trace, pin: int, at: nat, tick: nat)
    requires forall k :: at <= k < at + EchoTimeout ==> !tr.signal(pin, k)
    ensures Echo(tr, pin, at, tick) == EchoRun(-1, EchoTimeout + 1, 0)
  {
    WaitIsFirst(tr.signal, pin, at, true, EchoTimeout, EchoTimeout);
  }

  /**
   * If the echo line is low for `lead` reads, high for `width` reads and
   * then low again, and neither wait runs out, the measurement is the time
   * between the two clock queries.
   */
  lemma EchoPulse(tr: Trace, pin: int, at: nat, tick: nat, lead: nat, width: nat)
    requires lead < EchoTimeout && 0 < width <= EchoTimeout
    requires forall k :: at <= k < at + lead ==> !tr.signal(pin, k)
    requires forall k :: at + lead <= k < at + lead + width ==> tr.signal(pin, k)
    requires !tr.signal(pin, at + lead + width)
    ensures Echo(tr, pin, at, tick) == EchoRun(tr.clock(tick + 1) - tr.clock(tick), lead + width + 1, 2)
  {
    WaitIsFirst(tr.signal, pin, at, true, EchoTimeout, lead);
    WaitIsFirst(tr.signal, pin, at + lead + 1, false, EchoTimeout, width - 1);
  }


  /**
   * If the echo line rises in time but then stays high through the second
   * wait's first 1,000,000 reads, the measurement fails after reading the
   * clock once, whatever its last read shows.
   */
  lemma EchoStuckHigh(tr: Trace, pin: int, at: nat, tick: nat, lead: nat)
    requires lead < EchoTimeout
    requires forall k :: at <= k < at + lead ==> !tr.signal(pin, k)
    requires forall k :: at + lead <= k < at + lead + EchoTimeout + 1 ==> tr.signal(pin, k)
    ensures Echo(tr, pin, at, tick) == EchoRun(-1, lead + EchoTimeout + 2, 1)
  {
    WaitIsFirst(tr.signal, pin, at, true, EchoTimeout, lead);
    WaitIsFirst(tr.signal, pin, at + lead + 1, false, EchoTimeout, EchoTimeout);
  }

  // ---------------------------------------------------------------------------
  // Distance conversion
  // ---------------------------------------------------------------------------

  /** C's `duration / 2` on a `long`: the quotient rounded toward zero. */
  function Half(duration: int): (q: int)
    ensures duration >= 0 ==> 0 <= q && 2 * q <= duration <= 2 * q + 1
    ensures duration < 0 ==> q <= 0 && 2 * q - 1 <= duration <= 2 * q
  {
    if duration >= 0 then duration / 2 else -((-duration) / 2)
  }

  /** The speed of sound in mm/µs at `temperature` °C: (331.3 + 0.606 T) m/s. */
  function SoundSpeed(temperature: real): (s: real)
    ensures temperature >= -273.15 ==> s > 0.0
  {
    0.3313 + 0.000606 * temperature
  }

  /**
   * The distance in millimetres for an echo width in microseconds: half the
   * round trip at the speed of sound. The failure value -1, a width above
   * 4003 µs and a negative product are rejected.
   */
  function Distance(duration: int, temperature: real): (d: Option<real>)
    ensures d.Some? ==> d.value >= 0.0
    ensures duration == -1 || duration > MaxEcho ==> d == None
  {
    Convert(duration, SoundSpeed(temperature))
  }

  /**
   * The conversion of `Distance` for a given speed of sound in mm/µs. It is
   * a proof device: with the speed a plain parameter, the lemmas about the
   * sign of the product need not unfold the temperature formula.
   */
  function Convert(duration: int, speed: real): (d: Option<real>)
    ensures d.Some? ==> d.value >= 0.0
    ensures duration == -1 || duration > MaxEcho ==> d == None
  {
    if duration == -1 then None
    else if duration > MaxEcho then None
    else Checked(Half(duration) as real * speed)
  }

  /** A negative distance is rejected, any other is kept. */
  function Checked(distance: real): (d: Option<real>)
    ensures d.Some? <==> distance >= 0.0
    ensures d.Some? ==> d.value == distance
  {
    if distance < 0.0 then None else Some(distance)
  }

  /** A whole number of microseconds times a positive speed keeps its sign (arithmetic step of `CheckedProduct`). */
  lemma ProductSign(q: int, speed: real)
    requires speed > 0.0
    ensures q >= 0 ==> q as real * speed >= 0.0
    ensures q < 0 ==> q as real * speed < 0.0
  {
  }

  /** So a whole number of microseconds at a positive speed is rejected exactly when it is negative. */
  lemma CheckedProduct(q: int, speed: real)
    requires speed > 0.0
    ensures q >= 0 ==> Checked(q as real * speed) == Some(q as real * speed)
    ensures q < 0 ==> Checked(q as real * speed) == None
  {
    ProductSign(q, speed);
  }

  /** Above absolute zero, a width of -2 µs or less gives a negative product and is rejected. */
  lemma NegativeEchoRejected(duration: int, temperature: real)
    requires temperature >= -273.15
    requires duration < -1
    ensures Distance(duration, temperature) == None
  {
    ConvertRejectsNegative(duration, SoundSpeed(temperature));
  }

  /** At a positive speed, a width of -2 µs or less gives a negative product (`NegativeEchoRejected` for any speed). */
  lemma ConvertRejectsNegative(duration: int, speed: real)
    requires speed > 0.0
    requires duration < -1
    ensures Convert(duration, speed) == None
  {
    CheckedProduct(Half(duration), speed);
  }

  /** Above absolute zero, a width from 0 to 4003 µs is converted and kept. */
  lemma InRangeEchoAccepted(duration: int, temperature: real)
    requires temperature >= -273.15
    requires 0 <= duration <= MaxEcho
    ensures Distance(duration, temperature) == Some(Half(duration) as real * SoundSpeed(temperature))
  {
    ConvertKeepsInRange(duration, SoundSpeed(temperature));
  }

  /** At a positive speed, a width from 0 to 4003 µs is converted and kept (`InRangeEchoAccepted` for any speed). */
  lemma ConvertKeepsInRange(duration: int, speed: real)
    requires speed > 0.0
    requires 0 <= duration <= MaxEcho
    ensures Convert(duration, speed) == Some(Half(duration) as real * speed)
  {
    assert Half(duration) >= 0;
    CheckedProduct(Half(duration), speed);
    assert Checked(Half(duration) as real * speed) == Some(Half(duration) as real * speed);
    assert Convert(duration, speed) == Checked(Half(duration) as real * speed);
  }

  /**
   * Above absolute zero, an echo width is rejected exactly when it is
   * negative or above 4003 µs; every other width, 0 included, gives half
   * the round trip at the speed of sound.
   */
  lemma DistanceRejectionIff(duration: int, temperature: real)
    requires temperature >= -273.15
    ensures Distance(duration, temperature).None? <==> duration < 0 || duration > MaxEcho
    ensures 0 <= duration <= MaxEcho ==>
      Distance(duration, temperature) == Some(Half(duration) as real * SoundSpeed(temperature))
  {
    if duration < -1 {
      NegativeEchoRejected(duration, temperature);
    } else if 0 <= duration <= MaxEcho {
      InRangeEchoAccepted(duration, temperature);
    }
  }

  /** Widths 0 and 1 µs give 0 mm, which is not rejected. */
  lemma DistanceZeroEcho(duration: int, temperature: real)
    requires duration == 0 || duration == 1
    ensures Distance(duration, temperature) == Some(0.0)
  {
  }

  /** A longer echo never gives a shorter distance. */
  lemma DistanceMonotoneInEcho(d1: int, d2: int, temperature: real)
    requires temperature >= -273.15
    requires 0 <= d1 <= d2 <= MaxEcho
    ensures Distance(d1, temperature).Some? && Distance(d2, temperature).Some?
    ensures Distance(d1, temperature).value <= Distance(d2, temperature).value
  {
    DistanceRejectionIff(d1, temperature);
    DistanceRejectionIff(d2, temperature);
    var s := SoundSpeed(temperature);
    var q1, q2 := Half(d1), Half(d2);
    var gap := (q2 - q1) as real;
    assert gap >= 0.0 && s > 0.0;
    assert gap * s >= 0.0;
    assert q2 as real * s - q1 as real * s == gap * s;
  }

  /** Warmer air never gives a shorter distance for the same echo. */
  lemma DistanceMonotoneInTemperature(duration: int, t1: real, t2: real)
    requires -273.15 <= t1 <= t2
    requires 0 <= duration <= MaxEcho
    ensures Distance(duration, t1).Some? && Distance(duration, t2).Some?
    ensures Distance(duration, t1).value <= Distance(duration, t2).value
  {
    DistanceRejectionIff(duration, t1);
    DistanceRejectionIff(duration, t2);
    var q := Half(duration) as real;
    assert q * SoundSpeed(t2) - q * SoundSpeed(t1) == q * (0.000606 * (t2 - t1));
  }

  /** At the default temperature a 2000 µs echo is 343 mm away. */
  lemma DistanceWorkedExample()
    ensures Distance(2000, DefaultTemperature) == Some(343.000042)
  {
  }

  /**
   * The 4003 µs bound caps what a reading at the default temperature can
   * report at 2001 µs of one-way travel, about 686 mm.
   */
  lemma DefaultRangeLimit(duration: int)
    requires Distance(duration, DefaultTemperature).Some?
    ensures Distance(duration, DefaultTemperature).value <= 2001.0 * SoundSpeed(DefaultTemperature)
  {
    var s := SoundSpeed(DefaultTemperature);
    var q := Half(duration);
    assert q <= 2001;
    assert 2001.0 * s - q as real * s == (2001 - q) as real * s;
  }

  /** One measurement at `temperature` °C, converted to millimetres. */
  method GetDistanceEx(b: Board, h: Sensor?, temperature: real) returns (d: Option<real>)
    modifies b
    ensures h == null ==> d == None && b.samples == old(b.samples) && b.ticks == old(b.ticks) && b.log == old(b.log)
    ensures h != null ==>
      var run := Echo(b.trace, h.echoPin, old(b.samples), old(b.ticks));
      && d == Distance(run.result, temperature)
      && b.samples == old(b.samples) + run.samples
      && b.ticks == old(b.ticks) + run.ticks
      && b.log == old(b.log) + TriggerPulse(h.trigPin)
  {
    var duration := GetEcho(b, h);
    d := Distance(duration, temperature);
  }

  /** One measurement at the default temperature. */
  method GetDistance(b: Board, h: Sensor?) returns (d: Option<real>)
    modifies b
    ensures h == null ==> d == None && b.samples == old(b.samples) && b.ticks == old(b.ticks) && b.log == old(b.log)
    ensures h != null ==>
      var run := Echo(b.trace, h.echoPin, old(b.samples), old(b.ticks));
      && d == Distance(run.result, DefaultTemperature)
      && b.samples == old(b.samples) + run.samples
      && b.ticks == old(b.ticks) + run.ticks
      && b.log == old(b.log) + TriggerPulse(h.trigPin)
  {
    d := GetDistanceEx(b, h, DefaultTemperature);
  }

  // ---------------------------------------------------------------------------
  // Averaging
  // ---------------------------------------------------------------------------

  /** Several measurements in a row: their readings and the reads and clock queries they used up. */
  datatype Series = Series(readings: seq<Option<real>>, samples: nat, ticks: nat)

  /**
   * The echo timing of one sensor as a function of where it starts: the read
   * and the clock query that its first GPIO read and its first clock query are.
   */
  function EchoOf(tr: Trace, pin: int): (nat, nat) -> EchoRun
  {
    (at: nat, tick: nat) => Echo(tr, pin, at, tick)
  }

  /**
   * `echo` agrees with `Echo` for `pin` on a board whose lines and clock
   * follow `tr`, at every read and clock query a measurement can start from.
   */
  ghost predicate AgreesWithEcho(echo: (nat, nat) -> EchoRun, tr: Trace, pin: int)
  {
    forall at: nat, tick: nat {:trigger Echo(tr, pin, at, tick)} :: echo(at, tick) == Echo(tr, pin, at, tick)
  }

  /** `EchoOf` agrees with the measurements it is built from. */
  lemma EchoOfAgrees(tr: Trace, pin: int)
    ensures AgreesWithEcho(EchoOf(tr, pin), tr, pin)
  {
  }

  /**
   * `n` default-temperature measurements taken one after the other, each
   * starting where the previous one left off; `echo` times a single one.
   */
  function Attempts(echo: (nat, nat) -> EchoRun, at: nat, tick: nat, n: nat): (s: Series)
    ensures |s.readings| == n
    ensures forall k :: 0 <= k < n && s.readings[k].Some? ==> s.readings[k].value >= 0.0
    decreases n
  {
    if n == 0 then Series([], 0, 0)
    else
      var run := echo(at, tick);
      var rest := Attempts(echo, at + run.samples, tick + run.ticks, n - 1);
      Series([Distance(run.result, DefaultTemperature)] + rest.readings,
             run.samples + rest.samples, run.ticks + rest.ticks)
  }

  /** The value a reading adds to the running total: nothing for a failure. */
  function Contribution(r: Option<real>): real
  {
    if r.Some? then r.value else 0.0
  }

  /** The running total of the successful readings, accumulated in order. */
  function Sum(rs: seq<Option<real>>): (s: real)
    ensures Successes(rs) == 0 ==> s == 0.0
  {
    if rs == [] then 0.0 else Sum(rs[..|rs| - 1]) + Contribution(rs[|rs| - 1])
  }

  /** The number of successful readings. */
  function Successes(rs: seq<Option<real>>): (c: nat)
    ensures c <= |rs|
  {
    if rs == [] then 0 else Successes(rs[..|rs| - 1]) + (if rs[|rs| - 1].Some? then 1 else 0)
  }

  /** The arithmetic mean of the successful readings; failure when there are none. */
  function Mean(rs: seq<Option<real>>): (m: Option<real>)
    ensures m.Some? ==> Successes(rs) > 0 && m.value * Successes(rs) as real == Sum(rs)
  {
    var count := Successes(rs);
    if count == 0 then None else Some(Sum(rs) / count as real)
  }

  lemma {:induction false} SuccessesZeroIff(rs: seq<Option<real>>)
    ensures Successes(rs) == 0 <==> forall k :: 0 <= k < |rs| ==> rs[k].None?
  {
    if rs != [] {
      var init := rs[..|rs| - 1];
      SuccessesZeroIff(init);
      assert forall k :: 0 <= k < |init| ==> init[k] == rs[k];
    }
  }

  /** The mean fails exactly when every reading failed; it never divides by zero. */
  lemma MeanFailsIffNoSuccess(rs: seq<Option<real>>)
    ensures Mean(rs).None? <==> forall k :: 0 <= k < |rs| ==> rs[k].None?
  {
    SuccessesZeroIff(rs);
  }

  lemma {:induction false} SumAtLeast(rs: seq<Option<real>>, lo: real)
    requires forall k :: 0 <= k < |rs| && rs[k].Some? ==> lo <= rs[k].value
    ensures lo * Successes(rs) as real <= Sum(rs)
  {
    if rs != [] {
      var init := rs[..|rs| - 1];
      assert forall k :: 0 <= k < |init| ==> init[k] == rs[k];
      SumAtLeast(init, lo);
      AddAtLeast(lo, Sum(init), Successes(init), rs[|rs| - 1], Sum(rs), Successes(rs));
    }
  }

  lemma {:induction false} SumAtMost(rs: seq<Option<real>>, hi: real)
    requires forall k :: 0 <= k < |rs| && rs[k].Some? ==> rs[k].value <= hi
    ensures Sum(rs) <= hi * Successes(rs) as real
  {
    if rs != [] {
      var init := rs[..|rs| - 1];
      assert forall k :: 0 <= k < |init| ==> init[k] == rs[k];
      SumAtMost(init, hi);
      AddAtMost(hi, Sum(init), Successes(init), rs[|rs| - 1], Sum(rs), Successes(rs));
    }
  }

  /** One more reading keeps a lower bound on the total: the step of `SumAtLeast`. */
  lemma AddAtLeast(lo: real, total: real, count: nat, m: Option<real>, total': real, count': nat)
    requires lo * count as real <= total
    requires m.Some? ==> lo <= m.value
    requires total' == total + Contribution(m) && count' == count + (if m.Some? then 1 else 0)
    ensures lo * count' as real <= total'
  {
    if m.Some? {
      assert lo * count' as real == lo * count as real + lo;
    }
  }

  /** One more reading keeps an upper bound on the total: the step of `SumAtMost`. */
  lemma AddAtMost(hi: real, total: real, count: nat, m: Option<real>, total': real, count': nat)
    requires total <= hi * count as real
    requires m.Some? ==> m.value <= hi
    requires total' == total + Contribution(m) && count' == count + (if m.Some? then 1 else 0)
    ensures total' <= hi * count' as real
  {
    if m.Some? {
      assert hi * count' as real == hi * count as real + hi;
    }
  }

  lemma DivideAtLeast(total: real, count: real, lo: real)
    requires count > 0.0 && lo * count <= total
    ensures lo <= total / count
  {
    var m := total / count;
    assert m * count == total;
    assert (m - lo) * count == total - lo * count;
  }

  lemma DivideAtMost(total: real, count: real, hi: real)
    requires count > 0.0 && total <= hi * count
    ensures total / count <= hi
  {
    var m := total / count;
    assert m * count == total;
    assert (hi - m) * count == hi * count - total;
  }

  /** The mean is at least any lower bound of the successful readings. */
  lemma MeanAtLeast(rs: seq<Option<real>>, lo: real)
    requires forall k :: 0 <= k < |rs| && rs[k].Some? ==> lo <= rs[k].value
    ensures Mean(rs).Some? ==> lo <= Mean(rs).value
  {
    SumAtLeast(rs, lo);
    if Successes(rs) > 0 {
      DivideAtLeast(Sum(rs), Successes(rs) as real, lo);
    }
  }

  /** The mean is at most any upper bound of the successful readings. */
  lemma MeanAtMost(rs: seq<Option<real>>, hi: real)
    requires forall k :: 0 <= k < |rs| && rs[k].Some? ==> rs[k].value <= hi
    ensures Mean(rs).Some? ==> Mean(rs).value <= hi
  {
    SumAtMost(rs, hi);
    if Successes(rs) > 0 {
      DivideAtMost(Sum(rs), Successes(rs) as real, hi);
    }
  }

  /** A failed reading changes neither the total nor the count: it is skipped, not taken as 0. */
  lemma MeanIgnoresFailures(rs: seq<Option<real>>)
    ensures Mean(rs + [None]) == Mean(rs)
  {
    assert (rs + [None])[..|rs|] == rs;
  }

  /** The mean of one reading is that reading. */
  lemma MeanOfOne(r: Option<real>)
    ensures Mean([r]) == r
  {
    assert [r][..0] == [];
    assert Successes([r]) == if r.Some? then 1 else 0;
    assert Sum([r]) == Contribution(r);
  }

  /** Averaging one attempt gives the same as a single measurement. */
  lemma AverageOfOneAttempt(echo: (nat, nat) -> EchoRun, at: nat, tick: nat)
    ensures Mean(Attempts(echo, at, tick, 1).readings) == Distance(echo(at, tick).result, DefaultTemperature)
  {
    var run := echo(at, tick);
    assert Attempts(echo, at, tick, 1).readings == [Distance(run.result, DefaultTemperature)];
    MeanOfOne(Distance(run.result, DefaultTemperature));
  }

  /** An average, like each reading, is never negative. */
  lemma AverageNonNegative(echo: (nat, nat) -> EchoRun, at: nat, tick: nat, n: nat)
    ensures var m := Mean(Attempts(echo, at, tick, n).readings);
      m.Some? ==> m.value >= 0.0
  {
    MeanAtLeast(Attempts(echo, at, tick, n).readings, 0.0);
  }

  /** If the echo line never rises, every attempt times out. */
  lemma {:induction false} NeverRisesAllFail(echo: (nat, nat) -> EchoRun, tr: Trace, pin: int, at: nat, tick: nat, n: nat)
    requires AgreesWithEcho(echo, tr, pin)
    requires forall k :: at <= k ==> !tr.signal(pin, k)
    ensures forall k :: 0 <= k < n ==> Attempts(echo, at, tick, n).readings[k].None?
    decreases n
  {
    if n > 0 {
      EchoNoRise(tr, pin, at, tick);
      assert echo(at, tick) == EchoRun(-1, EchoTimeout + 1, 0);
      NeverRisesAllFail(echo, tr, pin, at + EchoTimeout + 1, tick, n - 1);
    }
  }

  /** If the echo line never rises, every attempt times out and the average fails. */
  lemma AverageNeverRises(tr: Trace, pin: int, at: nat, tick: nat, n: nat)
    requires forall k :: at <= k ==> !tr.signal(pin, k)
    ensures Mean(Attempts(EchoOf(tr, pin), at, tick, n).readings) == None
  {
    EchoOfAgrees(tr, pin);
    NeverRisesAllFail(EchoOf(tr, pin), tr, pin, at, tick, n);
    MeanFailsIffNoSuccess(Attempts(EchoOf(tr, pin), at, tick, n).readings);
  }

  /** What `n` averaged attempts do to the outside world: a trigger pulse each, with a sleep between two. */
  function AttemptsLog(trigPin: int, n: nat, ms: nat): (log: seq<Event>)
    ensures |log| == if n == 0 then 0 else 6 * n - 1
  {
    if n == 0 then []
    else AttemptsLog(trigPin, n - 1, ms) + Gap(n - 1, ms) + TriggerPulse(trigPin)
  }

  /** The number of millisecond sleeps in a log. */
  function Sleeps(log: seq<Event>): nat
  {
    if log == [] then 0 else (if log[0].MSleep? then 1 else 0) + Sleeps(log[1..])
  }

  lemma {:induction false} NoSleeps(log: seq<Event>)
    requires forall k :: 0 <= k < |log| ==> !log[k].MSleep?
    ensures Sleeps(log) == 0
    decreases |log|
  {
    if log != [] {
      NoSleeps(log[1..]);
    }
  }

  lemma {:induction false} SleepsAppend(a: seq<Event>, b: seq<Event>)
    ensures Sleeps(a + b) == Sleeps(a) + Sleeps(b)
    decreases |a|
  {
    if a == [] {
      assert a + b == b;
    } else {
      assert (a + b)[1..] == a[1..] + b;
      SleepsAppend(a[1..], b);
    }
  }

  /**
   * The attempts sleep only between one another: `n` attempts sleep
   * max(n - 1, 0) times, every sleep is `ms` long and is followed at once by
   * the first write of a trigger pulse, the log begins with such a write
   * and, after the last attempt, ends with the trigger pin driven low.
   */
  lemma {:induction false} AttemptsLogSleeps(trigPin: int, n: nat, ms: nat)
    ensures var log := AttemptsLog(trigPin, n, ms);
      && Sleeps(log) == (if n == 0 then 0 else n - 1)
      && (n > 0 ==> log[0] == Write(trigPin, false) && log[|log| - 1] == Write(trigPin, false))
      && (forall k :: 0 <= k < |log| && log[k].MSleep? ==>
            log[k].ms == ms && k + 1 < |log| && log[k + 1] == Write(trigPin, false))
  {
    if n > 0 {
      AttemptsLogSleeps(trigPin, n - 1, ms);
      var prev := AttemptsLog(trigPin, n - 1, ms);
      var gap := Gap(n - 1, ms);
      var pulse := TriggerPulse(trigPin);
      var log := AttemptsLog(trigPin, n, ms);
      assert log == prev + gap + pulse;
      SleepsAppend(prev, gap);
      SleepsAppend(prev + gap, pulse);
      NoSleeps(pulse);
      forall k | 0 <= k < |log| && log[k].MSleep?
        ensures log[k].ms == ms && k + 1 < |log| && log[k + 1] == Write(trigPin, false)
      {
        if k < |prev| {
          assert log[k] == prev[k];
          assert log[k + 1] == prev[k + 1];
        } else if k < |prev| + |gap| {
          assert log[k + 1] == pulse[0];
        }
      }
    }
  }

  /** One more attempt adds its own measurement in front of the others: the unfolding step of `AttemptsSnoc`. */
  lemma AttemptsStep(echo: (nat, nat) -> EchoRun, at: nat, tick: nat, k: nat, at': nat, tick': nat)
    requires at' == at + echo(at, tick).samples
    requires tick' == tick + echo(at, tick).ticks
    ensures
      var all := Attempts(echo, at, tick, k + 1);
      var next := Attempts(echo, at', tick', k);
      && all.readings == [Distance(echo(at, tick).result, DefaultTemperature)] + next.readings
      && all.samples == at' - at + next.samples
      && all.ticks == tick' - tick + next.ticks
  {
  }

  /**
   * One more attempt adds its measurement behind the others: it starts at the
   * read and the clock query where the first `k` attempts left off.
   */
  lemma {:induction false} AttemptsSnoc(echo: (nat, nat) -> EchoRun, at: nat, tick: nat, k: nat, at': nat, tick': nat)
    requires at' == at + Attempts(echo, at, tick, k).samples
    requires tick' == tick + Attempts(echo, at, tick, k).ticks
    ensures
      var pre := Attempts(echo, at, tick, k);
      var run := echo(at', tick');
      var post := Attempts(echo, at, tick, k + 1);
      && post.readings == pre.readings + [Distance(run.result, DefaultTemperature)]
      && post.samples == pre.samples + run.samples
      && post.ticks == pre.ticks + run.ticks
    decreases k
  {
    var first := echo(at, tick);
    var at1, tick1 := at + first.samples, tick + first.ticks;
    AttemptsStep(echo, at, tick, k, at1, tick1);
    if k == 0 {
      assert at' == at && tick' == tick;
      assert echo(at', tick') == first;
    } else {
      AttemptsStep(echo, at, tick, k - 1, at1, tick1);
      assert k - 1 + 1 == k;
      AttemptsSnoc(echo, at1, tick1, k - 1, at', tick');
      var run := echo(at', tick');
      AppendAssoc([Distance(first.result, DefaultTemperature)], Attempts(echo, at1, tick1, k - 1).readings,
        [Distance(run.result, DefaultTemperature)]);
    }
  }

  /** Appending one reading adds its contribution to the total and to the count. */
  lemma SumSnoc(rs: seq<Option<real>>, m: Option<real>)
    ensures Sum(rs + [m]) == Sum(rs) + Contribution(m)
    ensures Successes(rs + [m]) == Successes(rs) + (if m.Some? then 1 else 0)
  {
    assert (rs + [m])[..|rs|] == rs;
  }

  /** Regrouping a sequence that grows at its end. */
  lemma AppendAssoc<T>(a: seq<T>, b: seq<T>, c: seq<T>)
    ensures a + b + c == a + (b + c)
  {
  }

  /** The sleeps in front of attempt number `i` (counting from 0): one of `ms` milliseconds, except before the first. */
  function Gap(i: nat, ms: nat): (g: seq<Event>)
    ensures |g| == if i == 0 then 0 else 1
    ensures forall k :: 0 <= k < |g| ==> g[k] == MSleep(ms)
  {
    if i > 0 then [MSleep(ms)] else []
  }

  /** Attempt number `i` of the averaging loop: the sleep before it, then one default measurement. */
  method Attempt(b: Board, h: Sensor, i: nat, delay: nat, ghost echo: (nat, nat) -> EchoRun) returns (m: Option<real>)
    requires AgreesWithEcho(echo, b.trace, h.echoPin)
    modifies b
    ensures
      var run := echo(old(b.samples), old(b.ticks));
      && m == Distance(run.result, DefaultTemperature)
      && b.samples == old(b.samples) + run.samples
      && b.ticks == old(b.ticks) + run.ticks
      && b.log == old(b.log) + (Gap(i, delay) + TriggerPulse(h.trigPin))
  {
    if i > 0 {
      b.MSleep(delay);
    }
    m := GetDistance(b, h);
  }

  /**
   * The averaging loop: `attemptsCount` attempts (none when it is not
   * positive), `delay` ms apart, summing the successful readings and counting them.
   */
  method Accumulate(b: Board, h: Sensor, attemptsCount: int, delay: nat, ghost echo: (nat, nat) -> EchoRun)
    returns (total: real, count: nat)
    requires AgreesWithEcho(echo, b.trace, h.echoPin)
    modifies b
    ensures
      var n := if attemptsCount > 0 then attemptsCount else 0;
      var s := Attempts(echo, old(b.samples), old(b.ticks), n);
      && total == Sum(s.readings)
      && count == Successes(s.readings)
      && b.samples == old(b.samples) + s.samples
      && b.ticks == old(b.ticks) + s.ticks
      && b.log == old(b.log) + AttemptsLog(h.trigPin, n, delay)
  {
    total, count := 0.0, 0;
    ghost var n: nat := if attemptsCount > 0 then attemptsCount else 0;
    ghost var done := Attempts(echo, b.samples, b.ticks, 0);
    var i := 0;
    while i < attemptsCount
      invariant 0 <= i <= n
      invariant done == Attempts(echo, old(b.samples), old(b.ticks), i)
      invariant b.samples == old(b.samples) + done.samples && b.ticks == old(b.ticks) + done.ticks
      invariant total == Sum(done.readings) && count == Successes(done.readings)
      invariant b.log == old(b.log) + AttemptsLog(h.trigPin, i, delay)
    {
      AttemptsSnoc(echo, old(b.samples), old(b.ticks), i, b.samples, b.ticks);
      var m := Attempt(b, h, i, delay, echo);
      AppendAssoc(AttemptsLog(h.trigPin, i, delay), Gap(i, delay), TriggerPulse(h.trigPin));
      assert AttemptsLog(h.trigPin, i + 1, delay) == AttemptsLog(h.trigPin, i, delay) + (Gap(i, delay) + TriggerPulse(h.trigPin));
      AppendAssoc(old(b.log), AttemptsLog(h.trigPin, i, delay), Gap(i, delay) + TriggerPulse(h.trigPin));
      SumSnoc(done.readings, m);
      if m.Some? {
        total := total + m.value;
        count := count + 1;
      }
      done := Attempts(echo, old(b.samples), old(b.ticks), i + 1);
      i := i + 1;
    }
    assert i == n;
  }

  /**
   * Takes up to `attemptsCount` default-temperature measurements,
   * `attemptsDelay` ms apart (5 ms when not positive), and averages the ones
   * that succeed. A `null` handle, a count below 1 or no success gives failure.
   */
  method GetDistanceAvg(b: Board, h: Sensor?, attemptsCount: int, attemptsDelay: int) returns (d: Option<real>)
    modifies b
    ensures h == null ==> d == None && b.samples == old(b.samples) && b.ticks == old(b.ticks) && b.log == old(b.log)
    ensures h != null ==>
      var n := if attemptsCount > 0 then attemptsCount else 0;
      var ms := if attemptsDelay > 0 then attemptsDelay else DefaultAvgAttemptsDelay;
      var s := Attempts(EchoOf(b.trace, h.echoPin), old(b.samples), old(b.ticks), n);
      && d == Mean(s.readings)
      && b.samples == old(b.samples) + s.samples
      && b.ticks == old(b.ticks) + s.ticks
      && b.log == old(b.log) + AttemptsLog(h.trigPin, n, ms)
  {
    var notNanCount: nat := 0;
    var result := 0.0;
    if h != null {
      var delay := attemptsDelay;
      if delay <= 0 {
        delay := DefaultAvgAttemptsDelay;
      }
      EchoOfAgrees(b.trace, h.echoPin);
      result, notNanCount := Accumulate(b, h, attemptsCount, delay, EchoOf(b.trace, h.echoPin));
    }
    d := if notNanCount == 0 then None else Some(result / notNanCount as real);
  }
}
