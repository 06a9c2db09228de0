/**
 * The Mongoose OS services the HC-SR04 driver calls: GPIO setup, GPIO read and
 * write, microsecond and millisecond sleeps, and the microsecond clock.
 *
 * None of them is modelled as hardware. A `Board` is a deterministic stand-in:
 * what the driver reads (pin levels, clock values, whether a setup succeeds)
 * is fixed when the board is built, and what the driver does to the outside
 * world (setups, writes, sleeps) is appended to an event log in order.
 */
module Mgos {

  /** The pull resistor modes of `mgos_gpio_setup_input`. */
  datatype Pull = PullNone | PullUp | PullDown

  /** One observable action of the driver on the board. */
  datatype Event =
    | SetupOutput(pin: int, level: bool)
    | SetupInput(pin: int, pull: Pull)
    | Write(pin: int, level: bool)
    | USleep(us: nat)
    | MSleep(ms: nat)

  /**
   * What the board answers, fixed in advance.
   * `signal(pin, k)` is the level that the board's k-th GPIO read (counting from 0)
   * sees on `pin`; `clock(k)` is the value of its k-th microsecond clock query.
   */
  datatype Trace = Trace(signal: (int, nat) -> bool, clock: nat -> int)

  /** The microsecond clock never runs backwards, as `mgos_time_micros` promises. */
  ghost predicate Monotone(clock: nat -> int)
  {
    forall i, j :: i <= j ==> clock(i) <= clock(j)
  }

  class Board {
    const trace: Trace
    /** Whether `mgos_gpio_setup_output` / `mgos_gpio_setup_input` accept a pin. */
    const outputOk: int -> bool
    const inputOk: int -> bool
    /** Whether the heap still has room for one more allocation. */
    const heapOk: bool

    /** Number of GPIO reads and of clock queries performed so far. */
    var samples: nat
    var ticks: nat
    /** Everything the driver has done to the outside world, oldest first. */
    var log: seq<Event>

    constructor (trace: Trace, outputOk: int -> bool, inputOk: int -> bool, heapOk: bool)
      ensures this.trace == trace && this.outputOk == outputOk && this.inputOk == inputOk
      ensures this.heapOk == heapOk
      ensures samples == 0 && ticks == 0 && log == []
    {
      this.trace := trace;
      this.outputOk := outputOk;
      this.inputOk := inputOk;
      this.heapOk := heapOk;
      samples, ticks, log := 0, 0, [];
    }

    method SetupOutput(pin: int, level: bool) returns (ok: bool)
      modifies this`log
      ensures ok == outputOk(pin)
      ensures log == old(log) + [Event.SetupOutput(pin, level)]
    {
      ok := outputOk(pin);
      log := log + [Event.SetupOutput(pin, level)];
    }

    method SetupInput(pin: int, pull: Pull) returns (ok: bool)
      modifies this`log
      ensures ok == inputOk(pin)
      ensures log == old(log) + [Event.SetupInput(pin, pull)]
    {
      ok := inputOk(pin);
      log := log + [Event.SetupInput(pin, pull)];
    }

    method Write(pin: int, level: bool)
      modifies this`log
      ensures log == old(log) + [Event.Write(pin, level)]
    {
      log := log + [Event.Write(pin, level)];
    }

    method Read(pin: int) returns (level: bool)
      modifies this`samples
      ensures level == trace.signal(pin, old(samples))
      ensures samples == old(samples) + 1
    {
      level := trace.signal(pin, samples);
      samples := samples + 1;
    }

    method USleep(us: nat)
      modifies this`log
      ensures log == old(log) + [Event.USleep(us)]
    {
      log := log + [Event.USleep(us)];
    }

    method MSleep(ms: nat)
      modifies this`log
      ensures log == old(log) + [Event.MSleep(ms)]
    {
      log := log + [Event.MSleep(ms)];
    }

    method TimeMicros() returns (t: int)
      modifies this`ticks
      ensures t == trace.clock(old(ticks))
      ensures ticks == old(ticks) + 1
    {
      t := trace.clock(ticks);
      ticks := ticks + 1;
    }
  }
}
