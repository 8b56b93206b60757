/** The slice of the microcontroller's hardware abstraction layer the driver
    calls: blocking I2C master transfers, GPIO writes and millisecond delays.
    What the hardware does is not modelled; each call is appended to a trace
    of events, and the statuses and received bytes are whatever the bus
    delivers. */
module StmHal {
  import opened Wrappers

  /** A HAL return code: OK, ERROR, BUSY or TIMEOUT. The codes are enumeration
      values the driver combines with bitwise or, so a code is kept as a small
      bit-vector on which that or can be modelled. */
  type HalStatus = s: bv8 | s <= 3

  const HalOk: HalStatus := 0
  const HalError: HalStatus := 1
  const HalBusy: HalStatus := 2
  const HalTimeout: HalStatus := 3

  /** Two codes or-ed together: still a HAL code, and OK exactly when both
      are OK, so once an error is folded in the result can never be OK. */
  function CombineStatus(a: HalStatus, b: HalStatus): (r: HalStatus)
    ensures r == HalOk <==> a == HalOk && b == HalOk
  {
    a | b
  }

  /** The level a GPIO write drives: low (reset) or high (set). */
  datatype PinState = PinReset | PinSet

  /** Opaque stand-ins for the addresses of a GPIO port's registers and of an
      I2C peripheral's handle. */
  datatype GpioPort = GpioPort(id: nat)
  datatype I2cHandle = I2cHandle(id: nat)

  /** One completed HAL call. */
  datatype Event =
    | I2cTransmit(bus: I2cHandle, address: bv16, bytes: seq<bv8>, timeout: nat, status: HalStatus)
    | I2cReceive(bus: I2cHandle, address: bv16, bytes: seq<bv8>, timeout: nat, status: HalStatus)
    | GpioWrite(port: GpioPort, pin: bv16, level: PinState)
    | Delay(ms: nat)

  /** Whether `e` is a write to `pin` of `port`. */
  predicate WritesPin(e: Event, port: GpioPort, pin: bv16) {
    e.GpioWrite? && e.port == port && e.pin == pin
  }

  /** The level last driven on `pin` of `port`, if the trace drives it at all. */
  function LastLevel(trace: seq<Event>, port: GpioPort, pin: bv16): (r: Option<PinState>)
    ensures r.Some? ==> exists i :: 0 <= i < |trace| && trace[i] == GpioWrite(port, pin, r.value)
  {
    if |trace| == 0 then None
    else match trace[|trace| - 1]
      case GpioWrite(p, q, level) =>
        if p == port && q == pin then Some(level) else LastLevel(trace[..|trace| - 1], port, pin)
      case _ => LastLevel(trace[..|trace| - 1], port, pin)
  }

  /** `LastLevel` is none exactly when the trace never writes the pin, and
      otherwise the level of a write to it after which none follows. */
  lemma {:induction false} LastLevelIsLastWrite(trace: seq<Event>, port: GpioPort, pin: bv16)
    ensures LastLevel(trace, port, pin).None? <==> forall i :: 0 <= i < |trace| ==> !WritesPin(trace[i], port, pin)
    ensures LastLevel(trace, port, pin).Some? ==>
              exists i :: 0 <= i < |trace| && trace[i] == GpioWrite(port, pin, LastLevel(trace, port, pin).value)
                && forall j :: i < j < |trace| ==> !WritesPin(trace[j], port, pin)
    decreases |trace|
  {
    if |trace| > 0 {
      var n := |trace| - 1;
      var init := trace[..n];
      if WritesPin(trace[n], port, pin) {
        assert trace[n] == GpioWrite(port, pin, LastLevel(trace, port, pin).value);
      } else {
        LastLevelIsLastWrite(init, port, pin);
        assert LastLevel(trace, port, pin) == LastLevel(init, port, pin);
        assert forall i :: 0 <= i < n ==> trace[i] == init[i];
        if LastLevel(init, port, pin).Some? {
          var i :| 0 <= i < n && init[i] == GpioWrite(port, pin, LastLevel(init, port, pin).value)
                   && forall j :: i < j < n ==> !WritesPin(init[j], port, pin);
          assert forall j :: i < j < |trace| ==> !WritesPin(trace[j], port, pin);
        }
      }
    }
  }

  /** Writing a pin makes that write the pin's last level ... */
  lemma LastLevelAfterWrite(trace: seq<Event>, port: GpioPort, pin: bv16, level: PinState)
    ensures LastLevel(trace + [GpioWrite(port, pin, level)], port, pin) == Some(level)
  {
  }

  /** ... and any other call leaves the pin's last level as it was. */
  lemma LastLevelAfterOther(trace: seq<Event>, e: Event, port: GpioPort, pin: bv16)
    requires !WritesPin(e, port, pin)
    ensures LastLevel(trace + [e], port, pin) == LastLevel(trace, port, pin)
  {
    assert (trace + [e])[..|trace|] == trace;
  }

  /** The time the trace spends in delays, in milliseconds. */
  function DelayedMs(trace: seq<Event>): nat {
    if |trace| == 0 then 0
    else DelayedMs(trace[..|trace| - 1]) + (if trace[|trace| - 1].Delay? then trace[|trace| - 1].ms else 0)
  }

  /** One more call adds its own delay, if it is one, to the total. */
  lemma DelayedMsAppend(trace: seq<Event>, e: Event)
    ensures DelayedMs(trace + [e]) == DelayedMs(trace) + (if e.Delay? then e.ms else 0)
  {
    assert (trace + [e])[..|trace|] == trace;
  }

  /** The HAL as the driver sees it: every call leaves an event behind. */
  class Hal {
    ghost var trace: seq<Event>

    constructor ()
      ensures trace == []
    {
      trace := [];
    }

    /** HAL_I2C_Master_Transmit: sends the first `size` bytes of `data` to the
        device at `address` and reports how that went. */
    method I2cMasterTransmit(bus: I2cHandle, address: bv16, data: array<bv8>, size: nat, timeout: nat)
      returns (status: HalStatus)
      requires size <= data.Length
      modifies this
      ensures trace == old(trace) + [I2cTransmit(bus, address, data[..size], timeout, status)]
    {
      status := *;
      trace := trace + [I2cTransmit(bus, address, data[..size], timeout, status)];
    }

    /** HAL_I2C_Master_Receive: reads `size` bytes from the device at
        `address` into the front of `data`; the bytes are whatever arrives,
        and the rest of `data` is untouched. */
    method I2cMasterReceive(bus: I2cHandle, address: bv16, data: array<bv8>, size: nat, timeout: nat)
      returns (status: HalStatus)
      requires size <= data.Length
      modifies this, data
      ensures trace == old(trace) + [I2cReceive(bus, address, data[..size], timeout, status)]
      ensures data[size..] == old(data[size..])
    {
      var i := 0;
      while i < size
        invariant i <= size
        invariant data[size..] == old(data[size..])
        invariant trace == old(trace)
      {
        data[i] := *;
        i := i + 1;
      }
      status := *;
      trace := trace + [I2cReceive(bus, address, data[..size], timeout, status)];
    }

    /** HAL_GPIO_WritePin. */
    method GpioWritePin(port: GpioPort, pin: bv16, level: PinState)
      modifies this
      ensures trace == old(trace) + [GpioWrite(port, pin, level)]
    {
      trace := trace + [GpioWrite(port, pin, level)];
    }

    /** HAL_Delay: blocks for `ms` milliseconds. */
    method HalDelay(ms: nat)
      modifies this
      ensures trace == old(trace) + [Delay(ms)]
    {
      trace := trace + [Delay(ms)];
    }
  }
}
