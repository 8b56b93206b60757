/** The Thermo 26 Click driver: a context record naming the sensor's bus,
    address and reset line, and the operations that talk to the sensor
    through the HAL. Every operation is specified by the exact sequence of
    HAL calls it makes and by what it returns and stores. */
module Thermo26 {
  import opened Wrappers
  import opened Thermo26Defs
  import opened Crc
  import opened Codec
  import opened StmHal

  /** Timeout of every bus transfer, in milliseconds. */
  const BusTimeout: nat := 100
  /** Wait after a measurement command, and after the break command. */
  const StartDelayMs: nat := 20
  const StopDelayMs: nat := 1
  /** How long the reset line is held low, and the wait after releasing it. */
  const ResetLowMs: nat := 1
  const ResetRecoveryMs: nat := 100

  /** The board's reset line: pin 6 of GPIO port C. */
  const RstPort: GpioPort := GpioPort(2)
  const RstPin: bv8 := 0x40

  /** A variable the caller passes by address for the driver to fill in. */
  class Cell<T> {
    var value: T

    constructor (v: T)
      ensures value == v
    {
      value := v;
    }
  }

  /** The click's context: its reset line (active low), its bus address in
      the form the bus driver expects, and the I2C peripheral it sits on. */
  class Context {
    var rstPort: GpioPort
    var rstPin: bv8
    var slaveAddress: bv8
    var i2c: I2cHandle

    /** A context record with the given fields. */
    constructor (rstPort: GpioPort, rstPin: bv8, slaveAddress: bv8, i2c: I2cHandle)
      ensures this.rstPort == rstPort && this.rstPin == rstPin
      ensures this.slaveAddress == slaveAddress && this.i2c == i2c
    {
      this.rstPort := rstPort;
      this.rstPin := rstPin;
      this.slaveAddress := slaveAddress;
      this.i2c := i2c;
    }

    /** thermo26_init: binds the context to bus `i2c`, the default address
        and the board's reset line. */
    method Init(i2c: I2cHandle)
      modifies this
      ensures this.i2c == i2c && slaveAddress == DeviceAddress0
      ensures rstPort == RstPort && rstPin == RstPin
    {
      this.i2c := i2c;
      slaveAddress := DeviceAddress0;
      rstPort := RstPort;
      rstPin := RstPin;
    }
  }

  /** The bus event of sending command word `cmd` to the sensor. */
  function CommandWrite(ctx: Context, cmd: bv16, status: HalStatus): Event
    reads ctx
  {
    I2cTransmit(ctx.i2c, ctx.slaveAddress as bv16, EncodeWord(cmd), BusTimeout, status)
  }

  /** The bus event of reading a three-byte response frame from the sensor. */
  function FrameRead(ctx: Context, status: HalStatus, frame: seq<bv8>): Event
    reads ctx
  {
    I2cReceive(ctx.i2c, ctx.slaveAddress as bv16, frame, BusTimeout, status)
  }

  /** The HAL event of pulling the reset line to `level`. */
  function RstWrite(ctx: Context, level: PinState): Event
    reads ctx
  {
    GpioWrite(ctx.rstPort, ctx.rstPin as bv16, level)
  }

  /** The word a command exchange yields, given the status of its write, the
      status of its read and the frame read: one exists exactly when both
      transfers succeeded and the frame's checksum byte matches its data
      bytes, and it is then the word the frame carries. */
  function ReadResult(writeStatus: HalStatus, readStatus: HalStatus, frame: seq<bv8>): (r: Option<bv16>)
    requires |frame| == 3
    ensures r.Some? <==> writeStatus == HalOk && readStatus == HalOk && frame[2] == Crc8(frame[0], frame[1])
    ensures r.Some? ==> frame == EncodeFrame(r.value)
  {
    if CombineStatus(writeStatus, readStatus) == HalOk then DecodeFrame(frame) else None
  }

  /** The word the driver assembles from an accepted frame is the exchange's
      result. */
  lemma AcceptedWord(writeStatus: HalStatus, readStatus: HalStatus, frame: seq<bv8>, word: bv16)
    requires |frame| == 3 && CombineStatus(writeStatus, readStatus) == HalOk
    requires frame[2] == Crc8(frame[0], frame[1])
    requires word == DecodeWord(frame[0], frame[1])
    ensures ReadResult(writeStatus, readStatus, frame) == Some(word)
  {
  }

  /** The exchanges of the sensor's reference checksum example: a good frame
      gives its word, a wrong checksum byte or a failed write gives none. */
  lemma ReadResultExamples()
    ensures ReadResult(HalOk, HalOk, [0xBE, 0xEF, 0x92]) == Some(0xBEEF)
    ensures ReadResult(HalOk, HalOk, [0xBE, 0xEF, 0x00]) == None
    ensures ReadResult(HalError, HalOk, [0xBE, 0xEF, 0x92]) == None
  {
    CrcGoldenVector();
  }

  /** The temperature in degrees Celsius a raw reading stands for: the raw
      range 0 ..= 65535 mapped linearly onto -45 ..= 130. */
  function Celsius(raw: bv16): (t: real)
    ensures AbsMinTemp as real <= t <= AbsMaxTemp as real
  {
    CelsiusScaled(raw as int);
    Scale(raw as int as real)
  }

  /** The linear map of the full raw scale onto the calibrated range. */
  function Scale(x: real): real {
    AbsMinTemp as real + (AbsMaxTemp - AbsMinTemp) as real * x / DataResolution as real
  }

  lemma CelsiusScaled(raw: int)
    requires 0 <= raw <= DataResolution
    ensures AbsMinTemp as real <= Scale(raw as real) <= AbsMaxTemp as real
  {
    assert raw as real / DataResolution as real <= 1.0;
  }

  /** The conversion maps the ends of the raw range onto the ends of the
      temperature range, and a larger reading onto a higher temperature. */
  lemma CelsiusEnds()
    ensures Celsius(0) == AbsMinTemp as real && Celsius(0xFFFF) == AbsMaxTemp as real
  {
  }

  lemma CelsiusMonotone(a: bv16, b: bv16)
    ensures a as int < b as int <==> Celsius(a) < Celsius(b)
  {
    var x, y := a as int, b as int;
    if x < y {
      ScaleIncreasing(x as real, y as real);
    } else if y < x {
      ScaleIncreasing(y as real, x as real);
    }
  }

  lemma ScaleIncreasing(x: real, y: real)
    requires x < y
    ensures Scale(x) < Scale(y)
  {
  }

  /** thermo26_write_command: sends `cmd` to the sensor as two bytes, most
      significant first, and returns the status of the transfer. */
  method WriteCommand(ctx: Context, hal: Hal, cmd: bv16) returns (status: HalStatus)
    modifies hal
    ensures hal.trace == old(hal.trace) + [CommandWrite(ctx, cmd, status)]
  {
    var dataBuf := new bv8[2](_ => 0);
    dataBuf[0] := ((cmd >> 8) & 0xFF) as bv8;
    dataBuf[1] := (cmd & 0xFF) as bv8;
    assert dataBuf[..2] == EncodeWord(cmd);
    status := hal.I2cMasterTransmit(ctx.i2c, ctx.slaveAddress as bv16, dataBuf, 2, BusTimeout);
  }

  /** thermo26_read_command: sends `cmd`, then reads a three-byte response
      frame whether or not the send succeeded. The frame's word is stored in
      `dataOut` and OK returned exactly when `ReadResult` yields a word; on
      any failure `dataOut` keeps its value and the result is ERROR. The
      statuses and the frame the bus delivered are returned as ghosts. */
  method ReadCommand(ctx: Context, hal: Hal, cmd: bv16, dataOut: Cell<bv16>)
    returns (status: HalStatus, ghost writeStatus: HalStatus, ghost readStatus: HalStatus, ghost frame: seq<bv8>)
    modifies hal, dataOut
    ensures |frame| == 3
    ensures hal.trace == old(hal.trace) + [CommandWrite(ctx, cmd, writeStatus), FrameRead(ctx, readStatus, frame)]
    ensures ReadResult(writeStatus, readStatus, frame).Some? ==>
              status == HalOk && dataOut.value == ReadResult(writeStatus, readStatus, frame).value
    ensures ReadResult(writeStatus, readStatus, frame).None? ==>
              status == HalError && dataOut.value == old(dataOut.value)
  {
    var dataBuf := new bv8[3](_ => 0);
    var errorFlag := WriteCommand(ctx, hal, cmd);
    writeStatus := errorFlag;
    var received := hal.I2cMasterReceive(ctx.i2c, ctx.slaveAddress as bv16, dataBuf, 3, BusTimeout);
    readStatus := received;
    frame := dataBuf[..];
    assert frame == dataBuf[..3];
    assert hal.trace == old(hal.trace) + [CommandWrite(ctx, cmd, writeStatus), FrameRead(ctx, readStatus, frame)];
    errorFlag := CombineStatus(errorFlag, received);
    if errorFlag == HalOk {
      var crc := CalculateCrc(dataBuf);
      if dataBuf[2] == crc {
        var word := (dataBuf[0] as bv16 << 8) | dataBuf[1] as bv16;
        AcceptedWord(writeStatus, readStatus, frame, word);
        dataOut.value := word;
        return HalOk, writeStatus, readStatus, frame;
      }
    }
    return HalError, writeStatus, readStatus, frame;
  }

  /** thermo26_reset_device: pulls the reset line low for 1 ms, releases it
      and waits 100 ms for the sensor to come up; the line ends up high. */
  method ResetDevice(ctx: Context, hal: Hal)
    modifies hal
    ensures hal.trace == old(hal.trace)
              + [RstWrite(ctx, PinReset), Delay(ResetLowMs), RstWrite(ctx, PinSet), Delay(ResetRecoveryMs)]
    ensures LastLevel(hal.trace, ctx.rstPort, ctx.rstPin as bv16) == Some(PinSet)
    ensures DelayedMs(hal.trace) == DelayedMs(old(hal.trace)) + ResetLowMs + ResetRecoveryMs
  {
    hal.GpioWritePin(ctx.rstPort, ctx.rstPin as bv16, PinReset);
    hal.HalDelay(ResetLowMs);
    hal.GpioWritePin(ctx.rstPort, ctx.rstPin as bv16, PinSet);
    hal.HalDelay(ResetRecoveryMs);
    ResetPulseLeavesLineHigh(old(hal.trace), ctx.rstPort, ctx.rstPin as bv16);
  }

  /** A reset pulse appended to any trace leaves the line high and adds its
      two waits to the trace's total. */
  lemma ResetPulseLeavesLineHigh(t0: seq<Event>, port: GpioPort, pin: bv16)
    ensures var t := t0 + [GpioWrite(port, pin, PinReset), Delay(ResetLowMs), GpioWrite(port, pin, PinSet), Delay(ResetRecoveryMs)];
            LastLevel(t, port, pin) == Some(PinSet) && DelayedMs(t) == DelayedMs(t0) + ResetLowMs + ResetRecoveryMs
  {
    var t1 := t0 + [GpioWrite(port, pin, PinReset)];
    var t2 := t1 + [Delay(ResetLowMs)];
    var t3 := t2 + [GpioWrite(port, pin, PinSet)];
    assert t3 + [Delay(ResetRecoveryMs)]
        == t0 + [GpioWrite(port, pin, PinReset), Delay(ResetLowMs), GpioWrite(port, pin, PinSet), Delay(ResetRecoveryMs)];
    LastLevelAfterWrite(t2, port, pin, PinSet);
    LastLevelAfterOther(t3, Delay(ResetRecoveryMs), port, pin);
    DelayedMsAppend(t0, GpioWrite(port, pin, PinReset));
    DelayedMsAppend(t1, Delay(ResetLowMs));
    DelayedMsAppend(t2, GpioWrite(port, pin, PinSet));
    DelayedMsAppend(t3, Delay(ResetRecoveryMs));
  }

  /** thermo26_set_rst_pin as written: drives the reset line low, whatever
      `state` asks for. */
  method SetRstPin(ctx: Context, hal: Hal, state: bv8)
    modifies hal
    ensures hal.trace == old(hal.trace) + [RstWrite(ctx, PinReset)]
    ensures LastLevel(hal.trace, ctx.rstPort, ctx.rstPin as bv16) == Some(PinReset)
  {
    LastLevelAfterWrite(hal.trace, ctx.rstPort, ctx.rstPin as bv16, PinReset);
    hal.GpioWritePin(ctx.rstPort, ctx.rstPin as bv16, PinReset);
  }

  /** The level the HAL drives for a pin state byte: low for 0, high for
      anything else. */
  function RstLevel(state: bv8): PinState {
    if state != 0 then PinSet else PinReset
  }

  /** For any non-zero `state`, the line `SetRstPin` leaves behind is not at
      the level `state` asks for, whatever the trace before it. */
  lemma SetRstPinIgnoresState(trace: seq<Event>, port: GpioPort, pin: bv16, state: bv8)
    requires state != 0
    ensures LastLevel(trace + [GpioWrite(port, pin, PinReset)], port, pin) != Some(RstLevel(state))
  {
  }

  /** thermo26_set_rst_pin as documented: drives the reset line to the logic
      state `state` asks for. */
  method SetRstPinToState(ctx: Context, hal: Hal, state: bv8)
    modifies hal
    ensures hal.trace == old(hal.trace) + [RstWrite(ctx, RstLevel(state))]
    ensures LastLevel(hal.trace, ctx.rstPort, ctx.rstPin as bv16) == Some(RstLevel(state))
  {
    LastLevelAfterWrite(hal.trace, ctx.rstPort, ctx.rstPin as bv16, RstLevel(state));
    hal.GpioWritePin(ctx.rstPort, ctx.rstPin as bv16, RstLevel(state));
  }

  /** thermo26_start_measurement: sends `cmd`, waits 20 ms whether or not
      that worked, and returns the status of the send. */
  method StartMeasurement(ctx: Context, hal: Hal, cmd: bv16) returns (status: HalStatus)
    modifies hal
    ensures hal.trace == old(hal.trace) + [CommandWrite(ctx, cmd, status), Delay(StartDelayMs)]
  {
    var errorFlag := WriteCommand(ctx, hal, cmd);
    hal.HalDelay(StartDelayMs);
    return errorFlag;
  }

  /** thermo26_stop_measurement: sends the break command, waits 1 ms and
      returns the status of the send. */
  method StopMeasurement(ctx: Context, hal: Hal) returns (status: HalStatus)
    modifies hal
    ensures hal.trace == old(hal.trace) + [CommandWrite(ctx, Code(Break), status), Delay(StopDelayMs)]
  {
    var errorFlag := WriteCommand(ctx, hal, Code(Break));
    hal.HalDelay(StopDelayMs);
    return errorFlag;
  }

  /** thermo26_read_temperature: starts periodic measurement at one per
      second with high repeatability, then fetches the latest result. The
      temperature is stored and OK returned exactly when the start succeeded
      and the fetch yielded a word; otherwise the result is ERROR and the
      temperature keeps its value. */
  method ReadTemperature(ctx: Context, hal: Hal, temperature: Cell<real>)
    returns (status: HalStatus, ghost startStatus: HalStatus, ghost writeStatus: HalStatus,
             ghost readStatus: HalStatus, ghost frame: seq<bv8>)
    modifies hal, temperature
    ensures |frame| == 3
    ensures hal.trace == old(hal.trace)
              + [CommandWrite(ctx, Code(Periodic1MpsRepHigh), startStatus), Delay(StartDelayMs),
                 CommandWrite(ctx, Code(FetchData), writeStatus), FrameRead(ctx, readStatus, frame)]
    ensures status == HalOk <==> startStatus == HalOk && ReadResult(writeStatus, readStatus, frame).Some?
    ensures status == HalOk ==> temperature.value == Celsius(ReadResult(writeStatus, readStatus, frame).value)
    ensures status != HalOk ==> status == HalError && temperature.value == old(temperature.value)
  {
    var rawTemp := new Cell<bv16>(0);
    var errorFlag := StartMeasurement(ctx, hal, Code(Periodic1MpsRepHigh));
    startStatus := errorFlag;
    var fetched;
    fetched, writeStatus, readStatus, frame := ReadCommand(ctx, hal, Code(FetchData), rawTemp);
    errorFlag := CombineStatus(errorFlag, fetched);
    if errorFlag == HalOk {
      temperature.value := Celsius(rawTemp.value);
      return HalOk, startStatus, writeStatus, readStatus, frame;
    }
    return HalError, startStatus, writeStatus, readStatus, frame;
  }
}
