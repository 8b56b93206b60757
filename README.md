# Thermo 26 Click driver — Dafny model

This project models the command/response layer of the Thermo 26 Click
driver. The Thermo 26 Click is a board carrying an I2C temperature sensor,
driven from an STM32 through the vendor's hardware abstraction layer (HAL).
The model covers:

- **the command table and bus addresses** (`thermo26_defs.dfy`, module
  `Thermo26Defs`). The 29 command words become a `Command` datatype with
  its wire code (`Code`) and the reverse lookup (`FromCode`). The module
  also holds the two device addresses and the temperature-range constants;
- **the CRC-8 checksum** (`crc.dfy`, module `Crc`). This is the sensor's
  CRC-8: polynomial 0x31, initial value 0xFF, no reflection and no final
  XOR. `CalculateCrc` is the driver's nested bit loop over a byte array.
  It is proved against the specification function `Crc8`. `Crc8` is in
  turn proved equal to an independent reference, the remainder of
  polynomial long division over GF(2). Error detection is proved as well:
  corrupting either data byte always changes the checksum;
- **the wire formats** (`codec.dfy`, module `Codec`). A 16-bit word is
  split into two bytes, most significant first, and reassembled. A
  response frame is a data word followed by the checksum of its two bytes.
  Splitting and reassembling round-trip in both directions. A frame decodes
  to a word exactly when it is that word's encoding. A frame with any one
  byte corrupted is rejected;
- **the HAL** (`stm_hal.dfy`, module `StmHal`). A `Hal` object records
  every call as an event in a ghost trace: I2C transmit, I2C receive, GPIO
  write and delay. The statuses and received bytes are arbitrary, since
  they are what the bus delivers. HAL status codes (OK 0, ERROR 1, BUSY 2,
  TIMEOUT 3) are kept as small bit-vectors, so that the driver's bitwise or
  of two codes can be modelled;
- **the driver** (`thermo26.dfy`, module `Thermo26`). This holds the
  context record as a class and one method per driver function. Each
  method's contract states the exact sequence of HAL calls it makes, what
  it returns and what it stores through its out-parameter. Out-parameters
  (`*data_out`, `*temperature`) are `Cell` objects.

`read_command` always issues the receive, even after the command write
failed. Only afterwards does it combine the two statuses with a bitwise or.
The model follows the code here, not a short-circuiting read. It then proves
that a failed write still forces an error: an or-ed error code is never OK,
so the checksum of a frame that follows a failed write is never accepted.
Besides their status result, `ReadCommand` and `ReadTemperature` also
return, as ghost out-parameters, the status of each transfer and the frame
the bus delivered, so their contracts can name them.

`start_measurement` is documented to take a single-shot or periodic
measurement command, but the code sends whatever word it is given. The
model does the same.

## Model

| member | source | states |
|---|---|---|
| Thermo26Defs.CodeRoundTrip | thermo26.h:21-50 | looking up any command's wire word gives that command back |
| Thermo26Defs.Code | thermo26.h:21-50 | each command's wire word; the high byte is 0x2C exactly for the single-shot commands with clock stretching, and lies in {0x2C, 0x24, 0x20-0x23, 0x27} exactly for the commands that start a measurement |
| Thermo26Defs.FromCode | thermo26.h:21-50 | a word is recognised only as the command whose code it is |
| Thermo26Defs.CodeInjective | thermo26.h:21-50 | two commands share a wire word exactly when they are the same command (all 29 codes are distinct) |
| Thermo26Defs.DriverCommandCodes | thermo26.h:31-44 | FETCH_DATA is 0xE000, BREAK is 0x3093 and PERIODIC_1_MPS_REP_HIGH is 0x2130; only the last starts a measurement |
| Thermo26Defs.TemperatureRangeWellFormed | thermo26.h:56-58 | the calibrated range -45 to 130 is non-empty and spans 175 degrees; the data resolution 65535 is the full 16-bit range |
| Thermo26Defs.DeviceAddressesWellFormed | thermo26.h:65-66 | the addresses are 0x4A and 0x4B shifted left by one (0x94, 0x96); bit 0 is free for the read/write flag; shifting right gives the 7-bit address back; the two differ only in bit 1 |
| Crc.CalculateCrc | thermo26.c:101-120 | the nested byte and bit loop over a two-byte buffer returns `Crc8` of its first two bytes |
| Crc.Crc8Unfolded | thermo26.c:103-119 | the checksum starts from 0xFF and feeds the first byte, then the second; each byte is XORed in and followed by eight bit steps |
| Crc.CrcShiftsEight | thermo26.c:107-117 | feeding a byte is eight single bit steps: shift left, and XOR 0x31 when the top bit was set |
| Crc.CrcGoldenVector | thermo26.c:21 | CRC(0xBE, 0xEF) = 0x92 |
| Crc.CrcIsPolynomialRemainder | thermo26.c:13-20 | the register algorithm equals the remainder of polynomial long division: the message with 0xFF added to its first byte, times x^8, divided by x^8 + x^5 + x^4 + 1 |
| Crc.PolyReduceIsCrcShifts | thermo26.c:107-117 | n long-division steps on a dividend that leads with the register are n bit steps of the register |
| Crc.DivStepIsCrcShift | thermo26.c:109-116 | one long-division step is one bit step of the register |
| Crc.CrcShiftInjective | thermo26.c:109-116 | distinct registers stay distinct after one bit step |
| Crc.CrcShiftsInjective | thermo26.c:107-117 | distinct registers stay distinct after any number of bit steps |
| Crc.CrcUpdateInjective | thermo26.c:106-117 | feeding bytes into registers gives equal results only when register XOR byte was equal |
| Crc.CrcDetectsSingleByteError | thermo26.c:50 | changing exactly one of the two data bytes always changes the checksum |
| Codec.DecodeWord | thermo26.c:53 | the reassembled word's high byte is the first wire byte and its low byte is the second |
| Codec.EncodeWord | thermo26.c:40-41 | a command splits into exactly two bytes, and reassembling them gives the command back |
| Codec.EncodeDecodeWord | thermo26.c:53 | splitting the word reassembled from two bytes gives those bytes back |
| Codec.EncodeFrame | thermo26.c:50-53 | the response frame for w has three bytes; the first two reassemble to w the way the driver does, and the third is their checksum, so the frame passes the driver's check |
| Codec.DecodeFrame | thermo26.c:50-53 | a frame yields word w exactly when it is the encoding of w, i.e. when its checksum byte matches |
| Codec.CorruptedFrameRejected | thermo26.c:50 | a frame with any one byte changed (data or checksum) is rejected |
| StmHal.CombineStatus | thermo26.c:48-49 | or-ing two HAL codes gives a HAL code that is OK exactly when both are OK, so an error can never be or-ed away |
| StmHal.LastLevel | thermo26.c:61-63 | the level last driven on a pin is a level some write in the trace drove on that pin |
| StmHal.LastLevelIsLastWrite | thermo26.c:61-63 | a pin has no last level exactly when the trace never writes it; otherwise its last level is the level of a write to it after which no other write to it follows |
| StmHal.Hal.I2cMasterTransmit | thermo26.c:42 | a transmit records the bus, the address, the bytes sent, the timeout and the status |
| StmHal.Hal.I2cMasterReceive | thermo26.c:49 | a receive records the bytes that arrived in the front of the buffer, and leaves the rest of the buffer unchanged |
| StmHal.Hal.GpioWritePin | thermo26.c:61 | a pin write records the port, the pin and the level |
| StmHal.Hal.HalDelay | thermo26.c:62 | a delay records its duration |
| Thermo26.Context.constructor | thermo26.h:71-82 | the context record carries the reset port, the reset pin, the bus address byte and the I2C handle it is given |
| Thermo26.Context.Init | thermo26.c:28-34 | init stores the bus handle, sets the address to DEVICE_ADDRESS_0 and sets the reset line to port C, pin 6 |
| Thermo26.ReadResult | thermo26.c:48-55 | a command exchange yields a word exactly when the write and the read both returned OK and the frame's third byte is the checksum of its first two; the word is then the one the frame encodes |
| Thermo26.ReadResultExamples | thermo26.c:50-56 | frame BE EF 92 yields 0xBEEF; BE EF 00 yields nothing; a failed write yields nothing even with a good frame |
| Thermo26.Celsius | thermo26.c:80-81 | a raw reading converts to a temperature within -45 to 130 degrees |
| Thermo26.CelsiusEnds | thermo26.c:80-81 | raw 0 converts to -45 degrees and raw 65535 to 130 degrees |
| Thermo26.CelsiusMonotone | thermo26.c:80-81 | a larger raw reading converts to a higher temperature, and conversely |
| Thermo26.WriteCommand | thermo26.c:36-43 | exactly one transmit to the context's address on its bus, carrying the command's two bytes (most significant first) with timeout 100; it returns that transmit's status |
| Thermo26.ReadCommand | thermo26.c:45-57 | exactly one command transmit, then one three-byte receive, even when the transmit failed; it returns OK and stores the frame's word exactly when `ReadResult` yields one; otherwise it returns ERROR and leaves the out-parameter unchanged |
| Thermo26.ResetDevice | thermo26.c:59-65 | reset line low, wait 1 ms, reset line high, wait 100 ms; the line ends up high and 101 ms of waiting are added |
| Thermo26.ResetPulseLeavesLineHigh | thermo26.c:61-64 | after the low / 1 ms / high / 100 ms sequence on any trace, the line's last level is high and the total wait grew by 101 ms |
| Thermo26.SetRstPin | thermo26.c:67-70 | one write driving the reset line low whatever the requested state, which leaves it low |
| Thermo26.SetRstPinIgnoresState | thermo26.c:67-70 | for every non-zero requested state and any earlier trace, the line level after the as-written routine's write differs from the requested level |
| Thermo26.SetRstPinToState | thermo26.h:125-132 | one write driving the reset line to the requested state, which becomes the line's level |
| Thermo26.StartMeasurement | thermo26.c:87-92 | one command transmit, then a 20 ms wait whether or not the transmit succeeded; it returns the transmit's status |
| Thermo26.StopMeasurement | thermo26.c:94-99 | one transmit of the break command 0x3093, then a 1 ms wait; it returns the transmit's status |
| Thermo26.ReadTemperature | thermo26.c:72-85 | start periodic measurement 0x2130 and wait 20 ms, then fetch with 0xE000 and read a frame; it returns OK exactly when the start succeeded and the fetch yielded a word, and only then stores that word's temperature; otherwise it returns ERROR and leaves the temperature unchanged |

## Left out

- Thermo26.Celsius: the conversion is computed exactly over the reals. The source computes it in single-precision floating point, and that rounding is not modelled.
- Thermo26.ReadTemperature: the stored temperature is the exact real value of `Celsius`, not the float the source stores.
- StmHal.Hal.I2cMasterTransmit, StmHal.Hal.I2cMasterReceive: the STM32 HAL internals are not modelled. These are the I2C bus protocol, the 100 ms timeouts and the register accesses behind the GPIO and delay calls. Each call only records an event; its status and received bytes are arbitrary.
- The `GPIO_TypeDef *` and `I2C_HandleTypeDef *` pointers are opaque identifiers. GPIOC is `GpioPort(2)`; which peripheral it addresses is not modelled.
- The GPIO pin number is truncated to the 8-bit `rst_pin` field of the context, and widened back to 16 bits when passed to the HAL. GPIO_PIN_6 (0x0040) fits, so nothing is lost.
- A `thermo26_t` declared without `thermo26_init` has unspecified field values in the source. The model has no uninitialised record: `Context` is always built from given field values.
- Concurrency is not modelled. The protocol assumes a single caller, and the model has one sequential trace.

## Findings

| source | as written | input that shows it | evidently intended | confidence | as-written member | corrected member |
|---|---|---|---|---|---|---|
| thermo26.c:67-70 | `set_rst_pin` passes `GPIO_PIN_RESET` to the pin write and ignores its `state` argument | `state = 1`: the reset line is driven low instead of high | drive the reset line to `state`, as the documentation at thermo26.h:125-132 says ("sets the RST pin logic state") | not executed | Thermo26.SetRstPin (with Thermo26.SetRstPinIgnoresState) | Thermo26.SetRstPinToState |
