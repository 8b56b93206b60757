/** Constants of the Thermo 26 Click driver: the sensor's command words, its two
    selectable bus addresses and the temperature range of its calibration. */
module Thermo26Defs {
  import opened Wrappers

  /** The operations the sensor understands. Single-shot measurements come
      with clock stretching enabled (ClkStrEn) or disabled (ClkStrDis),
      periodic ones at 0.5, 1, 2, 4 or 10 measurements per second (Mps); both
      at high, medium or low repeatability (Rep). */
  datatype Command =
    | SingleShotClkStrEnRepHigh
    | SingleShotClkStrEnRepMid
    | SingleShotClkStrEnRepLow
    | SingleShotClkStrDisRepHigh
    | SingleShotClkStrDisRepMid
    | SingleShotClkStrDisRepLow
    | Periodic0p5MpsRepHigh
    | Periodic0p5MpsRepMid
    | Periodic0p5MpsRepLow
    | Periodic1MpsRepHigh
    | Periodic1MpsRepMid
    | Periodic1MpsRepLow
    | Periodic2MpsRepHigh
    | Periodic2MpsRepMid
    | Periodic2MpsRepLow
    | Periodic4MpsRepHigh
    | Periodic4MpsRepMid
    | Periodic4MpsRepLow
    | Periodic10MpsRepHigh
    | Periodic10MpsRepMid
    | Periodic10MpsRepLow
    | FetchData
    | Break
    | SoftReset
    | HeaterEnable
    | HeaterDisable
    | ReadStatus
    | ClearStatus
    | GetSerialNum
  {
    /** Whether the command starts a measurement, single-shot or periodic. */
    predicate IsMeasurement() {
      !(FetchData? || Break? || SoftReset? || HeaterEnable? || HeaterDisable?
        || ReadStatus? || ClearStatus? || GetSerialNum?)
    }
  }

  /** High bytes of the words that start a measurement. */
  const MeasurementFamilies: set<bv8> := {0x2C, 0x24, 0x20, 0x21, 0x22, 0x23, 0x27}

  /** The 16-bit word that selects each command on the wire. The high byte
      names the family: 0x2C single shot with clock stretching, 0x24 single
      shot without, 0x20 to 0x23 and 0x27 periodic; no other command uses these. */
  function Code(c: Command): (w: bv16)
    ensures c.IsMeasurement() <==> (w >> 8) as bv8 in MeasurementFamilies
    ensures c.SingleShotClkStrEnRepHigh? || c.SingleShotClkStrEnRepMid? || c.SingleShotClkStrEnRepLow?
            <==> w >> 8 == 0x2C
  {
    match c
    case SingleShotClkStrEnRepHigh => 0x2C06
    case SingleShotClkStrEnRepMid => 0x2C0D
    case SingleShotClkStrEnRepLow => 0x2C10
    case SingleShotClkStrDisRepHigh => 0x2400
    case SingleShotClkStrDisRepMid => 0x240B
    case SingleShotClkStrDisRepLow => 0x2416
    case Periodic0p5MpsRepHigh => 0x2032
    case Periodic0p5MpsRepMid => 0x2024
    case Periodic0p5MpsRepLow => 0x202F
    case Periodic1MpsRepHigh => 0x2130
    case Periodic1MpsRepMid => 0x2126
    case Periodic1MpsRepLow => 0x212D
    case Periodic2MpsRepHigh => 0x2236
    case Periodic2MpsRepMid => 0x2220
    case Periodic2MpsRepLow => 0x222B
    case Periodic4MpsRepHigh => 0x2334
    case Periodic4MpsRepMid => 0x2322
    case Periodic4MpsRepLow => 0x2329
    case Periodic10MpsRepHigh => 0x2737
    case Periodic10MpsRepMid => 0x2721
    case Periodic10MpsRepLow => 0x272A
    case FetchData => 0xE000
    case Break => 0x3093
    case SoftReset => 0x30A2
    case HeaterEnable => 0x306D
    case HeaterDisable => 0x3066
    case ReadStatus => 0xF32D
    case ClearStatus => 0x3041
    case GetSerialNum => 0x3780
  }

  /** The command a 16-bit word selects, if any. */
  function FromCode(w: bv16): (r: Option<Command>)
    ensures r.Some? ==> Code(r.value) == w
  {
    match w
    case 0x2C06 => Some(SingleShotClkStrEnRepHigh)
    case 0x2C0D => Some(SingleShotClkStrEnRepMid)
    case 0x2C10 => Some(SingleShotClkStrEnRepLow)
    case 0x2400 => Some(SingleShotClkStrDisRepHigh)
    case 0x240B => Some(SingleShotClkStrDisRepMid)
    case 0x2416 => Some(SingleShotClkStrDisRepLow)
    case 0x2032 => Some(Periodic0p5MpsRepHigh)
    case 0x2024 => Some(Periodic0p5MpsRepMid)
    case 0x202F => Some(Periodic0p5MpsRepLow)
    case 0x2130 => Some(Periodic1MpsRepHigh)
    case 0x2126 => Some(Periodic1MpsRepMid)
    case 0x212D => Some(Periodic1MpsRepLow)
    case 0x2236 => Some(Periodic2MpsRepHigh)
    case 0x2220 => Some(Periodic2MpsRepMid)
    case 0x222B => Some(Periodic2MpsRepLow)
    case 0x2334 => Some(Periodic4MpsRepHigh)
    case 0x2322 => Some(Periodic4MpsRepMid)
    case 0x2329 => Some(Periodic4MpsRepLow)
    case 0x2737 => Some(Periodic10MpsRepHigh)
    case 0x2721 => Some(Periodic10MpsRepMid)
    case 0x272A => Some(Periodic10MpsRepLow)
    case 0xE000 => Some(FetchData)
    case 0x3093 => Some(Break)
    case 0x30A2 => Some(SoftReset)
    case 0x306D => Some(HeaterEnable)
    case 0x3066 => Some(HeaterDisable)
    case 0xF32D => Some(ReadStatus)
    case 0x3041 => Some(ClearStatus)
    case 0x3780 => Some(GetSerialNum)
    case _ => None
  }

  /** Looking a command's word up gives the command back. */
  lemma CodeRoundTrip(c: Command)
    ensures FromCode(Code(c)) == Some(c)
  {
  }

  /** No two commands share a word. */
  lemma CodeInjective(a: Command, b: Command)
    ensures Code(a) == Code(b) <==> a == b
  {
    CodeRoundTrip(a);
    CodeRoundTrip(b);
  }

  /** The words the driver itself sends. */
  lemma DriverCommandCodes()
    ensures Code(FetchData) == 0xE000 && !FetchData.IsMeasurement()
    ensures Code(Break) == 0x3093 && !Break.IsMeasurement()
    ensures Code(Periodic1MpsRepHigh) == 0x2130 && Periodic1MpsRepHigh.IsMeasurement()
  {
  }

  // Temperature range of the reference calibration, in degrees Celsius, and
  // the full scale of a raw 16-bit reading.
  const AbsMinTemp: int := -45
  const AbsMaxTemp: int := 130
  const DataResolution: int := 65535

  lemma TemperatureRangeWellFormed()
    ensures AbsMinTemp < AbsMaxTemp && AbsMaxTemp - AbsMinTemp == 175
    ensures DataResolution == 0xFFFF as int
  {
  }

  /** The two selectable 7-bit bus addresses of the sensor. */
  const DeviceAddress7Bit0: bv8 := 0x4A
  const DeviceAddress7Bit1: bv8 := 0x4B

  /** The same addresses shifted left by one, as the bus driver expects them. */
  const DeviceAddress0: bv8 := DeviceAddress7Bit0 << 1
  const DeviceAddress1: bv8 := DeviceAddress7Bit1 << 1

  /** The shifted addresses fit in a byte, leave bit 0 free for the read/write
      flag, give back the 7-bit address when shifted right, and differ only in
      bit 1 (the selection bit of the 7-bit address). */
  lemma DeviceAddressesWellFormed()
    ensures DeviceAddress0 == 0x94 && DeviceAddress1 == 0x96
    ensures DeviceAddress0 & 1 == 0 && DeviceAddress1 & 1 == 0
    ensures DeviceAddress0 >> 1 == DeviceAddress7Bit0 && DeviceAddress1 >> 1 == DeviceAddress7Bit1
    ensures DeviceAddress0 ^ DeviceAddress1 == 0x02
    ensures DeviceAddress7Bit0 ^ DeviceAddress7Bit1 == 0x01
  {
  }
}
