/**
  The MCP23017 register map (IOCON.BANK = 0) and the values the driver writes,
  shared by both revisions of the driver, and the errors the driver reports.
*/
module Registers {
  import opened Wrappers
  import opened Transport

  /** Go's `type Port uint8`: any byte, of which only PortA and PortB are ports. */
  type Port = bv8

  const PortA: Port := 0
  const PortB: Port := 1

  const IODIRA: byte := 0x00
  const IODIRB: byte := 0x01
  const IPOLA: byte := 0x02
  const IPOLB: byte := 0x03
  const IOCON: byte := 0x0A
  const GPPUA: byte := 0x0C
  const GPPUB: byte := 0x0D
  const GPIOA: byte := 0x12
  const GPIOB: byte := 0x13

  /** Mode, Polarity and pull-up values. */
  const Output: byte := 0x00
  const Input: byte := 0xFF
  const PolarityNormal: byte := 0x00
  const PolarityInverted: byte := 0xFF
  const PullupDisabled: byte := 0x00
  const PullupEnabled: byte := 0xFF

  /** The four per-port register kinds: direction, polarity, pull-up, pin state. */
  datatype RegKind = Direction | Polarity | Pullup | Gpio

  /** The register of a kind for a port; None for a value that is not a port
      (the `default:` branch of the port operations' switch). */
  function Register(kind: RegKind, port: Port): (r: Option<byte>)
    ensures r.Some? <==> port == PortA || port == PortB
  {
    if port == PortA then
      Some(match kind
        case Direction => IODIRA
        case Polarity => IPOLA
        case Pullup => GPPUA
        case Gpio => GPIOA)
    else if port == PortB then
      Some(match kind
        case Direction => IODIRB
        case Polarity => IPOLB
        case Pullup => GPPUB
        case Gpio => GPIOB)
    else None
  }

  /** Port B's register of every kind is the one right after port A's, and
      distinct (kind, port) pairs name distinct registers, none of them IOCON. */
  lemma RegisterMapIsInjective(k1: RegKind, p1: Port, k2: RegKind, p2: Port)
    requires Register(k1, p1).Some? && Register(k2, p2).Some?
    ensures Register(k1, p1) == Register(k2, p2) <==> k1 == k2 && p1 == p2
    ensures Register(k1, p1).value != IOCON
    ensures Register(k1, PortB).value == Register(k1, PortA).value + 1
  {
  }

  /** The register of a pin operation: the source picks port A's register when
      the port is PortA and port B's otherwise. */
  function PinRegister(kind: RegKind, port: Port): (reg: byte)
    ensures port == PortA || port == PortB ==> Some(reg) == Register(kind, port)
  {
    if port == PortA then Register(kind, PortA).value else Register(kind, PortB).value
  }

  /** What went wrong; the texts of Go's `fmt.Errorf` messages are not modelled. */
  datatype Error =
    | AddressWriteFailed(wrote: int)             // "failed to write to slave before read"
    | ReadFailed                                 // "failed to read from slave"
    | WriteFailed(wrote: int)                    // "failed to write to slave"
    | InvalidPort(port: Port)                    // "invalid port"
    | SetPinFailed(kind: RegKind, cause: Error)  // "failed to set pin pullup/polarity/direction"
    | WritePinFailed(bit: byte, cause: Error)    // "failed to write to pin %v", with the bit index
    | OpenFailed                                 // "failed to open i2c device"
    | BindFailed                                 // the I2C_SLAVE ioctl failed
}
