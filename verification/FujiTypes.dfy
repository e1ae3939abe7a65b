/** The enumerations shared by the protocol, the unit simulator and the controller. */
module FujiTypes {
  import opened FujiBits

  datatype Option<+T> = None | Some(value: T)

  datatype Mode = Unknown | Fan | Dry | Cool | Heat | Auto

  datatype FanSpeed = Auto | Low | Medium | High | Max | Unknown

  datatype RegisterType = Status | Error | Login | Unknown

  datatype Destination = Unknown | WiredController | Other

  /** One setter call on the local state (by a user) or on the unit (by its infra-red remote). */
  datatype Change =
    | ToEnabled(enabled: bool)
    | ToMode(mode: Mode)
    | ToFan(fan: FanSpeed)
    | ToEconomy(economy: bool)
    | ToTemperature(temperature: Byte)
    | ToSwing(swing: bool)
    | ToSwingStep(swingStep: bool)

  function ModeCode(mode: Mode): Byte {
    match mode
    case Unknown => Byte(O, O, O, O, O, O, O, O)
    case Fan => Byte(O, O, O, O, O, O, O, I)
    case Dry => Byte(O, O, O, O, O, O, I, O)
    case Cool => Byte(O, O, O, O, O, O, I, I)
    case Heat => Byte(O, O, O, O, O, I, O, O)
    case Auto => Byte(O, O, O, O, O, I, O, I)
  }

  /** The mode with a three-bit code; codes 0, 6 and 7 are unknown. */
  function ModeOfCode(c2: bool, c1: bool, c0: bool): Mode {
    if c2 then (if c1 then Mode.Unknown else if c0 then Mode.Auto else Mode.Heat)
    else if c1 then (if c0 then Mode.Cool else Mode.Dry)
    else if c0 then Mode.Fan else Mode.Unknown
  }

  function FanCode(fan: FanSpeed): Byte {
    match fan
    case Auto => Byte(O, O, O, O, O, O, O, O)
    case Low => Byte(O, O, O, O, O, O, O, I)
    case Medium => Byte(O, O, O, O, O, O, I, O)
    case High => Byte(O, O, O, O, O, O, I, I)
    case Max => Byte(O, O, O, O, O, I, O, O)
    case Unknown => Byte(O, O, O, O, O, I, O, I)
  }

  /** The fan speed with a three-bit code; codes 5, 6 and 7 are unknown. */
  function FanOfCode(c2: bool, c1: bool, c0: bool): FanSpeed {
    if c2 then (if c1 || c0 then FanSpeed.Unknown else FanSpeed.Max)
    else if c1 then (if c0 then FanSpeed.High else FanSpeed.Medium)
    else if c0 then FanSpeed.Low else FanSpeed.Auto
  }

  function RegisterCode(register: RegisterType): Byte {
    match register
    case Status => Byte(O, O, O, O, O, O, O, O)
    case Error => Byte(O, O, O, O, O, O, O, I)
    case Login => Byte(O, O, O, O, O, O, I, O)
    case Unknown => Byte(O, O, O, O, O, O, I, I)
  }

  function RegisterOfCode(c1: bool, c0: bool): RegisterType {
    if c1 then (if c0 then RegisterType.Unknown else RegisterType.Login)
    else if c0 then RegisterType.Error else RegisterType.Status
  }

  function DestinationCode(destination: Destination): Byte {
    match destination
    case Unknown => Byte(O, O, O, O, O, O, O, O)
    case WiredController => Byte(O, O, I, O, O, O, O, O)
    case Other => Byte(O, O, O, O, O, O, O, I)
  }

  function DestinationOfCode(code: Byte): Destination {
    if code == Byte(O, O, I, O, O, O, O, O) then Destination.WiredController
    else if code == Byte(O, O, O, O, O, O, O, I) then Destination.Other
    else Destination.Unknown
  }
}
