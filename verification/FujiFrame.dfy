/** The eight-byte frames: what either side reads out of them, and what the controller can say. */
module FujiFrame {
  import opened FujiBits
  import opened FujiTypes
  import opened FujiRegister

  type Frame = f: seq<Byte> | |f| == 8 witness [ZERO, ZERO, ZERO, ZERO, ZERO, ZERO, ZERO, ZERO]

  const UNKNOWN_BIT_MASK: Byte := Byte(I, O, O, O, O, O, O, O)
  const DESTINATION_MASK: Byte := Byte(O, I, I, I, I, I, I, I)
  const LOGIN_MASK: Byte := Byte(O, O, I, O, O, O, O, O)
  const REGISTER_MASK: Byte := Byte(O, O, I, I, O, O, O, O)
  const WRITE_MASK: Byte := Byte(O, O, O, O, I, O, O, O)

  /** Where the five payload bytes start in a frame. */
  const PAYLOAD: nat := 3

  /** The controller's temperature sensor byte, the constant 47. */
  const SENSOR: Byte := Byte(O, O, I, O, I, I, I, I)

  /** The first two bytes of a controller frame: its address 32, then 129. */
  const ADDRESS: Byte := Byte(O, O, I, O, O, O, O, O)
  const HEADER: Byte := Byte(I, O, O, O, O, O, O, I)

  const EMPTY_FRAME: Frame := [ADDRESS, HEADER, ZERO, ZERO, ZERO, ZERO, ZERO, ZERO]

  /** A master frame as the controller decodes it. */
  datatype Master = Master(destination: Destination, register: RegisterType, regs: Regs)

  /** The destination is seven bits of byte 1; the top bit is of unknown meaning. */
  function DestinationOf(f: Frame): Destination {
    DestinationOfCode(f[1].(b7 := O))
  }

  /** The register type is bits 4 and 5 of byte 2, in both kinds of frame. */
  function RegisterOf(f: Frame): RegisterType {
    RegisterOfCode(f[2].b5, f[2].b4)
  }

  function DecodeMaster(f: Frame): Master {
    Master(DestinationOf(f), RegisterOf(f), DecodeAt(f, PAYLOAD))
  }

  predicate LoginBitOf(f: Frame) {
    f[1].b5
  }

  predicate WriteBitOf(f: Frame) {
    f[2].b3
  }

  /** The settings a controller frame can carry to the unit. */
  datatype Panel = Panel(
    enabled: bool, mode: Mode, fan: FanSpeed, economy: bool, temperature: SevenBit, swing: bool, swingStep: bool)
  {
    /** How the unit decodes the payload: the sensor byte has the controller-present bit set. */
    function AsRegs(): Regs {
      Regs(enabled, mode, fan, false, economy, temperature, ZERO, swing, swingStep, true)
    }
  }

  const NO_REGS: Regs := Regs(false, Mode.Unknown, FanSpeed.Auto, false, false, ZERO, ZERO, false, false, false)

  /** What the controller can send: a bare register query, or its settings. */
  datatype Reply = Query(register: RegisterType) | Settings(login: bool, write: bool, panel: Panel) {
    function Target(): RegisterType {
      if Query? then register else RegisterType.Status
    }

    predicate LogsIn() {
      Settings? && login
    }

    predicate Writes() {
      Settings? && write
    }

    function Payload(): Regs {
      if Query? then NO_REGS else panel.AsRegs()
    }
  }

  /** A default-constructed controller frame; the handler never sends it. */
  const DEFAULT_REPLY: Reply := Query(RegisterType.Status)

  function HeadByte(p: Panel): Byte {
    var m, f := ModeCode(p.mode), FanCode(p.fan);
    Byte(O, f.b2, f.b1, f.b0, m.b2, m.b1, m.b0, p.enabled)
  }

  function TemperatureByte(p: Panel): Byte {
    p.temperature.(b7 := p.economy)
  }

  function SwingByte(p: Panel): Byte {
    Byte(O, O, O, O, O, p.swing, p.swingStep, O)
  }

  function EncodePanel(p: Panel): (s: seq<Byte>)
    ensures |s| == 5
  {
    [HeadByte(p), TemperatureByte(p), SwingByte(p), SENSOR, ZERO]
  }

  function Encode(r: Reply): Frame {
    match r
    case Query(register) =>
      var c := RegisterCode(register);
      [ADDRESS, HEADER, Byte(O, O, c.b1, c.b0, O, O, O, O), ZERO, ZERO, ZERO, ZERO, ZERO]
    case Settings(login, write, panel) =>
      [ADDRESS, HEADER.(b5 := login), ZERO.(b3 := write)] + EncodePanel(panel)
  }

  /** How either side reads the header and the payload of a frame, in numbers. */
  lemma FrameLayout(f: Frame)
    ensures var m, to, kind := DecodeMaster(f), ToInt(f[1]) % 128, ToInt(f[2]) / 16 % 4;
      && m.destination == (if to == 32 then Destination.WiredController
                           else if to == 1 then Destination.Other else Destination.Unknown)
      && m.register == RegisterOf(f)
      && m.register == (if kind == 0 then RegisterType.Status else if kind == 1 then RegisterType.Error
                        else if kind == 2 then RegisterType.Login else RegisterType.Unknown)
      && m.regs == Decode(f[3], f[4], f[5], f[6])
      && (LoginBitOf(f) <==> ToInt(f[1]) / 32 % 2 == 1)
      && (WriteBitOf(f) <==> ToInt(f[2]) / 8 % 2 == 1)
  {
    LowSeven(f[1]);
    HighFields(f[1]);
    HighFields(f[2]);
    LowFields(f[2]);
  }

  /** The first three bytes of the controller's frames: its address 32, 129 or 161 with the login bit, and the query. */
  lemma HeaderBytes(r: Reply)
    ensures var f := Encode(r);
      && ToInt(f[0]) == 32
      && ToInt(f[1]) == (if r.Settings? && r.login then 161 else 129)
      && ToInt(f[2]) ==
           match r
           case Settings(_, write, _) => (if write then 8 else 0)
           case Query(register) =>
             match register
             case Status => 0
             case Error => 16
             case Login => 32
             case Unknown => 48
  {
  }

  /** The numbers of modes and fan speeds on the wire. */
  function ModeNumber(mode: Mode): (n: nat)
    ensures match mode
      case Unknown => n == 0
      case Fan => n == 1
      case Dry => n == 2
      case Cool => n == 3
      case Heat => n == 4
      case Auto => n == 5
  {
    ToInt(ModeCode(mode))
  }

  function FanNumber(fan: FanSpeed): (n: nat)
    ensures match fan
      case Auto => n == 0
      case Low => n == 1
      case Medium => n == 2
      case High => n == 3
      case Max => n == 4
      case Unknown => n == 5
  {
    ToInt(FanCode(fan))
  }

  lemma HeadByteValue(p: Panel)
    ensures ToInt(HeadByte(p)) == Digit(p.enabled) + 2 * ModeNumber(p.mode) + 16 * FanNumber(p.fan)
  {
    CodeDigits(p.mode, p.fan);
  }

  lemma CodeDigits(mode: Mode, fan: FanSpeed)
    ensures var m, f := ModeCode(mode), FanCode(fan);
      && ModeNumber(mode) == 4 * Digit(m.b2) + 2 * Digit(m.b1) + Digit(m.b0)
      && FanNumber(fan) == 4 * Digit(f.b2) + 2 * Digit(f.b1) + Digit(f.b0)
  {
  }

  /** The fields of the first payload byte, one by one. */
  lemma HeadFields(p: Panel)
    ensures ToInt(HeadByte(p)) % 2 == Digit(p.enabled)
    ensures ToInt(HeadByte(p)) / 2 % 8 == ModeNumber(p.mode)
    ensures ToInt(HeadByte(p)) / 16 % 8 == FanNumber(p.fan)
  {
    CodeDigits(p.mode, p.fan);
    LowFields(HeadByte(p));
    HighFields(HeadByte(p));
  }

  lemma TemperatureByteValue(p: Panel)
    ensures ToInt(TemperatureByte(p)) == ToInt(p.temperature) + 128 * Digit(p.economy)
  {
  }

  /** The payload bytes: a query has none; settings come with the sensor value 47. */
  lemma PayloadBytes(r: Reply)
    ensures var f := Encode(r);
      match r
      case Query(_) => forall i :: PAYLOAD <= i < 8 ==> ToInt(f[i]) == 0
      case Settings(_, _, p) =>
        && ToInt(f[3]) == Digit(p.enabled) + 2 * ModeNumber(p.mode) + 16 * FanNumber(p.fan)
        && ToInt(f[4]) == ToInt(p.temperature) + 128 * Digit(p.economy)
        && ToInt(f[5]) == 4 * Digit(p.swing) + 2 * Digit(p.swingStep)
        && ToInt(f[6]) == 47 && ToInt(f[7]) == 0
  {
    if r.Settings? {
      HeadByteValue(r.panel);
      TemperatureByteValue(r.panel);
    }
  }

  lemma PanelRoundTrip(p: Panel)
    ensures Decode(HeadByte(p), TemperatureByte(p), SwingByte(p), SENSOR) == p.AsRegs()
  {
  }

  /** The unit reads back exactly what the controller encoded. */
  lemma ReplyRoundTrip(r: Reply)
    ensures RegisterOf(Encode(r)) == r.Target()
    ensures LoginBitOf(Encode(r)) == r.LogsIn()
    ensures WriteBitOf(Encode(r)) == r.Writes()
    ensures DecodeAt(Encode(r), PAYLOAD) == r.Payload()
  {
    if r.Settings? {
      PanelRoundTrip(r.panel);
    }
  }

  /** Comparing frames byte by byte is comparing what they say. */
  lemma EncodeInjective(a: Reply, b: Reply)
    ensures Encode(a) == Encode(b) <==> a == b
  {
    if Encode(a) == Encode(b) {
      ReplyRoundTrip(a);
      ReplyRoundTrip(b);
      assert a.Payload() == b.Payload();
    }
  }

  /** What the wired controller's frames look like on the wire, byte by byte. */
  ghost predicate FollowsGrammar(f: Frame) {
    && f[0] == ADDRESS
    && f[1].(b5 := O) == HEADER
    && f[2].(b5 := O, b4 := O, b3 := O) == ZERO
    && !(LoginBitOf(f) && WriteBitOf(f))
    && (LoginBitOf(f) || WriteBitOf(f) ==> RegisterOf(f) == RegisterType.Status)
    && (RegisterOf(f) != RegisterType.Status ==> f[PAYLOAD..] == [ZERO, ZERO, ZERO, ZERO, ZERO])
    && (RegisterOf(f) == RegisterType.Status ==>
          f[6] == SENSOR && f[7] == ZERO && !f[3].b7 && f[5].(b2 := O, b1 := O) == ZERO)
  }

  /** Replies within the grammar: a status query always comes with settings, never login and write together. */
  predicate Sendable(r: Reply) {
    match r
    case Query(register) => register == RegisterType.Login || register == RegisterType.Error
    case Settings(login, write, _) => !(login && write)
  }

  /** The grammar admits exactly the encodings of sendable replies, up to an unknown register query. */
  lemma SendableFollowsGrammar(r: Reply)
    ensures FollowsGrammar(Encode(r)) <==> Sendable(r) || r == Query(RegisterType.Unknown)
  {
  }

  function WithRegister(b: Byte, register: RegisterType): Byte {
    var c := RegisterCode(register);
    b.(b5 := c.b1, b4 := c.b0)
  }

  /** The register type is written as the numbers 0 to 3. */
  lemma RegisterNumber(b: Byte, register: RegisterType)
    ensures ToInt(WithRegister(b, register)) / 16 % 4 ==
      match register
      case Status => 0
      case Error => 1
      case Login => 2
      case Unknown => 3
  {
    HighFields(WithRegister(b, register));
  }

  /** The address is written as 32 for the controller. */
  lemma AddressNumber(destination: Destination, top: bool)
    ensures ToInt(DestinationCode(destination).(b7 := top)) % 128 ==
      match destination
      case Unknown => 0
      case WiredController => 32
      case Other => 1
  {
    LowSeven(DestinationCode(destination).(b7 := top));
  }

  /** A frame from the unit. */
  class MasterFrame {
    const data: array<Byte>

    ghost predicate Valid() {
      data.Length == 8
    }

    function FullFrame(): Frame
      requires Valid()
      reads data
    {
      data[..]
    }

    constructor (frame: Frame)
      ensures Valid() && fresh(data) && FullFrame() == frame
    {
      data := new Byte[8](i requires 0 <= i < 8 => frame[i]);
      new;
      assert data[..] == frame;
    }

    method WithUnknownBit(bit: bool)
      requires Valid()
      modifies data
      ensures FullFrame() == old(FullFrame())[1 := old(FullFrame())[1].(b7 := bit)]
    {
      data[1] := And(data[1], Not(UNKNOWN_BIT_MASK));
      if bit {
        data[1] := Or(data[1], UNKNOWN_BIT_MASK);
      }
    }

    method WithDestination(destination: Destination)
      requires Valid()
      modifies data
      ensures FullFrame() == old(FullFrame())[1 := DestinationCode(destination).(b7 := old(FullFrame())[1].b7)]
      ensures ToInt(FullFrame()[1]) % 128 ==
        match destination
        case Unknown => 0
        case WiredController => 32
        case Other => 1
    {
      AddressNumber(destination, data[1].b7);
      data[1] := And(data[1], UNKNOWN_BIT_MASK);
      data[1] := Or(data[1], And(DestinationCode(destination), DESTINATION_MASK));
    }

    method WithType(register: RegisterType)
      requires Valid()
      modifies data
      ensures FullFrame() == old(FullFrame())[2 := WithRegister(old(FullFrame())[2], register)]
      ensures FullFrame()[2].(b5 := O, b4 := O) == old(FullFrame())[2].(b5 := O, b4 := O)
      ensures ToInt(FullFrame()[2]) / 16 % 4 ==
        match register
        case Status => 0
        case Error => 1
        case Login => 2
        case Unknown => 3
    {
      RegisterNumber(data[2], register);
      data[2] := And(data[2], Not(REGISTER_MASK));
      data[2] := Or(data[2], Shl4(RegisterCode(register)));
    }
  }

  /** A frame from the wired controller. */
  class ControllerFrame {
    const data: array<Byte>

    ghost predicate Valid() {
      data.Length == 8
    }

    function FullFrame(): Frame
      requires Valid()
      reads data
    {
      data[..]
    }

    constructor ()
      ensures Valid() && fresh(data) && FullFrame() == EMPTY_FRAME
    {
      data := new Byte[8] [ZERO, HEADER, ZERO, ZERO, ZERO, ZERO, ZERO, ZERO];
      new;
      data[0] := DestinationCode(Destination.WiredController);
    }

    method WithQueryRegister(register: RegisterType)
      requires Valid()
      modifies data
      ensures FullFrame() == old(FullFrame())[2 := WithRegister(old(FullFrame())[2], register)]
      ensures FullFrame()[2].(b5 := O, b4 := O) == old(FullFrame())[2].(b5 := O, b4 := O)
      ensures ToInt(FullFrame()[2]) / 16 % 4 ==
        match register
        case Status => 0
        case Error => 1
        case Login => 2
        case Unknown => 3
    {
      RegisterNumber(data[2], register);
      data[2] := And(data[2], Not(REGISTER_MASK));
      data[2] := Or(data[2], Shl4(RegisterCode(register)));
    }

    method WithLoginBit(login: bool)
      requires Valid()
      modifies data
      ensures FullFrame() == old(FullFrame())[1 := old(FullFrame())[1].(b5 := login)]
    {
      if login {
        data[1] := Or(data[1], LOGIN_MASK);
      } else {
        data[1] := And(data[1], Not(LOGIN_MASK));
      }
    }

    method WithWriteBit(write: bool)
      requires Valid()
      modifies data
      ensures FullFrame() == old(FullFrame())[2 := old(FullFrame())[2].(b3 := write)]
    {
      if write {
        data[2] := Or(data[2], WRITE_MASK);
      } else {
        data[2] := And(data[2], Not(WRITE_MASK));
      }
    }

    method WithPayload(payload: seq<Byte>)
      requires Valid() && |payload| == 5
      modifies data
      ensures FullFrame() == old(FullFrame())[..PAYLOAD] + payload
    {
      forall i | 0 <= i < 5 {
        data[PAYLOAD + i] := payload[i];
      }
    }
  }
}
