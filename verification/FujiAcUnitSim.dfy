/** The air-conditioning unit: the master of the protocol, as the simulator implements it. */
module FujiAcUnitSim {
  import opened FujiBits
  import opened FujiTypes
  import opened FujiRegister
  import opened FujiFrame

  /** The status register and the register that the controller asked for next. */
  datatype Unit = Unit(regs: Regs, next: RegisterType)

  const STATUS_REGISTER: Frame := [
    ZERO, ZERO, ZERO,
    Byte(O, I, O, O, O, I, I, O), Byte(O, O, O, I, O, O, I, O), Byte(I, O, I, O, O, O, O, O),
    ZERO, Byte(O, O, I, O, O, O, O, O)]

  const ERROR_REGISTER: Frame := [ZERO, ZERO, Byte(O, O, O, I, O, O, O, O), ZERO, ZERO, ZERO, ZERO, ZERO]

  const LOGIN_REGISTER: Frame := [
    ZERO, ZERO, Byte(O, O, I, O, O, O, O, O),
    Byte(O, O, O, I, I, I, I, I), Byte(O, O, O, I, I, I, I, I), Byte(O, O, O, O, O, I, O, I),
    Byte(O, O, O, O, O, O, O, I), ZERO]

  const EIGHTEEN: SevenBit := Byte(O, O, O, I, O, O, I, O)
  const TEN: Byte := Byte(O, O, O, O, I, O, I, O)
  const FOUR: Byte := Byte(O, O, O, O, O, I, O, O)

  /** Off, cooling, highest fan speed, 18 degrees, and no controller registered. */
  const INITIAL_REGS: Regs :=
    Regs(false, Mode.Cool, FanSpeed.Max, false, false, EIGHTEEN, TEN, false, false, false)

  const INITIAL_UNIT: Unit := Unit(INITIAL_REGS, RegisterType.Status)

  const ERROR_REGS: Regs := NO_REGS

  const LOGIN_REGS: Regs :=
    Regs(true, Mode.Unknown, FanSpeed.Low, false, false, Byte(O, O, O, I, I, I, I, I), ZERO, true, false, true)

  /** The next master frame. A status frame clears the swing step first; the magic changes afterwards. */
  function Emit(u: Unit): (Unit, Master) {
    var shown := if u.next == RegisterType.Status || u.next == RegisterType.Unknown
                 then u.regs.(swingStep := false) else u.regs;
    var m :=
      match u.next
      case Status => Master(Destination.WiredController, RegisterType.Status, shown)
      case Unknown => Master(Destination.WiredController, RegisterType.Status, shown)
      case Error => Master(Destination.WiredController, RegisterType.Error, ERROR_REGS)
      case Login => Master(Destination.WiredController, RegisterType.Login, LOGIN_REGS);
    (Unit(shown.(updateMagic := TEN), u.next), m)
  }

  /** Taking over written settings; FAN mode ignores the temperature sent and shows 18. */
  function TakeSettings(r: Regs, p: Regs): Regs {
    var s := r.(enabled := p.enabled, mode := p.mode, fan := p.fan,
                economy := p.economy, swing := p.swing, swingStep := p.swingStep);
    if p.mode != Mode.Fan
    then s.(temperature := p.temperature, updateMagic := ZERO)
    else s.(temperature := EIGHTEEN, updateMagic := FOUR)
  }

  /** Receiving a controller frame with the given query, bits and payload. */
  function Push(u: Unit, target: RegisterType, login: bool, write: bool, payload: Regs): Unit {
    var r := if login then u.regs.(present := true) else u.regs;
    Unit(
      if target == RegisterType.Status && write then TakeSettings(r, payload) else r,
      if target == RegisterType.Unknown then u.next else target)
  }

  /** A setting changed with the infra-red remote. */
  function Remote(r: Regs, change: Change): Regs {
    var s :=
      match change
      case ToEnabled(enabled) => r.(enabled := enabled)
      case ToMode(mode) => r.(mode := mode)
      case ToFan(fan) => r.(fan := fan)
      case ToEconomy(economy) => r.(economy := economy)
      case ToTemperature(temperature) => PutTemperature(r, temperature)
      case ToSwing(swing) => r.(swing := swing)
      case ToSwingStep(swingStep) => r.(swingStep := swingStep);
    s.(updateMagic := FOUR)
  }

  /**
   * A frame leaves the magic 10 behind, and a status frame the swing step cleared; a remote command leaves the magic
   * 4, and sets the swing step only if that is the command.
   */
  lemma MagicNumbers(u: Unit, command: Change)
    ensures var t := Emit(u).0;
      && t.next == u.next && ToInt(t.regs.updateMagic) == 10
      && t.regs.(updateMagic := u.regs.updateMagic) ==
           if u.next == RegisterType.Error || u.next == RegisterType.Login then u.regs else u.regs.(swingStep := false)
    ensures var r := Remote(u.regs, command);
      && ToInt(r.updateMagic) == 4
      && r.swingStep == if command.ToSwingStep? then command.swingStep else u.regs.swingStep
  {
  }

  /** The remote touches neither the error bit nor the registration. */
  lemma RemoteKeepsReport(r: Regs, command: Change)
    ensures Remote(r, command).error == r.error && Remote(r, command).present == r.present
  {
  }

  /** A register's bytes, addressed to the controller; the top bit of byte 1 is always set. */
  function Addressed(register: Frame, kind: RegisterType): Frame {
    register[1 := Byte(I, O, I, O, O, O, O, O)][2 := WithRegister(register[2], kind)]
  }

  /** The next frame, byte by byte, when the status register holds the given bytes. */
  function EmittedBytes(register: Frame, next: RegisterType): Frame {
    match next
    case Error => Addressed(ERROR_REGISTER, RegisterType.Error)
    case Login => Addressed(LOGIN_REGISTER, RegisterType.Login)
    case Status => Addressed(register[5 := WithSwingStep(register[5], false)], RegisterType.Status)
    case Unknown => Addressed(register[5 := WithSwingStep(register[5], false)], RegisterType.Status)
  }

  /** The same in numbers: sender bit and address make 160, and the error and login registers are constant. */
  lemma EmittedInNumbers(register: Frame, next: RegisterType)
    ensures var f := EmittedBytes(register, next);
      && ToInt(f[1]) == 160
      && match next
         case Error => ToInt(f[2]) == 16 && forall i :: i in [0, 3, 4, 5, 6, 7] ==> ToInt(f[i]) == 0
         case Login =>
           && ToInt(f[0]) == 0 && ToInt(f[2]) == 32 && ToInt(f[3]) == 31 && ToInt(f[4]) == 31
           && ToInt(f[5]) == 5 && ToInt(f[6]) == 1 && ToInt(f[7]) == 0
         case _ =>
           && ToInt(f[2]) / 16 % 4 == 0 && f[5] == register[5].(b1 := false)
           && forall i :: i in [0, 3, 4, 6, 7] ==> f[i] == register[i]
  {
    RegisterNumber(register[2], RegisterType.Status);
  }

  /** What showing a register does to byte 5: a status frame clears the swing step. */
  function ShownByte(b: Byte, next: RegisterType): Byte {
    if next == RegisterType.Error || next == RegisterType.Login then b else WithSwingStep(b, false)
  }

  lemma AddressedDecodes(register: Frame, kind: RegisterType)
    ensures DecodeMaster(Addressed(register, kind))
         == Master(Destination.WiredController, kind, DecodeAt(register, PAYLOAD))
  {
  }

  class UnitSim {
    const statusRegister: array<Byte>
    const status: StatusRegister
    var next: RegisterType

    /** The accessor shares the payload part of the status frame. */
    ghost predicate Valid() {
      && statusRegister.Length == 8
      && status.bytes == statusRegister && status.base == PAYLOAD
      && status.Valid()
    }

    function View(): Unit
      requires Valid()
      reads this, statusRegister
    {
      Unit(status.View(), next)
    }

    constructor ()
      ensures Valid() && fresh(statusRegister) && View() == INITIAL_UNIT
      ensures next == RegisterType.Status && ToInt(statusRegister[3]) == 70 && ToInt(statusRegister[4]) == 18
      ensures ToInt(statusRegister[5]) == 160 && ToInt(statusRegister[7]) == 32
      ensures forall i :: i in [0, 1, 2, 6] ==> ToInt(statusRegister[i]) == 0
    {
      var register := new Byte[8](i requires 0 <= i < 8 => STATUS_REGISTER[i]);
      var accessor := new StatusRegister(register, PAYLOAD);
      statusRegister := register;
      status := accessor;
      next := RegisterType.Status;
    }

    /** Addresses a copy of a register to the controller. */
    method Address(register: Frame, kind: RegisterType) returns (f: MasterFrame)
      ensures f.Valid() && fresh(f) && fresh(f.data)
      ensures f.FullFrame() == Addressed(register, kind)
      ensures DecodeMaster(f.FullFrame()) == Master(Destination.WiredController, kind, DecodeAt(register, PAYLOAD))
    {
      f := new MasterFrame(register);
      f.WithType(kind);
      f.WithUnknownBit(true);
      f.WithDestination(Destination.WiredController);
      AddressedDecodes(register, kind);
    }

    /** The register asked for, as a frame. */
    method EmitFrame() returns (f: MasterFrame)
      requires Valid()
      modifies statusRegister
      ensures Valid() && f.Valid() && fresh(f) && fresh(f.data)
      ensures f.FullFrame() == EmittedBytes(old(statusRegister[..]), next)
      ensures statusRegister[5] == ShownByte(old(statusRegister[5]), next)
      ensures forall i :: 0 <= i < 8 && i != 5 ==> statusRegister[i] == old(statusRegister[i])
      ensures DecodeMaster(f.FullFrame()) == Emit(old(View())).1
      ensures View().regs.(updateMagic := TEN) == Emit(old(View())).0.regs
    {
      match next {
        case Unknown =>
          f := EmitStatus();
        case Status =>
          f := EmitStatus();
        case Error =>
          f := Address(ERROR_REGISTER, RegisterType.Error);
        case Login =>
          f := Address(LOGIN_REGISTER, RegisterType.Login);
      }
    }

    /** The frame's bytes; of the status register only the swing step and the magic change, both in byte 5. */
    method GetNextMasterFrame() returns (f: MasterFrame)
      requires Valid()
      modifies statusRegister
      ensures Valid() && f.Valid() && fresh(f) && fresh(f.data)
      ensures f.FullFrame() == EmittedBytes(old(statusRegister[..]), next)
      ensures statusRegister[5] == WithUpdateMagic(ShownByte(old(statusRegister[5]), next), TEN)
      ensures forall i :: 0 <= i < 8 && i != 5 ==> statusRegister[i] == old(statusRegister[i])
      ensures View() == Emit(old(View())).0
      ensures DecodeMaster(f.FullFrame()) == Emit(old(View())).1
    {
      f := EmitFrame();
      status.SetUpdateMagic(TEN);
    }

    method EmitStatus() returns (f: MasterFrame)
      requires Valid()
      modifies statusRegister
      ensures Valid() && f.Valid() && fresh(f) && fresh(f.data)
      ensures View() == Unit(old(View()).regs.(swingStep := false), next)
      ensures f.FullFrame() == EmittedBytes(old(statusRegister[..]), RegisterType.Status)
      ensures statusRegister[5] == WithSwingStep(old(statusRegister[5]), false)
      ensures forall i :: 0 <= i < 8 && i != 5 ==> statusRegister[i] == old(statusRegister[i])
      ensures DecodeMaster(f.FullFrame()) == Master(Destination.WiredController, RegisterType.Status, View().regs)
    {
      if status.View().swingStep {
        status.SetSwingStep(false);
      }
      f := Address(statusRegister[..], RegisterType.Status);
    }

    method PushControllerFrame(frame: Frame)
      requires Valid()
      modifies this, statusRegister
      ensures Valid()
      ensures View() ==
        Push(old(View()), RegisterOf(frame), LoginBitOf(frame), WriteBitOf(frame), DecodeAt(frame, PAYLOAD))
    {
      if RegisterOf(frame) != RegisterType.Unknown {
        next := RegisterOf(frame);
      }
      if LoginBitOf(frame) {
        status.SetControllerPresent(true);
      }
      if RegisterOf(frame) == RegisterType.Status && WriteBitOf(frame) {
        var payload := new Byte[5](i requires 0 <= i < 5 => frame[PAYLOAD + i]);
        var register := new StatusRegister(payload, 0);
        assert register.View() == DecodeAt(frame, PAYLOAD);
        TakeWrite(register.View());
      }
    }

    method TakeWrite(written: Regs)
      requires Valid()
      modifies statusRegister
      ensures View().regs == TakeSettings(old(View()).regs, written)
    {
      TakeHead(written);
      TakeFlags(written);
      TakeTemperature(written);
    }

    method TakeHead(written: Regs)
      requires Valid()
      modifies statusRegister
      ensures View().regs == old(View()).regs.(enabled := written.enabled, mode := written.mode, fan := written.fan)
    {
      status.SetEnabled(written.enabled);
      status.SetMode(written.mode);
      status.SetFan(written.fan);
    }

    method TakeFlags(written: Regs)
      requires Valid()
      modifies statusRegister
      ensures View().regs ==
        old(View()).regs.(economy := written.economy, swing := written.swing, swingStep := written.swingStep)
    {
      status.SetEconomy(written.economy);
      status.SetSwing(written.swing);
      status.SetSwingStep(written.swingStep);
    }

    method TakeTemperature(written: Regs)
      requires Valid()
      modifies statusRegister
      ensures View().regs ==
        if written.mode != Mode.Fan
        then old(View()).regs.(temperature := written.temperature, updateMagic := ZERO)
        else old(View()).regs.(temperature := EIGHTEEN, updateMagic := FOUR)
    {
      if written.mode != Mode.Fan {
        status.SetTemperature(written.temperature);
        status.SetUpdateMagic(ZERO);
      } else {
        status.SetTemperature(EIGHTEEN);
        status.SetUpdateMagic(FOUR);
      }
    }

    /** Marks the register as changed by the remote. */
    method Update()
      requires Valid()
      modifies statusRegister
      ensures View() == Unit(old(View()).regs.(updateMagic := FOUR), next)
    {
      status.SetUpdateMagic(FOUR);
    }

    /** One remote command, through the setter of its field. */
    method Command(change: Change)
      requires Valid()
      modifies statusRegister
      ensures View() == Unit(Remote(old(View()).regs, change), next)
    {
      match change {
        case ToEnabled(enabled) => status.SetEnabled(enabled);
        case ToMode(mode) => status.SetMode(mode);
        case ToFan(fan) => status.SetFan(fan);
        case ToEconomy(economy) => status.SetEconomy(economy);
        case ToTemperature(temperature) => status.SetTemperature(temperature);
        case ToSwing(swing) => status.SetSwing(swing);
        case ToSwingStep(swingStep) => status.SetSwingStep(swingStep);
      }
      Update();
    }
  }
}
