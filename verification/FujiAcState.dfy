/** The controller's local copy of the settings, and whether the unit still has to be told. */
module FujiAcState {
  import opened FujiBits
  import opened FujiTypes
  import opened FujiRegister
  import opened FujiFrame

  /** The settings that a user can see; the swing step is a pulse and is kept apart. */
  datatype Config = Config(
    enabled: bool, mode: Mode, fan: FanSpeed, economy: bool, temperature: Byte, swing: bool)

  datatype Local = Local(
    config: Config, swingStep: bool, errorFlag: bool, controllerPresent: bool, merged: bool)

  /** The initial setpoint, 20. */
  const TWENTY: Byte := Byte(O, O, O, I, O, I, O, O)

  const INITIAL_LOCAL: Local :=
    Local(Config(false, Mode.Auto, FanSpeed.Auto, false, TWENTY, false), false, false, false, true)

  function Configure(c: Config, change: Change): Config {
    match change
    case ToEnabled(enabled) => c.(enabled := enabled)
    case ToMode(mode) => c.(mode := mode)
    case ToFan(fan) => c.(fan := fan)
    case ToEconomy(economy) => c.(economy := economy)
    case ToTemperature(temperature) => c.(temperature := temperature)
    case ToSwing(swing) => c.(swing := swing)
    case ToSwingStep(_) => c
  }

  /** One user setter: it changes its field and makes the local copy take precedence. */
  function Apply(l: Local, change: Change): Local {
    Local(Configure(l.config, change), if change.ToSwingStep? then change.swingStep else l.swingStep,
          l.errorFlag, l.controllerPresent, false)
  }

  /** A setter reaches no field but its own. */
  lemma SettersAreLocal(l: Local, change: Change)
    ensures
      var k, c := Apply(l, change), l.config;
      && !k.merged && k.errorFlag == l.errorFlag && k.controllerPresent == l.controllerPresent
      && match change
         case ToEnabled(x) => k.config == c.(enabled := x) && k.swingStep == l.swingStep
         case ToMode(x) => k.config == c.(mode := x) && k.swingStep == l.swingStep
         case ToFan(x) => k.config == c.(fan := x) && k.swingStep == l.swingStep
         case ToEconomy(x) => k.config == c.(economy := x) && k.swingStep == l.swingStep
         case ToTemperature(x) => k.config == c.(temperature := x) && k.swingStep == l.swingStep
         case ToSwing(x) => k.config == c.(swing := x) && k.swingStep == l.swingStep
         case ToSwingStep(x) => k.config == c && k.swingStep == x
  {
  }

  function ApplyAll(l: Local, changes: seq<Change>): Local
    decreases |changes|
  {
    if changes == [] then l else ApplyAll(Apply(l, changes[0]), changes[1..])
  }

  lemma {:induction false} ApplyAllAppend(l: Local, a: seq<Change>, b: seq<Change>)
    ensures ApplyAll(l, a + b) == ApplyAll(ApplyAll(l, a), b)
    decreases |a|
  {
    if a == [] {
      assert a + b == b;
    } else {
      assert (a + b)[1..] == a[1..] + b;
      ApplyAllAppend(Apply(l, a[0]), a[1..], b);
    }
  }

  /** User changes clear the merged flag and leave the observations alone. */
  lemma {:induction false} ApplyAllFrame(l: Local, changes: seq<Change>)
    ensures ApplyAll(l, changes).merged == (l.merged && changes == [])
    ensures ApplyAll(l, changes).errorFlag == l.errorFlag
    ensures ApplyAll(l, changes).controllerPresent == l.controllerPresent
    decreases |changes|
  {
    if changes != [] {
      ApplyAllFrame(Apply(l, changes[0]), changes[1..]);
    }
  }

  /** What the unit's register says about the settings. */
  function ConfigOf(r: Regs): Config {
    Config(r.enabled, r.mode, r.fan, r.economy, r.temperature, r.swing)
  }

  /** Taking over the unit's register; a pending swing step is not part of it. */
  function Merge(l: Local, r: Regs): Local {
    Local(ConfigOf(r), l.swingStep, r.error, r.present, true)
  }

  /** The payload that tells the unit about the local copy; FAN mode sends no economy and no temperature. */
  function Build(l: Local): Panel {
    var c := l.config;
    if c.mode == Mode.Fan then
      Panel(c.enabled, c.mode, c.fan, false, ZERO, c.swing, l.swingStep)
    else
      Panel(c.enabled, c.mode, c.fan, c.economy || Spills(c.temperature), Low7(c.temperature), c.swing, l.swingStep)
  }

  /** The same on a register that already holds something. */
  function Fill(r: Regs, l: Local): Regs {
    var c := l.config;
    var s := r.(enabled := c.enabled, mode := c.mode, fan := c.fan, swing := c.swing, swingStep := l.swingStep);
    if c.mode == Mode.Fan then s else PutTemperature(s.(economy := c.economy), c.temperature)
  }

  function FillHead(b: Byte, enabled: bool, mode: Mode, fan: FanSpeed): Byte {
    WithFan(WithMode(WithEnabled(b, enabled), mode), fan)
  }

  function FillTemperature(b: Byte, mode: Mode, economy: bool, temperature: Byte): Byte {
    if mode == Mode.Fan then b else WithTemperature(WithEconomy(b, economy), temperature)
  }

  function FillSwing(b: Byte, swing: bool, swingStep: bool): Byte {
    WithSwingStep(WithSwing(b, swing), swingStep)
  }

  lemma HeadFromZero(l: Local)
    ensures FillHead(ZERO, l.config.enabled, l.config.mode, l.config.fan) == HeadByte(Build(l))
  {
  }

  lemma TemperatureFromZero(l: Local)
    ensures FillTemperature(ZERO, l.config.mode, l.config.economy, l.config.temperature) == TemperatureByte(Build(l))
  {
    if l.config.mode == Mode.Fan {
    } else {
    }
  }

  /** Filling zeroed bytes, with the sensor byte in place, encodes the panel. */
  lemma FilledFromZero(l: Local)
    ensures
      [FillHead(ZERO, l.config.enabled, l.config.mode, l.config.fan),
       FillTemperature(ZERO, l.config.mode, l.config.economy, l.config.temperature),
       FillSwing(ZERO, l.config.swing, l.swingStep),
       SENSOR, ZERO]
      == EncodePanel(Build(l))
  {
    HeadFromZero(l);
    TemperatureFromZero(l);
  }

  lemma HeadDecodes(b0: Byte, b1: Byte, b2: Byte, b3: Byte, enabled: bool, mode: Mode, fan: FanSpeed)
    ensures Decode(FillHead(b0, enabled, mode, fan), b1, b2, b3)
         == Decode(b0, b1, b2, b3).(enabled := enabled, mode := mode, fan := fan)
  {
  }

  lemma TemperatureDecodes(b0: Byte, b1: Byte, b2: Byte, b3: Byte, mode: Mode, economy: bool, temperature: Byte)
    ensures Decode(b0, FillTemperature(b1, mode, economy, temperature), b2, b3) ==
      var r := Decode(b0, b1, b2, b3);
      if mode == Mode.Fan then r else PutTemperature(r.(economy := economy), temperature)
  {
  }

  lemma SwingDecodes(b0: Byte, b1: Byte, b2: Byte, b3: Byte, swing: bool, swingStep: bool)
    ensures Decode(b0, b1, FillSwing(b2, swing, swingStep), b3)
         == Decode(b0, b1, b2, b3).(swing := swing, swingStep := swingStep)
    ensures FillSwing(b2, swing, swingStep).b3 == b2.b3 && FillSwing(b2, swing, swingStep).b0 == b2.b0
  {
  }

  lemma FillInSteps(r: Regs, headed: Regs, swung: Regs, l: Local)
    requires headed == r.(enabled := l.config.enabled, mode := l.config.mode, fan := l.config.fan)
    requires swung == headed.(swing := l.config.swing, swingStep := l.swingStep)
    ensures Fill(r, l) ==
      if l.config.mode == Mode.Fan then swung
      else PutTemperature(swung.(economy := l.config.economy), l.config.temperature)
  {
  }

  /** Filling bytes fills the register that they decode to. */
  lemma FilledDecodes(b0: Byte, b1: Byte, b2: Byte, b3: Byte, l: Local)
    ensures
      Decode(FillHead(b0, l.config.enabled, l.config.mode, l.config.fan),
             FillTemperature(b1, l.config.mode, l.config.economy, l.config.temperature),
             FillSwing(b2, l.config.swing, l.swingStep), b3)
      == Fill(Decode(b0, b1, b2, b3), l)
  {
    var c := l.config;
    var a0, a2 := FillHead(b0, c.enabled, c.mode, c.fan), FillSwing(b2, c.swing, l.swingStep);
    HeadDecodes(b0, b1, b2, b3, c.enabled, c.mode, c.fan);
    SwingDecodes(a0, b1, b2, b3, c.swing, l.swingStep);
    TemperatureDecodes(a0, b1, a2, b3, c.mode, c.economy, c.temperature);
    FillInSteps(Decode(b0, b1, b2, b3), Decode(a0, b1, b2, b3), Decode(a0, b1, a2, b3), l);
  }

  /**
   * The payload bytes of a frame say what the local state is, in numbers: 128 more for economy or a setpoint from 128
   * on, nothing about either in FAN mode, and the sensor value 47.
   */
  predicate ShowsLocal(f: Frame, l: Local) {
    && ToInt(f[3]) == Digit(l.config.enabled) + 2 * ModeNumber(l.config.mode) + 16 * FanNumber(l.config.fan)
    && ToInt(f[4]) == (
         if l.config.mode == Mode.Fan then 0
         else ToInt(l.config.temperature) % 128
              + (if l.config.economy || ToInt(l.config.temperature) >= 128 then 128 else 0))
    && ToInt(f[5]) == 4 * Digit(l.config.swing) + 2 * Digit(l.swingStep)
    && ToInt(f[6]) == 47 && ToInt(f[7]) == 0
  }

  lemma BuiltTemperature(l: Local)
    ensures ToInt(Build(l).temperature) + 128 * Digit(Build(l).economy) ==
      if l.config.mode == Mode.Fan then 0
      else ToInt(l.config.temperature) % 128
           + (if l.config.economy || ToInt(l.config.temperature) >= 128 then 128 else 0)
  {
    LowSeven(l.config.temperature);
    if l.config.mode == Mode.Fan {
      assert ToInt(ZERO) == 0;
    }
  }

  /** A settings frame shows the local state that it is built from. */
  lemma BuiltFrameShows(l: Local, login: bool, write: bool)
    ensures ShowsLocal(Encode(Settings(login, write, Build(l))), l)
  {
    PayloadBytes(Settings(login, write, Build(l)));
    BuiltTemperature(l);
  }

  class AcState {
    var mode: Mode
    var enabled: bool
    var fan: FanSpeed
    var errorFlag: bool
    var controllerPresent: bool
    var economy: bool
    var temperature: Byte
    var swing: bool
    var swingStep: bool
    var merged: bool

    function View(): Local
      reads this
    {
      Local(Config(enabled, mode, fan, economy, temperature, swing), swingStep, errorFlag, controllerPresent, merged)
    }

    constructor ()
      ensures View() == INITIAL_LOCAL
      ensures !enabled && mode == Mode.Auto && fan == FanSpeed.Auto && ToInt(temperature) == 20
      ensures !economy && !swing && !swingStep && !errorFlag && !controllerPresent && merged
    {
      mode, enabled, fan, errorFlag, controllerPresent := Mode.Auto, false, FanSpeed.Auto, false, false;
      economy, temperature, swing, swingStep, merged := false, TWENTY, false, false, true;
    }

    method SetMode(mode: Mode)
      modifies `mode, `merged
      ensures this.mode == mode && !merged
    {
      this.mode := mode;
      merged := false;
    }

    method SetEnabled(enabled: bool)
      modifies `enabled, `merged
      ensures this.enabled == enabled && !merged
    {
      this.enabled := enabled;
      merged := false;
    }

    method SetFan(fan: FanSpeed)
      modifies `fan, `merged
      ensures this.fan == fan && !merged
    {
      this.fan := fan;
      merged := false;
    }

    method SetErrorFlag(errorFlag: bool)
      modifies `errorFlag, `merged
      ensures this.errorFlag == errorFlag && !merged
    {
      this.errorFlag := errorFlag;
      merged := false;
    }

    method SetEconomy(economy: bool)
      modifies `economy, `merged
      ensures this.economy == economy && !merged
    {
      this.economy := economy;
      merged := false;
    }

    method SetTemperature(temp: Byte)
      modifies `temperature, `merged
      ensures temperature == temp && !merged
    {
      temperature := temp;
      merged := false;
    }

    method SetSwing(swing: bool)
      modifies `swing, `merged
      ensures this.swing == swing && !merged
    {
      this.swing := swing;
      merged := false;
    }

    method SetSwingStep(swingStep: bool)
      modifies `swingStep, `merged
      ensures this.swingStep == swingStep && !merged
    {
      this.swingStep := swingStep;
      merged := false;
    }

    method SetControllerPresent(controllerPresent: bool)
      modifies `controllerPresent, `merged
      ensures this.controllerPresent == controllerPresent && !merged
    {
      this.controllerPresent := controllerPresent;
      merged := false;
    }

    method SetMerged(merged: bool)
      modifies `merged
      ensures this.merged == merged
    {
      this.merged := merged;
    }

    /** Performs one user change through its setter. */
    method Change(change: Change)
      modifies this
      ensures View() == Apply(old(View()), change)
    {
      match change
      case ToEnabled(enabled) => SetEnabled(enabled);
      case ToMode(mode) => SetMode(mode);
      case ToFan(fan) => SetFan(fan);
      case ToEconomy(economy) => SetEconomy(economy);
      case ToTemperature(temperature) => SetTemperature(temperature);
      case ToSwing(swing) => SetSwing(swing);
      case ToSwingStep(swingStep) => SetSwingStep(swingStep);
    }

    /** Byte 0 of a response. */
    method BuildHead(status: StatusRegister)
      requires status.Valid()
      modifies status.bytes
      ensures forall i :: 0 <= i < status.bytes.Length && i != status.base ==> status.bytes[i] == old(status.bytes[i])
      ensures status.bytes[status.base] == FillHead(old(status.bytes[status.base]), enabled, mode, fan)
    {
      status.SetEnabled(enabled);
      status.SetMode(mode);
      status.SetFan(fan);
    }

    /** Byte 1 of a response, which FAN mode leaves alone. */
    method BuildTemperature(status: StatusRegister)
      requires status.Valid()
      modifies status.bytes
      ensures forall i :: 0 <= i < status.bytes.Length && i != status.base + 1 ==>
                status.bytes[i] == old(status.bytes[i])
      ensures status.bytes[status.base + 1] ==
                FillTemperature(old(status.bytes[status.base + 1]), mode, economy, temperature)
    {
      if mode != Mode.Fan {
        status.SetEconomy(economy);
        status.SetTemperature(temperature);
      }
    }

    /** Byte 2 of a response. */
    method BuildSwing(status: StatusRegister)
      requires status.Valid()
      modifies status.bytes
      ensures forall i :: 0 <= i < status.bytes.Length && i != status.base + 2 ==>
                status.bytes[i] == old(status.bytes[i])
      ensures status.bytes[status.base + 2] == FillSwing(old(status.bytes[status.base + 2]), swing, swingStep)
    {
      status.SetSwing(swing);
      status.SetSwingStep(swingStep);
    }

    /** Writes the settings into the caller's buffer. */
    method BuildStatusRegisterResponse(status: StatusRegister)
      requires status.Valid()
      modifies status.bytes
      ensures status.View() == Fill(old(status.View()), View())
      ensures forall i :: 0 <= i < status.bytes.Length && !(status.base <= i < status.base + 3) ==>
                status.bytes[i] == old(status.bytes[i])
      ensures status.bytes[status.base] == FillHead(old(status.bytes[status.base]), enabled, mode, fan)
      ensures status.bytes[status.base + 1] ==
                FillTemperature(old(status.bytes[status.base + 1]), mode, economy, temperature)
      ensures status.bytes[status.base + 2] == FillSwing(old(status.bytes[status.base + 2]), swing, swingStep)
    {
      FilledDecodes(status.bytes[status.base], status.bytes[status.base + 1], status.bytes[status.base + 2],
                    status.bytes[status.base + 3], View());
      BuildHead(status);
      BuildTemperature(status);
      BuildSwing(status);
    }

    /** The settings part of a merge. */
    method MergeConfig(regs: Regs)
      modifies `enabled, `mode, `fan, `economy, `temperature, `swing, `merged
      ensures View() == old(View()).(config := ConfigOf(regs), merged := false)
    {
      SetEnabled(regs.enabled);
      SetMode(regs.mode);
      SetFan(regs.fan);
      SetEconomy(regs.economy);
      SetTemperature(regs.temperature);
      SetSwing(regs.swing);
    }

    method MergeFromMasterStatusRegister(status: StatusRegister)
      requires status.Valid()
      modifies this
      ensures View() == Merge(old(View()), status.View())
      ensures merged && swingStep == old(swingStep)
      ensures errorFlag == status.View().error && controllerPresent == status.View().present
      ensures enabled == status.View().enabled && mode == status.View().mode && fan == status.View().fan
      ensures economy == status.View().economy && swing == status.View().swing
      ensures temperature == status.View().temperature
    {
      var regs := status.View();
      MergeConfig(regs);
      SetErrorFlag(regs.error);
      SetControllerPresent(regs.present);
      merged := true;
    }
  }
}
