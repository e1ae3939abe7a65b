/** The five-byte STATUS register: bit layout, decoded record, and in-place setters. */
module FujiRegister {
  import opened FujiBits
  import opened FujiTypes

  const ENABLED_MASK: Byte := Byte(O, O, O, O, O, O, O, I)
  const MODE_MASK: Byte := Byte(O, O, O, O, I, I, I, O)
  const FAN_MASK: Byte := Byte(O, I, I, I, O, O, O, O)
  const ERROR_MASK: Byte := Byte(I, O, O, O, O, O, O, O)
  const TEMPERATURE_MASK: Byte := Byte(O, I, I, I, I, I, I, I)
  const ECONOMY_MASK: Byte := Byte(I, O, O, O, O, O, O, O)
  const SWING_STEP_MASK: Byte := Byte(O, O, O, O, O, O, I, O)
  const SWING_MASK: Byte := Byte(O, O, O, O, O, I, O, O)
  const UPDATE_MAGIC_MASK: Byte := Byte(I, I, I, I, O, O, O, O)
  const PRESENT_MASK: Byte := Byte(O, O, O, O, O, O, O, I)

  /** The bits of bytes 2 and 3 that no accessor owns. */
  const UNOWNED_2: Byte := Byte(O, O, O, O, I, O, O, I)
  const UNOWNED_3: Byte := Byte(I, I, I, I, I, I, I, O)

  /** The decoded register. Bits that no accessor owns are not part of it. */
  datatype Regs = Regs(
    enabled: bool, mode: Mode, fan: FanSpeed, error: bool,
    economy: bool, temperature: SevenBit,
    updateMagic: Byte, swing: bool, swingStep: bool,
    present: bool)

  /** The low seven bits of a temperature byte: what the register can hold. */
  function Low7(t: Byte): SevenBit {
    t.(b7 := O)
  }

  /** Whether a temperature byte, from 128 on, spills into the economy bit that shares its byte. */
  predicate Spills(t: Byte) {
    t.b7
  }

  /** Decodes the four bytes that carry fields; the fifth byte carries none. */
  function Decode(b0: Byte, b1: Byte, b2: Byte, b3: Byte): Regs {
    Regs(
      b0.b0, ModeOfCode(b0.b3, b0.b2, b0.b1), FanOfCode(b0.b6, b0.b5, b0.b4), b0.b7,
      b1.b7, Low7(b1),
      Byte(O, O, O, O, b2.b7, b2.b6, b2.b5, b2.b4), b2.b2, b2.b1,
      b3.b0)
  }

  function DecodeAt(buffer: seq<Byte>, at: nat): Regs
    requires at + 5 <= |buffer|
  {
    Decode(buffer[at], buffer[at + 1], buffer[at + 2], buffer[at + 3])
  }

  function LowNibble(b: Byte): Byte {
    And(b, Byte(O, O, O, O, I, I, I, I))
  }

  /** The mode getter masks, shifts and switches on the code: bits 1 to 3 of the byte's value. */
  lemma ModeGetter(b0: Byte, b1: Byte, b2: Byte, b3: Byte)
    ensures var code := ToInt(Shr1(And(b0, MODE_MASK)));
      && code == ToInt(b0) / 2 % 8
      && Decode(b0, b1, b2, b3).mode ==
           if code == 1 then Mode.Fan else if code == 2 then Mode.Dry else if code == 3 then Mode.Cool
           else if code == 4 then Mode.Heat else if code == 5 then Mode.Auto else Mode.Unknown
  {
    LowFields(b0);
  }

  /** The fan getter masks, shifts and switches on the code: bits 4 to 6 of the byte's value. */
  lemma FanGetter(b0: Byte, b1: Byte, b2: Byte, b3: Byte)
    ensures var code := ToInt(Shr4(And(b0, FAN_MASK)));
      && code == ToInt(b0) / 16 % 8
      && Decode(b0, b1, b2, b3).fan ==
           if code == 0 then FanSpeed.Auto else if code == 1 then FanSpeed.Low else if code == 2 then FanSpeed.Medium
           else if code == 3 then FanSpeed.High else if code == 4 then FanSpeed.Max else FanSpeed.Unknown
  {
    HighFields(b0);
  }

  /** The remaining getters test or extract the bits under their mask. */
  lemma MaskGetters(b0: Byte, b1: Byte, b2: Byte, b3: Byte)
    ensures var r := Decode(b0, b1, b2, b3);
      && r.enabled == (And(b0, ENABLED_MASK) != ZERO)
      && r.error == (And(b0, ERROR_MASK) != ZERO)
      && r.economy == (And(b1, ECONOMY_MASK) != ZERO)
      && r.temperature == And(b1, TEMPERATURE_MASK)
      && r.swing == (And(b2, SWING_MASK) != ZERO)
      && r.swingStep == (And(b2, SWING_STEP_MASK) != ZERO)
      && r.updateMagic == Shr4(And(b2, UPDATE_MAGIC_MASK))
      && r.present == (And(b3, PRESENT_MASK) != ZERO)
  {
  }

  /** The same in numbers, without the masks. */
  lemma RegisterLayout(b0: Byte, b1: Byte, b2: Byte, b3: Byte)
    ensures var r := Decode(b0, b1, b2, b3);
      && (r.enabled <==> ToInt(b0) % 2 == 1) && (r.error <==> ToInt(b0) >= 128)
      && (r.economy <==> ToInt(b1) >= 128) && ToInt(r.temperature) == ToInt(b1) % 128
      && (r.swing <==> ToInt(b2) / 4 % 2 == 1) && (r.swingStep <==> ToInt(b2) / 2 % 2 == 1)
      && ToInt(r.updateMagic) == ToInt(b2) / 16
      && (r.present <==> ToInt(b3) % 2 == 1)
  {
    LowFields(b0);
    LowSeven(b1);
    LowFields(b2);
    LowFields(b3);
  }

  /** The mode setter writes the numbers 0 to 5. */
  lemma ModeSetter(b: Byte, mode: Mode)
    ensures ToInt(WithMode(b, mode)) / 2 % 8 ==
      match mode
      case Unknown => 0
      case Fan => 1
      case Dry => 2
      case Cool => 3
      case Heat => 4
      case Auto => 5
  {
    LowFields(WithMode(b, mode));
  }

  /** The fan setter writes the numbers 0 to 5. */
  lemma FanSetter(b: Byte, fan: FanSpeed)
    ensures ToInt(WithFan(b, fan)) / 16 % 8 ==
      match fan
      case Auto => 0
      case Low => 1
      case Medium => 2
      case High => 3
      case Max => 4
      case Unknown => 5
  {
    HighFields(WithFan(b, fan));
  }

  /** What SetTemperature does to the record: the byte is not masked, so it may also set economy. */
  function PutTemperature(r: Regs, t: Byte): Regs {
    r.(temperature := Low7(t), economy := r.economy || Spills(t))
  }

  function WithMode(b: Byte, mode: Mode): Byte {
    var c := ModeCode(mode); b.(b3 := c.b2, b2 := c.b1, b1 := c.b0)
  }

  function WithEnabled(b: Byte, enabled: bool): Byte {
    b.(b0 := enabled)
  }

  function WithFan(b: Byte, fan: FanSpeed): Byte {
    var c := FanCode(fan); b.(b6 := c.b2, b5 := c.b1, b4 := c.b0)
  }

  function WithError(b: Byte, error: bool): Byte {
    b.(b7 := error)
  }

  function WithEconomy(b: Byte, economy: bool): Byte {
    b.(b7 := economy)
  }

  function WithTemperature(b: Byte, temp: Byte): Byte {
    temp.(b7 := b.b7 || temp.b7)
  }

  function WithSwing(b: Byte, swing: bool): Byte {
    b.(b2 := swing)
  }

  function WithSwingStep(b: Byte, swingStep: bool): Byte {
    b.(b1 := swingStep)
  }

  function WithControllerPresent(b: Byte, present: bool): Byte {
    b.(b0 := present)
  }

  function WithUpdateMagic(b: Byte, magic: Byte): Byte {
    b.(b7 := magic.b3, b6 := magic.b2, b5 := magic.b1, b4 := magic.b0)
  }

  lemma MaskedMode(b: Byte, mode: Mode)
    ensures Or(And(b, Not(MODE_MASK)), Shl1(ModeCode(mode))) == WithMode(b, mode)
  {
  }

  lemma MaskedEnabled(b: Byte, enabled: bool)
    ensures Or(And(b, Not(ENABLED_MASK)), Bit(enabled)) == WithEnabled(b, enabled)
  {
  }

  lemma MaskedFan(b: Byte, fan: FanSpeed)
    ensures Or(And(b, Not(FAN_MASK)), Shl4(FanCode(fan))) == WithFan(b, fan)
  {
  }

  lemma MaskedError(b: Byte, error: bool)
    ensures Or(And(b, Not(ERROR_MASK)), Shl7(Bit(error))) == WithError(b, error)
  {
  }

  lemma MaskedEconomy(b: Byte, economy: bool)
    ensures Or(And(b, Not(ECONOMY_MASK)), Shl7(Bit(economy))) == WithEconomy(b, economy)
  {
  }

  lemma MaskedTemperature(b: Byte, temp: Byte)
    ensures Or(And(b, Not(TEMPERATURE_MASK)), temp) == WithTemperature(b, temp)
  {
  }

  lemma MaskedSwing(b: Byte, swing: bool)
    ensures Or(And(b, Not(SWING_MASK)), Shl2(Bit(swing))) == WithSwing(b, swing)
  {
  }

  lemma MaskedSwingStep(b: Byte, swingStep: bool)
    ensures Or(And(b, Not(SWING_STEP_MASK)), Shl1(Bit(swingStep))) == WithSwingStep(b, swingStep)
  {
  }

  lemma MaskedControllerPresent(b: Byte, present: bool)
    ensures Or(And(b, Not(PRESENT_MASK)), Bit(present)) == WithControllerPresent(b, present)
  {
  }

  lemma MaskedUpdateMagic(b: Byte, magic: Byte)
    ensures Or(And(b, Not(UPDATE_MAGIC_MASK)), Shl4(magic)) == WithUpdateMagic(b, magic)
  {
  }

  /** One setter call. */
  datatype Setter =
    | SetMode(mode: Mode)
    | SetEnabled(enabled: bool)
    | SetFan(fan: FanSpeed)
    | SetError(error: bool)
    | SetEconomy(economy: bool)
    | SetTemperature(temp: Byte)
    | SetSwing(swing: bool)
    | SetSwingStep(swingStep: bool)
    | SetControllerPresent(present: bool)
    | SetUpdateMagic(magic: Byte)

  /** The byte of the register that holds the field. */
  function Index(s: Setter): (i: nat)
    ensures i < 4
  {
    match s
    case SetMode(_) => 0
    case SetEnabled(_) => 0
    case SetFan(_) => 0
    case SetError(_) => 0
    case SetEconomy(_) => 1
    case SetTemperature(_) => 1
    case SetSwing(_) => 2
    case SetSwingStep(_) => 2
    case SetControllerPresent(_) => 3
    case SetUpdateMagic(_) => 2
  }

  /** Which field a setter is for. */
  function FieldOf(s: Setter): nat {
    match s
    case SetMode(_) => 0
    case SetEnabled(_) => 1
    case SetFan(_) => 2
    case SetError(_) => 3
    case SetEconomy(_) => 4
    case SetTemperature(_) => 5
    case SetSwing(_) => 6
    case SetSwingStep(_) => 7
    case SetControllerPresent(_) => 8
    case SetUpdateMagic(_) => 9
  }

  /** The byte after the setter. */
  function WithField(b: Byte, s: Setter): Byte {
    match s
    case SetMode(mode) => WithMode(b, mode)
    case SetEnabled(enabled) => WithEnabled(b, enabled)
    case SetFan(fan) => WithFan(b, fan)
    case SetError(error) => WithError(b, error)
    case SetEconomy(economy) => WithEconomy(b, economy)
    case SetTemperature(temp) => WithTemperature(b, temp)
    case SetSwing(swing) => WithSwing(b, swing)
    case SetSwingStep(swingStep) => WithSwingStep(b, swingStep)
    case SetControllerPresent(present) => WithControllerPresent(b, present)
    case SetUpdateMagic(magic) => WithUpdateMagic(b, magic)
  }

  function WriteField(buffer: seq<Byte>, at: nat, s: Setter): seq<Byte>
    requires at + 5 <= |buffer|
  {
    buffer[at + Index(s) := WithField(buffer[at + Index(s)], s)]
  }

  /** What a setter means for the decoded record. */
  function PutField(r: Regs, s: Setter): Regs {
    match s
    case SetMode(mode) => r.(mode := mode)
    case SetEnabled(enabled) => r.(enabled := enabled)
    case SetFan(fan) => r.(fan := fan)
    case SetError(error) => r.(error := error)
    case SetEconomy(economy) => r.(economy := economy)
    case SetTemperature(temp) => PutTemperature(r, temp)
    case SetSwing(swing) => r.(swing := swing)
    case SetSwingStep(swingStep) => r.(swingStep := swingStep)
    case SetControllerPresent(present) => r.(present := present)
    case SetUpdateMagic(magic) => r.(updateMagic := LowNibble(magic))
  }

  function WriteFields(buffer: seq<Byte>, at: nat, setters: seq<Setter>): seq<Byte>
    requires at + 5 <= |buffer|
    decreases |setters|
  {
    if setters == [] then buffer else WriteFields(WriteField(buffer, at, setters[0]), at, setters[1..])
  }

  function PutFields(r: Regs, setters: seq<Setter>): Regs
    decreases |setters|
  {
    if setters == [] then r else PutFields(PutField(r, setters[0]), setters[1..])
  }

  /** Bits no setter owns: two in byte 2, seven in byte 3, and all of byte 4. */
  ghost predicate SameUnownedBits(a: seq<Byte>, b: seq<Byte>, at: nat)
    requires at + 5 <= |a| == |b|
  {
    && And(a[at + 2], UNOWNED_2) == And(b[at + 2], UNOWNED_2)
    && And(a[at + 3], UNOWNED_3) == And(b[at + 3], UNOWNED_3)
    && a[at + 4] == b[at + 4]
    && a[..at] == b[..at] && a[at + 5..] == b[at + 5..]
  }

  lemma ModeRefines(b0: Byte, b1: Byte, b2: Byte, b3: Byte, mode: Mode)
    ensures Decode(WithMode(b0, mode), b1, b2, b3) == Decode(b0, b1, b2, b3).(mode := mode)
  {
  }

  lemma EnabledRefines(b0: Byte, b1: Byte, b2: Byte, b3: Byte, enabled: bool)
    ensures Decode(WithEnabled(b0, enabled), b1, b2, b3) == Decode(b0, b1, b2, b3).(enabled := enabled)
  {
  }

  lemma FanRefines(b0: Byte, b1: Byte, b2: Byte, b3: Byte, fan: FanSpeed)
    ensures Decode(WithFan(b0, fan), b1, b2, b3) == Decode(b0, b1, b2, b3).(fan := fan)
  {
  }

  lemma ErrorRefines(b0: Byte, b1: Byte, b2: Byte, b3: Byte, error: bool)
    ensures Decode(WithError(b0, error), b1, b2, b3) == Decode(b0, b1, b2, b3).(error := error)
  {
  }

  lemma EconomyRefines(b0: Byte, b1: Byte, b2: Byte, b3: Byte, economy: bool)
    ensures Decode(b0, WithEconomy(b1, economy), b2, b3) == Decode(b0, b1, b2, b3).(economy := economy)
  {
  }

  lemma TemperatureRefines(b0: Byte, b1: Byte, b2: Byte, b3: Byte, temp: Byte)
    ensures Decode(b0, WithTemperature(b1, temp), b2, b3) == PutTemperature(Decode(b0, b1, b2, b3), temp)
  {
  }

  lemma SwingRefines(b0: Byte, b1: Byte, b2: Byte, b3: Byte, swing: bool)
    ensures Decode(b0, b1, WithSwing(b2, swing), b3) == Decode(b0, b1, b2, b3).(swing := swing)
  {
  }

  lemma SwingStepRefines(b0: Byte, b1: Byte, b2: Byte, b3: Byte, swingStep: bool)
    ensures Decode(b0, b1, WithSwingStep(b2, swingStep), b3) == Decode(b0, b1, b2, b3).(swingStep := swingStep)
  {
  }

  lemma ControllerPresentRefines(b0: Byte, b1: Byte, b2: Byte, b3: Byte, present: bool)
    ensures Decode(b0, b1, b2, WithControllerPresent(b3, present)) == Decode(b0, b1, b2, b3).(present := present)
  {
  }

  lemma UpdateMagicRefines(b0: Byte, b1: Byte, b2: Byte, b3: Byte, magic: Byte)
    ensures Decode(b0, b1, WithUpdateMagic(b2, magic), b3) == Decode(b0, b1, b2, b3).(updateMagic := LowNibble(magic))
  {
  }

  /** Each masked byte write is the record update of its own field. */
  lemma WriteFieldRefines(buffer: seq<Byte>, at: nat, s: Setter)
    requires at + 5 <= |buffer|
    ensures DecodeAt(WriteField(buffer, at, s), at) == PutField(DecodeAt(buffer, at), s)
  {
    var b0, b1, b2, b3 := buffer[at], buffer[at + 1], buffer[at + 2], buffer[at + 3];
    match s
    case SetMode(mode) => ModeRefines(b0, b1, b2, b3, mode);
    case SetEnabled(enabled) => EnabledRefines(b0, b1, b2, b3, enabled);
    case SetFan(fan) => FanRefines(b0, b1, b2, b3, fan);
    case SetError(error) => ErrorRefines(b0, b1, b2, b3, error);
    case SetEconomy(economy) => EconomyRefines(b0, b1, b2, b3, economy);
    case SetTemperature(temp) => TemperatureRefines(b0, b1, b2, b3, temp);
    case SetSwing(swing) => SwingRefines(b0, b1, b2, b3, swing);
    case SetSwingStep(swingStep) => SwingStepRefines(b0, b1, b2, b3, swingStep);
    case SetControllerPresent(present) => ControllerPresentRefines(b0, b1, b2, b3, present);
    case SetUpdateMagic(magic) => UpdateMagicRefines(b0, b1, b2, b3, magic);
  }

  lemma WriteFieldKeepsUnowned(buffer: seq<Byte>, at: nat, s: Setter)
    requires at + 5 <= |buffer|
    ensures SameUnownedBits(buffer, WriteField(buffer, at, s), at)
  {
  }

  /** Any sequence of setter calls decodes to the same record updates and touches no unowned bit. */
  lemma {:induction false} WriteFieldsRefine(buffer: seq<Byte>, at: nat, setters: seq<Setter>)
    requires at + 5 <= |buffer|
    ensures |WriteFields(buffer, at, setters)| == |buffer|
    ensures DecodeAt(WriteFields(buffer, at, setters), at) == PutFields(DecodeAt(buffer, at), setters)
    ensures SameUnownedBits(buffer, WriteFields(buffer, at, setters), at)
    decreases |setters|
  {
    if setters != [] {
      WriteFieldRefines(buffer, at, setters[0]);
      WriteFieldKeepsUnowned(buffer, at, setters[0]);
      WriteFieldsRefine(WriteField(buffer, at, setters[0]), at, setters[1..]);
    }
  }

  /** The one pair of setters of different fields that disturb each other. */
  predicate Clash(s: Setter, t: Setter) {
    s.SetTemperature? && Spills(s.temp) && t == Setter.SetEconomy(false)
  }

  lemma HeadSettersCommute(b: Byte, s: Setter, t: Setter)
    requires Index(s) == Index(t) == 0 && FieldOf(s) != FieldOf(t)
    ensures WithField(WithField(b, s), t) == WithField(WithField(b, t), s)
  {
  }

  lemma SwingAndStep(b: Byte, swing: bool, swingStep: bool)
    ensures WithSwing(WithSwingStep(b, swingStep), swing) == WithSwingStep(WithSwing(b, swing), swingStep)
  {
  }

  lemma SwingAndMagic(b: Byte, swing: bool, magic: Byte)
    ensures WithSwing(WithUpdateMagic(b, magic), swing) == WithUpdateMagic(WithSwing(b, swing), magic)
  {
  }

  lemma StepAndMagic(b: Byte, swingStep: bool, magic: Byte)
    ensures WithSwingStep(WithUpdateMagic(b, magic), swingStep) == WithUpdateMagic(WithSwingStep(b, swingStep), magic)
  {
  }

  lemma SwingSettersInOrder(b: Byte, s: Setter, t: Setter)
    requires Index(s) == Index(t) == 2 && FieldOf(s) < FieldOf(t)
    ensures WithField(WithField(b, s), t) == WithField(WithField(b, t), s)
  {
    match (s, t)
    case (SetSwing(swing), SetSwingStep(swingStep)) => SwingAndStep(b, swing, swingStep);
    case (SetSwing(swing), SetUpdateMagic(magic)) => SwingAndMagic(b, swing, magic);
    case (SetSwingStep(swingStep), SetUpdateMagic(magic)) => StepAndMagic(b, swingStep, magic);
    case _ =>
  }

  lemma SwingSettersCommute(b: Byte, s: Setter, t: Setter)
    requires Index(s) == Index(t) == 2 && FieldOf(s) != FieldOf(t)
    ensures WithField(WithField(b, s), t) == WithField(WithField(b, t), s)
  {
    if FieldOf(s) < FieldOf(t) {
      SwingSettersInOrder(b, s, t);
    } else {
      SwingSettersInOrder(b, t, s);
    }
  }

  lemma TemperatureAndEconomy(b: Byte, temp: Byte, economy: bool)
    ensures WithEconomy(WithTemperature(b, temp), economy) == WithTemperature(WithEconomy(b, economy), temp)
      <==> economy || !Spills(temp)
  {
  }

  lemma FieldsCommute(b: Byte, s: Setter, t: Setter)
    requires Index(s) == Index(t) && FieldOf(s) != FieldOf(t)
    ensures WithField(WithField(b, s), t) == WithField(WithField(b, t), s) <==> !Clash(s, t) && !Clash(t, s)
  {
    if Index(s) == 0 {
      HeadSettersCommute(b, s, t);
    } else if Index(s) == 2 {
      SwingSettersCommute(b, s, t);
    } else if s.SetTemperature? {
      TemperatureAndEconomy(b, s.temp, t.economy);
    } else {
      TemperatureAndEconomy(b, t.temp, s.economy);
    }
  }

  /** Setters of different fields commute byte for byte, except a spilling temperature with economy off. */
  lemma SettersCommute(buffer: seq<Byte>, at: nat, s: Setter, t: Setter)
    requires at + 5 <= |buffer|
    requires FieldOf(s) != FieldOf(t)
    ensures WriteField(WriteField(buffer, at, s), at, t) == WriteField(WriteField(buffer, at, t), at, s)
      <==> !Clash(s, t) && !Clash(t, s)
  {
    var st := WriteField(WriteField(buffer, at, s), at, t);
    var ts := WriteField(WriteField(buffer, at, t), at, s);
    if Index(s) == Index(t) {
      var i := at + Index(s);
      FieldsCommute(buffer[i], s, t);
      assert st[i] == WithField(WithField(buffer[i], s), t);
      assert ts[i] == WithField(WithField(buffer[i], t), s);
    }
  }

  /** SetTemperature reads back what was written, and leaves economy alone, exactly below 128. */
  lemma TemperatureSetterIsExact(r: Regs, t: Byte)
    ensures PutTemperature(r, t).temperature == t <==> ToInt(t) < 128
    ensures PutTemperature(r, t).economy == r.economy <==> ToInt(t) < 128 || r.economy
  {
  }

  /** An accessor object over five bytes of a buffer that it shares with its owner. */
  class StatusRegister {
    const bytes: array<Byte>
    const base: nat

    ghost predicate Valid() {
      base + 5 <= bytes.Length
    }

    constructor (bytes: array<Byte>, base: nat)
      requires base + 5 <= bytes.Length
      ensures Valid() && this.bytes == bytes && this.base == base
    {
      this.bytes := bytes;
      this.base := base;
    }

    function View(): Regs
      requires Valid()
      reads bytes
    {
      Decode(bytes[base], bytes[base + 1], bytes[base + 2], bytes[base + 3])
    }

    method SetMode(mode: Mode)
      requires Valid()
      modifies bytes
      ensures bytes[base] == WithMode(old(bytes[base]), mode)
      ensures forall i :: 0 <= i < bytes.Length && i != base ==> bytes[i] == old(bytes[i])
      ensures View() == old(View()).(mode := mode)
      ensures ToInt(bytes[base]) / 2 % 8 ==
        match mode
        case Unknown => 0
        case Fan => 1
        case Dry => 2
        case Cool => 3
        case Heat => 4
        case Auto => 5
    {
      MaskedMode(bytes[base], mode);
      ModeSetter(bytes[base], mode);
      bytes[base] := Or(And(bytes[base], Not(MODE_MASK)), Shl1(ModeCode(mode)));
    }

    method SetEnabled(enabled: bool)
      requires Valid()
      modifies bytes
      ensures bytes[base] == WithEnabled(old(bytes[base]), enabled)
      ensures forall i :: 0 <= i < bytes.Length && i != base ==> bytes[i] == old(bytes[i])
      ensures View() == old(View()).(enabled := enabled)
    {
      MaskedEnabled(bytes[base], enabled);
      bytes[base] := Or(And(bytes[base], Not(ENABLED_MASK)), Bit(enabled));
    }

    method SetFan(fan: FanSpeed)
      requires Valid()
      modifies bytes
      ensures bytes[base] == WithFan(old(bytes[base]), fan)
      ensures forall i :: 0 <= i < bytes.Length && i != base ==> bytes[i] == old(bytes[i])
      ensures View() == old(View()).(fan := fan)
      ensures ToInt(bytes[base]) / 16 % 8 ==
        match fan
        case Auto => 0
        case Low => 1
        case Medium => 2
        case High => 3
        case Max => 4
        case Unknown => 5
    {
      MaskedFan(bytes[base], fan);
      FanSetter(bytes[base], fan);
      bytes[base] := Or(And(bytes[base], Not(FAN_MASK)), Shl4(FanCode(fan)));
    }

    method SetError(error: bool)
      requires Valid()
      modifies bytes
      ensures bytes[base] == WithError(old(bytes[base]), error)
      ensures forall i :: 0 <= i < bytes.Length && i != base ==> bytes[i] == old(bytes[i])
      ensures View() == old(View()).(error := error)
    {
      MaskedError(bytes[base], error);
      bytes[base] := Or(And(bytes[base], Not(ERROR_MASK)), Shl7(Bit(error)));
    }

    method SetEconomy(economy: bool)
      requires Valid()
      modifies bytes
      ensures bytes[base + 1] == WithEconomy(old(bytes[base + 1]), economy)
      ensures forall i :: 0 <= i < bytes.Length && i != base + 1 ==> bytes[i] == old(bytes[i])
      ensures View() == old(View()).(economy := economy)
    {
      MaskedEconomy(bytes[base + 1], economy);
      var b := Or(And(bytes[base + 1], Not(ECONOMY_MASK)), Shl7(Bit(economy)));
      bytes[base + 1] := b;
      EconomyRefines(old(bytes[base]), old(bytes[base + 1]), old(bytes[base + 2]), old(bytes[base + 3]), economy);
    }

    /** The argument is not masked: from 128 on it also sets the economy bit. */
    method SetTemperature(temp: Byte)
      requires Valid()
      modifies bytes
      ensures bytes[base + 1] == WithTemperature(old(bytes[base + 1]), temp)
      ensures forall i :: 0 <= i < bytes.Length && i != base + 1 ==> bytes[i] == old(bytes[i])
      ensures View() == PutTemperature(old(View()), temp)
    {
      MaskedTemperature(bytes[base + 1], temp);
      bytes[base + 1] := Or(And(bytes[base + 1], Not(TEMPERATURE_MASK)), temp);
    }

    method SetSwing(swing: bool)
      requires Valid()
      modifies bytes
      ensures bytes[base + 2] == WithSwing(old(bytes[base + 2]), swing)
      ensures forall i :: 0 <= i < bytes.Length && i != base + 2 ==> bytes[i] == old(bytes[i])
      ensures View() == old(View()).(swing := swing)
    {
      MaskedSwing(bytes[base + 2], swing);
      bytes[base + 2] := Or(And(bytes[base + 2], Not(SWING_MASK)), Shl2(Bit(swing)));
    }

    method SetSwingStep(swingStep: bool)
      requires Valid()
      modifies bytes
      ensures bytes[base + 2] == WithSwingStep(old(bytes[base + 2]), swingStep)
      ensures forall i :: 0 <= i < bytes.Length && i != base + 2 ==> bytes[i] == old(bytes[i])
      ensures View() == old(View()).(swingStep := swingStep)
    {
      MaskedSwingStep(bytes[base + 2], swingStep);
      bytes[base + 2] := Or(And(bytes[base + 2], Not(SWING_STEP_MASK)), Shl1(Bit(swingStep)));
    }

    method SetControllerPresent(present: bool)
      requires Valid()
      modifies bytes
      ensures bytes[base + 3] == WithControllerPresent(old(bytes[base + 3]), present)
      ensures forall i :: 0 <= i < bytes.Length && i != base + 3 ==> bytes[i] == old(bytes[i])
      ensures View() == old(View()).(present := present)
    {
      MaskedControllerPresent(bytes[base + 3], present);
      bytes[base + 3] := Or(And(bytes[base + 3], Not(PRESENT_MASK)), Bit(present));
    }

    /** Only the low four bits of the argument survive the shift. */
    method SetUpdateMagic(magic: Byte)
      requires Valid()
      modifies bytes
      ensures bytes[base + 2] == WithUpdateMagic(old(bytes[base + 2]), magic)
      ensures forall i :: 0 <= i < bytes.Length && i != base + 2 ==> bytes[i] == old(bytes[i])
      ensures View() == old(View()).(updateMagic := LowNibble(magic))
    {
      MaskedUpdateMagic(bytes[base + 2], magic);
      bytes[base + 2] := Or(And(bytes[base + 2], Not(UPDATE_MAGIC_MASK)), Shl4(magic));
    }
  }
}
