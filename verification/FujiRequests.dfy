/** What clients send and get: the update request and the status of the service. */
module FujiRequests {
  import opened FujiBits
  import opened FujiTypes
  import opened FujiRegister
  import opened FujiFrame
  import opened FujiAcState
  import opened FujiAcUnitSim
  import opened FujiSystem
  import opened FujiInvariants
  import opened FujiDelivery
  import opened FujiConvergence

  datatype ModeField = ModeUnset | ModeFan | ModeDry | ModeCool | ModeHeat | ModeAuto | ModeOff

  datatype FanField = FanUnset | FanAuto | FanLow | FanMedium | FanHigh | FanMax

  /** An update request, and also the reported status. A setpoint of zero is unset. */
  datatype AcUnitState = AcUnitState(mode: ModeField, fan: FanField, setpoint: int)

  function ModeChanges(mode: ModeField): seq<Change> {
    match mode
    case ModeUnset => []
    case ModeOff => [ToEnabled(false)]
    case ModeFan => [ToEnabled(true), ToMode(Mode.Fan)]
    case ModeDry => [ToEnabled(true), ToMode(Mode.Dry)]
    case ModeCool => [ToEnabled(true), ToMode(Mode.Cool)]
    case ModeHeat => [ToEnabled(true), ToMode(Mode.Heat)]
    case ModeAuto => [ToEnabled(true), ToMode(Mode.Auto)]
  }

  function FanChanges(fan: FanField): seq<Change> {
    match fan
    case FanUnset => []
    case FanAuto => [ToFan(FanSpeed.Auto)]
    case FanLow => [ToFan(FanSpeed.Low)]
    case FanMedium => [ToFan(FanSpeed.Medium)]
    case FanHigh => [ToFan(FanSpeed.High)]
    case FanMax => [ToFan(FanSpeed.Max)]
  }

  /** The setter calls of an update; the setpoint is narrowed to a byte. */
  function ChangesOf(request: AcUnitState): seq<Change> {
    ModeChanges(request.mode) + FanChanges(request.fan)
    + (if request.setpoint == 0 then [] else [ToTemperature(Narrow(request.setpoint))])
  }

  function ModeReport(c: Config): ModeField {
    if !c.enabled then ModeOff
    else
      match c.mode
      case Unknown => ModeUnset
      case Fan => ModeFan
      case Dry => ModeDry
      case Cool => ModeCool
      case Heat => ModeHeat
      case Auto => ModeAuto
  }

  function FanReport(c: Config): FanField {
    match c.fan
    case Unknown => FanUnset
    case Auto => FanAuto
    case Low => FanLow
    case Medium => FanMedium
    case High => FanHigh
    case Max => FanMax
  }

  function StatusOf(c: Config): AcUnitState {
    AcUnitState(ModeReport(c), FanReport(c), ToInt(c.temperature))
  }

  function ModeOfRequest(mode: ModeField, otherwise: Mode): Mode {
    match mode
    case ModeFan => Mode.Fan
    case ModeDry => Mode.Dry
    case ModeCool => Mode.Cool
    case ModeHeat => Mode.Heat
    case ModeAuto => Mode.Auto
    case ModeUnset => otherwise
    case ModeOff => otherwise
  }

  function FanOfRequest(fan: FanField, otherwise: FanSpeed): FanSpeed {
    match fan
    case FanAuto => FanSpeed.Auto
    case FanLow => FanSpeed.Low
    case FanMedium => FanSpeed.Medium
    case FanHigh => FanSpeed.High
    case FanMax => FanSpeed.Max
    case FanUnset => otherwise
  }

  /** The settings asked for: set fields replace the old ones, unset ones are kept, and off keeps the mode. */
  function Overlaid(c: Config, request: AcUnitState): Config {
    c.(enabled := if request.mode == ModeUnset then c.enabled else request.mode != ModeOff,
       mode := ModeOfRequest(request.mode, c.mode),
       fan := FanOfRequest(request.fan, c.fan),
       temperature := if request.setpoint == 0 then c.temperature else Narrow(request.setpoint))
  }

  lemma {:induction false} ApplyAtMostTwo(l: Local, changes: seq<Change>)
    requires |changes| <= 2
    ensures ApplyAll(l, changes) ==
      if |changes| == 0 then l
      else if |changes| == 1 then Apply(l, changes[0])
      else Apply(Apply(l, changes[0]), changes[1])
    decreases |changes|
  {
    if changes != [] {
      ApplyAtMostTwo(Apply(l, changes[0]), changes[1..]);
    }
  }

  lemma ModeOverlay(l: Local, mode: ModeField)
    ensures ApplyAll(l, ModeChanges(mode)).config == Overlaid(l.config, AcUnitState(mode, FanUnset, 0))
  {
    ApplyAtMostTwo(l, ModeChanges(mode));
  }

  lemma FanOverlay(l: Local, fan: FanField)
    ensures ApplyAll(l, FanChanges(fan)).config == Overlaid(l.config, AcUnitState(ModeUnset, fan, 0))
  {
    ApplyAtMostTwo(l, FanChanges(fan));
  }

  /** The setter calls of an update add up to exactly the overlay. */
  lemma UpdateOverlays(l: Local, request: AcUnitState)
    ensures ApplyAll(l, ChangesOf(request)).config == Overlaid(l.config, request)
  {
    var mode, fan := ModeChanges(request.mode), FanChanges(request.fan);
    var temperature := if request.setpoint == 0 then [] else [ToTemperature(Narrow(request.setpoint))];
    var a := ApplyAll(l, mode);
    ModeOverlay(l, request.mode);
    FanOverlay(a, request.fan);
    ApplyAtMostTwo(ApplyAll(a, fan), temperature);
    ApplyAllAppend(l, mode, fan);
    ApplyAllAppend(l, mode + fan, temperature);
  }

  /**
   * What a request makes of the frame that writes it, in numbers: the on bit, mode and fan speed in byte 3, and the
   * setpoint in byte 4. Unset fields stay as in the frame `before`; in FAN mode, number 1, byte 4 is empty.
   */
  lemma RequestOnTheWire(l: Local, request: AcUnitState)
    ensures
      var before := Encode(Settings(false, true, Build(l)));
      var f := Encode(Settings(false, true, Build(ApplyAll(l, ChangesOf(request)))));
      var mode := ToInt(f[3]) / 2 % 8;
      && ToInt(f[3]) % 2 == (if request.mode == ModeUnset then ToInt(before[3]) % 2
                             else if request.mode == ModeOff then 0 else 1)
      && mode == (match request.mode
                  case ModeUnset => ToInt(before[3]) / 2 % 8
                  case ModeOff => ToInt(before[3]) / 2 % 8
                  case ModeFan => 1
                  case ModeDry => 2
                  case ModeCool => 3
                  case ModeHeat => 4
                  case ModeAuto => 5)
      && ToInt(f[3]) / 16 % 8 == (match request.fan
                                  case FanUnset => ToInt(before[3]) / 16 % 8
                                  case FanAuto => 0
                                  case FanLow => 1
                                  case FanMedium => 2
                                  case FanHigh => 3
                                  case FanMax => 4)
      && (mode == 1 ==> ToInt(f[4]) == 0)
      && (mode != 1 && request.setpoint != 0 ==> ToInt(f[4]) % 128 == request.setpoint % 128)
  {
    var asked := ApplyAll(l, ChangesOf(request));
    UpdateOverlays(l, request);
    WrittenFields(l);
    WrittenFields(asked);
    RequestNumbers(l.config, request);
    SetpointByte(asked, request.setpoint);
  }

  lemma WrittenFields(l: Local)
    ensures var f := Encode(Settings(false, true, Build(l)));
      && ToInt(f[3]) % 2 == Digit(l.config.enabled)
      && ToInt(f[3]) / 2 % 8 == ModeNumber(l.config.mode) && ToInt(f[3]) / 16 % 8 == FanNumber(l.config.fan)
      && f[4] == TemperatureByte(Build(l))
  {
    HeadFields(Build(l));
  }

  lemma RequestNumbers(c: Config, request: AcUnitState)
    ensures ModeNumber(Overlaid(c, request).mode) ==
      match request.mode
      case ModeUnset => ModeNumber(c.mode)
      case ModeOff => ModeNumber(c.mode)
      case ModeFan => 1
      case ModeDry => 2
      case ModeCool => 3
      case ModeHeat => 4
      case ModeAuto => 5
    ensures FanNumber(Overlaid(c, request).fan) ==
      match request.fan
      case FanUnset => FanNumber(c.fan)
      case FanAuto => 0
      case FanLow => 1
      case FanMedium => 2
      case FanHigh => 3
      case FanMax => 4
  {
  }

  lemma SetpointByte(l: Local, setpoint: int)
    ensures var b := TemperatureByte(Build(l));
      && (l.config.mode == Mode.Fan ==> ToInt(b) == 0)
      && (l.config.mode != Mode.Fan && l.config.temperature == Narrow(setpoint) ==> ToInt(b) % 128 == setpoint % 128)
  {
    var b := TemperatureByte(Build(l));
    NarrowIsModulo(setpoint);
    LowSeven(Narrow(setpoint));
    LowSeven(b);
    Setpoints(setpoint);
    if l.config.mode == Mode.Fan {
      assert b == ZERO && ToInt(ZERO) == 0;
    }
  }

  /** What the service reports of a status frame, in numbers. */
  lemma StatusFromTheWire(l: Local, f: Frame)
    ensures
      var status := StatusOf(Merge(l, DecodeAt(f, PAYLOAD)).config);
      var mode, fan := ToInt(f[3]) / 2 % 8, ToInt(f[3]) / 16 % 8;
      && status.mode == (if ToInt(f[3]) % 2 == 0 then ModeOff
                         else if mode == 1 then ModeFan else if mode == 2 then ModeDry
                         else if mode == 3 then ModeCool else if mode == 4 then ModeHeat
                         else if mode == 5 then ModeAuto else ModeUnset)
      && status.fan == (if fan == 0 then FanAuto else if fan == 1 then FanLow
                        else if fan == 2 then FanMedium else if fan == 3 then FanHigh
                        else if fan == 4 then FanMax else FanUnset)
      && status.setpoint == ToInt(f[4]) % 128
  {
    var c := ConfigOf(DecodeAt(f, PAYLOAD));
    NumbersOnTheWire(f, c);
    ModeOfNumber(c, ToInt(f[3]) / 2 % 8);
    FanOfNumber(c, ToInt(f[3]) / 16 % 8);
  }

  lemma NumbersOnTheWire(f: Frame, c: Config)
    requires c == ConfigOf(DecodeAt(f, PAYLOAD))
    ensures (c.enabled <==> ToInt(f[3]) % 2 == 1) && ToInt(c.temperature) == ToInt(f[4]) % 128
    ensures var n := ToInt(f[3]) / 2 % 8;
      c.mode == if n == 1 then Mode.Fan else if n == 2 then Mode.Dry else if n == 3 then Mode.Cool
                else if n == 4 then Mode.Heat else if n == 5 then Mode.Auto else Mode.Unknown
    ensures var n := ToInt(f[3]) / 16 % 8;
      c.fan == if n == 0 then FanSpeed.Auto else if n == 1 then FanSpeed.Low else if n == 2 then FanSpeed.Medium
               else if n == 3 then FanSpeed.High else if n == 4 then FanSpeed.Max else FanSpeed.Unknown
  {
    ModeGetter(f[3], f[4], f[5], f[6]);
    FanGetter(f[3], f[4], f[5], f[6]);
    RegisterLayout(f[3], f[4], f[5], f[6]);
  }

  lemma ModeOfNumber(c: Config, n: int)
    requires c.mode == if n == 1 then Mode.Fan else if n == 2 then Mode.Dry else if n == 3 then Mode.Cool
                       else if n == 4 then Mode.Heat else if n == 5 then Mode.Auto else Mode.Unknown
    ensures ModeReport(c) ==
      if !c.enabled then ModeOff
      else if n == 1 then ModeFan else if n == 2 then ModeDry else if n == 3 then ModeCool
      else if n == 4 then ModeHeat else if n == 5 then ModeAuto else ModeUnset
  {
  }

  lemma FanOfNumber(c: Config, n: int)
    requires c.fan == if n == 0 then FanSpeed.Auto else if n == 1 then FanSpeed.Low else if n == 2 then FanSpeed.Medium
                      else if n == 3 then FanSpeed.High else if n == 4 then FanSpeed.Max else FanSpeed.Unknown
    ensures FanReport(c) ==
      if n == 0 then FanAuto else if n == 1 then FanLow else if n == 2 then FanMedium
      else if n == 3 then FanHigh else if n == 4 then FanMax else FanUnset
  {
  }

  /** The service offers no swing steps. */
  lemma RequestsHaveNoSwingStep(request: AcUnitState)
    ensures forall c :: c in ChangesOf(request) ==> !c.ToSwingStep?
  {
    forall c | c in ChangesOf(request) ensures !c.ToSwingStep? {
      assert c in ModeChanges(request.mode) || c in FanChanges(request.fan) || c.ToTemperature?;
    }
  }

  ghost predicate IsRequest(changes: seq<Change>) {
    exists request :: changes == ChangesOf(request)
  }

  /** All client steps are updates through the service. */
  ghost predicate FromService(es: seq<Event>) {
    forall i :: 0 <= i < |es| ==> es[i].UserUpdate? ==> IsRequest(es[i].changes)
  }

  lemma ServiceHasNoSwingStep(es: seq<Event>)
    requires FromService(es)
    ensures NoSwingStep(es)
  {
    forall i | 0 <= i < |es| && es[i].UserUpdate? ensures forall c :: c in es[i].changes ==> !c.ToSwingStep? {
      assert IsRequest(es[i].changes);
      var request :| es[i].changes == ChangesOf(request);
      RequestsHaveNoSwingStep(request);
    }
  }

  /** In any run of the service no swing step is ever pending. */
  lemma ServiceNeverSwings(s: Sys, es: seq<Event>)
    requires Initial(s) && FromService(es)
    ensures !Run(s, es).h.local.swingStep
  {
    ServiceHasNoSwingStep(es);
    NoSwingStepKept(s, es);
  }

  /** In any run of the service, released clients can rely on every change having been written. */
  lemma ReadyMeansMerged(s: Sys, es: seq<Event>)
    requires Initial(s) && FromService(es) && Run(s, es).ready
    ensures Run(s, es).h.local.merged
  {
    ServiceHasNoSwingStep(es);
    WithoutSwingStepMerged(s, es);
  }

  /** One client's request, and one cycle. */
  function RequestOnce(request: AcUnitState): seq<Event> {
    [UserUpdate(ChangesOf(request))] + CYCLE
  }

  lemma RequestThenCycle(s: Sys, request: AcUnitState)
    ensures Run(s, RequestOnce(request)) == Run(Step(s, UserUpdate(ChangesOf(request))), CYCLE)
  {
    RunAppend(s, [UserUpdate(ChangesOf(request))], CYCLE);
    RunOne(s, UserUpdate(ChangesOf(request)));
  }

  /** At a cycle boundary with nothing to ask for and no swing step pending: the next change will be written. */
  predicate Serving(s: Sys) {
    && !s.h.loginRead && !s.h.errorRead && !s.h.local.swingStep
    && s.u.next == RegisterType.Status && s.captured == None
  }

  lemma RequestApplied(l: Local, request: AcUnitState)
    requires !l.swingStep
    ensures var k := ApplyAll(l, ChangesOf(request));
      k.config == Overlaid(l.config, request) && !k.swingStep && k.merged == (l.merged && ChangesOf(request) == [])
  {
    UpdateOverlays(l, request);
    ApplyAllFrame(l, ChangesOf(request));
    RequestsHaveNoSwingStep(request);
    NoSwingStepApplied(l, ChangesOf(request));
  }

  /** Reading and handling a frame with a change pending writes it. */
  lemma WritesInCycle(s: Sys)
    requires Serving(s) && !s.h.local.merged
    ensures var t := Step(Step(s, ReadFrame), HandleFrame);
      && Serving(t) && t.h.local.config == s.h.local.config
      && t.last == Settings(false, true, Build(t.h.local)) && t.ready == (s.ready || t.last == s.last)
      && ConfigOf(t.u.regs) == Delivered(t.h.local.config) && t.u.regs.present == s.u.regs.present
  {
    WriteTakesPrecedence(Step(s, ReadFrame));
  }

  lemma RequestedOnce(s: Sys, request: AcUnitState) returns (t: Sys)
    requires Serving(s) && ChangesOf(request) != []
    ensures t == Run(s, RequestOnce(request))
    ensures Serving(t) && t.h.local.config == Overlaid(s.h.local.config, request)
    ensures t.last == Settings(false, true, Build(t.h.local)) && t.ready == (t.last == s.last)
    ensures ConfigOf(t.u.regs) == Delivered(t.h.local.config) && t.u.regs.present == s.u.regs.present
  {
    var changes := ChangesOf(request);
    RunThree(s, UserUpdate(changes), ReadFrame, HandleFrame);
    assert RequestOnce(request) == [UserUpdate(changes), ReadFrame, HandleFrame];
    RequestApplied(s.h.local, request);
    WritesInCycle(Step(s, UserUpdate(changes)));
    t := Run(s, RequestOnce(request));
  }

  /** Repeating the request repeats the write, which releases the client. */
  lemma RequestedAgain(s: Sys, request: AcUnitState) returns (t: Sys)
    requires Serving(s) && ChangesOf(request) != []
    requires s.h.local.config == Overlaid(s.h.local.config, request)
    requires s.last == Settings(false, true, Build(s.h.local))
    ensures t == Run(s, RequestOnce(request))
    ensures Serving(t) && t.ready && t.h.local.config == s.h.local.config
    ensures t.last == Settings(false, true, Build(t.h.local))
    ensures ConfigOf(t.u.regs) == Delivered(t.h.local.config) && t.u.regs.present == s.u.regs.present
  {
    t := RequestedOnce(s, request);
  }

  lemma OverlaidTwice(c: Config, request: AcUnitState)
    ensures Overlaid(Overlaid(c, request), request) == Overlaid(c, request)
  {
  }

  lemma RequestedTwice(s: Sys, request: AcUnitState) returns (t: Sys)
    requires Serving(s) && ChangesOf(request) != []
    ensures t == Run(s, RequestOnce(request) + RequestOnce(request))
    ensures Serving(t) && t.ready && t.last.Writes()
    ensures t.h.local.config == Overlaid(s.h.local.config, request)
    ensures ConfigOf(t.u.regs) == Delivered(t.h.local.config) && t.u.regs.present == s.u.regs.present
  {
    var once := RequestedOnce(s, request);
    OverlaidTwice(s.h.local.config, request);
    t := RequestedAgain(once, request);
    RunAppend(s, RequestOnce(request), RequestOnce(request));
  }

  /** A client reads back the fields that it sets. */
  lemma OverlayReportsBack(c: Config, request: AcUnitState)
    ensures var status := StatusOf(Overlaid(c, request));
      && (request.mode != ModeUnset ==> status.mode == request.mode)
      && (request.fan != FanUnset ==> status.fan == request.fan)
      && (request.setpoint != 0 ==> status.setpoint == request.setpoint % 256)
  {
    NarrowIsModulo(request.setpoint);
  }

  /** The client's settings `c` wait to be written. */
  predicate Waiting(s: Sys, c: Config) {
    !s.h.local.merged && !s.ready && s.h.local.config == c
  }

  /** The unit has taken over the client's settings `c`. */
  predicate Taken(s: Sys, c: Config) {
    && ConfigOf(s.u.regs) == Delivered(c)
    && (s.h.local.config == c || s.h.local.config == Delivered(c))
    && (s.captured.Some? && s.captured.value.register == RegisterType.Status ==>
          ConfigOf(s.captured.value.regs) == Delivered(c))
  }

  lemma WaitingHandle(s: Sys, c: Config)
    requires Inv(s) && s.captured.Some? && Waiting(s, c)
    ensures Waiting(HandleCaptured(s), c) || Taken(HandleCaptured(s), c)
  {
    if WillWrite(s) {
      WriteTakesPrecedence(s);
    }
  }

  lemma TakenHandle(s: Sys, c: Config)
    requires Inv(s) && s.captured.Some? && Taken(s, c)
    ensures Taken(HandleCaptured(s), c)
  {
    DeliveredIsExact(Delivered(c));
    if WillWrite(s) {
      DeliveredIsExact(c);
      WriteTakesPrecedence(s);
    } else {
      OnlyWritesChangeSettings(s);
    }
  }

  lemma WaitingOrTakenStep(s: Sys, e: Event, c: Config)
    requires Inv(s) && QuietEvent(e) && (Waiting(s, c) || Taken(s, c))
    ensures Waiting(Step(s, e), c) || Taken(Step(s, e), c)
  {
    match e
    case ReadFrame =>
    case MissFrame =>
    case HandleFrame =>
      if s.captured.Some? {
        if Waiting(s, c) {
          WaitingHandle(s, c);
        } else {
          TakenHandle(s, c);
        }
      }
  }

  lemma {:induction false} WaitingOrTaken(s: Sys, es: seq<Event>, c: Config)
    requires Inv(s) && Quiet(es) && (Waiting(s, c) || Taken(s, c))
    ensures Inv(Run(s, es))
    ensures Waiting(Run(s, es), c) || Taken(Run(s, es), c)
    decreases |es|
  {
    if es != [] {
      StepInv(s, es[0]);
      WaitingOrTakenStep(s, es[0], c);
      WaitingOrTaken(Step(s, es[0]), es[1..], c);
    }
  }

  /** When an undisturbed update is released, the unit has its settings, and the local copy agrees up to delivery. */
  lemma UpdateIsTaken(s: Sys, request: AcUnitState, es: seq<Event>)
    requires Inv(s) && Quiet(es) && ChangesOf(request) != []
    ensures var t := Run(Step(s, UserUpdate(ChangesOf(request))), es);
      Inv(t) && (t.ready ==> Taken(t, Overlaid(s.h.local.config, request)))
  {
    var changes := ChangesOf(request);
    var asked := Step(s, UserUpdate(changes));
    StepInv(s, UserUpdate(changes));
    ApplyAllFrame(s.h.local, changes);
    UpdateOverlays(s.h.local, request);
    WaitingOrTaken(asked, es, Overlaid(s.h.local.config, request));
  }

  lemma DeliveryKeepsReports(c: Config)
    ensures StatusOf(Delivered(c)).mode == StatusOf(c).mode && StatusOf(Delivered(c)).fan == StatusOf(c).fan
    ensures StatusOf(Delivered(c)).setpoint == if c.mode == Mode.Fan then 18 else StatusOf(c).setpoint % 128
  {
    LowSeven(c.temperature);
    if c.mode == Mode.Fan {
      assert ToInt(EIGHTEEN) == 18;
    }
  }

  lemma Setpoints(x: int)
    ensures x % 256 % 128 == x % 128
    ensures x % 128 == x <==> 0 <= x < 128
    ensures 0 <= x < 128 ==> x % 256 == x
  {
  }

  lemma DeliveredReports(c: Config, request: AcUnitState, got: Config)
    requires got == Overlaid(c, request) || got == Delivered(Overlaid(c, request))
    ensures var status := StatusOf(got);
      && (request.mode != ModeUnset ==> status.mode == request.mode)
      && (request.fan != FanUnset ==> status.fan == request.fan)
      && (0 < request.setpoint < 128 && got.mode != Mode.Fan ==> status.setpoint == request.setpoint)
  {
    OverlayReportsBack(c, request);
    DeliveryKeepsReports(Overlaid(c, request));
    Setpoints(request.setpoint);
  }

  /**
   * Update, then get the status: from every reachable state, with no other client and no remote in between, the
   * status reports every field that the request set; the setpoint if it is in 1..127 and the mode is not FAN.
   */
  lemma UpdateThenStatus(s: Sys, request: AcUnitState, es: seq<Event>)
    requires Inv(s) && Quiet(es)
    ensures
      var t := Run(Step(s, UserUpdate(ChangesOf(request))), es);
      var status := StatusOf(t.h.local.config);
      t.ready ==>
        && (request.mode != ModeUnset ==> status.mode == request.mode)
        && (request.fan != FanUnset ==> status.fan == request.fan)
        && (0 < request.setpoint < 128 && t.h.local.config.mode != Mode.Fan ==> status.setpoint == request.setpoint)
  {
    if ChangesOf(request) != [] {
      UpdateIsTaken(s, request, es);
      var t := Run(Step(s, UserUpdate(ChangesOf(request))), es);
      if t.ready {
        DeliveredReports(s.h.local.config, request, t.h.local.config);
      }
    }
  }

  lemma DeliveredSetpoint(c: Config, request: AcUnitState, got: Config)
    requires request.setpoint != 0 && got == Delivered(Overlaid(c, request))
    ensures var fan := ModeOfRequest(request.mode, c.mode) == Mode.Fan;
      && StatusOf(got).setpoint == (if fan then 18 else request.setpoint % 128)
      && (StatusOf(got).setpoint == request.setpoint <==>
            if fan then request.setpoint == 18 else 0 < request.setpoint < 128)
  {
    OverlayReportsBack(c, request);
    DeliveryKeepsReports(Overlaid(c, request));
    Setpoints(request.setpoint);
  }

  /**
   * The client's settings `c` still wait, or the unit has them: then the local copy is `c` until the first status frame
   * after the write was merged, and what the unit made of it from then on.
   */
  predicate WaitingOrHeld(s: Sys, c: Config) {
    && !s.h.local.swingStep
    && (Waiting(s, c)
        || (Taken(s, c) && s.h.local.merged && Registered(s)
            && s.h.local.config == if s.last.Writes() then c else Delivered(c)))
  }

  lemma HeldHandle(s: Sys, c: Config)
    requires Inv(s) && s.captured.Some? && WaitingOrHeld(s, c)
    ensures WaitingOrHeld(HandleCaptured(s), c)
  {
    if !s.h.local.merged {
      WaitingHandle(s, c);
    } else {
      OnlyWritesChangeSettings(s);
    }
  }

  lemma HeldStep(s: Sys, e: Event, c: Config)
    requires Inv(s) && QuietEvent(e) && WaitingOrHeld(s, c)
    ensures WaitingOrHeld(Step(s, e), c)
  {
    match e
    case ReadFrame =>
    case MissFrame =>
    case HandleFrame =>
      if s.captured.Some? {
        HeldHandle(s, c);
      }
  }

  lemma {:induction false} HeldRuns(s: Sys, es: seq<Event>, c: Config)
    requires Inv(s) && Quiet(es) && WaitingOrHeld(s, c)
    ensures WaitingOrHeld(Run(s, es), c)
    decreases |es|
  {
    if es != [] {
      StepInv(s, es[0]);
      HeldStep(s, es[0], c);
      HeldRuns(Step(s, es[0]), es[1..], c);
    }
  }

  /**
   * What a client finds when it is released: the unit has what was asked for, as far as it can show it. The local
   * settings, which the status reports, are those of the unit exactly if the unit can show what was asked for, or the
   * frame that released the client was an echo and not the same write a second time.
   */
  lemma ReleasedSettings(s: Sys, request: AcUnitState, es: seq<Event>)
    requires Inv(s) && !s.h.local.swingStep && ChangesOf(request) != [] && Quiet(es)
    requires Run(Step(s, UserUpdate(ChangesOf(request))), es).ready
    ensures
      var t := Run(Step(s, UserUpdate(ChangesOf(request))), es);
      var c := Overlaid(s.h.local.config, request);
      && ConfigOf(t.u.regs) == Delivered(c)
      && t.h.local.config == (if t.last.Writes() then c else Delivered(c))
      && (t.h.local.config == ConfigOf(t.u.regs) <==> !t.last.Writes() || Showable(c))
  {
    var c := Overlaid(s.h.local.config, request);
    StepInv(s, UserUpdate(ChangesOf(request)));
    RequestApplied(s.h.local, request);
    HeldRuns(Step(s, UserUpdate(ChangesOf(request))), es, c);
    DeliveredIsExact(c);
  }

  /** The setpoint that the status reports after that, and exactly when it is the one asked for. */
  predicate SetpointRead(request: AcUnitState, mode: Mode, repeated: bool, setpoint: int) {
    var fan := ModeOfRequest(request.mode, mode) == Mode.Fan;
    && setpoint == (if repeated then request.setpoint % 256 else if fan then 18 else request.setpoint % 128)
    && (setpoint == request.setpoint <==>
          if repeated then 0 < request.setpoint < 256
          else if fan then request.setpoint == 18 else 0 < request.setpoint < 128)
  }

  /** The setpoint that a released client reads: any byte after a repeated write, otherwise what the unit shows. */
  lemma ReleasedSetpoint(s: Sys, request: AcUnitState, es: seq<Event>)
    requires Inv(s) && !s.h.local.swingStep && request.setpoint != 0 && Quiet(es)
    requires Run(Step(s, UserUpdate(ChangesOf(request))), es).ready
    ensures
      var t := Run(Step(s, UserUpdate(ChangesOf(request))), es);
      SetpointRead(request, s.h.local.config.mode, t.last.Writes(), StatusOf(t.h.local.config).setpoint)
  {
    var c, t := Overlaid(s.h.local.config, request), Run(Step(s, UserUpdate(ChangesOf(request))), es);
    ReleasedSettings(s, request, es);
    if t.last.Writes() {
      OverlayReportsBack(s.h.local.config, request);
      WholeSetpoints(request.setpoint);
    } else {
      DeliveredSetpoint(s.h.local.config, request, Delivered(c));
    }
  }

  lemma WholeSetpoints(x: int)
    requires x != 0
    ensures x % 256 == x <==> 0 < x < 256
  {
  }

  /** Seen before the call: the last frame was the very write that the request is about to make. */
  predicate WillRepeat(s: Sys, request: AcUnitState) {
    Registered(s) && s.last == Settings(false, true, Build(ApplyAll(s.h.local, ChangesOf(request))))
  }

  /** A run that repeats the write of `asked`: 0 frames handled, 1 frame, or more. */
  predicate Repeating(s: Sys, asked: Local, n: nat) {
    && Registered(s) && !s.h.local.swingStep
    && (if n == 0
        then !s.h.local.merged && !s.ready && s.h.local == asked && s.last == Settings(false, true, Build(asked))
        else s.h.local.merged && (s.last.Writes() <==> n == 1))
  }

  /** A run in which the write of `asked` differs from the frame before it, and so releases nobody. */
  predicate Differing(s: Sys, asked: Local) {
    && !s.h.local.swingStep
    && (if !s.h.local.merged
        then !s.ready && s.h.local == asked && s.last != Settings(false, true, Build(asked))
        else Registered(s) && (s.ready ==> !s.last.Writes()))
  }

  lemma RepeatingHandle(s: Sys, asked: Local, n: nat)
    requires Inv(s) && s.captured.Some? && Repeating(s, asked, n) && !asked.swingStep
    ensures Repeating(HandleCaptured(s), asked, n + 1)
  {
    if n == 0 {
    } else {
    }
  }

  lemma {:induction false} RepeatingRuns(s: Sys, es: seq<Event>, asked: Local, n: nat)
    requires Inv(s) && Quiet(es) && Repeating(s, asked, n) && !asked.swingStep
    ensures Repeating(Run(s, es), asked, n + Cycles(s, es))
    decreases |es|
  {
    if es != [] {
      StepInv(s, es[0]);
      if es[0] == HandleFrame && s.captured.Some? {
        RepeatingHandle(s, asked, n);
        RepeatingRuns(HandleCaptured(s), es[1..], asked, n + 1);
      } else {
        RepeatingRuns(Step(s, es[0]), es[1..], asked, n);
      }
    }
  }

  lemma DifferingHandle(s: Sys, asked: Local)
    requires Inv(s) && s.captured.Some? && Differing(s, asked) && !asked.swingStep
    ensures Differing(HandleCaptured(s), asked)
  {
    if s.h.local.merged {
    } else if LoginPending(s) {
    } else if LoginQueried(s) {
    } else {
    }
  }

  lemma {:induction false} DifferingRuns(s: Sys, es: seq<Event>, asked: Local)
    requires Inv(s) && Quiet(es) && Differing(s, asked) && !asked.swingStep
    ensures Differing(Run(s, es), asked)
    decreases |es|
  {
    if es != [] {
      StepInv(s, es[0]);
      if es[0] == HandleFrame && s.captured.Some? {
        DifferingHandle(s, asked);
      }
      DifferingRuns(Step(s, es[0]), es[1..], asked);
    }
  }

  /** A released client sees settings that were not merged back exactly if its write, repeated, was all there was. */
  lemma ReleasedByRepetition(s: Sys, request: AcUnitState, es: seq<Event>)
    requires Inv(s) && !s.h.local.swingStep && ChangesOf(request) != [] && Quiet(es)
    requires Run(Step(s, UserUpdate(ChangesOf(request))), es).ready
    ensures
      var asked := Step(s, UserUpdate(ChangesOf(request)));
      Run(asked, es).last.Writes() <==> WillRepeat(s, request) && Cycles(asked, es) == 1
  {
    var asked := Step(s, UserUpdate(ChangesOf(request)));
    StepInv(s, UserUpdate(ChangesOf(request)));
    RequestApplied(s.h.local, request);
    if WillRepeat(s, request) {
      RepeatingRuns(asked, es, asked.h.local, 0);
    } else {
      DifferingRuns(asked, es, asked.h.local);
    }
  }

  /** A request issued twice reports its setpoint as a byte, and the unit shows what it makes of it. */
  lemma RepeatedReadsRequest(s: Sys, request: AcUnitState)
    requires Serving(s) && request.setpoint != 0
    ensures
      var t := Run(s, RequestOnce(request) + RequestOnce(request));
      && t.ready && StatusOf(t.h.local.config).setpoint == request.setpoint % 256
      && ToInt(t.u.regs.temperature) ==
           if ModeOfRequest(request.mode, s.h.local.config.mode) == Mode.Fan then 18 else request.setpoint % 128
  {
    var t := RequestedTwice(s, request);
    OverlayReportsBack(s.h.local.config, request);
    DeliveredSetpoint(s.h.local.config, request, Delivered(t.h.local.config));
  }

  /** In FAN mode that is wrong for every setpoint but 18: any byte, 25 say, is reported, and the unit shows 18. */
  lemma RepeatedFanReadsWrong(s: Sys, request: AcUnitState)
    requires Serving(s) && request.mode == ModeFan && 0 < request.setpoint < 256
    ensures
      var t := Run(s, RequestOnce(request) + RequestOnce(request));
      t.ready && StatusOf(t.h.local.config).setpoint == request.setpoint && ToInt(t.u.regs.temperature) == 18
  {
    WholeSetpoints(request.setpoint);
    RepeatedReadsRequest(s, request);
  }

  /** When an update is released, local and unit mode are the same. */
  lemma ReadyModesAgree(s: Sys, request: AcUnitState, es: seq<Event>)
    requires Inv(s) && Quiet(es) && request.setpoint != 0
    ensures var t := Run(Step(s, UserUpdate(ChangesOf(request))), es);
      t.ready ==> t.h.local.config.mode == t.u.regs.mode
  {
    UpdateIsTaken(s, request, es);
  }

  /** Once settled, the setpoint reads back exactly when it is 18 in FAN mode, or in 1..127 in any other. */
  lemma SettledSetpoint(s: Sys, request: AcUnitState, es: seq<Event>)
    requires Inv(s) && Quiet(es) && request.setpoint != 0
    requires Settled(Run(Step(s, UserUpdate(ChangesOf(request))), es))
    ensures
      var status := StatusOf(Run(Step(s, UserUpdate(ChangesOf(request))), es).h.local.config);
      var fan := ModeOfRequest(request.mode, s.h.local.config.mode) == Mode.Fan;
      && status.setpoint == (if fan then 18 else request.setpoint % 128)
      && (status.setpoint == request.setpoint <==>
            if fan then request.setpoint == 18 else 0 < request.setpoint < 128)
  {
    UpdateIsTaken(s, request, es);
    DeliveredSetpoint(s.h.local.config, request, Run(Step(s, UserUpdate(ChangesOf(request))), es).h.local.config);
  }
}
