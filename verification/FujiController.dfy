/** The controller object: the loop over the serial interface, and the calls of its clients. */
module FujiController {
  import opened FujiBits
  import opened FujiTypes
  import opened FujiFrame
  import opened FujiAcState
  import opened FujiProtocolHandler
  import opened FujiAcUnitSim
  import opened FujiSystem
  import opened FujiInvariants
  import opened FujiDelivery
  import opened FujiConvergence
  import opened FujiRequests

  lemma TurnGetsCloser(s: Sys)
    requires Inv(s)
    ensures var t := Step(Step(s, ReadFrame), HandleFrame);
      && Inv(t) && (Rank(t) < Rank(s) || Settled(t))
      && t == Run(s, CYCLE)
  {
    var read := Step(s, ReadFrame);
    StepInv(s, ReadFrame);
    QuietStep(s, ReadFrame);
    StepInv(read, HandleFrame);
    QuietHandle(read);
    RunTwo(s, ReadFrame, HandleFrame);
  }

  /** Other clients and the remote disturb the loop for a while, and then fall silent. */
  ghost predicate Amid(disturbance: seq<Event>, es: seq<Event>) {
    exists k :: 0 <= k <= |disturbance| && CalmAfter(disturbance, es, k)
  }

  predicate CalmAfter(disturbance: seq<Event>, es: seq<Event>, k: nat)
    requires k <= |disturbance|
  {
    k <= |es| && es[..k] == disturbance[..k] && Quiet(es[k..])
  }

  /** What may happen while a client waits. */
  ghost predicate Awaited(s: Sys, disturbance: seq<Event>, t: Sys) {
    exists es :: Amid(disturbance, es) && t == Run(s, es)
  }

  lemma CalmAwaited(s: Sys, disturbance: seq<Event>, k: nat, t: Sys)
    requires k <= |disturbance| && AwaitedCalm(Run(s, disturbance[..k]), t)
    ensures Awaited(s, disturbance, t)
  {
    var rest :| Quiet(rest) && t == Run(Run(s, disturbance[..k]), rest);
    var es := disturbance[..k] + rest;
    assert es[..k] == disturbance[..k] && es[k..] == rest;
    assert CalmAfter(disturbance, es, k);
    RunAppend(s, disturbance[..k], rest);
  }

  ghost predicate AwaitedCalm(s: Sys, t: Sys) {
    exists es :: Quiet(es) && t == Run(s, es)
  }

  lemma QuietAmid(disturbance: seq<Event>, es: seq<Event>)
    requires Quiet(disturbance) && Amid(disturbance, es)
    ensures Quiet(es)
  {
    var k :| 0 <= k <= |disturbance| && CalmAfter(disturbance, es, k);
    assert es == disturbance[..k] + es[k..];
  }

  lemma OneMoreTurn(start: Sys, es: seq<Event>, s: Sys)
    requires Quiet(es) && s == Run(start, es)
    ensures Quiet(es + CYCLE) && Run(start, es + CYCLE) == Run(s, CYCLE)
  {
    RunAppend(start, es, CYCLE);
  }

  lemma OneMoreStep(start: Sys, es: seq<Event>, k: nat)
    requires k < |es|
    ensures Run(start, es[..k + 1]) == Step(Run(start, es[..k]), es[k])
  {
    assert es[..k + 1] == es[..k] + [es[k]];
    RunAppend(start, es[..k], [es[k]]);
    RunOne(Run(start, es[..k]), es[k]);
  }

  /** What an update that returned in state `t` has been through: a write that delivers its changes, if any. */
  ghost predicate Returned(s: Sys, request: AcUnitState, disturbance: seq<Event>, es: seq<Event>, t: Sys) {
    var asked := Step(s, UserUpdate(ChangesOf(request)));
    && Amid(disturbance, es) && t == Run(asked, es)
    && (ChangesOf(request) != [] ==> exists j: nat :: DeliversAt(asked, es, j))
  }

  lemma ReturnedAfterWrite(s: Sys, request: AcUnitState, disturbance: seq<Event>, es: seq<Event>)
    requires Inv(s) && Amid(disturbance, es)
    requires Run(Step(s, UserUpdate(ChangesOf(request))), es).ready
    ensures
      var t := Run(Step(s, UserUpdate(ChangesOf(request))), es);
      && Returned(s, request, disturbance, es, t)
      && (Quiet(disturbance) && ChangesOf(request) != [] ==>
            ConfigOf(t.u.regs) == Delivered(Overlaid(s.h.local.config, request)))
  {
    var asked := Step(s, UserUpdate(ChangesOf(request)));
    if ChangesOf(request) != [] {
      StepInv(s, UserUpdate(ChangesOf(request)));
      ApplyAllFrame(s.h.local, ChangesOf(request));
      PendingOrDelivered(asked, es);
      if Quiet(disturbance) {
        QuietAmid(disturbance, es);
        UpdateIsTaken(s, request, es);
      }
    }
  }

  /** The status reported after an update that nothing disturbed. */
  lemma ReportedBack(
      s: Sys, request: AcUnitState, during: seq<Event>, after: seq<Event>, es: seq<Event>, fs: seq<Event>)
    requires Inv(s) && Quiet(during) && Quiet(after) && Amid(during, es) && Amid(after, fs)
    requires Run(Run(Step(s, UserUpdate(ChangesOf(request))), es), fs).ready
    ensures
      var t := Run(Run(Step(s, UserUpdate(ChangesOf(request))), es), fs);
      Reports(request, t.u.regs.mode, StatusOf(t.h.local.config))
  {
    QuietAmid(during, es);
    QuietAmid(after, fs);
    assert Quiet(es + fs);
    RunAppend(Step(s, UserUpdate(ChangesOf(request))), es, fs);
    UpdateThenStatus(s, request, es + fs);
    if request.setpoint != 0 {
      ReadyModesAgree(s, request, es + fs);
    }
  }

  /** What a client that nothing disturbs reads: the unit's settings, or its own when its write was a repetition. */
  lemma ReadBack(s: Sys, request: AcUnitState, during: seq<Event>, after: seq<Event>, es: seq<Event>, fs: seq<Event>)
    requires Inv(s) && Quiet(during) && Quiet(after) && Amid(during, es) && Amid(after, fs)
    requires Run(Run(Step(s, UserUpdate(ChangesOf(request))), es), fs).ready
    requires !s.h.local.swingStep && ChangesOf(request) != []
    ensures
      var t, c := Run(Run(Step(s, UserUpdate(ChangesOf(request))), es), fs), Overlaid(s.h.local.config, request);
      ConfigOf(t.u.regs) == Delivered(c) && t.h.local.config == if t.last.Writes() then c else Delivered(c)
  {
    QuietAmid(during, es);
    QuietAmid(after, fs);
    assert Quiet(es + fs);
    RunAppend(Step(s, UserUpdate(ChangesOf(request))), es, fs);
    ReleasedSettings(s, request, es + fs);
  }

  /** The unit holds `c` as delivered; the status reports the same, or `c` itself if the last frame was a write. */
  predicate ReadExactly(c: Config, t: Sys, status: AcUnitState) {
    ConfigOf(t.u.regs) == Delivered(c) && status == StatusOf(if t.last.Writes() then c else Delivered(c))
  }

  /** The status shows every field that was set; the setpoint if it is in 1..127 and the unit not in FAN mode. */
  predicate Reports(request: AcUnitState, mode: Mode, status: AcUnitState) {
    && (request.mode != ModeUnset ==> status.mode == request.mode)
    && (request.fan != FanUnset ==> status.fan == request.fan)
    && (0 < request.setpoint < 128 && mode != Mode.Fan ==> status.setpoint == request.setpoint)
  }

  /**
   * Client, handler and unit share the objects below; the unit is the other end of the serial interface. Each
   * method is one atomic step: the mutex is held, or the frame is still private to the loop.
   */
  class Controller {
    const state: AcState
    const client: ProtocolHandler
    const serial: UnitSim
    var lastFrame: Frame
    var ready: bool
    var captured: Option<Frame>
    ghost var last: Reply

    ghost predicate Valid()
      reads this
    {
      client.state == state && serial.Valid() && lastFrame == Encode(last)
    }

    ghost function View(): Sys
      requires Valid()
      reads this, client, state, serial, serial.statusRegister
    {
      Sys(client.View(), serial.View(), last, ready,
          if captured.Some? then Some(DecodeMaster(captured.value)) else None)
    }

    constructor (serial: UnitSim)
      requires serial.Valid()
      ensures Valid() && this.serial == serial && fresh(state) && fresh(client)
      ensures View() == Sys(INITIAL_HANDLER, serial.View(), DEFAULT_REPLY, false, None)
      ensures ToInt(lastFrame[0]) == 32 && ToInt(lastFrame[1]) == 129 && lastFrame[2..] == seq(6, _ => ZERO)
      ensures serial.View() == INITIAL_UNIT ==> Initial(View()) && Inv(View())
    {
      var local := new AcState();
      var handler := new ProtocolHandler(local);
      state, client, this.serial := local, handler, serial;
      lastFrame, last, ready, captured := EMPTY_FRAME, DEFAULT_REPLY, false, None;
    }

    /** The loop reads a master frame, outside the mutex; a short read yields nothing. */
    method ReadMasterFrame(short: bool)
      requires Valid() && captured.None?
      modifies this, serial, serial.statusRegister
      ensures Valid() && View() == Step(old(View()), if short then MissFrame else ReadFrame)
    {
      var f := serial.GetNextMasterFrame();
      if !short {
        captured := Some(f.FullFrame());
      }
    }

    /** A reply goes out: two equal ones in a row release the clients. */
    method WriteControllerFrame(frame: Frame, ghost reply: Reply)
      requires Valid() && frame == Encode(reply)
      modifies this, serial, serial.statusRegister
      ensures Valid() && captured == old(captured)
      ensures serial.View() == Receive(old(serial.View()), reply)
      ensures last == reply && ready == (old(ready) || reply == old(last))
    {
      EncodeInjective(reply, last);
      ReplyRoundTrip(reply);
      if frame == lastFrame {
        ready := true;
      }
      serial.PushControllerFrame(frame);
      lastFrame, last := frame, reply;
    }

    /** The loop handles the frame it read and writes the reply, under the mutex. */
    method HandleMasterFrame()
      requires Valid() && captured.Some?
      modifies this, client, state, serial, serial.statusRegister
      ensures Valid() && captured.None? && View() == Step(old(View()), HandleFrame)
    {
      ghost var out := Handle(client.View(), DecodeMaster(captured.value)).1;
      var cf := client.HandleMasterFrame(captured.value);
      captured := None;
      if cf != null {
        var frame := cf.FullFrame();
        WriteControllerFrame(frame, out.value);
      }
    }

    /** A user changes the local state under the mutex, setter by setter. */
    method ChangeState(changes: seq<Change>)
      requires Valid()
      modifies this, state
      ensures Valid() && View() == Step(old(View()), UserUpdate(changes))
    {
      ready := false;
      for i := 0 to |changes|
        invariant Valid() && !ready && captured == old(captured) && last == old(last)
        invariant client.errorRead == old(client.errorRead) && client.loginRead == old(client.loginRead)
        invariant ApplyAll(state.View(), changes[i..]) == ApplyAll(old(state.View()), changes)
      {
        state.Change(changes[i]);
        assert changes[i..][1..] == changes[i + 1..];
      }
      assert changes[|changes|..] == [];
    }

    /** The mode part of an update. */
    method UpdateMode(mode: ModeField)
      modifies state
      ensures state.View() == ApplyAll(old(state.View()), ModeChanges(mode))
    {
      ApplyAtMostTwo(state.View(), ModeChanges(mode));
      match mode {
        case ModeOff =>
          state.SetEnabled(false);
        case ModeAuto =>
          state.SetEnabled(true);
          state.SetMode(Mode.Auto);
        case ModeCool =>
          state.SetEnabled(true);
          state.SetMode(Mode.Cool);
        case ModeHeat =>
          state.SetEnabled(true);
          state.SetMode(Mode.Heat);
        case ModeDry =>
          state.SetEnabled(true);
          state.SetMode(Mode.Dry);
        case ModeFan =>
          state.SetEnabled(true);
          state.SetMode(Mode.Fan);
        case ModeUnset =>
      }
    }

    /** The fan part of an update. */
    method UpdateFan(fan: FanField)
      modifies state
      ensures state.View() == ApplyAll(old(state.View()), FanChanges(fan))
    {
      ApplyAtMostTwo(state.View(), FanChanges(fan));
      match fan {
        case FanAuto => state.SetFan(FanSpeed.Auto);
        case FanMax => state.SetFan(FanSpeed.Max);
        case FanHigh => state.SetFan(FanSpeed.High);
        case FanMedium => state.SetFan(FanSpeed.Medium);
        case FanLow => state.SetFan(FanSpeed.Low);
        case FanUnset =>
      }
    }

    /** The setter calls of an update. */
    method ApplyRequest(request: AcUnitState)
      modifies state
      ensures state.View() == ApplyAll(old(state.View()), ChangesOf(request))
    {
      UpdateMode(request.mode);
      UpdateFan(request.fan);
      ghost var temperature := if request.setpoint == 0 then [] else [ToTemperature(Narrow(request.setpoint))];
      ApplyAtMostTwo(state.View(), temperature);
      if request.setpoint != 0 {
        state.SetTemperature(Narrow(request.setpoint));
      }
      ghost var moded := ApplyAll(old(state.View()), ModeChanges(request.mode));
      assert state.View() == ApplyAll(ApplyAll(moded, FanChanges(request.fan)), temperature);
      ApplyAllAppend(old(state.View()), ModeChanges(request.mode), FanChanges(request.fan));
      ApplyAllAppend(old(state.View()), ModeChanges(request.mode) + FanChanges(request.fan), temperature);
    }

    /** An update up to the point where it starts to wait for `ready`. */
    method BeginUpdate(request: AcUnitState)
      requires Valid()
      modifies this, state
      ensures Valid() && View() == Step(old(View()), UserUpdate(ChangesOf(request))) && !ready
      ensures captured == old(captured)
    {
      ready := false;
      ApplyRequest(request);
    }

    /** One turn of the loop with an undisturbed read. */
    method Turn()
      requires Valid() && Inv(View())
      modifies this, client, state, serial, serial.statusRegister
      ensures Valid() && Inv(View()) && captured.None?
      ensures View() == Run(old(View()), CYCLE)
      ensures Rank(View()) < Rank(old(View())) || Settled(View())
    {
      ghost var s := View();
      TurnGetsCloser(s);
      if captured.None? {
        ReadMasterFrame(false);
      }
      HandleMasterFrame();
    }

    /** Waiting for `ready` once only the loop runs. It ends: the rank of the system bounds the turns. */
    method AwaitUndisturbed()
      requires Valid() && Inv(View())
      modifies this, client, state, serial, serial.statusRegister
      ensures Valid() && Inv(View()) && ready
      ensures AwaitedCalm(old(View()), View())
    {
      ghost var start, es: seq<Event> := View(), [];
      while !ready
        invariant Valid() && Inv(View()) && Quiet(es) && View() == Run(start, es)
        decreases Rank(View())
      {
        ghost var s := View();
        RankBound(s);
        Turn();
        OneMoreTurn(start, es, s);
        es := es + CYCLE;
        RankBound(View());
      }
    }

    /** Waiting for `ready` while other threads and the remote act: `k` of the steps happened when it ends. */
    method AwaitDisturbed(disturbance: seq<Event>) returns (k: nat)
      requires Valid() && Inv(View())
      modifies this, client, state, serial, serial.statusRegister
      ensures Valid() && Inv(View()) && k <= |disturbance| && (ready || k == |disturbance|)
      ensures View() == Run(old(View()), disturbance[..k])
    {
      ghost var start := View();
      k := 0;
      while !ready && k < |disturbance|
        invariant Valid() && Inv(View()) && k <= |disturbance|
        invariant View() == Run(start, disturbance[..k])
      {
        StepInv(View(), disturbance[k]);
        OneMoreStep(start, disturbance, k);
        Perform(disturbance[k]);
        k := k + 1;
      }
    }

    /** Waiting for `ready` amid any finite disturbance. */
    method AwaitReady(disturbance: seq<Event>)
      requires Valid() && Inv(View())
      modifies this, client, state, serial, serial.statusRegister
      ensures Valid() && Inv(View()) && ready
      ensures Awaited(old(View()), disturbance, View())
    {
      ghost var start := View();
      var k := AwaitDisturbed(disturbance);
      AwaitUndisturbed();
      CalmAwaited(start, disturbance, k, View());
    }

    /**
     * An update returns, amid any disturbance, and only after a write that carries its changes; without disturbance
     * the unit then holds the requested settings.
     */
    method Update(request: AcUnitState, disturbance: seq<Event>)
      requires Valid() && Inv(View())
      modifies this, client, state, serial, serial.statusRegister
      ensures Valid() && Inv(View()) && ready
      ensures exists es :: Returned(old(View()), request, disturbance, es, View())
      ensures Quiet(disturbance) && ChangesOf(request) != [] ==>
                ConfigOf(serial.View().regs) == Delivered(Overlaid(old(state.View()).config, request))
    {
      ghost var s := View();
      StepInv(s, UserUpdate(ChangesOf(request)));
      BeginUpdate(request);
      ghost var asked := View();
      AwaitReady(disturbance);
      ghost var es :| Amid(disturbance, es) && View() == Run(asked, es);
      ReturnedAfterWrite(s, request, disturbance, es);
    }

    /** The status, for a client that was released. */
    method GetStatus() returns (status: AcUnitState)
      requires Valid() && ready
      ensures status == StatusOf(View().h.local.config)
    {
      var mode := ModeOff;
      if state.enabled {
        match state.mode {
          case Auto => mode := ModeAuto;
          case Cool => mode := ModeCool;
          case Dry => mode := ModeDry;
          case Fan => mode := ModeFan;
          case Heat => mode := ModeHeat;
          case Unknown => mode := ModeUnset;
        }
      }
      var fan := FanUnset;
      match state.fan {
        case Auto => fan := FanAuto;
        case Max => fan := FanMax;
        case High => fan := FanHigh;
        case Medium => fan := FanMedium;
        case Low => fan := FanLow;
        case Unknown =>
      }
      status := AcUnitState(mode, fan, ToInt(state.temperature));
    }

    /** The service's status call: it waits for `ready` as well. */
    method AwaitStatus(disturbance: seq<Event>) returns (status: AcUnitState)
      requires Valid() && Inv(View())
      modifies this, client, state, serial, serial.statusRegister
      ensures Valid() && Inv(View()) && ready
      ensures Awaited(old(View()), disturbance, View())
      ensures status == StatusOf(View().h.local.config)
    {
      AwaitReady(disturbance);
      status := GetStatus();
    }

    /** The service's update call: update, then report the status, which waits a second time. */
    method UpdateAndReport(request: AcUnitState, during: seq<Event>, after: seq<Event>) returns (status: AcUnitState)
      requires Valid() && Inv(View())
      modifies this, client, state, serial, serial.statusRegister
      ensures Valid() && Inv(View()) && ready
      ensures exists es, t, fs ::
                Returned(old(View()), request, during, es, t) && t.ready && Amid(after, fs) && View() == Run(t, fs)
      ensures status == StatusOf(View().h.local.config)
      ensures Quiet(during) && Quiet(after) ==> Reports(request, serial.View().regs.mode, status)
      ensures Quiet(during) && Quiet(after) && ChangesOf(request) != [] && !old(state.swingStep) ==>
                ReadExactly(Overlaid(old(state.View()).config, request), View(), status)
    {
      ghost var s := View();
      Update(request, during);
      ghost var returned := View();
      ghost var es :| Returned(s, request, during, es, returned);
      status := AwaitStatus(after);
      ghost var fs :| Amid(after, fs) && View() == Run(returned, fs);
      if Quiet(during) && Quiet(after) {
        ReportedBack(s, request, during, after, es, fs);
        if ChangesOf(request) != [] && !s.h.local.swingStep {
          ReadBack(s, request, during, after, es, fs);
        }
      }
    }

    /** One step of any thread, or of the remote. */
    method Perform(e: Event)
      requires Valid()
      modifies this, client, state, serial, serial.statusRegister
      ensures Valid() && View() == Step(old(View()), e)
    {
      match e {
        case ReadFrame =>
          if captured.None? {
            ReadMasterFrame(false);
          }
        case MissFrame =>
          if captured.None? {
            ReadMasterFrame(true);
          }
        case HandleFrame =>
          if captured.Some? {
            HandleMasterFrame();
          }
        case UserUpdate(changes) =>
          ChangeState(changes);
        case IrCommand(command) =>
          serial.Command(command);
      }
    }

    /** The loop, interleaved with whatever clients and the remote do: it runs the transition system. */
    method DoLoop(schedule: seq<Event>)
      requires Valid()
      modifies this, client, state, serial, serial.statusRegister
      ensures Valid() && View() == Run(old(View()), schedule)
    {
      ghost var start := View();
      for i := 0 to |schedule|
        invariant Valid() && View() == Run(start, schedule[..i])
      {
        OneMoreStep(start, schedule, i);
        Perform(schedule[i]);
      }
      assert schedule[..|schedule|] == schedule;
    }
  }
}
