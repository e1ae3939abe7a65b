/** What becomes of the settings that an update leaves unset. */
module FujiUnset {
  import opened FujiBits
  import opened FujiTypes
  import opened FujiRegister
  import opened FujiFrame
  import opened FujiAcState
  import opened FujiAcUnitSim
  import opened FujiSystem
  import opened FujiInvariants
  import opened FujiDelivery
  import opened FujiConvergence
  import opened FujiRequests

  /** The settings after a sequence of setter calls. */
  function Configured(c: Config, changes: seq<Change>): Config
    decreases |changes|
  {
    if changes == [] then c else Configured(Configure(c, changes[0]), changes[1..])
  }

  lemma {:induction false} ApplyConfigures(l: Local, changes: seq<Change>)
    ensures ApplyAll(l, changes).config == Configured(l.config, changes)
    decreases |changes|
  {
    if changes != [] {
      ApplyConfigures(Apply(l, changes[0]), changes[1..]);
    }
  }

  /** The fields that some setter call replaces, with what the last one puts there. */
  datatype Patch = Patch(
    enabled: Option<bool>, mode: Option<Mode>, fan: Option<FanSpeed>,
    economy: Option<bool>, temperature: Option<Byte>, swing: Option<bool>)

  function OrElse<T>(patch: Option<T>, otherwise: T): T {
    if patch.Some? then patch.value else otherwise
  }

  /** A setter call before the others: it counts for its field if no later one does. */
  function Before(change: Change, p: Patch): Patch {
    match change
    case ToEnabled(enabled) => p.(enabled := Some(OrElse(p.enabled, enabled)))
    case ToMode(mode) => p.(mode := Some(OrElse(p.mode, mode)))
    case ToFan(fan) => p.(fan := Some(OrElse(p.fan, fan)))
    case ToEconomy(economy) => p.(economy := Some(OrElse(p.economy, economy)))
    case ToTemperature(temperature) => p.(temperature := Some(OrElse(p.temperature, temperature)))
    case ToSwing(swing) => p.(swing := Some(OrElse(p.swing, swing)))
    case ToSwingStep(_) => p
  }

  function PatchOf(changes: seq<Change>): Patch
    decreases |changes|
  {
    if changes == [] then Patch(None, None, None, None, None, None)
    else Before(changes[0], PatchOf(changes[1..]))
  }

  function Patched(c: Config, p: Patch): Config {
    Config(OrElse(p.enabled, c.enabled), OrElse(p.mode, c.mode), OrElse(p.fan, c.fan),
           OrElse(p.economy, c.economy), OrElse(p.temperature, c.temperature), OrElse(p.swing, c.swing))
  }

  lemma PatchedBefore(c: Config, change: Change, p: Patch)
    ensures Patched(Configure(c, change), p) == Patched(c, Before(change, p))
  {
    match change
    case ToEnabled(_) =>
    case ToMode(_) =>
    case ToFan(_) =>
    case ToEconomy(_) =>
    case ToTemperature(_) =>
    case ToSwing(_) =>
    case ToSwingStep(_) =>
  }

  /** From any start, the touched fields end up as the patch says and the others stay. */
  lemma {:induction false} ConfiguredIsPatched(c: Config, changes: seq<Change>)
    ensures Configured(c, changes) == Patched(c, PatchOf(changes))
    decreases |changes|
  {
    if changes != [] {
      ConfiguredIsPatched(Configure(c, changes[0]), changes[1..]);
      PatchedBefore(c, changes[0], PatchOf(changes[1..]));
    }
  }

  /**
   * Local and unit settings agree on what the changes leave alone, as far as a write delivers it: FAN mode delivers
   * neither economy nor temperature, and a temperature that spills delivers economy.
   */
  predicate AgreeUntouched(local: Config, unit: Config, changes: seq<Change>) {
    var p := PatchOf(changes);
    && (p.enabled.None? ==> local.enabled == unit.enabled)
    && (p.mode.None? ==> local.mode == unit.mode)
    && (p.fan.None? ==> local.fan == unit.fan)
    && (p.swing.None? ==> local.swing == unit.swing)
    && (OrElse(p.mode, unit.mode) != Mode.Fan ==>
          && (p.temperature.None? ==> Low7(local.temperature) == Low7(unit.temperature))
          && (OrElse(p.economy, local.economy) || Spills(OrElse(p.temperature, local.temperature)))
             == (OrElse(p.economy, unit.economy) || Spills(OrElse(p.temperature, unit.temperature))))
  }

  lemma DeliveredSame(a: Config, b: Config)
    ensures Delivered(a) == Delivered(b) <==>
      && a.enabled == b.enabled && a.mode == b.mode && a.fan == b.fan && a.swing == b.swing
      && (b.mode != Mode.Fan ==>
            && Low7(a.temperature) == Low7(b.temperature)
            && (a.economy || Spills(a.temperature)) == (b.economy || Spills(b.temperature)))
  {
  }

  lemma UntouchedIff(local: Config, unit: Config, changes: seq<Change>)
    ensures Delivered(Configured(local, changes)) == Delivered(Configured(unit, changes))
       <==> AgreeUntouched(local, unit, changes)
  {
    ConfiguredIsPatched(local, changes);
    ConfiguredIsPatched(unit, changes);
    DeliveredSame(Configured(local, changes), Configured(unit, changes));
  }

  predicate NoWrite(replies: seq<Reply>) {
    forall r :: r in replies ==> !r.Writes()
  }

  lemma DeliveryIsTraced(s: Sys, es: seq<Event>, j: nat)
    requires DeliversAt(s, es, j)
    ensures !NoWrite(Trace(s, es))
  {
    var before, rest := Run(s, es[..j]), es[j..];
    assert es == es[..j] + rest;
    RunAppend(s, es[..j], rest);
    assert Output(before, rest[0]).value in Trace(before, rest);
  }

  /** The first write after an update carries the local settings overlaid by every change since. */
  lemma FirstWrite(s: Sys, changes: seq<Change>, es: seq<Event>)
    requires Inv(s) && changes != []
    requires NoWrite(Trace(Step(s, UserUpdate(changes)), es)) && WillWrite(Run(Step(s, UserUpdate(changes)), es))
    ensures ConfigOf(HandleCaptured(Run(Step(s, UserUpdate(changes)), es)).u.regs)
         == Delivered(Configured(s.h.local.config, changes + ChangesIn(es)))
  {
    var asked := Step(s, UserUpdate(changes));
    StepInv(s, UserUpdate(changes));
    ApplyAllFrame(s.h.local, changes);
    PendingOrDelivered(asked, es);
    if j: nat :| DeliversAt(asked, es, j) {
      DeliveryIsTraced(asked, es, j);
    }
    assert StillPending(asked, es);
    ApplyAllAppend(s.h.local, changes, ChangesIn(es));
    ApplyConfigures(s.h.local, changes + ChangesIn(es));
    WriteTakesPrecedence(Run(asked, es));
  }

  /**
   * Whatever other clients, the loop and the remote do until the first write after an update: that write leaves the
   * unit with settings `unit` overlaid by the clients' changes exactly if the local settings agreed with `unit`, when
   * the update was issued, on what the changes leave alone. Taken for the unit's settings at any time, this says
   * whether unset fields keep their value.
   */
  lemma UnsetFieldsAreKept(s: Sys, changes: seq<Change>, es: seq<Event>, unit: Config)
    requires Inv(s) && changes != []
    requires NoWrite(Trace(Step(s, UserUpdate(changes)), es)) && WillWrite(Run(Step(s, UserUpdate(changes)), es))
    ensures
      ConfigOf(HandleCaptured(Run(Step(s, UserUpdate(changes)), es)).u.regs)
        == Delivered(Configured(unit, changes + ChangesIn(es)))
      <==> AgreeUntouched(s.h.local.config, unit, changes + ChangesIn(es))
  {
    FirstWrite(s, changes, es);
    UntouchedIff(s.h.local.config, unit, changes + ChangesIn(es));
  }

  /** Local and unit settings agree on every field that the request leaves unset; off leaves the mode unset. */
  predicate AgreeUnset(local: Config, unit: Config, request: AcUnitState) {
    && (request.mode == ModeUnset ==> local.enabled == unit.enabled)
    && (request.mode == ModeUnset || request.mode == ModeOff ==> local.mode == unit.mode)
    && (request.fan == FanUnset ==> local.fan == unit.fan)
    && local.swing == unit.swing
    && (ModeOfRequest(request.mode, unit.mode) != Mode.Fan ==>
          if request.setpoint == 0
          then Low7(local.temperature) == Low7(unit.temperature)
            && (local.economy || Spills(local.temperature)) == (unit.economy || Spills(unit.temperature))
          else Spills(Narrow(request.setpoint)) || local.economy == unit.economy)
  }

  lemma UnsetIff(local: Config, unit: Config, request: AcUnitState)
    ensures Delivered(Overlaid(local, request)) == Delivered(Overlaid(unit, request))
       <==> AgreeUnset(local, unit, request)
  {
    DeliveredSame(Overlaid(local, request), Overlaid(unit, request));
  }

  lemma {:induction false} NothingChanged(es: seq<Event>)
    requires NoUserChange(es)
    ensures ChangesIn(es) == []
    decreases |es|
  {
    if es != [] {
      NothingChanged(es[1..]);
    }
  }

  /**
   * The promise for one request, with no other client: the first write leaves the unit with its settings overlaid by
   * the request exactly if both sides agreed on every field that the request leaves unset. `unit` may be the unit's
   * settings when the update was issued, or those after the remote's commands since.
   */
  lemma UnsetKeptIff(s: Sys, request: AcUnitState, es: seq<Event>, unit: Config)
    requires Inv(s) && ChangesOf(request) != [] && NoUserChange(es)
    requires NoWrite(Trace(Step(s, UserUpdate(ChangesOf(request))), es))
    requires WillWrite(Run(Step(s, UserUpdate(ChangesOf(request))), es))
    ensures
      ConfigOf(HandleCaptured(Run(Step(s, UserUpdate(ChangesOf(request))), es)).u.regs)
        == Delivered(Overlaid(unit, request))
      <==> AgreeUnset(s.h.local.config, unit, request)
  {
    var changes := ChangesOf(request);
    FirstWrite(s, changes, es);
    NothingChanged(es);
    assert changes + ChangesIn(es) == changes;
    ApplyConfigures(s.h.local, changes);
    UpdateOverlays(s.h.local, request);
    UnsetIff(s.h.local.config, unit, request);
  }

  /** Nothing is hidden from a client that will be released: local and unit settings agree whenever `ready` holds. */
  predicate InStep(s: Sys) {
    && (Registered(s) ==> !Stale(s))
    && (s.h.local.merged || (Registered(s) && !s.h.local.swingStep && SentSettings(s) && s.last.panel.swingStep))
    && (s.ready ==> s.h.local.merged && Echoed(s))
  }

  lemma InStepHandle(s: Sys)
    requires Inv(s) && InStep(s) && s.captured.Some?
    ensures InStep(HandleCaptured(s))
  {
    if LoginPending(s) {
    } else if LoginQueried(s) {
    } else if s.h.local.merged {
    } else {
    }
  }

  lemma {:induction false} StaysInStep(s: Sys, es: seq<Event>)
    requires Inv(s) && InStep(s) && Quiet(es)
    ensures Inv(Run(s, es)) && InStep(Run(s, es))
    decreases |es|
  {
    if es != [] {
      StepInv(s, es[0]);
      if es[0] == HandleFrame && s.captured.Some? {
        InStepHandle(s);
      }
      StaysInStep(Step(s, es[0]), es[1..]);
    }
  }

  /** Once a frame was handled without disturbance, the next one under way is up to date. */
  lemma {:induction false} ReleasedNotStale(s: Sys, es: seq<Event>)
    requires Inv(s) && Quiet(es) && (s.ready ==> !Stale(s))
    ensures Run(s, es).ready ==> !Stale(Run(s, es))
    decreases |es|
  {
    if es != [] {
      StepInv(s, es[0]);
      ReleasedNotStale(Step(s, es[0]), es[1..]);
    }
  }

  /** The state some steps after a client's update. */
  function Updated(s: Sys, changes: seq<Change>, es: seq<Event>): Sys {
    Run(Step(s, UserUpdate(changes)), es)
  }

  /**
   * What a client can see: when two status requests, sent as empty updates, have returned one after the other with no
   * other client and no remote command since the first was issued, the system is settled, so local and unit settings
   * agree on every field.
   */
  lemma TwoStatusCallsAgree(s: Sys, first: seq<Event>, second: seq<Event>)
    requires Inv(s) && Quiet(first) && Quiet(second)
    requires Updated(s, [], first).ready && Updated(Updated(s, [], first), [], second).ready
    ensures Inv(Updated(s, [], first)) && Inv(Updated(Updated(s, [], first), [], second))
    ensures Settled(Updated(Updated(s, [], first), [], second))
  {
    var t := Updated(s, [], first);
    StepInv(s, UserUpdate([]));
    RunInv(Step(s, UserUpdate([])), first);
    ReleasedNotStale(Step(s, UserUpdate([])), first);
    StepInv(t, UserUpdate([]));
    StaysInStep(Step(t, UserUpdate([])), second);
    RankBound(Updated(t, [], second));
  }

  /** The remote switches the unit on or off, and a client asks for the status once. */
  function SwitchedThenAsked(on: bool): seq<Event> {
    [IrCommand(ToEnabled(on)), UserUpdate([])]
  }

  /** One such call is not enough: the frame under way may be older than a remote command before the call. */
  lemma OneStatusCallIsNotEnough(s: Sys)
    requires Inv(s) && Settled(s) && s.captured.Some?
    ensures
      var t := Run(Run(s, SwitchedThenAsked(!s.u.regs.enabled)), [HandleFrame]);
      t.ready && t.h.local.config.enabled != t.u.regs.enabled
  {
    RunTwo(s, IrCommand(ToEnabled(!s.u.regs.enabled)), UserUpdate([]));
    RunOne(Run(s, SwitchedThenAsked(!s.u.regs.enabled)), HandleFrame);
  }

  /**
   * Hence a client that looks before it updates gets what the service promises: the unit ends up with the settings it
   * had, overlaid by the request.
   */
  lemma LookThenUpdate(s: Sys, first: seq<Event>, second: seq<Event>, request: AcUnitState, third: seq<Event>)
    requires Inv(s) && Quiet(first) && Quiet(second) && Quiet(third) && ChangesOf(request) != []
    requires Updated(s, [], first).ready && Updated(Updated(s, [], first), [], second).ready
    ensures
      var seen := Updated(Updated(s, [], first), [], second);
      var done := Updated(seen, ChangesOf(request), third);
      done.ready ==>
        && ConfigOf(done.u.regs) == Delivered(Overlaid(ConfigOf(seen.u.regs), request))
        && UnsetReported(request, seen.h.local.config, done.h.local.config)
  {
    TwoStatusCallsAgree(s, first, second);
    var seen := Updated(Updated(s, [], first), [], second);
    var done := Updated(seen, ChangesOf(request), third);
    UpdateIsTaken(seen, request, third);
    UnsetReports(ConfigOf(seen.u.regs), request);
  }

  /** The status reports unset fields as before; in FAN mode the unit decides on the setpoint. */
  predicate UnsetReported(request: AcUnitState, before: Config, after: Config) {
    && (request.mode == ModeUnset ==> ModeReport(after) == ModeReport(before))
    && (request.fan == FanUnset ==> FanReport(after) == FanReport(before))
    && (request.setpoint == 0 && after.mode != Mode.Fan ==> after.temperature == before.temperature)
  }

  lemma DeliveryIsReported(request: AcUnitState, before: Config, asked: Config)
    requires !Spills(before.temperature) && UnsetReported(request, before, asked)
    ensures UnsetReported(request, before, Delivered(asked))
  {
  }

  lemma UnsetReports(unit: Config, request: AcUnitState)
    requires !Spills(unit.temperature)
    ensures UnsetReported(request, unit, Overlaid(unit, request))
    ensures UnsetReported(request, unit, Delivered(Overlaid(unit, request)))
  {
    DeliveryIsReported(request, unit, Overlaid(unit, request));
  }

  /** Until its write an undisturbed update leaves the unit as it was. */
  predicate Untouched(s: Sys, unit: Config) {
    if s.h.local.merged then Registered(s) else !s.h.local.swingStep && ConfigOf(s.u.regs) == unit
  }

  lemma UntouchedHandle(s: Sys, unit: Config)
    requires Inv(s) && Untouched(s, unit) && s.captured.Some?
    ensures Untouched(HandleCaptured(s), unit)
  {
    if s.h.local.merged {
    } else if WillWrite(s) {
    } else {
      OnlyWritesChangeSettings(s);
    }
  }

  lemma UntouchedStep(s: Sys, e: Event, unit: Config)
    requires Inv(s) && Untouched(s, unit) && QuietEvent(e)
    ensures Untouched(Step(s, e), unit)
  {
    match e
    case ReadFrame =>
    case MissFrame =>
    case HandleFrame =>
      if s.captured.Some? {
        UntouchedHandle(s, unit);
      }
  }

  lemma {:induction false} UntouchedUntilWrite(s: Sys, es: seq<Event>, unit: Config)
    requires Inv(s) && Quiet(es) && Untouched(s, unit)
    ensures Untouched(Run(s, es), unit)
    decreases |es|
  {
    if es != [] {
      StepInv(s, es[0]);
      UntouchedStep(s, es[0], unit);
      UntouchedUntilWrite(Step(s, es[0]), es[1..], unit);
    }
  }

  /**
   * A client that does not look first: an update right after power-on overlays the controller's defaults, and the
   * unit takes them over with the third handled frame, whatever it was set to.
   */
  lemma DefaultsAreWritten(s: Sys, request: AcUnitState, es: seq<Event>)
    requires Initial(s) && ChangesOf(request) != [] && Quiet(es)
    ensures
      ConfigOf(Updated(s, ChangesOf(request), es).u.regs) ==
        if Cycles(Step(s, UserUpdate(ChangesOf(request))), es) < 3 then ConfigOf(s.u.regs)
        else Delivered(Overlaid(INITIAL_LOCAL.config, request))
  {
    var changes := ChangesOf(request);
    var asked, t := Step(s, UserUpdate(changes)), Updated(s, changes, es);
    InitialInv(s);
    StepInv(s, UserUpdate(changes));
    ApplyAllFrame(s.h.local, changes);
    RequestsHaveNoSwingStep(request);
    NoSwingStepApplied(s.h.local, changes);
    UpdateOverlays(s.h.local, request);
    OnTheWayRuns(asked, es);
    WaitingOrTaken(asked, es, Overlaid(INITIAL_LOCAL.config, request));
    UntouchedUntilWrite(asked, es, ConfigOf(s.u.regs));
    assert Rank(asked) == 5;
    if Cycles(asked, es) < 3 {
      assert Rank(t) >= 3;
    } else {
      assert Rank(t) <= 2;
    }
  }

  /** The controller's defaults, with the fields that a request sets, in plain values. */
  predicate DefaultsWith(c: Config, request: AcUnitState) {
    && (c.enabled <==> request.mode != ModeUnset && request.mode != ModeOff)
    && (request.mode == ModeUnset || request.mode == ModeOff ==> c.mode == Mode.Auto)
    && (request.fan == FanUnset ==> c.fan == FanSpeed.Auto)
    && !c.swing
    && (c.economy <==> c.mode != Mode.Fan && request.setpoint % 256 >= 128)
    && ToInt(c.temperature) ==
         if request.mode == ModeFan then 18 else if request.setpoint == 0 then 20 else request.setpoint % 128
  }

  lemma SetpointDelivered(setpoint: int)
    ensures ToInt(Low7(Narrow(setpoint))) == setpoint % 128
    ensures Spills(Narrow(setpoint)) <==> setpoint % 256 >= 128
  {
    NarrowIsModulo(setpoint);
    LowSeven(Narrow(setpoint));
    Setpoints(setpoint);
  }

  lemma DefaultTemperatures()
    ensures ToInt(TWENTY) == 20 && ToInt(EIGHTEEN) == 18 && Low7(TWENTY) == TWENTY && !Spills(TWENTY)
  {
  }

  lemma DefaultsInValues(request: AcUnitState)
    ensures DefaultsWith(Delivered(Overlaid(INITIAL_LOCAL.config, request)), request)
  {
    SetpointDelivered(request.setpoint);
    DefaultTemperatures();
    if request.mode == ModeFan {
    } else if request.setpoint == 0 {
    } else {
    }
  }

  /**
   * So after any first request every field that it leaves unset has its default on the unit: off, automatic mode and
   * fan, 20 degrees, economy and swing off.
   */
  lemma UnsetFieldsGetDefaults(s: Sys, request: AcUnitState, es: seq<Event>)
    requires Initial(s) && ChangesOf(request) != [] && Quiet(es)
    requires Cycles(Step(s, UserUpdate(ChangesOf(request))), es) >= 3
    ensures DefaultsWith(ConfigOf(Updated(s, ChangesOf(request), es).u.regs), request)
  {
    DefaultsAreWritten(s, request, es);
    DefaultsInValues(request);
  }

  /** A request that sets the fan alone, to a unit that cools to 18 degrees, switches it to automatic and 20. */
  lemma FanRequestChangesMode(s: Sys, es: seq<Event>)
    requires Initial(s) && s.u == INITIAL_UNIT && Quiet(es)
    requires Cycles(Step(s, UserUpdate([ToFan(FanSpeed.High)])), es) >= 3
    ensures ChangesOf(AcUnitState(ModeUnset, FanHigh, 0)) == [ToFan(FanSpeed.High)]
    ensures !s.u.regs.enabled && s.u.regs.mode == Mode.Cool && ToInt(s.u.regs.temperature) == 18
    ensures var r := Updated(s, [ToFan(FanSpeed.High)], es).u.regs;
      && !r.enabled && r.mode == Mode.Auto && r.fan == FanSpeed.High
      && ToInt(r.temperature) == 20 && !r.economy && !r.swing
  {
    var request := AcUnitState(ModeUnset, FanHigh, 0);
    DefaultsAreWritten(s, request, es);
    UnsetFieldsGetDefaults(s, request, es);
  }
}
