/** Runs in which clients change nothing, and runs in which the remote changes nothing. */
module FujiMonitor {
  import opened FujiTypes
  import opened FujiRegister
  import opened FujiFrame
  import opened FujiAcState
  import opened FujiAcUnitSim
  import opened FujiSystem
  import opened FujiInvariants
  import opened FujiDelivery

  /** A remote command on the settings alone. */
  function RemoteConfig(c: Config, change: Change): Config {
    if change.ToTemperature?
    then c.(temperature := Low7(change.temperature), economy := c.economy || Spills(change.temperature))
    else Configure(c, change)
  }

  /** The remote commands of a run, folded over the settings. */
  function RemoteFold(c: Config, es: seq<Event>): Config
    decreases |es|
  {
    if es == [] then c
    else RemoteFold(if es[0].IrCommand? then RemoteConfig(c, es[0].command) else c, es[1..])
  }

  lemma RemoteOnConfig(r: Regs, change: Change)
    ensures ConfigOf(Remote(r, change)) == RemoteConfig(ConfigOf(r), change)
  {
  }

  lemma PassiveStep(s: Sys, e: Event)
    requires Inv(s) && s.h.local.merged && (e.UserUpdate? ==> e.changes == [])
    ensures Step(s, e).h.local.merged
    ensures Output(s, e).Some? ==> !Output(s, e).value.Writes()
    ensures ConfigOf(Step(s, e).u.regs) ==
      if e.IrCommand? then RemoteConfig(ConfigOf(s.u.regs), e.command) else ConfigOf(s.u.regs)
  {
    match e
    case ReadFrame =>
    case MissFrame =>
    case HandleFrame =>
      if s.captured.Some? {
        OnlyWritesChangeSettings(s);
      }
    case UserUpdate(_) =>
    case IrCommand(command) =>
      RemoteOnConfig(s.u.regs, command);
  }

  /**
   * A controller whose clients change nothing is a passive monitor: it never sets a write bit, and the unit's
   * settings are what the remote alone makes of them.
   */
  lemma {:induction false} PassiveMonitor(s: Sys, es: seq<Event>)
    requires Inv(s) && s.h.local.merged && NoUserChange(es)
    ensures forall r :: r in Trace(s, es) ==> !r.Writes()
    ensures ConfigOf(Run(s, es).u.regs) == RemoteFold(ConfigOf(s.u.regs), es)
    ensures Run(s, es).h.local.merged
    decreases |es|
  {
    if es != [] {
      StepInv(s, es[0]);
      PassiveStep(s, es[0]);
      PassiveMonitor(Step(s, es[0]), es[1..]);
    }
  }

  predicate NoHandling(es: seq<Event>) {
    forall i :: 0 <= i < |es| ==> es[i] != HandleFrame
  }

  /** A frame under way waits for the mutex as it was read, and the handler waits with it. */
  lemma {:induction false} FrameIsHeld(s: Sys, es: seq<Event>)
    requires s.captured.Some? && NoUserChange(es) && NoHandling(es)
    ensures Run(s, es).captured == s.captured && Run(s, es).h == s.h
    decreases |es|
  {
    if es != [] {
      FrameIsHeld(Step(s, es[0]), es[1..]);
    }
  }

  /**
   * And whenever it has read a status frame, and whatever the remote does until the frame is handled, the local copy
   * becomes the unit's settings as they were at the time of reading. A registered controller echoes them.
   */
  lemma MonitorCopies(s: Sys, es: seq<Event>)
    requires Inv(s) && s.h.local.merged && s.captured == None && s.u.next == RegisterType.Status
    requires NoUserChange(es) && NoHandling(es)
    ensures
      var t := Run(Step(s, ReadFrame), es);
      && t.captured.Some?
      && HandleCaptured(t).h.local.config == ConfigOf(s.u.regs)
      && Output(t, HandleFrame) == Some(
           if LoginPending(s) then Query(RegisterType.Login)
           else Settings(false, false, Build(s.h.local.(config := ConfigOf(s.u.regs)))))
  {
    FrameIsHeld(Step(s, ReadFrame), es);
  }
}
