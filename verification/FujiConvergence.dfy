/** How fast the controller and the unit agree once clients and remote fall silent. */
module FujiConvergence {
  import opened FujiTypes
  import opened FujiRegister
  import opened FujiFrame
  import opened FujiAcState
  import opened FujiAcUnitSim
  import opened FujiSystem
  import opened FujiInvariants

  /** The frame under way no longer shows the unit's settings. */
  predicate Stale(s: Sys) {
    s.captured.Some? && ConfigOf(s.captured.value.regs) != ConfigOf(s.u.regs)
  }

  /** Both sides hold the same settings, and the controller's last frame says so. */
  predicate Echoed(s: Sys) {
    s.h.local.config == ConfigOf(s.u.regs) && s.last == Settings(false, false, Build(s.h.local))
  }

  /** Frames left to handle until the system is settled. */
  function Rank(s: Sys): nat {
    var pending := if s.h.local.swingStep then 2 else if !s.h.local.merged then 1 else 0;
    if LoginPending(s) then 4 + pending
    else if LoginQueried(s) then 3 + pending
    else if !s.h.local.merged then 2 + pending
    else if Stale(s) then 3
    else if Echoed(s) then if s.ready then 0 else 1
    else 2
  }

  /** Clients are released, and nothing is left to say. */
  predicate Settled(s: Sys) {
    Registered(s) && s.ready && s.h.local.merged && !Stale(s) && Echoed(s)
  }

  lemma RankBound(s: Sys)
    requires Inv(s)
    ensures Rank(s) <= if s.h.local.swingStep then 6 else 5
    ensures Rank(s) == 0 <==> Settled(s)
  {
  }

  predicate QuietEvent(e: Event) {
    !e.UserUpdate? && !e.IrCommand?
  }

  lemma QuietHandle(s: Sys)
    requires Inv(s) && s.captured.Some?
    ensures Rank(HandleCaptured(s)) < Rank(s) || (Settled(s) && Settled(HandleCaptured(s)))
  {
    if LoginPending(s) {
    } else if LoginQueried(s) {
    } else if !s.h.local.merged {
    } else {
    }
  }

  lemma QuietStep(s: Sys, e: Event)
    requires Inv(s) && QuietEvent(e)
    ensures Rank(Step(s, e)) <=
      if e == HandleFrame && s.captured.Some? && Rank(s) > 0 then Rank(s) - 1 else Rank(s)
  {
    RankBound(s);
    if e == HandleFrame && s.captured.Some? {
      QuietHandle(s);
      HandleInv(s);
      RankBound(HandleCaptured(s));
    }
  }

  /** From every reachable state, each handled frame of a quiet run brings the system closer to settled. */
  lemma {:induction false} Converges(s: Sys, es: seq<Event>)
    requires Inv(s) && Quiet(es)
    ensures Rank(Run(s, es)) + Cycles(s, es) <= Rank(s) || Rank(Run(s, es)) == 0
    ensures Cycles(s, es) >= Rank(s) ==> Settled(Run(s, es))
    decreases |es|
  {
    RunInv(s, es);
    RankBound(Run(s, es));
    if es != [] {
      StepInv(s, es[0]);
      QuietStep(s, es[0]);
      Converges(Step(s, es[0]), es[1..]);
    }
  }

  /** Five handled frames settle the system, six when a swing step is pending. */
  lemma SettlesInFiveOrSix(s: Sys, es: seq<Event>)
    requires Inv(s) && Quiet(es)
    requires Cycles(s, es) >= if s.h.local.swingStep then 6 else 5
    ensures Settled(Run(s, es))
  {
    RankBound(s);
    Converges(s, es);
  }

  lemma SettledStep(s: Sys, e: Event)
    requires Inv(s) && Settled(s) && QuietEvent(e)
    ensures Settled(Step(s, e))
    ensures Step(s, e).h == s.h && Step(s, e).last == s.last
    ensures ConfigOf(Step(s, e).u.regs) == ConfigOf(s.u.regs)
    ensures Output(s, e).Some? ==> Output(s, e).value == s.last
  {
  }

  /** A settled system repeats the same frame without write bit, and neither side changes any more. */
  lemma {:induction false} SettledStays(s: Sys, es: seq<Event>)
    requires Inv(s) && Settled(s) && Quiet(es)
    ensures Settled(Run(s, es)) && Run(s, es).h == s.h
    ensures ConfigOf(Run(s, es).u.regs) == ConfigOf(s.u.regs)
    ensures forall r :: r in Trace(s, es) ==> r == Settings(false, false, Build(s.h.local))
    decreases |es|
  {
    if es != [] {
      StepInv(s, es[0]);
      SettledStep(s, es[0]);
      SettledStays(Step(s, es[0]), es[1..]);
    }
  }

  /** States on the way from power-on: the next frame is never an accidental repetition of the last. */
  predicate OnTheWay(s: Sys) {
    && (s.ready ==> Rank(s) == 0)
    && (Registered(s) && s.h.local.merged ==> !Stale(s))
    && (Registered(s) ==>
          || s.last.login
          || (!s.h.local.merged && !s.h.local.swingStep && s.last.write && s.last.panel.swingStep)
          || (s.h.local.merged && s.last.write)
          || Rank(s) <= 1)
  }

  lemma OnTheWayStep(s: Sys, e: Event)
    requires Inv(s) && OnTheWay(s) && QuietEvent(e)
    ensures OnTheWay(Step(s, e))
    ensures Rank(Step(s, e)) ==
      if e == HandleFrame && s.captured.Some? && Rank(s) > 0 then Rank(s) - 1 else Rank(s)
  {
    RankBound(s);
    if LoginPending(s) {
    } else if LoginQueried(s) {
    } else if !s.h.local.merged {
    } else {
    }
  }

  lemma {:induction false} OnTheWayRuns(s: Sys, es: seq<Event>)
    requires Inv(s) && OnTheWay(s) && Quiet(es)
    ensures OnTheWay(Run(s, es)) && Rank(Run(s, es)) == if Cycles(s, es) < Rank(s) then Rank(s) - Cycles(s, es) else 0
    decreases |es|
  {
    if es != [] {
      StepInv(s, es[0]);
      OnTheWayStep(s, es[0]);
      OnTheWayRuns(Step(s, es[0]), es[1..]);
    }
  }

  /** The bounds are tight: a first update is released by exactly the fifth handled frame, or the sixth. */
  lemma FirstUpdateTakesExactly(s: Sys, changes: seq<Change>, es: seq<Event>)
    requires Initial(s) && changes != [] && Quiet(es)
    ensures
      var asked := Step(s, UserUpdate(changes));
      Run(asked, es).ready <==> Cycles(asked, es) >= if asked.h.local.swingStep then 6 else 5
  {
    InitialInv(s);
    StepInv(s, UserUpdate(changes));
    ApplyAllFrame(s.h.local, changes);
    var asked := Step(s, UserUpdate(changes));
    OnTheWayRuns(asked, es);
    RunInv(asked, es);
    RankBound(Run(asked, es));
  }

  /**
   * Which handled frame releases the clients: once registered, one that is answered like the frame before. With
   * nothing pending that means that the unit still shows what was echoed last.
   */
  lemma ReleasedIff(s: Sys)
    requires Inv(s) && s.captured.Some?
    ensures HandleCaptured(s).ready <==>
      || s.ready
      || (Registered(s) && s.last ==
            if s.h.local.merged then Settings(false, false, Build(Merge(s.h.local, s.captured.value.regs)))
            else Settings(false, true, Build(s.h.local)))
  {
    if LoginPending(s) {
    } else if LoginQueried(s) {
    } else if s.h.local.merged {
    } else {
    }
  }

  /** The settings frame that echoes a status register. */
  function Echo(r: Regs): Reply {
    Settings(false, false, Build(Local(ConfigOf(r), false, r.error, r.present, true)))
  }

  /** The echoes of the frames handled during a run, in order. */
  function Echoes(s: Sys, es: seq<Event>): seq<Reply>
    decreases |es|
  {
    if es == [] then []
    else (if es[0] == HandleFrame && s.captured.Some? then [Echo(s.captured.value.regs)] else [])
         + Echoes(Step(s, es[0]), es[1..])
  }

  /** Two replies in a row are the same, counting the one before. */
  predicate TwoAlike(last: Reply, replies: seq<Reply>)
    decreases |replies|
  {
    replies != [] && (replies[0] == last || TwoAlike(replies[0], replies[1..]))
  }

  lemma MonitorStep(s: Sys, e: Event)
    requires Inv(s) && Registered(s) && s.h.local.merged && !e.UserUpdate?
    ensures var t := Step(s, e);
      && Registered(t) && t.h.local.merged
      && if e == HandleFrame && s.captured.Some?
         then t.last == Echo(s.captured.value.regs) && t.ready == (s.ready || t.last == s.last)
         else t.last == s.last && t.ready == s.ready
  {
    match e
    case ReadFrame =>
    case MissFrame =>
    case HandleFrame =>
    case IrCommand(command) =>
      RemoteKeepsReport(s.u.regs, command);
  }

  /**
   * Over whole runs without updates, whatever the remote does: once nothing is pending, clients are released exactly
   * if they were before, or two frames handled in a row show settings with the same echo, the first of them counted
   * against the last frame sent.
   */
  lemma {:induction false} ReleasedByTwoAlike(s: Sys, es: seq<Event>)
    requires Inv(s) && Registered(s) && s.h.local.merged && NoUpdate(es)
    ensures Run(s, es).ready <==> s.ready || TwoAlike(s.last, Echoes(s, es))
    decreases |es|
  {
    if es != [] {
      var t := Step(s, es[0]);
      StepInv(s, es[0]);
      MonitorStep(s, es[0]);
      ReleasedByTwoAlike(t, es[1..]);
      if es[0] == HandleFrame && s.captured.Some? {
        assert Echoes(s, es)[1..] == Echoes(t, es[1..]);
      } else {
        assert Echoes(s, es) == Echoes(t, es[1..]);
      }
    }
  }

  /** The remote switches the unit on and off in turn, once before every frame, `n` times. */
  function Toggling(on: bool, n: nat): seq<Event>
    decreases n
  {
    if n == 0 then [] else [IrCommand(ToEnabled(on)), ReadFrame, HandleFrame] + Toggling(!on, n - 1)
  }

  lemma ToggledOnce(s: Sys, on: bool) returns (t: Sys)
    requires Inv(s) && Registered(s) && s.h.local.merged && s.captured == None && s.last.panel.enabled != on
    ensures t == Run(s, [IrCommand(ToEnabled(on)), ReadFrame, HandleFrame])
    ensures Inv(t) && Registered(t) && t.h.local.merged && t.captured == None && t.last.panel.enabled == on
    ensures t.ready == s.ready
  {
    var toggled := Step(s, IrCommand(ToEnabled(on)));
    RunThree(s, IrCommand(ToEnabled(on)), ReadFrame, HandleFrame);
    RunInv(s, [IrCommand(ToEnabled(on)), ReadFrame, HandleFrame]);
    t := HandleCaptured(Step(toggled, ReadFrame));
  }

  /** A remote that changes a setting before every frame keeps a waiting client from ever being released. */
  lemma {:induction false} TogglingStarvesClients(s: Sys, on: bool, n: nat)
    requires Inv(s) && Registered(s) && s.h.local.merged && s.captured == None && s.last.panel.enabled != on
    ensures Run(s, Toggling(on, n)).ready == s.ready
    decreases n
  {
    if n > 0 {
      var once := ToggledOnce(s, on);
      RunAppend(s, [IrCommand(ToEnabled(on)), ReadFrame, HandleFrame], Toggling(!on, n - 1));
      TogglingStarvesClients(once, !on, n - 1);
    }
  }
}
