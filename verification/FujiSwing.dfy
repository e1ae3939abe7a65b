/** The swing step as a pulse, through controller and unit. */
module FujiSwing {
  import opened FujiFrame
  import opened FujiSystem
  import opened FujiInvariants
  import opened FujiRegistration

  predicate MovesFlap(r: Reply) {
    r.Writes() && r.panel.swingStep
  }

  /** How many of the replies make the unit move its flap. */
  function Pulses(replies: seq<Reply>): nat
    decreases |replies|
  {
    if replies == [] then 0 else (if MovesFlap(replies[0]) then 1 else 0) + Pulses(replies[1..])
  }

  lemma PulsesOfTrace(s: Sys, es: seq<Event>)
    requires es != []
    ensures var out := Output(s, es[0]);
      Pulses(Trace(s, es)) ==
        (if out.Some? && MovesFlap(out.value) then 1 else 0) + Pulses(Trace(Step(s, es[0]), es[1..]))
  {
    var out, rest := Output(s, es[0]), Trace(Step(s, es[0]), es[1..]);
    if out.Some? {
      assert Trace(s, es)[1..] == rest;
    } else {
      assert Trace(s, es) == rest;
    }
  }

  lemma SwingEvent(s: Sys, e: Event)
    requires Inv(s) && (e.UserUpdate? ==> e.changes == [])
    ensures var t := Step(s, e); var handled := e == HandleFrame && s.captured.Some?;
      && t.h.local.swingStep == (s.h.local.swingStep && !(handled && Stage(s) == 2))
      && (handled ==> Output(s, e).Some? && (MovesFlap(Output(s, e).value) <==> Stage(s) == 2 && s.h.local.swingStep))
  {
    if Stage(s) == 0 {
    } else if Stage(s) == 1 {
    } else {
    }
  }

  /**
   * With no further change by clients, and whatever the remote does, a pending swing step moves the flap once: in
   * the first frame after registration. Without one pending the flap is never moved by the controller.
   */
  lemma {:induction false} SwingStepMovesFlapOnce(s: Sys, es: seq<Event>)
    requires Inv(s) && NoUserChange(es)
    ensures Pulses(Trace(s, es)) ==
      if s.h.local.swingStep && Stage(s) + Cycles(s, es) > 2 then 1 else 0
    decreases |es|
  {
    if es != [] {
      SwingEvent(s, es[0]);
      StepInv(s, es[0]);
      StageStep(s, es[0]);
      PulsesOfTrace(s, es);
      SwingStepMovesFlapOnce(Step(s, es[0]), es[1..]);
    }
  }

  /** The unit never shows the pulse: every master frame that is ever under way has the bit clear. */
  lemma PulseIsNeverShown(s: Sys, es: seq<Event>)
    requires Initial(s)
    ensures Run(s, es).captured.Some? ==> !Run(s, es).captured.value.regs.swingStep
  {
    InitialInv(s);
    RunInv(s, es);
  }
}
