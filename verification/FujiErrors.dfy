/** A unit that reports an error. */
module FujiErrors {
  import opened FujiTypes
  import opened FujiFrame
  import opened FujiAcState
  import opened FujiAcUnitSim
  import opened FujiSystem
  import opened FujiInvariants
  import opened FujiRegistration

  /** The unit was asked for its error register. */
  predicate Trapped(s: Sys) {
    s.u.next == RegisterType.Error && (s.captured.Some? ==> s.captured.value.register == RegisterType.Error)
  }

  predicate EndsTrapped(s: Sys, es: seq<Event>) {
    Trapped(Run(s, es))
  }

  /** Power-on with a unit that may report an error. */
  ghost predicate PowerOn(s: Sys) {
    Initial(s.(u := s.u.(regs := s.u.regs.(error := false))))
  }

  lemma TrappedStep(s: Sys, e: Event)
    requires Trapped(s)
    ensures Trapped(Step(s, e)) && Output(s, e) == None
    ensures Step(s, e).ready == (s.ready && !e.UserUpdate?)
  {
  }

  /**
   * There is no way out: the controller never answers again, the unit never asks for anything else, and a client
   * that updates is never released.
   */
  lemma {:induction false} TrapIsForEver(s: Sys, es: seq<Event>)
    requires Trapped(s)
    ensures Trapped(Run(s, es)) && Trace(s, es) == []
    ensures Run(s, es).ready <==> s.ready && NoUpdate(es)
    decreases |es|
  {
    if es != [] {
      TrappedStep(s, es[0]);
      TrapIsForEver(Step(s, es[0]), es[1..]);
    }
  }

  /** A status frame is handled with no change pending, so that the handler sees its error bit. */
  predicate Notices(s: Sys, e: Event) {
    e == HandleFrame && s.captured.Some? && s.captured.value.register == RegisterType.Status && s.h.local.merged
  }

  predicate SomeNotice(s: Sys, es: seq<Event>)
    decreases |es|
  {
    es != [] && (Notices(s, es[0]) || SomeNotice(Step(s, es[0]), es[1..]))
  }

  /**
   * How far the handshake with a unit that reports an error has come: 0 pending, 1 login queried, 2 registered; and
   * whether the error bit was `noticed`.
   */
  predicate ErrorStage(s: Sys, n: nat, noticed: bool) {
    && s.u.regs.error && s.h.errorRead == noticed && s.h.local.errorFlag == noticed
    && s.h.loginRead == (n == 0) && s.u.next == (if n == 1 then RegisterType.Login else RegisterType.Status)
    && (n == 0 ==> !noticed) && (n >= 2 ==> s.u.regs.present)
    && (s.captured.Some? ==>
          && s.captured.value.destination == Destination.WiredController
          && s.captured.value.register == s.u.next
          && (n != 1 ==> s.captured.value.regs.error)
          && (n >= 2 ==> s.captured.value.regs.present))
  }

  lemma ErrorHandle(s: Sys, n: nat, noticed: bool)
    requires n < 3 && ErrorStage(s, n, noticed) && s.captured.Some?
    ensures
      var t, seen := HandleCaptured(s), noticed || Notices(s, HandleFrame);
      if n < 2 then ErrorStage(t, n + 1, seen) else if seen then Trapped(t) else ErrorStage(t, n, seen)
  {
    if n == 0 {
    } else if n == 1 {
    } else if s.h.local.merged {
    } else {
    }
  }

  lemma ErrorWaits(s: Sys, e: Event, n: nat, noticed: bool)
    requires ErrorStage(s, n, noticed) && !(e == HandleFrame && s.captured.Some?)
    ensures ErrorStage(Step(s, e), n, noticed)
  {
    match e
    case ReadFrame =>
    case MissFrame =>
    case HandleFrame =>
    case UserUpdate(changes) =>
      ApplyAllFrame(s.h.local, changes);
    case IrCommand(command) =>
      RemoteKeepsReport(s.u.regs, command);
  }

  lemma {:induction false} NoticesAreHandled(s: Sys, es: seq<Event>)
    ensures SomeNotice(s, es) ==> Cycles(s, es) >= 1
    decreases |es|
  {
    if es != [] {
      NoticesAreHandled(Step(s, es[0]), es[1..]);
    }
  }

  lemma {:induction false} ErrorAdvances(s: Sys, es: seq<Event>, n: nat, noticed: bool)
    requires n < 3 && ErrorStage(s, n, noticed)
    ensures Trapped(Run(s, es)) <==> n + Cycles(s, es) >= 3 && (noticed || SomeNotice(s, es))
    decreases |es|
  {
    if es != [] {
      var t, seen := Step(s, es[0]), noticed || Notices(s, es[0]);
      if es[0] == HandleFrame && s.captured.Some? {
        ErrorHandle(s, n, noticed);
        if n == 2 && seen {
          TrapIsForEver(t, es[1..]);
        } else {
          ErrorAdvances(t, es[1..], if n < 2 then n + 1 else n, seen);
          NoticesAreHandled(t, es[1..]);
        }
      } else {
        ErrorWaits(s, es[0], n, noticed);
        ErrorAdvances(t, es[1..], n, noticed);
      }
    }
  }

  /**
   * An error bit at power-on traps the system, whatever clients and the remote do, exactly once three frames were
   * handled, and a status frame among them with no change pending.
   */
  lemma ErrorTraps(s: Sys, es: seq<Event>)
    requires PowerOn(s) && s.u.regs.error
    ensures Trapped(Run(s, es)) <==> Cycles(s, es) >= 3 && SomeNotice(s, es)
  {
    ErrorAdvances(s, es, 0, false);
  }

  lemma {:induction false} FirstFrameIsNoticed(s: Sys, es: seq<Event>)
    requires s.h.local.merged && s.u.next == RegisterType.Status && NoUserChange(es)
    requires s.captured.Some? ==> s.captured.value.register == RegisterType.Status
    ensures SomeNotice(s, es) <==> Cycles(s, es) >= 1
    decreases |es|
  {
    if es != [] && !(es[0] == HandleFrame && s.captured.Some?) {
      FirstFrameIsNoticed(Step(s, es[0]), es[1..]);
    }
  }

  /** As long as clients change nothing, that is the third handled frame. */
  lemma UndisturbedErrorTraps(s: Sys, es: seq<Event>)
    requires PowerOn(s) && s.u.regs.error && NoUserChange(es)
    ensures Trapped(Run(s, es)) <==> Cycles(s, es) >= 3
  {
    ErrorTraps(s, es);
    FirstFrameIsNoticed(s, es);
  }

  /** The error query is reachable from power-on exactly when the unit starts out with its error bit set. */
  lemma TrapReachableIffError(s: Sys)
    requires PowerOn(s)
    ensures (exists es :: EndsTrapped(s, es)) <==> s.u.regs.error
  {
    if s.u.regs.error {
      var es := CYCLE + CYCLE + CYCLE;
      RunAppend(s, CYCLE + CYCLE, CYCLE);
      RunAppend(s, CYCLE, CYCLE);
      CycleOnce(s);
      CycleOnce(Run(s, CYCLE));
      CycleOnce(Run(s, CYCLE + CYCLE));
      UndisturbedErrorTraps(s, es);
      assert EndsTrapped(s, es);
    } else {
      InitialInv(s);
      forall es ensures !EndsTrapped(s, es) {
        RunInv(s, es);
      }
    }
  }

  /** Without an error bit, no run ever shows, asks for, or remembers an error. */
  lemma ErrorQueryUnreachable(s: Sys, es: seq<Event>)
    requires Initial(s)
    ensures var t := Run(s, es);
      && !t.h.errorRead && !t.h.local.errorFlag && !t.u.regs.error && t.u.next != RegisterType.Error
    ensures Query(RegisterType.Error) !in Trace(s, es)
  {
    InitialInv(s);
    RunInv(s, es);
    RegistersInTwoCycles(s, es);
    forall r | r in Trace(s, es) ensures r != Query(RegisterType.Error) {
      var i :| 0 <= i < |Trace(s, es)| && Trace(s, es)[i] == r;
      assert SentIn(Capped(i), r);
    }
  }
}
