/** What every reachable state satisfies: the login phases, and what `ready` means. */
module FujiInvariants {
  import opened FujiTypes
  import opened FujiFrame
  import opened FujiAcState
  import opened FujiSystem

  /** The handler has still to ask for the login register. */
  predicate LoginPending(s: Sys) {
    s.h.loginRead && s.u.next == RegisterType.Status && s.last == DEFAULT_REPLY
  }

  /** The unit will show its login register next. */
  predicate LoginQueried(s: Sys) {
    !s.h.loginRead && s.u.next == RegisterType.Login && s.last == Query(RegisterType.Login)
  }

  /** The unit knows the controller, in its register and in any frame under way. */
  predicate Registered(s: Sys) {
    && !s.h.loginRead && s.u.next == RegisterType.Status && s.last.Settings?
    && s.u.regs.present
    && (s.captured.Some? ==> s.captured.value.regs.present)
  }

  /** No error has been seen, is shown, or is asked for. */
  predicate ErrorFree(s: Sys) {
    && !s.h.errorRead && !s.h.local.errorFlag && !s.u.regs.error
    && s.u.next != RegisterType.Error
    && (s.captured.Some? ==> !s.captured.value.regs.error)
  }

  /** A frame under way shows the register that was asked for, and never a swing step. */
  predicate CapturedFits(s: Sys) {
    s.captured.Some? ==>
      && s.captured.value.destination == Destination.WiredController
      && s.captured.value.register == s.u.next
      && !s.captured.value.regs.swingStep
  }

  /** The last frame was a settings frame of a registered controller. */
  predicate SentSettings(s: Sys) {
    s.last.Settings? && !s.last.login
  }

  predicate Inv(s: Sys) {
    && (LoginPending(s) || LoginQueried(s) || Registered(s))
    && ErrorFree(s)
    && CapturedFits(s)
    && (s.h.local.merged ==> !s.h.local.swingStep)
    && (SentSettings(s) && s.h.local.merged ==> !s.last.panel.swingStep)
    && (SentSettings(s) && !s.last.write ==> s.h.local.controllerPresent)
    && (s.ready ==> Registered(s) && SentSettings(s) && !s.h.local.swingStep)
    && (s.ready && !s.h.local.merged ==> s.last.write && s.last.panel.swingStep)
  }

  lemma InitialInv(s: Sys)
    requires Initial(s)
    ensures Inv(s) && LoginPending(s)
  {
  }

  lemma HandleInv(s: Sys)
    requires Inv(s) && s.captured.Some?
    ensures Inv(HandleCaptured(s))
  {
    if LoginPending(s) {
    } else if LoginQueried(s) {
    } else {
    }
  }

  lemma RemoteInv(s: Sys, command: Change)
    requires Inv(s)
    ensures Inv(Step(s, IrCommand(command)))
  {
  }

  /** Every step of every thread keeps the invariant. */
  lemma StepInv(s: Sys, e: Event)
    requires Inv(s)
    ensures Inv(Step(s, e))
  {
    match e
    case ReadFrame =>
    case MissFrame =>
    case HandleFrame =>
      if s.captured.Some? {
        HandleInv(s);
      }
    case UserUpdate(changes) =>
      ApplyAllFrame(s.h.local, changes);
    case IrCommand(command) =>
      RemoteInv(s, command);
  }

  lemma {:induction false} RunInv(s: Sys, es: seq<Event>)
    requires Inv(s)
    ensures Inv(Run(s, es))
    decreases |es|
  {
    if es != [] {
      StepInv(s, es[0]);
      RunInv(Step(s, es[0]), es[1..]);
    }
  }
}
