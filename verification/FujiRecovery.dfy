/** A unit that lost its registration. */
module FujiRecovery {
  import opened FujiTypes
  import opened FujiFrame
  import opened FujiAcState
  import opened FujiAcUnitSim
  import opened FujiSystem
  import opened FujiInvariants
  import opened FujiConvergence
  import opened FujiRequests

  /** A unit just powered on: error-free and not aware of any controller. */
  predicate Fresh(u: Unit) {
    u.next == RegisterType.Status && !u.regs.present && !u.regs.error
  }

  /** Error-free on both sides, and any frame under way, of this unit or an old one, shows status or login. */
  predicate Recovering(s: Sys) {
    && ErrorFree(s)
    && (s.u.next == RegisterType.Status || s.u.next == RegisterType.Login)
    && (s.captured.Some? ==>
          && s.captured.value.destination == Destination.WiredController
          && (LoginUnderWay(s) || (StatusUnderWay(s) && s.u.next == RegisterType.Status)))
  }

  predicate LoginUnderWay(s: Sys) {
    s.captured.Some? && s.captured.value.register == RegisterType.Login
  }

  predicate StatusUnderWay(s: Sys) {
    s.captured.Some? && s.captured.value.register == RegisterType.Status
  }

  /** A frame under way that hides the loss: it was read from the old unit. */
  predicate HidesLoss(s: Sys) {
    StatusUnderWay(s) && s.captured.value.regs.present
  }

  /**
   * Frames left to handle until the unit knows the controller. An old login frame registers it at once, pending
   * writes go first, and an old status frame that hides the loss costs one frame more.
   */
  function RecoveryRank(s: Sys): nat {
    if s.u.regs.present then 0
    else if s.u.next == RegisterType.Login || LoginUnderWay(s) then 1
    else if s.h.loginRead || (s.h.local.merged && !HidesLoss(s)) then 2
    else if s.h.local.merged || !s.h.local.swingStep then 3
    else 4
  }

  lemma RecoveryHandle(s: Sys)
    requires Recovering(s) && s.captured.Some?
    ensures Recovering(HandleCaptured(s))
    ensures RecoveryRank(HandleCaptured(s)) == if RecoveryRank(s) > 0 then RecoveryRank(s) - 1 else 0
  {
    if LoginUnderWay(s) {
    } else if s.h.local.merged {
    } else {
    }
  }

  lemma RecoveryRemote(s: Sys, command: Change)
    requires Recovering(s)
    ensures var t := Step(s, IrCommand(command)); Recovering(t) && RecoveryRank(t) == RecoveryRank(s)
  {
  }

  lemma RecoveryStep(s: Sys, e: Event)
    requires Recovering(s) && (e.UserUpdate? ==> e.changes == [])
    ensures Recovering(Step(s, e))
    ensures RecoveryRank(Step(s, e)) ==
      if e == HandleFrame && s.captured.Some? && RecoveryRank(s) > 0 then RecoveryRank(s) - 1 else RecoveryRank(s)
  {
    match e
    case ReadFrame =>
    case MissFrame =>
    case HandleFrame =>
      if s.captured.Some? {
        RecoveryHandle(s);
      }
    case UserUpdate(_) =>
    case IrCommand(command) =>
      RecoveryRemote(s, command);
  }

  lemma {:induction false} RecoversInRank(s: Sys, es: seq<Event>)
    requires Recovering(s) && NoUserChange(es)
    ensures RecoveryRank(Run(s, es)) ==
      if Cycles(s, es) < RecoveryRank(s) then RecoveryRank(s) - Cycles(s, es) else 0
    decreases |es|
  {
    if es != [] {
      RecoveryStep(s, es[0]);
      RecoversInRank(Step(s, es[0]), es[1..]);
    }
  }

  lemma ReplacedRecovers(s: Sys, u: Unit)
    requires Inv(s) && Fresh(u)
    ensures Recovering(s.(u := u))
  {
  }

  /**
   * Replacing the unit by a fresh one at any point of any run, pending writes and swing steps included: the new unit
   * knows the controller after exactly `RecoveryRank` handled frames, at most four, whatever the remote does
   * meanwhile. Only an old login frame under way makes it a single one.
   */
  lemma ReplacedUnitIsRegistered(s: Sys, u: Unit, es: seq<Event>)
    requires Inv(s) && Fresh(u) && NoUserChange(es)
    ensures var t := s.(u := u);
      && 1 <= RecoveryRank(t) <= 4 && (RecoveryRank(t) == 1 <==> LoginUnderWay(s))
      && (Run(t, es).u.regs.present <==> Cycles(t, es) >= RecoveryRank(t))
  {
    ReplacedRecovers(s, u);
    RecoversInRank(s.(u := u), es);
  }

  /** Recovery goes on, and registration is kept, whatever clients do. */
  lemma RecoveringStep(s: Sys, e: Event)
    requires Recovering(s)
    ensures Recovering(Step(s, e))
    ensures s.u.regs.present ==> Step(s, e).u.regs.present
    ensures !(e == HandleFrame && s.captured.Some?) ==>
              Step(s, e).u.regs.present == s.u.regs.present && Step(s, e).u.next == s.u.next
  {
    match e
    case ReadFrame =>
    case MissFrame =>
    case HandleFrame =>
      if s.captured.Some? {
        RecoveryHandle(s);
      }
    case UserUpdate(changes) =>
      ApplyAllFrame(s.h.local, changes);
    case IrCommand(command) =>
      RecoveryRemote(s, command);
  }

  lemma {:induction false} RecoveringRuns(s: Sys, es: seq<Event>)
    requires Recovering(s)
    ensures Recovering(Run(s, es))
    ensures s.u.regs.present ==> Run(s, es).u.regs.present
    decreases |es|
  {
    if es != [] {
      RecoveringStep(s, es[0]);
      RecoveringRuns(Step(s, es[0]), es[1..]);
    }
  }

  /** Once the login register is asked for or under way, the next handled frame registers the unit. */
  lemma {:induction false} AskedRuns(s: Sys, es: seq<Event>)
    requires Recovering(s) && !s.u.regs.present && (s.u.next == RegisterType.Login || LoginUnderWay(s))
    ensures Run(s, es).u.regs.present <==> Cycles(s, es) >= 1
    decreases |es|
  {
    if es != [] {
      RecoveringStep(s, es[0]);
      if es[0] == HandleFrame && s.captured.Some? {
        RecoveryHandle(s);
        RecoveringRuns(HandleCaptured(s), es[1..]);
      } else {
        AskedRuns(Step(s, es[0]), es[1..]);
      }
    }
  }

  /** The status frame under way will be answered by the login query: it is due already, or the frame shows the loss. */
  predicate WillAsk(s: Sys) {
    StatusUnderWay(s) && (s.h.loginRead || (s.h.local.merged && !HidesLoss(s)))
  }

  lemma AskingHandle(s: Sys)
    requires Recovering(s) && StatusUnderWay(s) && !s.u.regs.present
    ensures var t := HandleCaptured(s);
      !t.u.regs.present && t.u.next == if WillAsk(s) then RegisterType.Login else RegisterType.Status
  {
    if s.h.local.merged {
    } else {
    }
  }

  /** Step `j` of the run asks for the login register, and some frame is handled after it. */
  ghost predicate AsksAt(s: Sys, es: seq<Event>, j: nat) {
    && j < |es| && es[j] == HandleFrame && WillAsk(Run(s, es[..j]))
    && Cycles(Step(Run(s, es[..j]), es[j]), es[j + 1..]) >= 1
  }

  lemma AsksLater(s: Sys, es: seq<Event>, j: nat)
    requires es != [] && AsksAt(Step(s, es[0]), es[1..], j)
    ensures AsksAt(s, es, j + 1)
  {
    RunPrefix(s, es, j);
    assert es[1..][j + 1..] == es[j + 2..];
  }

  lemma AskingRecovers(s: Sys, es: seq<Event>, j: nat)
    requires Recovering(s) && AsksAt(s, es, j)
    ensures Run(s, es).u.regs.present
  {
    var before, rest := Run(s, es[..j]), es[j..];
    assert es == es[..j] + rest && rest[1..] == es[j + 1..];
    RunAppend(s, es[..j], rest);
    RecoveringRuns(s, es[..j]);
    if before.u.regs.present {
      RecoveringRuns(before, rest);
    } else {
      RecoveringStep(before, HandleFrame);
      AskingHandle(before);
      AskedRuns(HandleCaptured(before), rest[1..]);
    }
  }

  lemma {:induction false} RecoveryAsks(s: Sys, es: seq<Event>)
    requires Recovering(s) && !s.u.regs.present && s.u.next == RegisterType.Status && !LoginUnderWay(s)
    requires Run(s, es).u.regs.present
    ensures exists j: nat :: AsksAt(s, es, j)
    decreases |es|
  {
    var t := Step(s, es[0]);
    RecoveringStep(s, es[0]);
    if es[0] == HandleFrame && s.captured.Some? {
      AskingHandle(s);
    }
    if es[0] == HandleFrame && WillAsk(s) {
      AskedRuns(t, es[1..]);
      assert AsksAt(s, es, 0);
    } else {
      RecoveryAsks(t, es[1..]);
      var j: nat :| AsksAt(t, es[1..], j);
      AsksLater(s, es, j);
    }
  }

  /**
   * Recovery with active clients: for arbitrary interleavings, and an old frame under way or not, a unit that lost its
   * registration is registered at the end exactly if a login frame was under way and handled, or some status frame
   * was answered by the login query and at least one more frame was handled after it.
   */
  lemma RecoveryIffAsked(s: Sys, es: seq<Event>)
    requires Recovering(s) && !s.u.regs.present && s.u.next == RegisterType.Status
    ensures Run(s, es).u.regs.present <==>
      if LoginUnderWay(s) then Cycles(s, es) >= 1 else exists j: nat :: AsksAt(s, es, j)
  {
    if LoginUnderWay(s) {
      AskedRuns(s, es);
    } else {
      if Run(s, es).u.regs.present {
        RecoveryAsks(s, es);
      }
      if j: nat :| AsksAt(s, es, j) {
        AskingRecovers(s, es, j);
      }
    }
  }

  /** The reply that the status frame under way will get. */
  function Due(s: Sys): Reply
    requires s.captured.Some?
  {
    if WillAsk(s) then Query(RegisterType.Login)
    else if s.h.local.merged then Settings(false, false, Build(Merge(s.h.local, s.captured.value.regs)))
    else Settings(false, true, Build(s.h.local))
  }

  /** Some status frame of the run gets the same reply as the frame before, and no client updates after it. */
  predicate RepliesRepeat(s: Sys, es: seq<Event>)
    decreases |es|
  {
    es != [] &&
    (|| (es[0] == HandleFrame && StatusUnderWay(s) && s.last == Due(s) && NoUpdate(es[1..]))
     || RepliesRepeat(Step(s, es[0]), es[1..]))
  }

  lemma ReleasingHandle(s: Sys)
    requires Recovering(s) && StatusUnderWay(s)
    ensures HandleCaptured(s).ready <==> s.ready || s.last == Due(s)
  {
    if s.h.loginRead {
    } else if s.h.local.merged {
    } else {
    }
  }

  lemma {:induction false} ReleasedWhileLost(s: Sys, es: seq<Event>)
    requires Recovering(s) && !Run(s, es).u.regs.present
    ensures Run(s, es).ready <==> (s.ready && NoUpdate(es)) || RepliesRepeat(s, es)
    decreases |es|
  {
    if es != [] {
      var t := Step(s, es[0]);
      RecoveringStep(s, es[0]);
      ReleasedWhileLost(t, es[1..]);
      if es[0] == HandleFrame && StatusUnderWay(s) {
        ReleasingHandle(s);
      } else {
        assert t.ready == (s.ready && !es[0].UserUpdate?) by {
          if es[0] == HandleFrame && LoginUnderWay(s) {
            RecoveryHandle(s);
            RecoveringRuns(t, es[1..]);
          }
        }
      }
    }
  }

  /**
   * Across a replacement `ready` loses its meaning. A unit is replaced at any point of a run. Whatever clients, the
   * loop and the remote do since, as long as the new unit does not know the controller clients are released exactly if
   * they were before and none has updated, or if some reply repeats the one before and none has updated after it.
   */
  lemma ReplacementReleases(s: Sys, u: Unit, es: seq<Event>)
    requires Inv(s) && Fresh(u) && !Run(s.(u := u), es).u.regs.present
    ensures Run(s.(u := u), es).ready <==> (s.ready && NoUpdate(es)) || RepliesRepeat(s.(u := u), es)
  {
    ReplacedRecovers(s, u);
    ReleasedWhileLost(s.(u := u), es);
  }

  /**
   * What repeats a reply when no client updates after the replacement: the login query was out and is made again, the
   * same settings are about to be written a second time, or the old frame under way is echoed a second time.
   */
  predicate Repeats(s: Sys) {
    || (LoginQueried(s) && s.h.local.merged)
    || (Registered(s) && !s.h.local.merged && s.last == Settings(false, true, Build(s.h.local)))
    || (Registered(s) && s.h.local.merged && s.captured.Some?
        && s.last == Settings(false, false, Build(Merge(s.h.local, s.captured.value.regs))))
  }

  /** The unit was replaced, and no frame has been handled since. */
  predicate JustReplaced(s: Sys, t: Sys) {
    && Recovering(t) && t.u.next == RegisterType.Status && !t.u.regs.present
    && t.h == s.h && t.last == s.last && t.ready == s.ready
    && (if s.captured.Some? then t.captured == s.captured
        else t.captured.Some? ==> StatusUnderWay(t) && !HidesLoss(t))
  }

  /** Until it knows the controller again, the unit makes the controller send a different frame each time. */
  predicate NoRepeat(s: Sys) {
    && Recovering(s) && !s.u.regs.present && !HidesLoss(s)
    && (s.u.next == RegisterType.Status ==>
          && !LoginUnderWay(s) && !s.h.loginRead && s.last.Settings?
          && (s.h.local.merged || (!s.h.local.swingStep && s.last.write && s.last.panel.swingStep)))
  }

  lemma FirstAfterReplacement(s: Sys, t: Sys)
    requires Inv(s) && JustReplaced(s, t) && t.captured.Some?
    ensures var v := HandleCaptured(t); v.u.regs.present || (NoRepeat(v) && (v.ready <==> s.ready || Repeats(s)))
  {
    if LoginUnderWay(t) {
    } else if s.h.loginRead {
    } else if s.h.local.merged {
    } else {
    }
  }

  lemma NoRepeatHandle(s: Sys)
    requires NoRepeat(s) && s.captured.Some?
    ensures var t := HandleCaptured(s); t.u.regs.present || (NoRepeat(t) && t.ready == s.ready)
  {
    if LoginUnderWay(s) {
    } else if s.h.local.merged {
    } else {
    }
  }

  lemma {:induction false} NoRepeatRuns(s: Sys, es: seq<Event>)
    requires NoRepeat(s) && NoUpdate(es) && !Run(s, es).u.regs.present
    ensures Run(s, es).ready == s.ready
    decreases |es|
  {
    if es != [] {
      RecoveringStep(s, es[0]);
      RecoveringRuns(Step(s, es[0]), es[1..]);
      if es[0] == HandleFrame && s.captured.Some? {
        NoRepeatHandle(s);
      }
      NoRepeatRuns(Step(s, es[0]), es[1..]);
    }
  }

  lemma {:induction false} ReleasedAfterReplacement(s: Sys, t: Sys, es: seq<Event>)
    requires Inv(s) && JustReplaced(s, t) && NoUpdate(es) && !Run(t, es).u.regs.present
    ensures Run(t, es).ready <==> s.ready || (Cycles(t, es) >= 1 && Repeats(s))
    decreases |es|
  {
    if es != [] {
      RecoveringStep(t, es[0]);
      RecoveringRuns(Step(t, es[0]), es[1..]);
      if es[0] == HandleFrame && t.captured.Some? {
        FirstAfterReplacement(s, t);
        NoRepeatRuns(HandleCaptured(t), es[1..]);
      } else {
        ReleasedAfterReplacement(s, Step(t, es[0]), es[1..]);
      }
    }
  }

  /**
   * When no client updates after the replacement, the state before it decides: while the new unit does not know the
   * controller, clients are released exactly if they were before, or if a frame was handled and `Repeats` held.
   */
  lemma UndisturbedReplacementReleases(s: Sys, u: Unit, es: seq<Event>)
    requires Inv(s) && Fresh(u) && NoUpdate(es) && !Run(s.(u := u), es).u.regs.present
    ensures Run(s.(u := u), es).ready <==> s.ready || (Cycles(s.(u := u), es) >= 1 && Repeats(s))
  {
    ReplacedRecovers(s, u);
    ReleasedAfterReplacement(s, s.(u := u), es);
  }

  /** The first way to repeat: the old unit is lost between the login query and its answer. */
  lemma ReplacementCanReleaseEarly(s: Sys, u: Unit)
    requires Inv(s) && LoginQueried(s) && s.captured == None && Fresh(u)
    ensures var t := Run(s.(u := u), CYCLE);
      !t.u.regs.present && (t.ready <==> s.h.local.merged)
  {
    CycleOnce(s.(u := u));
  }

  lemma RegisteredServes(s: Sys)
    requires Inv(s) && Registered(s) && s.captured == None && !s.h.local.swingStep
    ensures Serving(s)
  {
  }

  lemma UpdateLeavesUnit(s: Sys, request: AcUnitState, u: Unit)
    ensures var t := Step(s, UserUpdate(ChangesOf(request)));
      !t.ready && t.(u := u) == Step(s.(u := u), UserUpdate(ChangesOf(request)))
  {
  }

  lemma LostBetweenWrites(s: Sys, request: AcUnitState, u: Unit)
    requires Serving(s) && ChangesOf(request) != [] && Fresh(u)
    requires s.h.local.config == Overlaid(s.h.local.config, request)
    requires s.last == Settings(false, true, Build(s.h.local))
    ensures
      var again := Step(s, UserUpdate(ChangesOf(request)));
      var t := Run(again.(u := u), CYCLE);
      !again.ready && t.ready && !t.u.regs.present
  {
    var replaced := s.(u := u);
    var twice := RequestedAgain(replaced, request);
    RequestThenCycle(replaced, request);
    UpdateLeavesUnit(s, request, u);
  }

  /**
   * The second way: a client issues the same request twice, and the unit is lost between the two writes. The second
   * is released although the new unit knows no controller.
   */
  lemma RepeatedRequestReleasesEarly(s: Sys, request: AcUnitState, u: Unit)
    requires Inv(s) && Registered(s) && s.captured == None && !s.h.local.swingStep && ChangesOf(request) != []
    requires Fresh(u)
    ensures
      var again := Step(Run(s, RequestOnce(request)), UserUpdate(ChangesOf(request)));
      var t := Run(again.(u := u), CYCLE);
      !again.ready && t.ready && !t.u.regs.present
  {
    RegisteredServes(s);
    var once := RequestedOnce(s, request);
    OverlaidTwice(s.h.local.config, request);
    LostBetweenWrites(once, request, u);
  }

  /** The third way: the unit is lost while a frame is under way that shows what was echoed last. */
  lemma OldFrameReleasesEarly(s: Sys, u: Unit)
    requires Inv(s) && Registered(s) && s.h.local.merged && s.captured.Some? && Fresh(u)
    requires Echoed(s) && !Stale(s)
    ensures var t := Step(s.(u := u), HandleFrame);
      t.ready && !t.u.regs.present
  {
  }

  /** Updates after the replacement do it from any state: the same request twice, one cycle after each. */
  lemma RequestsAfterReplacementReleaseEarly(s: Sys, request: AcUnitState, u: Unit)
    requires Inv(s) && Registered(s) && s.captured == None && !s.h.local.swingStep && ChangesOf(request) != []
    requires Fresh(u)
    ensures var t := Run(s.(u := u), RequestOnce(request) + RequestOnce(request));
      t.ready && !t.u.regs.present
  {
    var twice := RequestedTwice(s.(u := u), request);
  }

  /** A client that changes something before every frame, `n` times. */
  function Nagging(changes: seq<Change>, n: nat): seq<Event>
    decreases n
  {
    if n == 0 then [] else [UserUpdate(changes), ReadFrame, HandleFrame] + Nagging(changes, n - 1)
  }

  lemma NaggedOnce(s: Sys, changes: seq<Change>) returns (t: Sys)
    requires Recovering(s) && s.captured == None && s.u.next == RegisterType.Status && !s.u.regs.present
    requires !s.h.loginRead && changes != []
    ensures t == Run(s, [UserUpdate(changes), ReadFrame, HandleFrame])
    ensures Recovering(t) && t.captured == None && t.u.next == RegisterType.Status && !t.u.regs.present
    ensures !t.h.loginRead
  {
    RunThree(s, UserUpdate(changes), ReadFrame, HandleFrame);
    ApplyAllFrame(s.h.local, changes);
    var asked := Step(s, UserUpdate(changes));
    assert !asked.h.local.merged && Recovering(asked);
    t := HandleCaptured(Step(asked, ReadFrame));
  }

  /** The clients' silence is needed: one that keeps changing settings keeps a fresh unit unregistered for ever. */
  lemma {:induction false} NaggingStarvesRecovery(s: Sys, changes: seq<Change>, n: nat)
    requires Recovering(s) && s.captured == None && s.u.next == RegisterType.Status && !s.u.regs.present
    requires !s.h.loginRead && changes != []
    ensures !Run(s, Nagging(changes, n)).u.regs.present
    decreases n
  {
    if n > 0 {
      var once := NaggedOnce(s, changes);
      RunAppend(s, [UserUpdate(changes), ReadFrame, HandleFrame], Nagging(changes, n - 1));
      NaggingStarvesRecovery(once, changes, n - 1);
    }
  }
}
