/** What becomes of a client's changes: they are written before the client is released. */
module FujiDelivery {
  import opened FujiBits
  import opened FujiTypes
  import opened FujiRegister
  import opened FujiFrame
  import opened FujiAcState
  import opened FujiProtocolHandler
  import opened FujiAcUnitSim
  import opened FujiSystem
  import opened FujiInvariants

  /** The settings as the unit shows them after a write of `c`. */
  function Delivered(c: Config): Config {
    if c.mode == Mode.Fan then c.(economy := false, temperature := EIGHTEEN)
    else c.(economy := c.economy || Spills(c.temperature), temperature := Low7(c.temperature))
  }

  /** Settings that the unit can show as they are. */
  predicate Showable(c: Config) {
    if c.mode == Mode.Fan then !c.economy && c.temperature == EIGHTEEN else !Spills(c.temperature)
  }

  lemma DeliveredIsExact(c: Config)
    ensures Delivered(c) == c <==> Showable(c)
    ensures Showable(Delivered(c))
  {
  }

  /** Whether handling the captured frame will write the local settings to the unit. */
  predicate WillWrite(s: Sys) {
    && s.captured.Some?
    && s.captured.value.destination == Destination.WiredController
    && s.captured.value.register == RegisterType.Status
    && !s.h.local.merged && !s.h.loginRead && !s.h.errorRead
  }

  /**
   * The controller takes precedence: whatever the remote has done to the unit by now, a write makes its
   * settings exactly the delivered local ones, and the unit's next status frame brings them back unchanged.
   */
  lemma WriteTakesPrecedence(s: Sys)
    requires WillWrite(s)
    ensures var t := HandleCaptured(s);
      && t.last == Settings(false, true, Build(s.h.local))
      && ConfigOf(t.u.regs) == Delivered(s.h.local.config)
      && (ConfigOf(t.u.regs) == s.h.local.config <==> Showable(s.h.local.config))
      && t.u.regs.swingStep == s.h.local.swingStep
      && Emit(t.u).1.register == RegisterType.Status
      && Merge(t.h.local, Emit(t.u).1.regs).config == Delivered(s.h.local.config)
      && !Emit(t.u).1.regs.swingStep
  {
    DeliveredIsExact(s.h.local.config);
  }

  lemma BuiltSettingsAreDelivered(u: Unit, l: Local)
    ensures var t := Receive(u, Settings(false, true, Build(l)));
      && ConfigOf(t.regs) == Delivered(l.config) && t.regs.swingStep == l.swingStep
      && t.regs.present == u.regs.present && t.regs.error == u.regs.error && t.next == RegisterType.Status
  {
    if l.config.mode == Mode.Fan {
    } else {
    }
  }

  /** A frame as the unit decodes it, byte by byte. */
  function PushBytes(u: Unit, f: Frame): Unit {
    Push(u, RegisterOf(f), LoginBitOf(f), WriteBitOf(f), DecodeAt(f, PAYLOAD))
  }

  /**
   * What the unit makes of any eight bytes, in numbers: the next register, the registration, and the settings of a
   * write, with 18 degrees and magic 4 in FAN mode and magic 0 in any other.
   */
  lemma UnitTakesOver(u: Unit, f: Frame)
    ensures
      var t, query := PushBytes(u, f), ToInt(f[2]) / 16 % 4;
      var r, known := Decode(f[3], f[4], f[5], f[6]), u.regs.present || ToInt(f[1]) / 32 % 2 == 1;
      && t.next == (if query == 0 then RegisterType.Status else if query == 1 then RegisterType.Error
                    else if query == 2 then RegisterType.Login else u.next)
      && if query == 0 && ToInt(f[2]) / 8 % 2 == 1
         then && t.regs == Regs(r.enabled, r.mode, r.fan, u.regs.error, r.economy, t.regs.temperature,
                                t.regs.updateMagic, r.swing, r.swingStep, known)
              && ToInt(t.regs.temperature) == (if r.mode == Mode.Fan then 18 else ToInt(f[4]) % 128)
              && ToInt(t.regs.updateMagic) == (if r.mode == Mode.Fan then 4 else 0)
         else t.regs == u.regs.(present := known)
  {
    FrameLayout(f);
    RegisterLayout(f[3], f[4], f[5], f[6]);
    SettingsTaken(if LoginBitOf(f) then u.regs.(present := true) else u.regs, DecodeAt(f, PAYLOAD));
  }

  lemma SettingsTaken(r: Regs, p: Regs)
    ensures var t := TakeSettings(r, p);
      && t == Regs(p.enabled, p.mode, p.fan, r.error, p.economy, t.temperature, t.updateMagic, p.swing, p.swingStep,
                   r.present)
      && ToInt(t.temperature) == (if p.mode == Mode.Fan then 18 else ToInt(p.temperature))
      && ToInt(t.updateMagic) == (if p.mode == Mode.Fan then 4 else 0)
  {
    assert ToInt(EIGHTEEN) == 18;
    assert ToInt(FOUR) == 4;
    assert ToInt(ZERO) == 0;
  }

  /** Receiving a reply is decoding its bytes. */
  lemma ReceiveIsPushBytes(u: Unit, r: Reply)
    ensures PushBytes(u, Encode(r)) == Receive(u, r)
  {
    ReplyRoundTrip(r);
  }

  /** The settings make it through the bytes: encode, decode, and take over. */
  lemma WriteThroughTheWire(u: Unit, l: Local)
    ensures
      var t := PushBytes(u, Encode(Settings(false, true, Build(l))));
      && ConfigOf(t.regs) == Delivered(l.config) && t.regs.swingStep == l.swingStep
      && t.regs.present == u.regs.present && t.regs.error == u.regs.error && t.next == RegisterType.Status
  {
    ReceiveIsPushBytes(u, Settings(false, true, Build(l)));
    BuiltSettingsAreDelivered(u, l);
  }

  /**
   * What a settings or login frame carries: as a plain write it would leave any unit with the settings of `l`. Bytes
   * that the unit ignores say the same.
   */
  ghost predicate Carries(r: Reply, l: Local) {
    && r.Settings? && ShowsLocal(Encode(r), l)
    && forall u: Unit :: WouldTake(u, r, l)
  }

  predicate WouldTake(u: Unit, r: Reply, l: Local)
    requires r.Settings?
  {
    var t := Receive(u, Settings(false, true, r.panel));
    ConfigOf(t.regs) == Delivered(l.config) && t.regs.swingStep == l.swingStep
  }

  /** A login frame is answered by the local settings, with the login bit and without the write bit. */
  lemma LoginAnswer(h: Handler, m: Master)
    requires m.destination == Destination.WiredController && m.register == RegisterType.Login
    ensures var (h', out) := Handle(h, m);
      && h' == h && out.Some? && out.value.LogsIn() && !out.value.Writes()
      && Carries(out.value, h.local)
  {
    AnswersShowLocal(h, m);
    forall u: Unit ensures WouldTake(u, Settings(true, false, Build(h.local)), h.local) {
      BuiltSettingsAreDelivered(u, h.local);
    }
  }

  /** So is a status frame, if not by a query: by the unit's settings, or by a pending change with the write bit. */
  lemma StatusAnswer(h: Handler, m: Master)
    requires m.destination == Destination.WiredController && m.register == RegisterType.Status
    ensures var out := Handle(h, m).1;
      && out.Some?
      && (out.value.Settings? ==>
            out.value.Writes() == !h.local.merged && !out.value.LogsIn() && Carries(out.value, Current(h, m)))
  {
    AnswersShowLocal(h, m);
    forall u: Unit ensures var out := Handle(h, m).1.value; out.Settings? ==> WouldTake(u, out, Current(h, m)) {
      BuiltSettingsAreDelivered(u, Current(h, m));
    }
  }

  /** The unit is written to in no other way. */
  lemma OnlyWritesChangeSettings(s: Sys)
    requires s.captured.Some? && !WillWrite(s)
    ensures ConfigOf(HandleCaptured(s).u.regs) == ConfigOf(s.u.regs)
    ensures var out := Output(s, HandleFrame); out.Some? ==> !out.value.Writes()
  {
  }

  /** All changes that clients make during a run, in order. */
  function ChangesIn(es: seq<Event>): seq<Change>
    decreases |es|
  {
    if es == [] then []
    else (if es[0].UserUpdate? then es[0].changes else []) + ChangesIn(es[1..])
  }

  lemma {:induction false} LocalAfter(l: Local, es: seq<Event>)
    requires es != []
    ensures ApplyAll(l, ChangesIn(es)) ==
      ApplyAll(if es[0].UserUpdate? then ApplyAll(l, es[0].changes) else l, ChangesIn(es[1..]))
  {
    if es[0].UserUpdate? {
      ApplyAllAppend(l, es[0].changes, ChangesIn(es[1..]));
    } else {
      assert [] + ChangesIn(es[1..]) == ChangesIn(es[1..]);
    }
  }

  /**
   * Step `j` of the run delivers a write of the local state of `s` overlaid with every change made since,
   * and the unit takes it over.
   */
  ghost predicate DeliversAt(s: Sys, es: seq<Event>, j: nat) {
    && j < |es|
    && var before := Run(s, es[..j]);
    && var local := ApplyAll(s.h.local, ChangesIn(es[..j]));
    && es[j] == HandleFrame && WillWrite(before)
    && before.h.local == local
    && Output(before, es[j]) == Some(Settings(false, true, Build(local)))
    && ConfigOf(Step(before, es[j]).u.regs) == Delivered(local.config)
  }

  /** Until the first write, the local state is the pending changes, and no client is released. */
  lemma PendingStep(s: Sys, e: Event)
    requires Inv(s) && !s.ready && !s.h.local.merged
    requires !(e == HandleFrame && WillWrite(s))
    ensures var t := Step(s, e);
      && !t.ready && !t.h.local.merged
      && t.h.local == (if e.UserUpdate? then ApplyAll(s.h.local, e.changes) else s.h.local)
  {
    if e.UserUpdate? {
      ApplyAllFrame(s.h.local, e.changes);
    }
  }

  /** A delivery seen from one event earlier. */
  lemma DeliversLater(s: Sys, es: seq<Event>, j: nat)
    requires es != [] && DeliversAt(Step(s, es[0]), es[1..], j)
    requires Step(s, es[0]).h.local == if es[0].UserUpdate? then ApplyAll(s.h.local, es[0].changes) else s.h.local
    ensures DeliversAt(s, es, j + 1)
  {
    RunPrefix(s, es, j);
    LocalAfter(s.h.local, es[..j + 1]);
  }

  /** Either the changes still wait and nobody is released, or a write has taken them to the unit. */
  predicate StillPending(s: Sys, es: seq<Event>) {
    var t := Run(s, es);
    !t.ready && !t.h.local.merged && t.h.local == ApplyAll(s.h.local, ChangesIn(es))
  }

  lemma {:induction false} PendingOrDelivered(s: Sys, es: seq<Event>)
    requires Inv(s) && !s.ready && !s.h.local.merged
    ensures StillPending(s, es) || exists j: nat :: DeliversAt(s, es, j)
    decreases |es|
  {
    if es != [] {
      if es[0] == HandleFrame && WillWrite(s) {
        WriteTakesPrecedence(s);
        assert DeliversAt(s, es, 0);
      } else {
        PendingStep(s, es[0]);
        StepInv(s, es[0]);
        PendingOrDelivered(Step(s, es[0]), es[1..]);
        LocalAfter(s.h.local, es);
        if j: nat :| DeliversAt(Step(s, es[0]), es[1..], j) {
          DeliversLater(s, es, j);
        }
      }
    }
  }

  /**
   * No update returns early: for any interleaving of clients, loop and remote, when `ready` holds some time
   * after a client's update, the unit has since taken over a write that carries the update's changes, overlaid
   * only with later changes of clients.
   */
  lemma NoUpdateReturnsEarly(s: Sys, before: seq<Event>, changes: seq<Change>, after: seq<Event>)
    requires Initial(s) && changes != []
    ensures
      var issued := Run(s, before + [UserUpdate(changes)]);
      Run(issued, after).ready ==> exists j: nat :: DeliversAt(issued, after, j)
  {
    InitialInv(s);
    RunInv(s, before);
    var asked := Run(s, before);
    RunAppend(s, before, [UserUpdate(changes)]);
    var issued := Run(s, before + [UserUpdate(changes)]);
    assert issued == Step(asked, UserUpdate(changes)) by {
      assert [UserUpdate(changes)][1..] == [];
    }
    StepInv(asked, UserUpdate(changes));
    ApplyAllFrame(asked.h.local, changes);
    PendingOrDelivered(issued, after);
  }

  /**
   * `ready` says more than that the last two frames agree: the controller is registered, and nothing is pending
   * unless that last frame was a swing step sent twice in a row, which still needs its clearing write.
   */
  lemma ReadyMeaning(s: Sys, es: seq<Event>)
    requires Initial(s) && Run(s, es).ready
    ensures var t := Run(s, es);
      && Registered(t) && t.last.Settings? && !t.last.login && !t.h.local.swingStep
      && (t.h.local.merged <==> !t.last.panel.swingStep)
  {
    InitialInv(s);
    RunInv(s, es);
  }

  predicate NoSwingStep(es: seq<Event>) {
    forall i :: 0 <= i < |es| ==> es[i].UserUpdate? ==> forall c :: c in es[i].changes ==> !c.ToSwingStep?
  }

  /** When no client asks for swing steps, `ready` implies that every change is merged. */
  lemma {:induction false} NoSwingStepKept(s: Sys, es: seq<Event>)
    requires NoSwingStep(es) && !s.h.local.swingStep && !(s.last.Settings? && s.last.panel.swingStep)
    ensures var t := Run(s, es); !t.h.local.swingStep && !(t.last.Settings? && t.last.panel.swingStep)
    decreases |es|
  {
    if es != [] {
      if es[0].UserUpdate? {
        NoSwingStepApplied(s.h.local, es[0].changes);
      }
      NoSwingStepKept(Step(s, es[0]), es[1..]);
    }
  }

  lemma {:induction false} NoSwingStepApplied(l: Local, changes: seq<Change>)
    requires !l.swingStep && forall c :: c in changes ==> !c.ToSwingStep?
    ensures !ApplyAll(l, changes).swingStep
    decreases |changes|
  {
    if changes != [] {
      NoSwingStepApplied(Apply(l, changes[0]), changes[1..]);
    }
  }

  lemma WithoutSwingStepMerged(s: Sys, es: seq<Event>)
    requires Initial(s) && NoSwingStep(es) && Run(s, es).ready
    ensures Run(s, es).h.local.merged
  {
    ReadyMeaning(s, es);
    NoSwingStepKept(s, es);
  }

  /** One client asks for a swing step, and the loop handles one frame. */
  const SWING_ONCE: seq<Event> := [UserUpdate([ToSwingStep(true)]), ReadFrame, HandleFrame]

  lemma SwingOnce(s: Sys) returns (t: Sys)
    requires Inv(s) && Registered(s) && s.captured == None
    ensures t == Run(s, SWING_ONCE)
    ensures Inv(t) && Registered(t) && t.captured == None
    ensures t.h.local.config == s.h.local.config && !t.h.local.merged
    ensures t.last == Settings(false, true, Build(s.h.local.(swingStep := true)))
    ensures t.ready == (t.last == s.last)
  {
    RunThree(s, UserUpdate([ToSwingStep(true)]), ReadFrame, HandleFrame);
    assert [ToSwingStep(true)][1..] == [];
    assert ApplyAll(s.h.local, [ToSwingStep(true)]) == Apply(s.h.local, ToSwingStep(true));
    RunInv(s, SWING_ONCE);
    t := Run(s, SWING_ONCE);
  }

  /**
   * The exception takes direct calls of the local state's setters: two swing steps in quick succession release the
   * clients with one write to go.
   */
  lemma ReadyBeforeMerged(s: Sys)
    requires Inv(s) && Registered(s) && s.captured == None
    ensures var t := Run(Run(s, SWING_ONCE), SWING_ONCE); t.ready && !t.h.local.merged
  {
    var once := SwingOnce(s);
    var twice := SwingOnce(once);
  }
}
