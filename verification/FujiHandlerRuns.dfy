/** The handler alone, against arbitrary master frames and user changes. */
module FujiHandlerRuns {
  import opened FujiBits
  import opened FujiTypes
  import opened FujiRegister
  import opened FujiFrame
  import opened FujiAcState
  import opened FujiProtocolHandler

  datatype Input = Incoming(m: Master) | User(change: Change)

  function Next(h: Handler, i: Input): Handler {
    match i
    case Incoming(m) => Handle(h, m).0
    case User(change) => h.(local := Apply(h.local, change))
  }

  function Answer(h: Handler, i: Input): Option<Reply> {
    match i
    case Incoming(m) => Handle(h, m).1
    case User(_) => None
  }

  function After(h: Handler, inputs: seq<Input>): Handler
    decreases |inputs|
  {
    if inputs == [] then h else After(Next(h, inputs[0]), inputs[1..])
  }

  function Answers(h: Handler, inputs: seq<Input>): seq<Reply>
    decreases |inputs|
  {
    if inputs == [] then []
    else
      var out := Answer(h, inputs[0]);
      (if out.Some? then [out.value] else []) + Answers(Next(h, inputs[0]), inputs[1..])
  }

  /** A status frame addressed to the wired controller. */
  predicate IsStatus(m: Master) {
    m.destination == Destination.WiredController && m.register == RegisterType.Status
  }

  /** A frame that the handler reacts to. */
  predicate Matters(i: Input) {
    i.Incoming? ==>
      && i.m.destination == Destination.WiredController
      && (i.m.register == RegisterType.Status || i.m.register == RegisterType.Login)
  }

  function Relevant(inputs: seq<Input>): seq<Input>
    decreases |inputs|
  {
    if inputs == [] then []
    else (if Matters(inputs[0]) then [inputs[0]] else []) + Relevant(inputs[1..])
  }

  /** Frames for others, error frames and unknown frames can be left out of any run. */
  lemma {:induction false} StutterInvariance(h: Handler, inputs: seq<Input>)
    ensures After(h, Relevant(inputs)) == After(h, inputs)
    ensures Answers(h, Relevant(inputs)) == Answers(h, inputs)
    decreases |inputs|
  {
    if inputs != [] {
      var rest := inputs[1..];
      StutterInvariance(Next(h, inputs[0]), rest);
      if Matters(inputs[0]) {
        assert Relevant(inputs)[1..] == Relevant(rest);
      } else {
        assert Next(h, inputs[0]) == h && Answer(h, inputs[0]) == None;
        assert Relevant(inputs) == Relevant(rest);
      }
    }
  }

  /** The handler reads these bits of a frame, and no other. */
  predicate SameReadBits(a: Frame, b: Frame) {
    && a[1].(b7 := O) == b[1].(b7 := O)
    && a[2].b5 == b[2].b5 && a[2].b4 == b[2].b4
    && a[3] == b[3] && a[4] == b[4] && a[5].b2 == b[5].b2 && a[6].b0 == b[6].b0
  }

  /** Update magic, swing step, payload byte 4 and the header's unknown bits have no influence. */
  lemma OnlyReadBitsMatter(h: Handler, a: Frame, b: Frame)
    requires SameReadBits(a, b)
    ensures Handle(h, DecodeMaster(a)) == Handle(h, DecodeMaster(b))
  {
    var m, n := DecodeMaster(a), DecodeMaster(b);
    assert m.destination == n.destination && m.register == n.register;
    assert Observe(h, m.regs) == Observe(h, n.regs);
  }

  function Weight(b: bool): nat {
    if b then 1 else 0
  }

  /** What the handler has to get rid of, one status frame at a time. */
  function Burden(h: Handler): nat {
    Weight(h.loginRead) + Weight(h.errorRead) + Weight(h.local.swingStep) + Weight(!h.local.merged)
  }

  /** The answers that drain a handler with a pending change. */
  function Drain(h: Handler): seq<Reply> {
    (if h.loginRead then [Query(RegisterType.Login)] else [])
    + (if h.errorRead then [Query(RegisterType.Error)] else [])
    + (if h.local.swingStep then [Settings(false, true, Build(h.local))] else [])
    + [Settings(false, true, Build(h.local.(swingStep := false)))]
  }

  function StatusFrames(ms: seq<Master>): nat
    decreases |ms|
  {
    if ms == [] then 0 else Weight(IsStatus(ms[0])) + StatusFrames(ms[1..])
  }

  function Fed(h: Handler, ms: seq<Master>): Handler
    decreases |ms|
  {
    if ms == [] then h else Fed(Handle(h, ms[0]).0, ms[1..])
  }

  /** The answers to the status frames among `ms`. */
  function StatusAnswers(h: Handler, ms: seq<Master>): seq<Reply>
    decreases |ms|
  {
    if ms == [] then []
    else
      var (h', out) := Handle(h, ms[0]);
      (if IsStatus(ms[0]) && out.Some? then [out.value] else []) + StatusAnswers(h', ms[1..])
  }

  lemma DrainStep(h: Handler, m: Master)
    requires !h.local.merged
    ensures var (h', out) := Handle(h, m);
      && h'.local.config == h.local.config
      && (!IsStatus(m) ==> h' == h)
      && (IsStatus(m) ==> Burden(h') == Burden(h) - 1 && out == Some(Drain(h)[0]))
      && (IsStatus(m) && !h'.local.merged ==> Drain(h') == Drain(h)[1..])
      && (IsStatus(m) && h'.local.merged ==> |Drain(h)| == 1)
      && |Drain(h)| == Burden(h)
  {
  }

  /**
   * A pending change is never lost. Against any master frames, as long as no user interferes, the settings stay
   * as they are; each status frame takes exactly one item off the burden and is answered with the next item of
   * the drain, whose last one writes the settings; the change is merged exactly when the drain is through.
   */
  lemma {:induction false} PendingChangeIsDrained(h: Handler, ms: seq<Master>)
    requires !h.local.merged && StatusFrames(ms) <= Burden(h)
    ensures |Drain(h)| == Burden(h)
    ensures StatusAnswers(h, ms) == Drain(h)[..StatusFrames(ms)]
    ensures Burden(Fed(h, ms)) == Burden(h) - StatusFrames(ms)
    ensures StatusFrames(ms) < Burden(h) ==> Fed(h, ms).local.config == h.local.config
    ensures Fed(h, ms).local.merged <==> StatusFrames(ms) == Burden(h)
    decreases |ms|
  {
    if ms != [] {
      var h' := Handle(h, ms[0]).0;
      DrainStep(h, ms[0]);
      if h'.local.merged {
        NoStatusLeft(h', ms[1..]);
      } else {
        PendingChangeIsDrained(h', ms[1..]);
      }
    }
  }

  /** Without status frames nothing changes. */
  lemma {:induction false} NoStatusLeft(h: Handler, ms: seq<Master>)
    requires StatusFrames(ms) == 0
    ensures Fed(h, ms) == h && StatusAnswers(h, ms) == []
    decreases |ms|
  {
    if ms != [] {
      NoStatusLeft(h, ms[1..]);
    }
  }

  predicate IsSwingWrite(out: Option<Reply>) {
    out.Some? && out.value.Writes() && out.value.panel.swingStep
  }

  /** How many of the answers to `ms` make the unit move its flap. */
  function SwingWrites(h: Handler, ms: seq<Master>): nat
    decreases |ms|
  {
    if ms == [] then 0
    else Weight(IsSwingWrite(Handle(h, ms[0]).1)) + SwingWrites(Handle(h, ms[0]).0, ms[1..])
  }

  lemma {:induction false} NoSwingWithoutRequest(h: Handler, ms: seq<Master>)
    requires !h.local.swingStep
    ensures SwingWrites(h, ms) == 0
    decreases |ms|
  {
    if ms != [] {
      NoSwingWithoutRequest(Handle(h, ms[0]).0, ms[1..]);
    }
  }

  /** A swing step is a one-shot pulse: one write carries it, once the queries due before it are out, and no other. */
  lemma {:induction false} SwingStepIsOneShot(h: Handler, ms: seq<Master>)
    requires h.local.swingStep && !h.local.merged
    ensures SwingWrites(h, ms) == Weight(StatusFrames(ms) > Weight(h.loginRead) + Weight(h.errorRead))
    decreases |ms|
  {
    if ms != [] {
      var h' := Handle(h, ms[0]).0;
      DrainStep(h, ms[0]);
      if h'.local.swingStep {
        SwingStepIsOneShot(h', ms[1..]);
      } else {
        NoSwingWithoutRequest(h', ms[1..]);
      }
    }
  }

  /** A change of the unit's error bit, seen while nothing is pending. */
  predicate SeesError(h: Handler, i: Input) {
    i.Incoming? && IsStatus(i.m) && h.local.merged && h.local.errorFlag != i.m.regs.error
  }

  predicate AsksError(h: Handler, i: Input) {
    Answer(h, i) == Some(Query(RegisterType.Error))
  }

  /** Step `k` of the run handles a status frame with no change pending, so that its register is taken over. */
  predicate MergesAt(h: Handler, inputs: seq<Input>, k: nat) {
    k < |inputs| && inputs[k].Incoming? && IsStatus(inputs[k].m) && After(h, inputs[..k]).local.merged
  }

  /** The last register that was taken over. */
  function LastMerged(h: Handler, inputs: seq<Input>): Option<Regs>
    decreases |inputs|
  {
    if inputs == [] then None
    else
      var last := |inputs| - 1;
      if MergesAt(h, inputs, last) then Some(inputs[last].m.regs) else LastMerged(h, inputs[..last])
  }

  /** The error bit that a run has come to, read off its frames. */
  predicate ErrorBit(h: Handler, inputs: seq<Input>) {
    var last := LastMerged(h, inputs);
    if last.Some? then last.value.error else h.local.errorFlag
  }

  /** Step `k` of the run takes over an error bit that differs from the one before. */
  predicate SeenAt(h: Handler, inputs: seq<Input>, k: nat) {
    MergesAt(h, inputs, k) && inputs[k].m.regs.error != ErrorBit(h, inputs[..k])
  }

  predicate AskedAt(h: Handler, inputs: seq<Input>, k: nat) {
    k < |inputs| && AsksError(After(h, inputs[..k]), inputs[k])
  }

  lemma ErrorStep(h: Handler, i: Input)
    ensures Next(h, i).errorRead <==> (h.errorRead || SeesError(h, i)) && !AsksError(h, i)
    ensures AsksError(h, i) ==> (h.errorRead || SeesError(h, i)) && !h.loginRead
    ensures i.Incoming? && IsStatus(i.m) && (h.errorRead || SeesError(h, i)) && !AsksError(h, i) ==>
              Answer(h, i) == Some(Query(RegisterType.Login))
  {
  }

  /** The same for logins: one step of the bookkeeping. The query goes out before anything else. */
  lemma LoginStep(h: Handler, i: Input)
    ensures
      var due := h.loginRead || (i.Incoming? && IsStatus(i.m) && h.local.merged && !i.m.regs.present);
      var asks := Answer(h, i) == Some(Query(RegisterType.Login));
      && (Next(h, i).loginRead <==> due && !asks)
      && (asks <==> due && i.Incoming? && IsStatus(i.m))
  {
  }

  lemma {:induction false} AfterSnoc(h: Handler, inputs: seq<Input>, i: Input)
    ensures After(h, inputs + [i]) == Next(After(h, inputs), i)
    decreases |inputs|
  {
    if inputs == [] {
      assert [i][1..] == [];
    } else {
      assert (inputs + [i])[1..] == inputs[1..] + [i];
      AfterSnoc(Next(h, inputs[0]), inputs[1..], i);
    }
  }

  /** What the handler remembers of the unit's reports is what the last register said that it took over. */
  lemma {:induction false} ReportsAreLast(h: Handler, inputs: seq<Input>)
    ensures var l, last := After(h, inputs).local, LastMerged(h, inputs);
      && l.errorFlag == (if last.Some? then last.value.error else h.local.errorFlag)
      && l.controllerPresent == (if last.Some? then last.value.present else h.local.controllerPresent)
    decreases |inputs|
  {
    if inputs != [] {
      var last := |inputs| - 1;
      var before, i := inputs[..last], inputs[last];
      assert inputs == before + [i];
      AfterSnoc(h, before, i);
      ReportsAreLast(h, before);
      ReportStep(After(h, before), i);
    }
  }

  lemma ReportStep(h: Handler, i: Input)
    ensures var l, k := h.local, Next(h, i).local;
      if i.Incoming? && IsStatus(i.m) && l.merged
      then k.errorFlag == i.m.regs.error && k.controllerPresent == i.m.regs.present
      else k.errorFlag == l.errorFlag && k.controllerPresent == l.controllerPresent
  {
  }

  lemma SeenIsNoticed(h: Handler, before: seq<Input>, i: Input)
    ensures SeenAt(h, before + [i], |before|) == SeesError(After(h, before), i)
  {
    assert (before + [i])[..|before|] == before;
    ReportsAreLast(h, before);
  }

  /** Some change of the error bit was seen that no later query has covered. */
  ghost predicate Owed(h: Handler, inputs: seq<Input>) {
    exists k: nat :: SeenAt(h, inputs, k) && forall n: nat :: n >= k ==> !AskedAt(h, inputs, n)
  }

  lemma OwedSnoc(h: Handler, before: seq<Input>, i: Input)
    ensures Owed(h, before + [i]) <==>
      (Owed(h, before) || SeesError(After(h, before), i)) && !AsksError(After(h, before), i)
  {
    var inputs, last := before + [i], |before|;
    assert inputs[..last] == before;
    forall k: nat | k < last
      ensures SeenAt(h, inputs, k) == SeenAt(h, before, k) && AskedAt(h, inputs, k) == AskedAt(h, before, k)
    {
      assert inputs[..k] == before[..k];
    }
    SeenIsNoticed(h, before, i);
    assert AskedAt(h, inputs, last) == AsksError(After(h, before), i);
    if Owed(h, inputs) {
      var k: nat :| SeenAt(h, inputs, k) && forall n: nat :: n >= k ==> !AskedAt(h, inputs, n);
      assert k < last ==> SeenAt(h, before, k) && forall n: nat :: n >= k ==> !AskedAt(h, before, n);
    }
    if Owed(h, before) && !AsksError(After(h, before), i) {
      var k: nat :| SeenAt(h, before, k) && forall n: nat :: n >= k ==> !AskedAt(h, before, n);
      assert SeenAt(h, inputs, k);
    }
  }

  /**
   * Error observations are not dropped: through logins and user changes, the handler means to ask for the error
   * register exactly when two registers taken over in a row differed in their error bit, and no later query has
   * covered that.
   */
  lemma {:induction false} ErrorsAreRemembered(h: Handler, inputs: seq<Input>)
    requires !h.errorRead
    ensures After(h, inputs).errorRead <==> Owed(h, inputs)
    decreases |inputs|
  {
    if inputs != [] {
      var last := |inputs| - 1;
      var before, i := inputs[..last], inputs[last];
      assert inputs == before + [i];
      AfterSnoc(h, before, i);
      ErrorStep(After(h, before), i);
      OwedSnoc(h, before, i);
      ErrorsAreRemembered(h, before);
    }
  }

  /** How many steps of a run take over a changed error bit. */
  function ErrorsSeen(h: Handler, inputs: seq<Input>): nat
    decreases |inputs|
  {
    if inputs == [] then 0
    else ErrorsSeen(h, inputs[..|inputs| - 1]) + Weight(SeenAt(h, inputs, |inputs| - 1))
  }

  /** How many steps of a run are answered by an error query. */
  function ErrorsAsked(h: Handler, inputs: seq<Input>): nat
    decreases |inputs|
  {
    if inputs == [] then 0
    else ErrorsAsked(h, inputs[..|inputs| - 1]) + Weight(AskedAt(h, inputs, |inputs| - 1))
  }

  /** And never asks without cause: queries made and still owed are covered by changes seen. */
  lemma {:induction false} NoErrorQueryWithoutCause(h: Handler, inputs: seq<Input>)
    ensures ErrorsAsked(h, inputs) + Weight(After(h, inputs).errorRead)
         <= ErrorsSeen(h, inputs) + Weight(h.errorRead)
    decreases |inputs|
  {
    if inputs != [] {
      var last := |inputs| - 1;
      var before, i := inputs[..last], inputs[last];
      assert inputs == before + [i];
      AfterSnoc(h, before, i);
      ErrorStep(After(h, before), i);
      SeenIsNoticed(h, before, i);
      NoErrorQueryWithoutCause(h, before);
    }
  }

  /** Against any inputs the handler keeps to the wire grammar. */
  lemma {:induction false} AnswersFollowGrammar(h: Handler, inputs: seq<Input>)
    ensures forall r :: r in Answers(h, inputs) ==> Sendable(r) && FollowsGrammar(Encode(r))
    decreases |inputs|
  {
    if inputs != [] {
      AnswersFollowGrammar(Next(h, inputs[0]), inputs[1..]);
      var out := Answer(h, inputs[0]);
      if out.Some? {
        assert Sendable(out.value);
        SendableFollowsGrammar(out.value);
      }
    }
  }
}
