/** The controller loop, its clients, the unit and its remote, as one transition system. */
module FujiSystem {
  import opened FujiTypes
  import opened FujiFrame
  import opened FujiAcState
  import opened FujiProtocolHandler
  import opened FujiAcUnitSim

  /**
   * `last` is the last frame sent, `ready` releases the waiting clients, and `captured` is the master
   * frame that the loop has read but not yet handled under the mutex.
   */
  datatype Sys = Sys(h: Handler, u: Unit, last: Reply, ready: bool, captured: Option<Master>)

  /** One atomic step of one of the threads, or of the remote. */
  datatype Event =
    | ReadFrame
    | MissFrame
    | HandleFrame
    | UserUpdate(changes: seq<Change>)
    | IrCommand(command: Change)

  /** A unit that has had no controller error to report; it may already know a controller. */
  ghost predicate Initial(s: Sys) {
    && s.h == INITIAL_HANDLER
    && s.u.next == RegisterType.Status && !s.u.regs.error
    && s.last == DEFAULT_REPLY
    && !s.ready
    && s.captured == None
  }

  /** The unit receiving a reply. */
  function Receive(u: Unit, r: Reply): Unit {
    Push(u, r.Target(), r.LogsIn(), r.Writes(), r.Payload())
  }

  /** Handling the captured frame and delivering the reply, under the mutex. */
  function HandleCaptured(s: Sys): Sys
    requires s.captured.Some?
  {
    var (h, out) := Handle(s.h, s.captured.value);
    match out
    case None => s.(h := h, captured := None)
    case Some(r) => Sys(h, Receive(s.u, r), r, s.ready || r == s.last, None)
  }

  /** A step that is not enabled leaves the system as it is. */
  function Step(s: Sys, e: Event): Sys {
    match e
    case ReadFrame =>
      if s.captured.Some? then s
      else var (u, m) := Emit(s.u); s.(u := u, captured := Some(m))
    case MissFrame =>
      if s.captured.Some? then s else s.(u := Emit(s.u).0)
    case HandleFrame =>
      if s.captured.Some? then HandleCaptured(s) else s
    case UserUpdate(changes) =>
      s.(h := s.h.(local := ApplyAll(s.h.local, changes)), ready := false)
    case IrCommand(command) =>
      s.(u := s.u.(regs := Remote(s.u.regs, command)))
  }

  /** The reply that a step sends, if any. */
  function Output(s: Sys, e: Event): Option<Reply> {
    if e.HandleFrame? && s.captured.Some? then Handle(s.h, s.captured.value).1 else None
  }

  function Run(s: Sys, es: seq<Event>): Sys
    decreases |es|
  {
    if es == [] then s else Run(Step(s, es[0]), es[1..])
  }

  /** The replies sent during a run, in order. */
  function Trace(s: Sys, es: seq<Event>): seq<Reply>
    decreases |es|
  {
    if es == [] then []
    else
      var out := Output(s, es[0]);
      (if out.Some? then [out.value] else []) + Trace(Step(s, es[0]), es[1..])
  }

  /** How many master frames the loop handled during a run. */
  function Cycles(s: Sys, es: seq<Event>): nat
    decreases |es|
  {
    if es == [] then 0
    else (if es[0].HandleFrame? && s.captured.Some? then 1 else 0) + Cycles(Step(s, es[0]), es[1..])
  }

  lemma {:induction false} RunAppend(s: Sys, a: seq<Event>, b: seq<Event>)
    ensures Run(s, a + b) == Run(Run(s, a), b)
    ensures Trace(s, a + b) == Trace(s, a) + Trace(Run(s, a), b)
    ensures Cycles(s, a + b) == Cycles(s, a) + Cycles(Run(s, a), b)
    decreases |a|
  {
    if a == [] {
      assert a + b == b;
    } else {
      assert (a + b)[1..] == a[1..] + b;
      RunAppend(Step(s, a[0]), a[1..], b);
    }
  }

  /** A prefix of a run, seen from its second state. */
  lemma RunPrefix(s: Sys, es: seq<Event>, k: nat)
    requires k < |es|
    ensures Run(s, es[..k + 1]) == Run(Step(s, es[0]), es[1..][..k])
    ensures es[..k + 1][0] == es[0] && es[..k + 1][1..] == es[1..][..k]
  {
    assert es[..k + 1][1..] == es[1..][..k];
  }

  /** A frame that the loop misses was sent all the same. */
  lemma MissedFrames(s: Sys)
    requires s.captured == None
    ensures Step(s, MissFrame) == Step(s, ReadFrame).(captured := None)
  {
  }

  lemma RunOne(s: Sys, a: Event)
    ensures Run(s, [a]) == Step(s, a)
  {
    assert [a][1..] == [];
  }

  lemma RunTwo(s: Sys, a: Event, b: Event)
    ensures Run(s, [a, b]) == Step(Step(s, a), b)
  {
    assert [a, b][1..] == [b];
    RunOne(Step(s, a), b);
  }

  lemma RunThree(s: Sys, a: Event, b: Event, c: Event)
    ensures Run(s, [a, b, c]) == Step(Step(Step(s, a), b), c)
  {
    assert [a, b, c][1..] == [b, c];
    RunTwo(Step(s, a), b, c);
  }

  /** No client changes anything; an empty update may still be issued. */
  predicate NoUserChange(es: seq<Event>) {
    forall i :: 0 <= i < |es| ==> es[i].UserUpdate? ==> es[i].changes == []
  }

  /** No client updates at all. */
  predicate NoUpdate(es: seq<Event>)
    decreases |es|
  {
    es == [] || (!es[0].UserUpdate? && NoUpdate(es[1..]))
  }

  /** Neither clients nor the remote act. */
  predicate Quiet(es: seq<Event>) {
    forall i :: 0 <= i < |es| ==> !es[i].UserUpdate? && !es[i].IrCommand?
  }

  /** One undisturbed turn of the loop. */
  const CYCLE: seq<Event> := [ReadFrame, HandleFrame]

  lemma CycleOnce(s: Sys)
    ensures Run(s, CYCLE) == Step(Step(s, ReadFrame), HandleFrame)
    ensures Cycles(s, CYCLE) == 1
    ensures NoUpdate(CYCLE) && NoUserChange(CYCLE) && Quiet(CYCLE)
  {
    RunTwo(s, ReadFrame, HandleFrame);
    assert CYCLE[1..] == [HandleFrame] && [HandleFrame][1..] == [];
  }
}
