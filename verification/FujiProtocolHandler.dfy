/** The wired controller's side of the protocol: one optional reply per master frame. */
module FujiProtocolHandler {
  import opened FujiBits
  import opened FujiTypes
  import opened FujiRegister
  import opened FujiFrame
  import opened FujiAcState

  datatype Handler = Handler(local: Local, errorRead: bool, loginRead: bool)

  const INITIAL_HANDLER: Handler := Handler(INITIAL_LOCAL, false, true)

  /** Taking note of a status register while no local change is pending. */
  function Observe(h: Handler, r: Regs): Handler {
    Handler(Merge(h.local, r), h.errorRead || h.local.errorFlag != r.error, h.loginRead || !r.present)
  }

  /** The settings frame; a pending change is written, and a swing step takes a second write to clear. */
  function SendStatus(h: Handler): (Handler, Reply) {
    var l := h.local;
    var reply := Settings(false, !l.merged, Build(l));
    if l.merged then (h, reply)
    else if l.swingStep then (h.(local := l.(swingStep := false)), reply)
    else (h.(local := l.(merged := true)), reply)
  }

  /** The answer to a status frame: a login query first, then an error query, then settings. */
  function AnswerStatus(h: Handler): (Handler, Reply) {
    if h.loginRead then (h.(loginRead := false), Query(RegisterType.Login))
    else if h.errorRead then (h.(errorRead := false), Query(RegisterType.Error))
    else SendStatus(h)
  }

  function Handle(h: Handler, m: Master): (Handler, Option<Reply>) {
    if m.destination != Destination.WiredController then (h, None)
    else
      match m.register
      case Status =>
        var (h', reply) := AnswerStatus(if h.local.merged then Observe(h, m.regs) else h);
        (h', Some(reply))
      case Login => (h, Some(Settings(true, false, Build(h.local))))
      case Error => (h, None)
      case Unknown => (h, None)
  }

  /** The local state that an answer goes by: a status frame is merged first, unless a change is pending. */
  function Current(h: Handler, m: Master): Local {
    if m.register == RegisterType.Status && h.local.merged then Merge(h.local, m.regs) else h.local
  }

  lemma AnswerIsBuilt(h: Handler, m: Master)
    ensures var out := Handle(h, m).1;
      out.Some? && out.value.Settings? ==> out.value.panel == Build(Current(h, m))
  {
  }

  /** Every answer but a query, to a status or a login frame, shows the current local state. */
  lemma AnswersShowLocal(h: Handler, m: Master)
    ensures var out := Handle(h, m).1;
      out.Some? && out.value.Settings? ==> ShowsLocal(Encode(out.value), Current(h, m))
  {
    var out := Handle(h, m).1;
    AnswerIsBuilt(h, m);
    if out.Some? && out.value.Settings? {
      BuiltFrameShows(Current(h, m), out.value.login, out.value.write);
    }
  }

  lemma ZeroPayload(s: seq<Byte>)
    requires s == [ZERO, ZERO, ZERO, SENSOR, ZERO]
    ensures s[0] == ZERO && s[1] == ZERO && s[2] == ZERO && s[3] == SENSOR && s[4] == ZERO
  {
  }

  lemma FiveBytes(s: seq<Byte>)
    requires |s| == 5
    ensures s == [s[0], s[1], s[2], s[3], s[4]]
  {
  }

  lemma WriteBitEncodes(p: Panel)
    ensures var f := Encode(Settings(false, false, p));
      f[2 := f[2].(b3 := true)] == Encode(Settings(false, true, p))
  {
  }

  class ProtocolHandler {
    const state: AcState
    var errorRead: bool
    var loginRead: bool

    function View(): Handler
      reads this, state
    {
      Handler(state.View(), errorRead, loginRead)
    }

    constructor (state: AcState)
      ensures this.state == state && !errorRead && loginRead
    {
      this.state := state;
      errorRead := false;
      loginRead := true;
    }

    method SendLoginFrame() returns (f: ControllerFrame)
      ensures f.Valid() && fresh(f) && fresh(f.data)
      ensures f.FullFrame() == Encode(Query(RegisterType.Login))
    {
      f := new ControllerFrame();
      f.WithQueryRegister(RegisterType.Login);
    }

    method SendErrorQueryFrame() returns (f: ControllerFrame)
      ensures f.Valid() && fresh(f) && fresh(f.data)
      ensures f.FullFrame() == Encode(Query(RegisterType.Error))
    {
      f := new ControllerFrame();
      f.WithQueryRegister(RegisterType.Error);
    }

    /** Fills a zeroed payload, with the sensor byte in place, from the local state. */
    method FillPayload(buffer: array<Byte>)
      requires buffer.Length == 5 && buffer[..] == [ZERO, ZERO, ZERO, SENSOR, ZERO]
      modifies buffer
      ensures buffer[..] == EncodePanel(Build(state.View()))
    {
      var status := new StatusRegister(buffer, 0);
      ZeroPayload(buffer[..]);
      state.BuildStatusRegisterResponse(status);
      FilledFromZero(state.View());
      FiveBytes(buffer[..]);
    }

    /** The payload of a settings frame: the local state over the sensor byte. */
    method BuildPayload() returns (payload: seq<Byte>)
      ensures payload == EncodePanel(Build(state.View()))
    {
      var buffer := new Byte[5] [ZERO, ZERO, ZERO, ZERO, ZERO];
      buffer[3] := SENSOR;
      FillPayload(buffer);
      payload := buffer[..];
    }

    /** The settings frame before the write bit is decided. */
    method BuildStatusFrame() returns (f: ControllerFrame)
      ensures f.Valid() && fresh(f) && fresh(f.data)
      ensures f.FullFrame() == Encode(Settings(false, false, Build(state.View())))
    {
      f := new ControllerFrame();
      var payload := BuildPayload();
      f.WithPayload(payload);
      f.WithQueryRegister(RegisterType.Status);
    }

    /** What becomes of a pending change once it is written. */
    method NoteWrite()
      requires !state.merged
      modifies state
      ensures View() == SendStatus(old(View())).0
    {
      if state.swingStep {
        state.SetSwingStep(false);
        state.SetMerged(false);
      } else {
        state.SetMerged(true);
      }
    }

    method SendStatusFrame() returns (f: ControllerFrame)
      modifies state
      ensures f.Valid() && fresh(f) && fresh(f.data)
      ensures View() == SendStatus(old(View())).0
      ensures f.FullFrame() == Encode(SendStatus(old(View())).1)
    {
      f := BuildStatusFrame();
      if !state.merged {
        f.WithWriteBit(true);
        WriteBitEncodes(Build(state.View()));
        NoteWrite();
      }
    }

    method SendLoggedInFrame() returns (f: ControllerFrame)
      ensures f.Valid() && fresh(f) && fresh(f.data)
      ensures f.FullFrame() == Encode(Settings(true, false, Build(state.View())))
    {
      f := new ControllerFrame();
      f.WithLoginBit(true);
      var payload := BuildPayload();
      f.WithPayload(payload);
      f.WithQueryRegister(RegisterType.Status);
    }

    method UpdateFromMasterStatusRegister(frame: Frame)
      modifies this, state
      ensures View() == Observe(old(View()), DecodeAt(frame, PAYLOAD))
    {
      var payload := new Byte[5](i requires 0 <= i < 5 => frame[PAYLOAD + i]);
      var status := new StatusRegister(payload, 0);
      assert status.View() == DecodeAt(frame, PAYLOAD);
      if state.errorFlag != status.View().error {
        errorRead := true;
      }
      state.MergeFromMasterStatusRegister(status);
      if !state.controllerPresent {
        loginRead := true;
      }
    }

    /** The reply to a master frame, or null for none. */
    method HandleMasterFrame(frame: Frame) returns (f: ControllerFrame?)
      modifies this, state
      ensures View() == Handle(old(View()), DecodeMaster(frame)).0
      ensures f == null <==> Handle(old(View()), DecodeMaster(frame)).1 == None
      ensures f != null ==>
                && f.Valid() && fresh(f) && fresh(f.data)
                && f.FullFrame() == Encode(Handle(old(View()), DecodeMaster(frame)).1.value)
    {
      if DestinationOf(frame) != Destination.WiredController {
        return null;
      }
      match RegisterOf(frame) {
        case Status =>
          if state.merged {
            UpdateFromMasterStatusRegister(frame);
          }
        case Login =>
          f := SendLoggedInFrame();
          return;
        case Error =>
          return null;
        case Unknown =>
          return null;
      }
      if loginRead {
        loginRead := false;
        f := SendLoginFrame();
        return;
      }
      if errorRead {
        errorRead := false;
        f := SendErrorQueryFrame();
        return;
      }
      f := SendStatusFrame();
    }
  }
}
