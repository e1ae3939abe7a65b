/** The login handshake over whole runs. */
module FujiRegistration {
  import opened FujiTypes
  import opened FujiFrame
  import opened FujiSystem
  import opened FujiInvariants
  import opened FujiDelivery
  import opened FujiProtocolHandler

  /** How far the handshake has come: 0 pending, 1 queried, 2 registered. */
  function Stage(s: Sys): nat {
    if LoginPending(s) then 0 else if LoginQueried(s) then 1 else 2
  }

  /** What the controller sends in a stage. */
  predicate SentIn(stage: nat, r: Reply) {
    if stage == 0 then r == Query(RegisterType.Login)
    else if stage == 1 then r.LogsIn() && !r.Writes()
    else r.Settings? && !r.login
  }

  function Capped(n: nat): nat {
    if n < 2 then n else 2
  }

  lemma StageStep(s: Sys, e: Event)
    requires Inv(s)
    ensures e.HandleFrame? && s.captured.Some? ==>
              Output(s, e).Some? && SentIn(Stage(s), Output(s, e).value)
    ensures Stage(Step(s, e)) == if e.HandleFrame? && s.captured.Some? then Capped(Stage(s) + 1) else Stage(s)
  {
  }

  /** Replies as they are sent from a stage on. */
  predicate SentFrom(stage: nat, replies: seq<Reply>) {
    forall i :: 0 <= i < |replies| ==> SentIn(Capped(stage + i), replies[i])
  }

  lemma SentFromCons(stage: nat, r: Reply, rest: seq<Reply>)
    requires SentIn(Capped(stage), r) && SentFrom(Capped(stage + 1), rest)
    ensures SentFrom(stage, [r] + rest)
  {
    forall i | 0 <= i < |rest| + 1 ensures SentIn(Capped(stage + i), ([r] + rest)[i]) {
      if i > 0 {
        assert SentIn(Capped(Capped(stage + 1) + (i - 1)), rest[i - 1]);
      }
    }
  }

  /** Every settings and login frame of a run carries the local settings as they are when it is sent. */
  ghost predicate SendsCurrent(s: Sys, es: seq<Event>)
    decreases |es|
  {
    es != [] ==>
      && (Output(s, es[0]).Some? && Output(s, es[0]).value.Settings? ==>
            Carries(Output(s, es[0]).value, Current(s.h, s.captured.value)))
      && SendsCurrent(Step(s, es[0]), es[1..])
  }

  lemma StepSendsCurrent(s: Sys, e: Event)
    requires Inv(s) && Output(s, e).Some? && Output(s, e).value.Settings?
    ensures Carries(Output(s, e).value, Current(s.h, s.captured.value))
  {
    if s.captured.value.register == RegisterType.Login {
      LoginAnswer(s.h, s.captured.value);
    } else {
      StatusAnswer(s.h, s.captured.value);
    }
  }

  lemma {:induction false} AlwaysSendsCurrent(s: Sys, es: seq<Event>)
    requires Inv(s)
    ensures SendsCurrent(s, es)
    decreases |es|
  {
    if es != [] {
      if Output(s, es[0]).Some? && Output(s, es[0]).value.Settings? {
        StepSendsCurrent(s, es[0]);
      }
      StepInv(s, es[0]);
      AlwaysSendsCurrent(Step(s, es[0]), es[1..]);
    }
  }

  /** The replies of a run from its second state on, and the one before them. */
  lemma SentFromStep(s: Sys, es: seq<Event>)
    requires Inv(s) && es != [] && SentFrom(Stage(Step(s, es[0])), Trace(Step(s, es[0]), es[1..]))
    ensures SentFrom(Stage(s), Trace(s, es))
  {
    var out, rest := Output(s, es[0]), Trace(Step(s, es[0]), es[1..]);
    StageStep(s, es[0]);
    if out.Some? {
      SentFromCons(Stage(s), out.value, rest);
    } else {
      assert Trace(s, es) == rest;
    }
  }

  lemma {:induction false} RepliesInOrder(s: Sys, es: seq<Event>)
    requires Inv(s)
    ensures |Trace(s, es)| == Cycles(s, es)
    ensures SentFrom(Stage(s), Trace(s, es))
    ensures Stage(Run(s, es)) == Capped(Stage(s) + Cycles(s, es))
    decreases |es|
  {
    if es != [] {
      StageStep(s, es[0]);
      StepInv(s, es[0]);
      RepliesInOrder(Step(s, es[0]), es[1..]);
      SentFromStep(s, es);
    }
  }

  /**
   * Whatever the clients and the remote do, every handled frame is answered, and the answers are one login
   * query, then one login frame, then settings frames without login bit; registration takes what is left
   * of two cycles and is never lost. All but the query carry the local settings of their time.
   */
  lemma HandshakeRuns(s: Sys, es: seq<Event>)
    requires Inv(s)
    ensures |Trace(s, es)| == Cycles(s, es)
    ensures SentFrom(Stage(s), Trace(s, es)) && SendsCurrent(s, es)
    ensures Stage(Run(s, es)) == Capped(Stage(s) + Cycles(s, es))
  {
    RepliesInOrder(s, es);
    AlwaysSendsCurrent(s, es);
  }

  /** From power-on: registered exactly after two handled frames. */
  lemma RegistersInTwoCycles(s: Sys, es: seq<Event>)
    requires Initial(s)
    ensures Registered(Run(s, es)) <==> Cycles(s, es) >= 2
    ensures SentFrom(0, Trace(s, es)) && SendsCurrent(s, es)
  {
    InitialInv(s);
    HandshakeRuns(s, es);
    RunInv(s, es);
  }

  /** Every frame that the controller ever sends follows the wire grammar, and is not the default frame. */
  lemma {:induction false} RunsFollowGrammar(s: Sys, es: seq<Event>)
    requires Inv(s)
    ensures forall r :: r in Trace(s, es) ==> FollowsGrammar(Encode(r)) && r != DEFAULT_REPLY
  {
    HandshakeRuns(s, es);
    forall r | r in Trace(s, es) ensures FollowsGrammar(Encode(r)) && r != DEFAULT_REPLY {
      var i :| 0 <= i < |Trace(s, es)| && Trace(s, es)[i] == r;
      assert SentIn(Capped(Stage(s) + i), r);
      AlwaysSendable(s, es, i);
      SendableFollowsGrammar(r);
    }
  }

  lemma {:induction false} AlwaysSendable(s: Sys, es: seq<Event>, i: nat)
    requires i < |Trace(s, es)|
    ensures Sendable(Trace(s, es)[i])
    decreases |es|
  {
    var out := Output(s, es[0]);
    if out.Some? {
      if i > 0 {
        AlwaysSendable(Step(s, es[0]), es[1..], i - 1);
      }
    } else {
      AlwaysSendable(Step(s, es[0]), es[1..], i);
    }
  }
}
