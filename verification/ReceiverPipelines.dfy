/** The pipelines inside the full receiver are runs of the single pipeline, so everything proved about
    those runs holds for each of them. */
module ReceiverPipelines {
  import opened Envelopes
  import opened Chain
  import opened HashChain
  import opened Middlewares
  import opened Receivers
  import opened ReceiverRuns
  import MiddlewareRuns
  import ContainmentRuns

  type Steps = seq<MiddlewareRuns.Step>

  /** The calls that `msgs` make of the pipeline of `receiver`. */
  function CallsOf(msgs: seq<Message>, receiver: string): Steps {
    if msgs == [] then []
    else
      var m := msgs[|msgs| - 1];
      CallsOf(msgs[..|msgs| - 1], receiver)
      + if m.receiver == receiver && m.envelope.Some?
        then [MiddlewareRuns.Receive(InboundOf(m, m.envelope.value))]
        else []
  }

  /** One message changes no pipeline but its receiver's, and that one by one call. */
  lemma {:induction false} PipelineStep(z: Setting, s: RxState, m: Message, receiver: string)
    requires receiver in z.configs
    ensures var r := Receive(z, s, m).0;
            MiddlewareFor(z, r, receiver)
            == if m.receiver == receiver && m.envelope.Some?
               then Handle(z.configs[receiver], MiddlewareFor(z, s, receiver), InboundOf(m, m.envelope.value)).0
               else MiddlewareFor(z, s, receiver)
  {
    if m.envelope.Some? && m.receiver in z.configs {
      var cfg := z.configs[m.receiver];
      var (mw, o) := Handle(cfg, MiddlewareFor(z, s, m.receiver), InboundOf(m, m.envelope.value));
      RoutedKeepsPipelines(z, s.(middlewares := s.middlewares[m.receiver := mw]), m, m.envelope.value, cfg.crypto, o);
    }
  }

  lemma {:induction false} RoutedKeepsPipelines(
    z: Setting, s: RxState, m: Message, env: SignedEnvelope, c: Crypto, o: Outcome)
    ensures Routed(z, s, m, env, c, o).0.middlewares == s.middlewares
  {
    if o.Accepted? {
      var noted := Noted(s, m, env, c);
      JudgedKeepsPipelines(noted, m, EarlyFindings(z, noted, m), LateFindings(Clustered(noted, m), m), o.risk);
    }
  }

  lemma {:induction false} JudgedKeepsPipelines(
    noted: RxState, m: Message, early: seq<Finding>, late: seq<Finding>, risk: real)
    ensures Judged(noted, m, early, late, risk).0.middlewares == noted.middlewares
  {
  }

  /** The pipeline of every receiver is in the state that its registrations and its own calls lead to. */
  lemma {:induction false} PipelineIsRun(z: Setting, msgs: seq<Message>, receiver: string, regs: Steps)
    requires receiver in z.configs && MiddlewareRuns.Registers(z.configs[receiver], regs, z.peers)
    ensures MiddlewareFor(z, Run(z, msgs), receiver)
            == MiddlewareRuns.Run(z.configs[receiver], regs + CallsOf(msgs, receiver))
    decreases |msgs|
  {
    if msgs == [] {
      assert regs + [] == regs;
    } else {
      var t := |msgs| - 1;
      var before, m := msgs[..t], msgs[t];
      assert MiddlewareFor(z, Run(z, before), receiver)
          == MiddlewareRuns.Run(z.configs[receiver], regs + CallsOf(before, receiver))
      by {
        PipelineIsRun(z, before, receiver, regs);
      }
      PipelineStep(z, Run(z, before), m, receiver);
      if m.receiver == receiver && m.envelope.Some? {
        var step := MiddlewareRuns.Receive(InboundOf(m, m.envelope.value));
        var calls := regs + CallsOf(before, receiver);
        assert regs + CallsOf(msgs, receiver) == calls + [step];
        assert (calls + [step])[..|calls|] == calls;
      } else {
        assert CallsOf(msgs, receiver) == CallsOf(before, receiver);
      }
    }
  }

  lemma {:induction false} CallsOfPrefix(msgs: seq<Message>, receiver: string, i: nat)
    requires i <= |msgs|
    ensures |CallsOf(msgs[..i], receiver)| <= |CallsOf(msgs, receiver)|
    ensures CallsOf(msgs, receiver)[..|CallsOf(msgs[..i], receiver)|] == CallsOf(msgs[..i], receiver)
    decreases |msgs|
  {
    if i == |msgs| {
      assert msgs[..i] == msgs;
    } else {
      var before := msgs[..|msgs| - 1];
      CallsOfPrefix(before, receiver, i);
      assert before[..i] == msgs[..i];
    }
  }

  /** Where the call of message `i` stands among the calls of its receiver. */
  lemma {:induction false} CallStands(msgs: seq<Message>, regs: Steps, i: nat, receiver: string)
    requires i < |msgs| && msgs[i].envelope.Some? && msgs[i].receiver == receiver
    ensures var steps, earlier := regs + CallsOf(msgs, receiver), regs + CallsOf(msgs[..i], receiver);
            && |earlier| < |steps| && steps[..|earlier|] == earlier
            && steps[|earlier|] == MiddlewareRuns.Receive(InboundOf(msgs[i], msgs[i].envelope.value))
  {
    var call := MiddlewareRuns.Receive(InboundOf(msgs[i], msgs[i].envelope.value));
    CallsOfPrefix(msgs, receiver, i);
    CallsOfPrefix(msgs, receiver, i + 1);
    assert msgs[..i + 1][..i] == msgs[..i];
    assert CallsOf(msgs[..i + 1], receiver) == CallsOf(msgs[..i], receiver) + [call];
  }

  lemma {:induction false} AcceptedByPipeline(z: Setting, s: RxState, m: Message)
    requires Receive(z, s, m).1.Accept?
    ensures m.envelope.Some? && m.receiver in z.configs
    ensures Handle(z.configs[m.receiver], MiddlewareFor(z, s, m.receiver), InboundOf(m, m.envelope.value)).1.Accepted?
  {
  }

  /** The call that an accepted message makes, as a step of its pipeline's run. */
  lemma {:induction false} CallAt(z: Setting, msgs: seq<Message>, regs: Steps, i: nat) returns (k: nat)
    requires i < |msgs| && AcceptedAt(z, msgs, i)
    requires MiddlewareRuns.Registers(z.configs[msgs[i].receiver], regs, z.peers)
    ensures k == |regs + CallsOf(msgs[..i], msgs[i].receiver)|
    ensures var steps := regs + CallsOf(msgs, msgs[i].receiver);
            && k < |steps| && steps[k] == MiddlewareRuns.Receive(InboundOf(msgs[i], msgs[i].envelope.value))
            && MiddlewareRuns.AcceptedAt(z.configs[msgs[i].receiver], steps, k)
  {
    var receiver := msgs[i].receiver;
    var earlier := regs + CallsOf(msgs[..i], receiver);
    k := |earlier|;
    AcceptedByPipeline(z, Run(z, msgs[..i]), msgs[i]);
    CallStands(msgs, regs, i, receiver);
    PipelineIsRun(z, msgs[..i], receiver, regs);
  }

  lemma {:induction false} CallsInOrder(msgs: seq<Message>, i: nat, j: nat, receiver: string)
    requires i < j <= |msgs| && msgs[i].envelope.Some? && msgs[i].receiver == receiver
    ensures |CallsOf(msgs[..i], receiver)| < |CallsOf(msgs[..j], receiver)|
  {
    CallsOfPrefix(msgs[..j], receiver, i + 1);
    assert msgs[..j][..i + 1] == msgs[..i + 1] && msgs[..i + 1][..i] == msgs[..i];
  }

  /** At-most-once delivery inside the full receiver: of two accepted messages to one receiver, with
      one session and one sender id, the later one has the larger sequence number. */
  lemma {:induction false} AcceptedInOrder(z: Setting, msgs: seq<Message>, i: nat, j: nat)
    requires i < j && AcceptedAt(z, msgs, i) && AcceptedAt(z, msgs, j)
    requires msgs[i].receiver == msgs[j].receiver
    requires KeyOf(msgs[i].envelope.value.envelope) == KeyOf(msgs[j].envelope.value.envelope)
    ensures msgs[i].envelope.value.envelope.seqNo < msgs[j].envelope.value.envelope.seqNo
  {
    var receiver, cfg := msgs[i].receiver, z.configs[msgs[i].receiver];
    var regs := MiddlewareRuns.Registrations(cfg, z.peers);
    var k := CallAt(z, msgs, regs, i);
    var l := CallAt(z, msgs, regs, j);
    CallsInOrder(msgs, i, j, receiver);
    MiddlewareRuns.AcceptedInOrder(cfg, regs + CallsOf(msgs, receiver), k, l);
  }

  /** Every pipeline's log passes its verification and holds one record per returned call. */
  lemma {:induction false} PipelineLogsAreIntact(z: Setting, msgs: seq<Message>, receiver: string, regs: Steps)
    requires receiver in z.configs && MiddlewareRuns.Registers(z.configs[receiver], regs, z.peers)
    ensures var cfg, mw := z.configs[receiver], MiddlewareFor(z, Run(z, msgs), receiver);
            && Intact(cfg.crypto.hash, cfg.eventBytes, mw.records, mw.head)
            && |mw.records| == MiddlewareRuns.Returned(cfg, regs + CallsOf(msgs, receiver))
  {
    PipelineIsRun(z, msgs, receiver, regs);
    MiddlewareRuns.LogCountsCalls(z.configs[receiver], regs + CallsOf(msgs, receiver));
  }

  /** With the payload threshold of two that every pipeline of the full receiver is given, one payload
      is accepted by one receiver from one agent only. */
  lemma {:induction false} OnePayloadOneAgent(z: Setting, msgs: seq<Message>, i: nat, j: nat)
    requires AcceptedAt(z, msgs, i) && AcceptedAt(z, msgs, j) && msgs[i].receiver == msgs[j].receiver
    requires z.configs[msgs[i].receiver].payloadThreshold == RECEIVER_PAYLOAD_THRESHOLD
    requires msgs[i].payload == msgs[j].payload
    ensures msgs[i].envelope.value.envelope.sender == msgs[j].envelope.value.envelope.sender
  {
    var receiver, cfg := msgs[i].receiver, z.configs[msgs[i].receiver];
    var regs := MiddlewareRuns.Registrations(cfg, z.peers);
    var steps, fp := regs + CallsOf(msgs, receiver), cfg.crypto.hash(msgs[i].payload);
    var k := CallAt(z, msgs, regs, i);
    var l := CallAt(z, msgs, regs, j);
    ContainmentRuns.AcceptedCounts(cfg, steps, k, fp);
    ContainmentRuns.AcceptedCounts(cfg, steps, l, fp);
    ContainmentRuns.FanoutBounded(cfg, steps, fp);
    TwoMembers(ContainmentRuns.AcceptedFrom(cfg, steps, fp), steps[k].m.Sender(), steps[l].m.Sender());
  }
}
