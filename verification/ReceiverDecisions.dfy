/** Which decision the receiver reaches on each message, with which findings, at which risk, and what it
    reports: told from the message and the state before it. */
module ReceiverDecisions {
  import opened Primitives
  import opened Envelopes
  import opened Middlewares
  import opened ScopeReduction
  import opened Receivers

  /** What the message's pipeline is asked, in which state, and what it answers. */
  function PipelineAnswer(z: Setting, s: RxState, m: Message): (MwState, Outcome)
    requires m.envelope.Some? && m.receiver in z.configs
  {
    var before := if m.receiver in s.middlewares then s.middlewares[m.receiver] else FRESH_STATE.(peers := z.peers);
    Handle(z.configs[m.receiver], before,
           Inbound(m.envelope.value, m.payload, m.capability, m.scope, m.isDelegation, m.clock))
  }

  /** The message reaches the pipeline of its receiver. */
  predicate Asked(z: Setting, m: Message) {
    m.envelope.Some? && m.receiver in z.configs
  }

  /** The message's own pipeline accepts it. */
  predicate Verified(z: Setting, s: RxState, m: Message) {
    Asked(z, m) && PipelineAnswer(z, s, m).1.Accepted?
  }

  predicate Confidential(dataLabel: string) {
    dataLabel == "credential" || dataLabel == "confidential"
  }

  /** The stored object must not steer an action: a quarantined sender wrote it, or it is confidential. */
  predicate Poisoned(s: RxState, key: string) {
    key in s.memory && (s.memory[key].writer in s.quarantined || Confidential(s.memory[key].dataLabel))
  }

  /** Whether a finding is made on a verified message; counts include the message itself. */
  predicate Made(z: Setting, s: RxState, m: Message, f: Finding) {
    match f
    case RepeatedPayload => |SetOf(s.payloadSeenFrom, m.payloadHash) + {m.sender}| >= 2
    case ExcessiveFanout => |SetOf(s.fanout, m.sender) + {m.receiver}| > 5 && !m.authorizedBroadcast
    case RepeatedDelegation => m.isDelegation && CountOf(s.delegations, m.task) + 1 > 3
    case SuspiciousInstruction => z.suspicious(m.text)
    case CredentialEgress =>
      m.dataLabel == "credential" && (m.action == "send_external_email" || m.action == "broadcast_alert")
    case ConfidentialEgress => m.dataLabel == "confidential" && m.action == "send_external_email"
    case CollusiveConsensus =>
      && m.target != "" && m.stance != "" && m.stance != "investigating"
      && |SetOf(s.stances, m.target + "::" + m.stance) + {m.sender}| >= 3
    case MemoryRiskWrite => m.memoryOp == "write" && m.memoryKey != "" && Confidential(m.dataLabel)
    case MemoryRisk => m.memoryOp == "trigger" && Poisoned(s, m.memoryKey)
    case ThresholdRequired =>
      && (m.action == "send_external_email" || m.action == "broadcast_credentials" || m.action == "export_all"
          || m.dataLabel == "credential" || m.requiresThreshold)
      && !m.thresholdPresent
  }

  /** What a finding adds to the risk. */
  function Weight(f: Finding): real {
    match f
    case CredentialEgress => 1.0
    case ThresholdRequired => 0.8
    case ConfidentialEgress => 0.7
    case CollusiveConsensus => 0.7
    case RepeatedPayload => 0.6
    case MemoryRisk => 0.6
    case RepeatedDelegation => 0.5
    case SuspiciousInstruction => 0.5
    case MemoryRiskWrite => 0.5
    case ExcessiveFanout => 0.4
  }

  const COUNTING: seq<Finding> := [RepeatedPayload, ExcessiveFanout, RepeatedDelegation]
  const READING: seq<Finding> := [SuspiciousInstruction, CredentialEgress, ConfidentialEgress]
  const REMEMBERING: seq<Finding> := [CollusiveConsensus, MemoryRiskWrite, MemoryRisk, ThresholdRequired]

  /** Those of `fs` that are made, in order. */
  function MadeOf(z: Setting, s: RxState, m: Message, fs: seq<Finding>): seq<Finding> {
    if fs == [] then []
    else (if Made(z, s, m, fs[0]) then [fs[0]] else []) + MadeOf(z, s, m, fs[1..])
  }

  /** All findings on a verified message, in the order in which they are reported. */
  function AllMade(z: Setting, s: RxState, m: Message): seq<Finding> {
    MadeOf(z, s, m, COUNTING) + MadeOf(z, s, m, READING) + MadeOf(z, s, m, REMEMBERING)
  }

  function WeightOf(fs: seq<Finding>): real {
    if fs == [] then 0.0 else Weight(fs[0]) + WeightOf(fs[1..])
  }

  /** The risk that goes with the findings; reading a poisoned object adds to it without being one. */
  function RiskFor(s: RxState, m: Message, risk: real, fs: seq<Finding>): real {
    risk + WeightOf(fs) + if m.memoryOp == "retrieve" && Poisoned(s, m.memoryKey) then 0.6 else 0.0
  }

  /** The decision on a message. */
  function DecisionFor(z: Setting, s: RxState, m: Message): Decision {
    if m.envelope.None? then Reject(ParseFailed, 1.0)
    else if m.receiver !in z.configs then Reject(UnknownReceiver, 1.0)
    else
      var o, fs := PipelineAnswer(z, s, m).1, AllMade(z, s, m);
      match o
      case Raised(_) => RaisedError(o)
      case Rejected(reason, _, risk) => Reject(Verification(reason), risk)
      case Accepted(_, _, risk) =>
        if m.sender in s.quarantined then Reject(Quarantined, 1.0)
        else if fs == [] then Accept(RiskFor(s, m, risk, fs))
        else Reject(Findings(fs), RiskFor(s, m, risk, fs))
  }

  // ---------------------------------------------------------------------
  // The findings
  // ---------------------------------------------------------------------

  /** `noted` and `clustered` are the states that the policy looks at. */
  ghost predicate Counted(s: RxState, m: Message, noted: RxState, clustered: RxState) {
    && SetOf(noted.payloadSeenFrom, m.payloadHash) == SetOf(s.payloadSeenFrom, m.payloadHash) + {m.sender}
    && SetOf(noted.fanout, m.sender) == SetOf(s.fanout, m.sender) + {m.receiver}
    && (m.isDelegation ==> CountOf(noted.delegations, m.task) == CountOf(s.delegations, m.task) + 1)
    && (MakesClaim(m) ==> SetOf(clustered.stances, ClaimKey(m)) == SetOf(s.stances, ClaimKey(m)) + {m.sender})
    && (m.memoryOp != "write" ==> clustered.memory == s.memory) && clustered.quarantined == s.quarantined
  }

  lemma {:induction false} NotedIsCounted(s: RxState, m: Message, env: SignedEnvelope, c: Crypto)
    ensures var noted := Noted(s, m, env, c); Counted(s, m, noted, Clustered(noted, m))
  {
  }

  lemma {:induction false} MadeCons(z: Setting, s: RxState, m: Message, f: Finding, fs: seq<Finding>)
    ensures MadeOf(z, s, m, [f] + fs) == When(Made(z, s, m, f), f) + MadeOf(z, s, m, fs)
  {
    assert ([f] + fs)[1..] == fs;
  }

  lemma {:induction false} OneByOne<T>(x: seq<T>, y: seq<T>, z: seq<T>)
    ensures x + (y + (z + [])) == [] + x + y + z
  {
  }

  lemma {:induction false} MadeOfThree(z: Setting, s: RxState, m: Message, a: Finding, b: Finding, c: Finding)
    ensures MadeOf(z, s, m, [a, b, c])
            == [] + When(Made(z, s, m, a), a) + When(Made(z, s, m, b), b) + When(Made(z, s, m, c), c)
  {
    assert [a, b, c] == [a] + [b, c] && [b, c] == [b] + [c] && [c] == [c] + [];
    MadeCons(z, s, m, c, []);
    MadeCons(z, s, m, b, [c]);
    MadeCons(z, s, m, a, [b, c]);
    OneByOne(When(Made(z, s, m, a), a), When(Made(z, s, m, b), b), When(Made(z, s, m, c), c));
  }

  lemma {:induction false} CountersMade(z: Setting, s: RxState, m: Message, noted: RxState, clustered: RxState)
    requires Counted(s, m, noted, clustered)
    ensures CounterFindings(noted, m) == MadeOf(z, s, m, COUNTING)
  {
    MadeOfThree(z, s, m, RepeatedPayload, ExcessiveFanout, RepeatedDelegation);
  }

  lemma {:induction false} ContentMade(z: Setting, s: RxState, m: Message)
    ensures ContentFindings(z, m) == MadeOf(z, s, m, READING)
  {
    MadeOfThree(z, s, m, SuspiciousInstruction, CredentialEgress, ConfidentialEgress);
  }

  lemma {:induction false} OneMoreInFront<T>(w: seq<T>, x: seq<T>, y: seq<T>, z: seq<T>)
    ensures w + ([] + x + y + z) == [] + w + x + y + z
  {
  }

  lemma {:induction false} LateConditions(
    z: Setting, s: RxState, m: Message, noted: RxState, clustered: RxState)
    requires Counted(s, m, noted, clustered)
    ensures MakesClaim(m) && |SetOf(clustered.stances, ClaimKey(m))| >= 3 <==> Made(z, s, m, CollusiveConsensus)
    ensures m.memoryOp == "trigger" && Tainted(clustered, m.memoryKey) <==> Made(z, s, m, MemoryRisk)
  {
  }

  lemma {:induction false} LateConditionsOfMessage(z: Setting, s: RxState, m: Message)
    ensures RisksWrite(m) <==> Made(z, s, m, MemoryRiskWrite)
    ensures NeedsThreshold(m) && !m.thresholdPresent <==> Made(z, s, m, ThresholdRequired)
  {
  }

  lemma {:induction false} LateMade(z: Setting, s: RxState, m: Message, noted: RxState, clustered: RxState)
    requires Counted(s, m, noted, clustered)
    ensures LateFindings(clustered, m) == MadeOf(z, s, m, REMEMBERING)
  {
    var rest := [MemoryRiskWrite, MemoryRisk, ThresholdRequired];
    LateConditions(z, s, m, noted, clustered);
    LateConditionsOfMessage(z, s, m);
    assert REMEMBERING == [CollusiveConsensus] + rest;
    MadeCons(z, s, m, CollusiveConsensus, rest);
    MadeOfThree(z, s, m, MemoryRiskWrite, MemoryRisk, ThresholdRequired);
    OneMoreInFront(When(Made(z, s, m, CollusiveConsensus), CollusiveConsensus),
                   When(Made(z, s, m, MemoryRiskWrite), MemoryRiskWrite),
                   When(Made(z, s, m, MemoryRisk), MemoryRisk),
                   When(Made(z, s, m, ThresholdRequired), ThresholdRequired));
  }

  lemma {:induction false} DeltasAreWeights(fs: seq<Finding>)
    ensures TotalDelta(fs) == WeightOf(fs)
    decreases |fs|
  {
    if fs != [] {
      DeltasAreWeights(fs[1..]);
      assert fs == [fs[0]] + fs[1..] && [fs[0]][..0] == [];
      DeltaConcat([fs[0]], fs[1..]);
      assert TotalDelta([fs[0]]) == fs[0].Delta() == Weight(fs[0]);
    }
  }

  /** The findings of the policy are those made in the state before it. */
  lemma {:induction false} FindingsOfPolicy(z: Setting, s: RxState, m: Message, env: SignedEnvelope, c: Crypto)
    ensures var noted := Noted(s, m, env, c);
            EarlyFindings(z, noted, m) + LateFindings(Clustered(noted, m), m) == AllMade(z, s, m)
  {
    var noted := Noted(s, m, env, c);
    NotedIsCounted(s, m, env, c);
    CountersMade(z, s, m, noted, Clustered(noted, m));
    ContentMade(z, s, m);
    LateMade(z, s, m, noted, Clustered(noted, m));
  }

  lemma {:induction false} PolicyDecision(
    z: Setting, s: RxState, m: Message, env: SignedEnvelope, c: Crypto, risk: real)
    ensures var fs := AllMade(z, s, m);
            Policy(z, s, m, env, c, risk).1
            == if m.sender in s.quarantined then Reject(Quarantined, 1.0)
               else if fs == [] then Accept(RiskFor(s, m, risk, fs))
               else Reject(Findings(fs), RiskFor(s, m, risk, fs))
  {
    var noted := Noted(s, m, env, c);
    var early, late := EarlyFindings(z, noted, m), LateFindings(Clustered(noted, m), m);
    NotedIsCounted(s, m, env, c);
    FindingsOfPolicy(z, s, m, env, c);
    DeltaConcat(early, late);
    DeltasAreWeights(early + late);
    JudgedDecision(s, noted, m, early, late, risk);
  }

  lemma {:induction false} JudgedDecision(
    s: RxState, noted: RxState, m: Message, early: seq<Finding>, late: seq<Finding>, risk: real)
    requires Counted(s, m, noted, Clustered(noted, m)) && noted.quarantined == s.quarantined
    requires TotalDelta(early) + TotalDelta(late) == WeightOf(early + late)
    ensures Judged(noted, m, early, late, risk).1
            == if m.sender in s.quarantined then Reject(Quarantined, 1.0)
               else if early + late == [] then Accept(RiskFor(s, m, risk, early + late))
               else Reject(Findings(early + late), RiskFor(s, m, risk, early + late))
  {
  }

  lemma {:induction false} SameFindings(
    z: Setting, s: RxState, middlewares: map<string, MwState>, m: Message, fs: seq<Finding>)
    ensures MadeOf(z, s.(middlewares := middlewares), m, fs) == MadeOf(z, s, m, fs)
    decreases |fs|
  {
    if fs != [] {
      SameFindings(z, s, middlewares, m, fs[1..]);
    }
  }

  lemma {:induction false} SameJudgement(
    z: Setting, s: RxState, middlewares: map<string, MwState>, m: Message, risk: real)
    ensures AllMade(z, s.(middlewares := middlewares), m) == AllMade(z, s, m)
    ensures RiskFor(s.(middlewares := middlewares), m, risk, AllMade(z, s, m)) == RiskFor(s, m, risk, AllMade(z, s, m))
  {
    SameFindings(z, s, middlewares, m, COUNTING);
    SameFindings(z, s, middlewares, m, READING);
    SameFindings(z, s, middlewares, m, REMEMBERING);
  }

  lemma {:induction false} ReceivesThroughPipeline(z: Setting, s: RxState, m: Message)
    requires Asked(z, m)
    ensures var (mw, o) := PipelineAnswer(z, s, m);
            Receive(z, s, m) == Routed(z, s.(middlewares := s.middlewares[m.receiver := mw]), m, m.envelope.value,
                                       z.configs[m.receiver].crypto, o)
  {
  }

  lemma {:induction false} RoutedDecision(
    z: Setting, s: RxState, middlewares: map<string, MwState>, m: Message, env: SignedEnvelope, c: Crypto, o: Outcome)
    ensures var fs := AllMade(z, s, m);
            Routed(z, s.(middlewares := middlewares), m, env, c, o).1
            == match o
               case Raised(_) => RaisedError(o)
               case Rejected(reason, _, risk) => Reject(Verification(reason), risk)
               case Accepted(_, _, risk) =>
                 if m.sender in s.quarantined then Reject(Quarantined, 1.0)
                 else if fs == [] then Accept(RiskFor(s, m, risk, fs))
                 else Reject(Findings(fs), RiskFor(s, m, risk, fs))
  {
    if o.Accepted? {
      PolicyDecision(z, s.(middlewares := middlewares), m, env, c, o.risk);
      SameJudgement(z, s, middlewares, m, o.risk);
    }
  }

  /** The receiver decides every message exactly so: it is accepted if and only if its pipeline accepts it,
      its sender is not in quarantine, and nothing is found; and otherwise rejected for the first of these,
      with all findings in order and the risk that goes with them. */
  lemma {:induction false} DecisionExactly(z: Setting, s: RxState, m: Message)
    ensures Receive(z, s, m).1 == DecisionFor(z, s, m)
  {
    if Asked(z, m) {
      var (mw, o) := PipelineAnswer(z, s, m);
      ReceivesThroughPipeline(z, s, m);
      RoutedDecision(z, s, s.middlewares[m.receiver := mw], m, m.envelope.value, z.configs[m.receiver].crypto, o);
    }
  }

  lemma {:induction false} MadeIsFound(z: Setting, s: RxState, m: Message, fs: seq<Finding>, f: Finding)
    ensures f in MadeOf(z, s, m, fs) <==> f in fs && Made(z, s, m, f)
    decreases |fs|
  {
    if fs != [] {
      MadeIsFound(z, s, m, fs[1..], f);
      assert fs == [fs[0]] + fs[1..];
    }
  }

  lemma {:induction false} NothingMade(z: Setting, s: RxState, m: Message)
    ensures AllMade(z, s, m) == [] <==> forall f: Finding :: !Made(z, s, m, f)
  {
    forall f: Finding ensures f in AllMade(z, s, m) <==> Made(z, s, m, f) {
      FoundIffMade(z, s, m, f);
    }
    if AllMade(z, s, m) != [] {
      assert AllMade(z, s, m)[0] in AllMade(z, s, m);
    }
  }

  /** A finding is reported if and only if it is made. */
  lemma {:induction false} FoundIffMade(z: Setting, s: RxState, m: Message, f: Finding)
    ensures f in AllMade(z, s, m) <==> Made(z, s, m, f)
  {
    MadeIsFound(z, s, m, COUNTING, f);
    MadeIsFound(z, s, m, READING, f);
    MadeIsFound(z, s, m, REMEMBERING, f);
  }

  lemma {:induction false} AcceptedDecision(z: Setting, s: RxState, m: Message)
    ensures DecisionFor(z, s, m).Accept?
            <==> Verified(z, s, m) && m.sender !in s.quarantined && AllMade(z, s, m) == []
  {
  }

  /** When the receiver accepts: in terms of the message and the state before it. */
  lemma {:induction false} AcceptsExactly(z: Setting, s: RxState, m: Message)
    ensures Receive(z, s, m).1.Accept?
            <==> Verified(z, s, m) && m.sender !in s.quarantined && forall f: Finding :: !Made(z, s, m, f)
  {
    DecisionExactly(z, s, m);
    AcceptedDecision(z, s, m);
    NothingMade(z, s, m);
  }

  // ---------------------------------------------------------------------
  // The report
  // ---------------------------------------------------------------------

  /** The level that is reported: the sender's in the pipeline, isolation for a quarantined sender,
      restricted output where something was found, and none without a pipeline. */
  function LevelFor(z: Setting, s: RxState, m: Message): Level
    requires Asked(z, m) ==> !PipelineAnswer(z, s, m).1.Raised?
  {
    if !Asked(z, m) then 0
    else if PipelineAnswer(z, s, m).1.Rejected? then PipelineAnswer(z, s, m).1.level
    else if m.sender in s.quarantined then 6
    else if AllMade(z, s, m) == [] then PipelineAnswer(z, s, m).1.level
    else 2
  }

  lemma {:induction false} SameAnswer(z: Setting, s: RxState, m: Message)
    ensures Answer(z, s, m) == if Asked(z, m) then Some(PipelineAnswer(z, s, m).1) else None
  {
  }

  lemma {:induction false} ReportOfDecision(d: Decision, answer: Option<Outcome>)
    ensures var report := ReportOf(d, answer);
            && (report.None? <==> d.RaisedError?)
            && (report.Some? ==>
                  && (report.value.accepted <==> d.Accept?)
                  && (report.value.policyValid <==> d.Accept?)
                  && (report.value.auditCommitted <==>
                        d.Accept? || !(d.block.ParseFailed? || d.block.UnknownReceiver?)))
  {
  }

  lemma {:induction false} KindOfDecision(z: Setting, s: RxState, m: Message)
    ensures var d := DecisionFor(z, s, m);
            && (d.RaisedError? <==> Asked(z, m) && PipelineAnswer(z, s, m).1.Raised?)
            && (d.Reject? ==> (d.block.ParseFailed? || d.block.UnknownReceiver? <==> !Asked(z, m)))
            && (d.Accept? ==> Asked(z, m))
  {
  }

  lemma {:induction false} ReportedLevel(z: Setting, s: RxState, m: Message, d: Decision, answer: Option<Outcome>)
    requires d == DecisionFor(z, s, m) && !d.RaisedError?
    requires answer == if Asked(z, m) then Some(PipelineAnswer(z, s, m).1) else None
    ensures ReportOf(d, answer).Some? && (Asked(z, m) ==> !PipelineAnswer(z, s, m).1.Raised?)
    ensures ReportOf(d, answer).value.level == LevelFor(z, s, m)
  {
  }

  /** What the report says besides its two flags: whether the message was accepted, and hence within
      policy; whether the pipeline was asked, and hence something logged; and the level. */
  lemma {:induction false} ReportExactly(z: Setting, s: RxState, m: Message)
    ensures var d := Receive(z, s, m).1; var report := ReportOf(d, Answer(z, s, m));
            && (report.None? <==> Asked(z, m) && PipelineAnswer(z, s, m).1.Raised?)
            && (report.Some? ==>
                  && (report.value.accepted <==> d.Accept?)
                  && (report.value.policyValid <==> d.Accept?)
                  && (report.value.auditCommitted <==> Asked(z, m))
                  && report.value.level == LevelFor(z, s, m))
  {
    var d, answer := Receive(z, s, m).1, Answer(z, s, m);
    DecisionExactly(z, s, m);
    SameAnswer(z, s, m);
    ReportOfDecision(d, answer);
    KindOfDecision(z, s, m);
    if !d.RaisedError? {
      ReportedLevel(z, s, m, d, answer);
    }
  }
}
