/** `benchmarks/baselines/cg_atc.py`: the behavioural policy on top of one middleware per receiver. */
module Receivers {
  import opened Primitives
  import opened Exceptions
  import opened Envelopes
  import opened Capabilities
  import opened Middlewares
  import opened ScopeReduction

  datatype Message = Message(
    sender: string,
    receiver: string,
    task: string,
    text: string,
    payload: Bytes,
    payloadHash: string,
    envelope: Option<SignedEnvelope>,
    capability: Option<SignedCapability>,
    scope: string,
    action: string,
    dataLabel: string,
    isDelegation: bool,
    authorizedBroadcast: bool,
    memoryOp: string,
    memoryKey: string,
    target: string,
    stance: string,
    requiresThreshold: bool,
    thresholdPresent: bool,
    clock: Clock)

  datatype Provenance = Provenance(
    writer: string,
    writeTime: real,
    capabilityId: Bytes,
    dataLabel: string,
    objectHash: string,
    messageHash: Digest)

  datatype Finding =
    | RepeatedPayload
    | ExcessiveFanout
    | RepeatedDelegation
    | SuspiciousInstruction
    | CredentialEgress
    | ConfidentialEgress
    | CollusiveConsensus
    | MemoryRiskWrite
    | MemoryRisk
    | ThresholdRequired
  {
    function Delta(): real {
      match this
      case RepeatedPayload => 0.6
      case ExcessiveFanout => 0.4
      case RepeatedDelegation => 0.5
      case SuspiciousInstruction => 0.5
      case CredentialEgress => 1.0
      case ConfidentialEgress => 0.7
      case CollusiveConsensus => 0.7
      case MemoryRiskWrite => 0.5
      case MemoryRisk => 0.6
      case ThresholdRequired => 0.8
    }

    /** Findings that name the sender as the attacker. */
    predicate Attributable() {
      !MemoryRisk? && !ThresholdRequired?
    }
  }

  datatype Block =
    | ParseFailed
    | UnknownReceiver
    | Verification(reason: Reason)
    | Quarantined
    | Findings(findings: seq<Finding>)

  datatype Decision = Accept(risk: real) | Reject(block: Block, risk: real) | RaisedError(exc: Outcome)

  /** What a decision reports besides its reason and risk. */
  datatype Report = Report(
    accepted: bool,
    level: Level,
    cryptoValid: bool,
    capabilityValid: bool,
    policyValid: bool,
    auditCommitted: bool)

  datatype RxState = RxState(
    middlewares: map<string, MwState>,
    payloadSeenFrom: map<string, set<string>>,
    delegations: map<string, nat>,
    fanout: map<string, set<string>>,
    stances: map<string, set<string>>,
    memory: map<string, Provenance>,
    quarantined: set<string>)

  const FRESH_RECEIVER := RxState(map[], map[], map[], map[], map[], map[], {})

  /** The payload threshold that the receiver gives each of its pipelines. */
  const RECEIVER_PAYLOAD_THRESHOLD := 2

  /** The fixed surroundings: the configuration of each receiver's pipeline, the crew's keys, and which
      texts contain a suspicious instruction.  Only theorems that say so depend on the payload
      threshold of the pipelines. */
  datatype Setting = Setting(configs: map<string, Config>, peers: map<Bytes, Bytes>, suspicious: string -> bool)

  function SetOf(m: map<string, set<string>>, key: string): set<string> {
    if key in m then m[key] else {}
  }

  function CountOf(m: map<string, nat>, key: string): nat {
    if key in m then m[key] else 0
  }

  function ClaimKey(m: Message): string {
    m.target + "::" + m.stance
  }

  predicate MakesClaim(m: Message) {
    m.target != "" && m.stance != "" && m.stance != "investigating"
  }

  predicate Sensitive(dataLabel: string) {
    dataLabel == "credential" || dataLabel == "confidential"
  }

  function InboundOf(m: Message, env: SignedEnvelope): Inbound {
    Inbound(env, m.payload, m.capability, m.scope, m.isDelegation, m.clock)
  }

  // ---------------------------------------------------------------------
  // The decision as a function
  // ---------------------------------------------------------------------

  function MiddlewareFor(z: Setting, s: RxState, receiver: string): MwState {
    if receiver in s.middlewares then s.middlewares[receiver] else FRESH_STATE.(peers := z.peers)
  }

  /** Memory provenance, payload, fan-out and delegation counters are updated for every verified message. */
  function Noted(s: RxState, m: Message, env: SignedEnvelope, c: Crypto): RxState {
    var capId := if m.capability.Some? then m.capability.value.capability.capId else [];
    var written := Provenance(m.sender, m.clock.log, capId, m.dataLabel, m.payloadHash, c.DigestOf(env.envelope));
    s.(
      memory := if m.memoryOp == "write" && m.memoryKey != "" then s.memory[m.memoryKey := written] else s.memory,
      payloadSeenFrom := s.payloadSeenFrom[m.payloadHash := SetOf(s.payloadSeenFrom, m.payloadHash) + {m.sender}],
      fanout := s.fanout[m.sender := SetOf(s.fanout, m.sender) + {m.receiver}],
      delegations := if m.isDelegation then s.delegations[m.task := CountOf(s.delegations, m.task) + 1]
                     else s.delegations)
  }

  function When(cond: bool, f: Finding): seq<Finding> {
    if cond then [f] else []
  }

  /** Findings from the counters. */
  function CounterFindings(s: RxState, m: Message): seq<Finding> {
    []
    + When(|SetOf(s.payloadSeenFrom, m.payloadHash)| >= 2, RepeatedPayload)
    + When(|SetOf(s.fanout, m.sender)| > 5 && !m.authorizedBroadcast, ExcessiveFanout)
    + When(m.isDelegation && CountOf(s.delegations, m.task) > 3, RepeatedDelegation)
  }

  /** Findings from the message itself. */
  function ContentFindings(z: Setting, m: Message): seq<Finding> {
    []
    + When(z.suspicious(m.text), SuspiciousInstruction)
    + When(m.dataLabel == "credential" && (m.action == "send_external_email" || m.action == "broadcast_alert"),
           CredentialEgress)
    + When(m.dataLabel == "confidential" && m.action == "send_external_email", ConfidentialEgress)
  }

  /** Findings before the quarantine check, in order. */
  function EarlyFindings(z: Setting, s: RxState, m: Message): seq<Finding> {
    CounterFindings(s, m) + ContentFindings(z, m)
  }

  function Clustered(s: RxState, m: Message): RxState {
    if MakesClaim(m) then s.(stances := s.stances[ClaimKey(m) := SetOf(s.stances, ClaimKey(m)) + {m.sender}]) else s
  }

  /** A stored memory object that must not steer a later action. */
  predicate Tainted(s: RxState, key: string) {
    key in s.memory && (s.memory[key].writer in s.quarantined || Sensitive(s.memory[key].dataLabel))
  }

  predicate RisksWrite(m: Message) {
    m.memoryOp == "write" && m.memoryKey != "" && Sensitive(m.dataLabel)
  }

  predicate NeedsThreshold(m: Message) {
    m.action == "send_external_email" || m.action == "broadcast_credentials" || m.action == "export_all"
    || m.dataLabel == "credential" || m.requiresThreshold
  }

  function LateFindings(s: RxState, m: Message): seq<Finding> {
    []
    + When(MakesClaim(m) && |SetOf(s.stances, ClaimKey(m))| >= 3, CollusiveConsensus)
    + When(RisksWrite(m), MemoryRiskWrite)
    + When(m.memoryOp == "trigger" && Tainted(s, m.memoryKey), MemoryRisk)
    + When(NeedsThreshold(m) && !m.thresholdPresent, ThresholdRequired)
  }

  function TotalDelta(fs: seq<Finding>): real {
    if fs == [] then 0.0 else TotalDelta(fs[..|fs| - 1]) + fs[|fs| - 1].Delta()
  }

  /** Retrieving a tainted object raises the risk without being a finding. */
  function RetrievalDelta(s: RxState, m: Message): real {
    if m.memoryOp == "retrieve" && Tainted(s, m.memoryKey) then 0.6 else 0.0
  }

  predicate BlamesSender(fs: seq<Finding>) {
    MemoryRisk !in fs && exists f :: f in fs && f.Attributable()
  }

  /** The policy on a message that the middleware accepted with risk `risk`. */
  function Policy(z: Setting, s: RxState, m: Message, env: SignedEnvelope, c: Crypto, risk: real): (RxState, Decision) {
    var noted := Noted(s, m, env, c);
    Judged(noted, m, EarlyFindings(z, noted, m), LateFindings(Clustered(noted, m), m), risk)
  }

  function Judged(
    noted: RxState, m: Message, early: seq<Finding>, late: seq<Finding>, risk: real): (RxState, Decision) {
    Decided(noted, m, early + late,
            risk + (TotalDelta(early) + TotalDelta(late) + RetrievalDelta(Clustered(noted, m), m)))
  }

  /** A quarantined sender is refused whatever was found; otherwise the findings decide. */
  function Decided(noted: RxState, m: Message, findings: seq<Finding>, total: real): (RxState, Decision) {
    if m.sender in noted.quarantined then (noted, Reject(Quarantined, 1.0))
    else Concluded(Clustered(noted, m), m, findings, total)
  }

  /** Accept without findings; otherwise reject, and quarantine a sender to blame. */
  function Concluded(s: RxState, m: Message, findings: seq<Finding>, total: real): (RxState, Decision) {
    if findings == [] then (s, Accept(total))
    else if BlamesSender(findings) then
      (s.(quarantined := s.quarantined + {m.sender}), Reject(Findings(findings), total))
    else (s, Reject(Findings(findings), total))
  }

  /** Whether a refusal by the pipeline counts as a failed signature, and as a failed capability.  Only
      the names of exceptions are looked at, so a missing capability does not count. */
  function Reported(reason: Reason, level: Level): Report {
    Report(false, level, reason != Failed(SignatureVerificationError),
           !(reason.Failed? && reason.exc.IsCapabilityError()), false, true)
  }

  /** The report of a decision, where `o` is what the pipeline returned, if it was asked; none if it raised. */
  function ReportOf(d: Decision, o: Option<Outcome>): Option<Report> {
    match d
    case Accept(_) =>
      Some(Report(true, if o.Some? && o.value.Accepted? then o.value.level else NORMAL, true, true, true, true))
    case RaisedError(_) => None
    case Reject(block, _) =>
      match block
      case ParseFailed => Some(Report(false, NORMAL, false, false, false, false))
      case UnknownReceiver => Some(Report(false, NORMAL, false, false, false, false))
      case Verification(reason) =>
        Some(Reported(reason, if o.Some? && o.value.Rejected? then o.value.level else NORMAL))
      case Quarantined => Some(Report(false, NETWORK_ISOLATED, true, true, false, true))
      case Findings(_) => Some(Report(false, OUTPUT_RESTRICTED, true, true, false, true))
  }

  /** What the pipeline of the message's receiver returns for it, if it is asked. */
  function Answer(z: Setting, s: RxState, m: Message): Option<Outcome> {
    if m.envelope.None? || m.receiver !in z.configs then None
    else
      Some(Handle(z.configs[m.receiver], MiddlewareFor(z, s, m.receiver), InboundOf(m, m.envelope.value)).1)
  }

  /** `receive`. */
  function Receive(z: Setting, s: RxState, m: Message): (RxState, Decision) {
    if m.envelope.None? then (s, Reject(ParseFailed, 1.0))
    else if m.receiver !in z.configs then (s, Reject(UnknownReceiver, 1.0))
    else
      var cfg := z.configs[m.receiver];
      var (mw, o) := Handle(cfg, MiddlewareFor(z, s, m.receiver), InboundOf(m, m.envelope.value));
      Routed(z, s.(middlewares := s.middlewares[m.receiver := mw]), m, m.envelope.value, cfg.crypto, o)
  }

  /** What becomes of a message after its pipeline has returned `o`. */
  function Routed(z: Setting, s: RxState, m: Message, env: SignedEnvelope, c: Crypto, o: Outcome): (RxState, Decision) {
    match o
    case Raised(_) => (s, RaisedError(o))
    case Rejected(reason, _, risk) => (s, Reject(Verification(reason), risk))
    case Accepted(_, _, risk) => Policy(z, s, m, env, c, risk)
  }

  // ---------------------------------------------------------------------
  // The program
  // ---------------------------------------------------------------------

  lemma {:induction false} DeltaAppend(fs: seq<Finding>, f: Finding)
    ensures TotalDelta(fs + [f]) == TotalDelta(fs) + f.Delta()
  {
    assert (fs + [f])[..|fs|] == fs;
  }

  lemma {:induction false} JudgedRefuses(
    noted: RxState, m: Message, early: seq<Finding>, late: seq<Finding>, risk: real)
    requires m.sender in noted.quarantined
    ensures Judged(noted, m, early, late, risk) == (noted, Reject(Quarantined, 1.0))
  {
  }

  lemma {:induction false} JudgedConcludes(
    noted: RxState, clustered: RxState, m: Message, early: seq<Finding>, late: seq<Finding>, risk: real)
    requires m.sender !in noted.quarantined && clustered == Clustered(noted, m)
    ensures Judged(noted, m, early, late, risk)
            == Concluded(clustered, m, early + late,
                         risk + (TotalDelta(early) + TotalDelta(late) + RetrievalDelta(clustered, m)))
  {
  }

  class CGATCReceiver {
    const z: Setting
    var middlewares: map<string, MwState>
    var payloadSeenFrom: map<string, set<string>>
    var delegations: map<string, nat>
    var fanout: map<string, set<string>>
    var stances: map<string, set<string>>
    var memory: map<string, Provenance>
    var quarantined: set<string>

    constructor (z: Setting)
      ensures this.z == z && State() == FRESH_RECEIVER
    {
      this.z := z;
      middlewares, payloadSeenFrom, delegations := map[], map[], map[];
      fanout, stances, memory, quarantined := map[], map[], map[], {};
    }

    function State(): RxState
      reads this
    {
      RxState(middlewares, payloadSeenFrom, delegations, fanout, stances, memory, quarantined)
    }

    method ReceiveMessage(m: Message) returns (d: Decision, report: Option<Report>)
      modifies this
      ensures (State(), d) == Receive(z, old(State()), m)
      ensures report == ReportOf(d, Answer(z, old(State()), m))
    {
      var answer;
      d, answer := Decide(m);
      report := ReportOf(d, answer);
    }

    method Decide(m: Message) returns (d: Decision, answer: Option<Outcome>)
      modifies this
      ensures (State(), d) == Receive(z, old(State()), m)
      ensures answer == Answer(z, old(State()), m)
    {
      if m.envelope.None? {
        return Reject(ParseFailed, 1.0), None;
      }
      if m.receiver !in z.configs {
        return Reject(UnknownReceiver, 1.0), None;
      }
      var cfg := z.configs[m.receiver];
      if m.receiver !in middlewares {
        middlewares := middlewares[m.receiver := FRESH_STATE.(peers := z.peers)];
      }
      var (mw, o) := Handle(cfg, middlewares[m.receiver], InboundOf(m, m.envelope.value));
      answer := Some(o);
      middlewares := middlewares[m.receiver := mw];
      assert middlewares == old(middlewares)[m.receiver := mw];
      match o
      case Raised(_) =>
        d := RaisedError(o);
      case Rejected(reason, _, risk) =>
        d := Reject(Verification(reason), risk);
      case Accepted(_, _, risk) =>
        d := ApplyPolicy(m, m.envelope.value, cfg.crypto, risk);
    }

    /** The counters that every verified message updates. */
    method Note(m: Message, env: SignedEnvelope, c: Crypto)
      modifies this`memory, this`payloadSeenFrom, this`fanout, this`delegations
      ensures State() == Noted(old(State()), m, env, c)
    {
      if m.memoryOp == "write" && m.memoryKey != "" {
        var capId := if m.capability.Some? then m.capability.value.capability.capId else [];
        var digest := c.DigestOf(env.envelope);
        memory := memory[m.memoryKey := Provenance(m.sender, m.clock.log, capId, m.dataLabel, m.payloadHash, digest)];
      }
      payloadSeenFrom := payloadSeenFrom[m.payloadHash := SetOf(payloadSeenFrom, m.payloadHash) + {m.sender}];
      fanout := fanout[m.sender := SetOf(fanout, m.sender) + {m.receiver}];
      if m.isDelegation {
        delegations := delegations[m.task := CountOf(delegations, m.task) + 1];
      }
    }

    /** The findings that come before the quarantine check. */
    method Early(m: Message) returns (fs: seq<Finding>, delta: real)
      ensures fs == EarlyFindings(z, State(), m) && delta == TotalDelta(fs)
    {
      fs, delta := Counters(m);
      var more, extra := Content(m);
      DeltaConcat(fs, more);
      fs, delta := fs + more, delta + extra;
    }

    method Counters(m: Message) returns (fs: seq<Finding>, delta: real)
      ensures fs == CounterFindings(State(), m) && delta == TotalDelta(fs)
    {
      fs, delta := [], 0.0;
      fs, delta := Check(fs, delta, |SetOf(payloadSeenFrom, m.payloadHash)| >= 2, RepeatedPayload);
      fs, delta := Check(fs, delta, |SetOf(fanout, m.sender)| > 5 && !m.authorizedBroadcast, ExcessiveFanout);
      fs, delta := Check(fs, delta, m.isDelegation && CountOf(delegations, m.task) > 3, RepeatedDelegation);
    }

    method Content(m: Message) returns (fs: seq<Finding>, delta: real)
      ensures fs == ContentFindings(z, m) && delta == TotalDelta(fs)
    {
      fs, delta := [], 0.0;
      fs, delta := Check(fs, delta, z.suspicious(m.text), SuspiciousInstruction);
      fs, delta := Check(fs, delta,
        m.dataLabel == "credential" && (m.action == "send_external_email" || m.action == "broadcast_alert"),
        CredentialEgress);
      fs, delta := Check(fs, delta,
        m.dataLabel == "confidential" && m.action == "send_external_email", ConfidentialEgress);
    }

    /** The findings that come after it. */
    method Late(m: Message) returns (fs: seq<Finding>, delta: real)
      ensures fs == LateFindings(State(), m) && delta == TotalDelta(fs)
    {
      fs, delta := [], 0.0;
      fs, delta := Check(fs, delta, MakesClaim(m) && |SetOf(stances, ClaimKey(m))| >= 3, CollusiveConsensus);
      fs, delta := Check(fs, delta, RisksWrite(m), MemoryRiskWrite);
      fs, delta := Check(fs, delta, m.memoryOp == "trigger" && Tainted(State(), m.memoryKey), MemoryRisk);
      fs, delta := Check(fs, delta, NeedsThreshold(m) && !m.thresholdPresent, ThresholdRequired);
    }

    method ApplyPolicy(m: Message, env: SignedEnvelope, c: Crypto, risk: real) returns (d: Decision)
      modifies this
      ensures (State(), d) == Policy(z, old(State()), m, env, c, risk)
    {
      Note(m, env, c);
      var early, delta := Early(m);
      d := Judge(m, early, delta, risk);
    }

    /** The policy from the quarantine check on. */
    method Judge(m: Message, early: seq<Finding>, delta: real, risk: real) returns (d: Decision)
      requires delta == TotalDelta(early)
      modifies this`stances, this`quarantined
      ensures (State(), d) == Judged(old(State()), m, early, LateFindings(Clustered(old(State()), m), m), risk)
    {
      ghost var noted := State();
      if m.sender in quarantined {
        JudgedRefuses(noted, m, early, LateFindings(Clustered(noted, m), m), risk);
        return Reject(Quarantined, 1.0);
      }
      Cluster(m);
      ghost var clustered := State();
      var late, extra := Late(m);
      var retrieval := if m.memoryOp == "retrieve" && Tainted(State(), m.memoryKey) then 0.6 else 0.0;
      assert retrieval == RetrievalDelta(clustered, m);
      d := Conclude(m, early + late, risk + (delta + extra + retrieval));
      JudgedConcludes(noted, clustered, m, early, late, risk);
    }

    method Cluster(m: Message)
      modifies this`stances
      ensures State() == Clustered(old(State()), m)
    {
      if MakesClaim(m) {
        stances := stances[ClaimKey(m) := SetOf(stances, ClaimKey(m)) + {m.sender}];
      }
    }

    method Conclude(m: Message, findings: seq<Finding>, total: real) returns (d: Decision)
      modifies this`quarantined
      ensures (State(), d) == Concluded(old(State()), m, findings, total)
    {
      if findings != [] {
        if BlamesSender(findings) {
          quarantined := quarantined + {m.sender};
        }
        return Reject(Findings(findings), total);
      }
      return Accept(total);
    }
  }

  /** If `cond` holds, append one finding and its share of the risk. */
  method Check(findings: seq<Finding>, delta: real, cond: bool, f: Finding) returns (fs: seq<Finding>, d: real)
    ensures fs == findings + When(cond, f)
    ensures delta == TotalDelta(findings) ==> d == TotalDelta(fs)
  {
    fs, d := findings, delta;
    if cond {
      DeltaAppend(findings, f);
      fs, d := fs + [f], d + f.Delta();
    }
  }

  lemma {:induction false} DeltaConcat(a: seq<Finding>, b: seq<Finding>)
    ensures TotalDelta(a + b) == TotalDelta(a) + TotalDelta(b)
    decreases |b|
  {
    if b == [] {
      assert a + b == a;
    } else {
      assert (a + b)[..|a + b| - 1] == a + b[..|b| - 1];
      DeltaConcat(a, b[..|b| - 1]);
    }
  }
}
