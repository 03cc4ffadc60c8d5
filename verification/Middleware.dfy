/** `cgatc/a2a_integration/middleware.py`: the verification pipeline of one receiver. */
module Middlewares {
  import opened Primitives
  import opened Exceptions
  import opened Envelopes
  import opened Chain
  import opened Replay
  import opened Delivery
  import opened HashChain
  import opened RiskScore
  import opened ScopeReduction
  import opened Impact
  import opened Capabilities

  /** The structured events that the pipeline writes to its log. */
  datatype AuditEvent =
    | Violation(sender: Bytes, layer: string, exc: Exc, severity: real)
    | UnknownPeerViolation(sender: Bytes, severity: real)
    | CrossSenderPayload(sender: Bytes, distinct: nat)
    | DroppedIsolated(sender: Bytes, level: Level)
    | AcceptedMessage(sender: Bytes, task: Bytes, scope: string, level: Level)

  type Record = AuditRecord<AuditEvent>

  datatype Config = Config(
    me: Bytes,
    crypto: Crypto,
    enforcer: Enforcer,
    weights: RiskWeights,
    thresholds: Thresholds,
    payloadThreshold: int,
    eventBytes: AuditEvent -> Bytes)

  /** The readings of the clock during one call. */
  datatype Clock = Clock(envelope: real, capability: real, log: real)

  /** The arguments of one call of `handle_inbound`. */
  datatype Inbound = Inbound(
    signed: SignedEnvelope,
    payload: Bytes,
    capability: Option<SignedCapability>,
    scope: string,
    isDelegation: bool,
    clock: Clock)
  {
    function Sender(): Bytes {
      signed.envelope.sender
    }

    function Request(me: Bytes): ActionRequest {
      ActionRequest(Sender(), me, signed.envelope.task, scope, None, None, None, isDelegation)
    }
  }

  datatype Reason = UnknownPeer | Failed(exc: Exc) | MissingCapability | PromptFanout | Isolated

  /** `handle_inbound` returns a verdict or lets a HashMismatchError through. */
  datatype Outcome =
    | Accepted(payload: Bytes, level: Level, risk: real)
    | Rejected(reason: Reason, level: Level, risk: real)
    | Raised(exc: Exc)

  /** Everything the pipeline remembers. */
  datatype MwState = MwState(
    peers: map<Bytes, Bytes>,
    gate: Gate,
    risks: Risks,
    levels: Levels,
    adj: Adjacency,
    records: seq<Record>,
    head: Digest,
    fingerprints: map<Digest, set<Bytes>>)

  const FRESH_STATE := MwState(map[], FRESH_GATE, map[], map[], map[], [], GENESIS, map[])

  // ---------------------------------------------------------------------
  // One call as a function on states
  // ---------------------------------------------------------------------

  function Logged(cfg: Config, s: MwState, event: AuditEvent, envelope: Bytes, signature: Bytes, ts: real): MwState {
    var head := cfg.crypto.hash(s.head + (cfg.eventBytes(event) + envelope + signature));
    s.(records := s.records + [AuditRecord(|s.records|, ts, event, envelope, signature, head)], head := head)
  }

  /** Tick the sender's risk and evaluate its level. */
  function Settled(cfg: Config, s: MwState, sender: Bytes): MwState {
    var risks := Ticked(cfg.weights, s.risks, sender);
    s.(risks := risks, levels := Evaluated(cfg.thresholds, s.levels, sender, Of(risks, sender).risk))
  }

  function RiskOf(s: MwState, agent: Bytes): real {
    Of(s.risks, agent).risk
  }

  function LevelOf(s: MwState, agent: Bytes): Level {
    CurrentOf(s.levels, agent)
  }

  /** Charge a severity to the sender, log the event, settle and reject. */
  function Refused(cfg: Config, s: MwState, sender: Bytes, layer: Layer, severity: real, event: AuditEvent,
                   reason: Reason, ts: real): (MwState, Outcome) {
    var charged := s.(risks := Added(s.risks, sender, layer, severity));
    var r := Settled(cfg, Logged(cfg, charged, event, [], [], ts), sender);
    (r, Rejected(reason, LevelOf(r, sender), RiskOf(r, sender)))
  }

  /** `_punish` followed by `_fail`. */
  function Punished(cfg: Config, s: MwState, sender: Bytes, exc: Exc, layer: string, reason: Reason, ts: real)
    : (MwState, Outcome) {
    Refused(cfg, s, sender, CryptoLayer, exc.Severity(), Violation(sender, layer, exc, exc.Severity()), reason, ts)
  }

  function SendersOf(s: MwState, fp: Digest): set<Bytes> {
    if fp in s.fingerprints then s.fingerprints[fp] else {}
  }

  /** The last part: the containment level decides between dropping and accepting. */
  function Contain(cfg: Config, s: MwState, m: Inbound): (MwState, Outcome) {
    var sender := m.Sender();
    var settled := Settled(cfg, s, sender);
    var level := LevelOf(settled, sender);
    if level >= NETWORK_ISOLATED then
      (Logged(cfg, settled, DroppedIsolated(sender, level), [], [], m.clock.log),
       Rejected(Isolated, level, RiskOf(settled, sender)))
    else
      (Logged(cfg, settled.(adj := Sent(settled.adj, sender, cfg.me)),
              AcceptedMessage(sender, m.signed.envelope.task, m.scope, level),
              cfg.crypto.encode(m.signed.envelope), m.signed.signature, m.clock.log),
       Accepted(m.payload, level, RiskOf(settled, sender)))
  }

  /** The senders that have presented the payload of `m`, the sender of `m` included. */
  function Presenters(cfg: Config, s: MwState, m: Inbound): set<Bytes> {
    SendersOf(s, cfg.crypto.hash(m.payload)) + {m.Sender()}
  }

  /** The part after all cryptographic checks: the payload fingerprint, then containment. */
  function Admit(cfg: Config, s: MwState, m: Inbound): (MwState, Outcome) {
    var senders := Presenters(cfg, s, m);
    var seen := s.(fingerprints := s.fingerprints[cfg.crypto.hash(m.payload) := senders]);
    if |senders| >= cfg.payloadThreshold then
      Refused(cfg, seen, m.Sender(), BehaviorLayer, 1.0, CrossSenderPayload(m.Sender(), |senders|), PromptFanout,
              m.clock.log)
    else Contain(cfg, seen, m)
  }

  /** The part behind the chain and replay checks: the capability gate, then admission. */
  function Gated(cfg: Config, s: MwState, m: Inbound): (MwState, Outcome) {
    if m.capability.None? then
      Punished(cfg, s, m.Sender(), CapabilityError, "capability", MissingCapability, m.clock.log)
    else
      var fault := cfg.enforcer.Check(m.capability.value, m.Request(cfg.me), m.clock.capability);
      if fault.Some? then Punished(cfg, s, m.Sender(), fault.value, "capability", Failed(fault.value), m.clock.log)
      else Admit(cfg, s, m)
  }

  /** Whether a call gets as far as `chain.accept`. */
  predicate ReachesChain(cfg: Config, s: MwState, m: Inbound) {
    m.Sender() in s.peers && EnvelopeFault(cfg, s, m).None?
  }

  function EnvelopeFault(cfg: Config, s: MwState, m: Inbound): Option<Exc>
    requires m.Sender() in s.peers
  {
    VerifyEnvelope(cfg.crypto, m.signed, s.peers[m.Sender()], m.payload, cfg.me, m.clock.envelope)
  }

  /** `handle_inbound`. */
  function Handle(cfg: Config, s: MwState, m: Inbound): (MwState, Outcome) {
    var sender := m.Sender();
    if sender !in s.peers then
      Refused(cfg, s, sender, CryptoLayer, 1.0, UnknownPeerViolation(sender, 1.0), UnknownPeer, m.clock.log)
    else
      var fault := EnvelopeFault(cfg, s, m);
      if fault.Some? && !(fault.value.IsEnvelopeError() || fault.value.SignatureVerificationError?) then
        (s, Raised(fault.value))
      else if fault.Some? then
        Punished(cfg, s, sender, fault.value, "envelope", Failed(fault.value), m.clock.log)
      else
        var (gate, chainFault) := Offer(cfg.crypto, s.gate, m.signed.envelope);
        var passed := s.(gate := gate);
        if chainFault.Some? then
          Punished(cfg, passed, sender, chainFault.value, "chain", Failed(chainFault.value), m.clock.log)
        else
          Gated(cfg, passed, m)
  }

  /** Whether the receiver may send to `to`. */
  ghost predicate MaySend(cfg: Config, s: MwState, to: Bytes) {
    var level := LevelOf(s, cfg.me);
    var radius := RadiusForLevel(level);
    var reach := ImpactOf(s.adj, cfg.me, radius);
    level < NETWORK_ISOLATED && radius != 0 && (to in reach || |reach| < radius)
  }

  // ---------------------------------------------------------------------
  // The program
  // ---------------------------------------------------------------------

  class Middleware {
    const cfg: Config
    const chain: SessionChainTracker
    const replay: ReplayGuard
    const risk: RiskScoreUpdater
    const scope: ScopeReducer
    const impact: ImpactGraph
    const log: HashChainLog<AuditEvent>
    var peers: map<Bytes, Bytes>
    var fingerprints: map<Digest, set<Bytes>>

    /** The parts agree on the hash, the weights and the thresholds. */
    ghost predicate Valid() {
      && chain.c == cfg.crypto && replay.c == cfg.crypto
      && risk.w == cfg.weights && scope.t == cfg.thresholds
      && log.H == cfg.crypto.hash && log.eventBytes == cfg.eventBytes
    }

    ghost function State(): MwState
      reads this, chain, replay, risk, scope, impact, log
    {
      MwState(peers, Gate(chain.state, replay.seen), risk.state, scope.levels, impact.adj,
              log.records, log.head, fingerprints)
    }

    /** Parts that are not given are created.  A given log without records counts as not given,
        because an object of length zero is falsy. */
    constructor (cfg: Config, chain0: SessionChainTracker?, replay0: ReplayGuard?, risk0: RiskScoreUpdater?,
                 scope0: ScopeReducer?, impact0: ImpactGraph?, log0: HashChainLog?<AuditEvent>)
      requires cfg.weights.Valid() && cfg.thresholds.Valid()
      requires chain0 != null ==> chain0.c == cfg.crypto
      requires replay0 != null ==> replay0.c == cfg.crypto
      requires risk0 != null ==> risk0.w == cfg.weights
      requires scope0 != null ==> scope0.t == cfg.thresholds
      requires log0 != null ==> log0.H == cfg.crypto.hash && log0.eventBytes == cfg.eventBytes
      ensures this.cfg == cfg && Valid() && peers == map[] && fingerprints == map[]
      ensures if chain0 != null then chain == chain0 else fresh(chain) && chain.state == map[]
      ensures if replay0 != null then replay == replay0 else fresh(replay) && replay.seen == NOTHING_SEEN
      ensures if risk0 != null then risk == risk0 else fresh(risk) && risk.state == map[]
      ensures if scope0 != null then scope == scope0 else fresh(scope) && scope.levels == map[]
      ensures if impact0 != null then impact == impact0 else fresh(impact) && impact.adj == map[]
      ensures if log0 != null && log0.records != [] then log == log0
              else fresh(log) && log.records == [] && log.head == GENESIS
    {
      this.cfg := cfg;
      var newChain := new SessionChainTracker(cfg.crypto);
      var newReplay := new ReplayGuard(cfg.crypto);
      var newRisk := new RiskScoreUpdater(cfg.weights);
      var newScope := new ScopeReducer(cfg.thresholds);
      var newImpact := new ImpactGraph();
      var newLog := new HashChainLog<AuditEvent>(cfg.crypto.hash, cfg.eventBytes);
      chain := if chain0 != null then chain0 else newChain;
      replay := if replay0 != null then replay0 else newReplay;
      risk := if risk0 != null then risk0 else newRisk;
      scope := if scope0 != null then scope0 else newScope;
      impact := if impact0 != null then impact0 else newImpact;
      log := if log0 != null && log0.records != [] then log0 else newLog;
      peers := map[];
      fingerprints := map[];
    }

    method RegisterPeer(agent: Bytes, publicKey: Bytes)
      modifies this`peers
      ensures State() == old(State()).(peers := old(peers)[agent := publicKey])
    {
      peers := peers[agent := publicKey];
    }

    method Refuse(sender: Bytes, layer: Layer, severity: real, event: AuditEvent, reason: Reason, ts: real)
      returns (r: Outcome)
      requires Valid()
      modifies risk, scope, log
      ensures (State(), r) == Refused(cfg, old(State()), sender, layer, severity, event, reason, ts)
    {
      risk.AddScore(sender, layer, severity);
      var _ := log.Append(event, [], [], ts);
      var score := risk.Tick(sender);
      var level := scope.Evaluate(sender, score);
      r := Rejected(reason, level, score);
    }

    method Punish(sender: Bytes, exc: Exc, layer: string, reason: Reason, ts: real) returns (r: Outcome)
      requires Valid()
      modifies risk, scope, log
      ensures (State(), r) == Punished(cfg, old(State()), sender, exc, layer, reason, ts)
    {
      r := Refuse(sender, CryptoLayer, exc.Severity(), Violation(sender, layer, exc, exc.Severity()), reason, ts);
    }

    method HandleInbound(m: Inbound) returns (r: Outcome)
      requires Valid()
      modifies this`fingerprints, chain, replay, risk, scope, impact, log
      ensures (State(), r) == Handle(cfg, old(State()), m)
    {
      var sender := m.Sender();
      if sender !in peers {
        r := Refuse(sender, CryptoLayer, 1.0, UnknownPeerViolation(sender, 1.0), UnknownPeer, m.clock.log);
        return;
      }
      var fault := VerifyEnvelope(cfg.crypto, m.signed, peers[sender], m.payload, cfg.me, m.clock.envelope);
      if fault.Some? {
        if !(fault.value.IsEnvelopeError() || fault.value.SignatureVerificationError?) {
          return Raised(fault.value);
        }
        r := Punish(sender, fault.value, "envelope", Failed(fault.value), m.clock.log);
        return;
      }
      var chainFault := chain.Accept(m.signed);
      if chainFault.None? {
        chainFault := replay.CheckAndRecord(m.signed);
      }
      if chainFault.Some? {
        r := Punish(sender, chainFault.value, "chain", Failed(chainFault.value), m.clock.log);
        return;
      }
      if m.capability.None? {
        r := Punish(sender, CapabilityError, "capability", MissingCapability, m.clock.log);
        return;
      }
      var capFault := cfg.enforcer.Check(m.capability.value, m.Request(cfg.me), m.clock.capability);
      if capFault.Some? {
        r := Punish(sender, capFault.value, "capability", Failed(capFault.value), m.clock.log);
        return;
      }
      r := AdmitChecked(m);
    }

    method AdmitChecked(m: Inbound) returns (r: Outcome)
      requires Valid()
      modifies this`fingerprints, risk, scope, impact, log
      ensures (State(), r) == Admit(cfg, old(State()), m)
    {
      var sender := m.Sender();
      var fp := cfg.crypto.hash(m.payload);
      var seenFrom := if fp in fingerprints then fingerprints[fp] else {};
      seenFrom := seenFrom + {sender};
      fingerprints := fingerprints[fp := seenFrom];
      if |seenFrom| >= cfg.payloadThreshold {
        r := Refuse(sender, BehaviorLayer, 1.0, CrossSenderPayload(sender, |seenFrom|), PromptFanout, m.clock.log);
        return;
      }
      r := ContainChecked(m);
    }

    method ContainChecked(m: Inbound) returns (r: Outcome)
      requires Valid()
      modifies risk, scope, impact, log
      ensures (State(), r) == Contain(cfg, old(State()), m)
    {
      var sender := m.Sender();
      var score := risk.Tick(sender);
      var level := scope.Evaluate(sender, score);
      if level >= NETWORK_ISOLATED {
        var _ := log.Append(DroppedIsolated(sender, level), [], [], m.clock.log);
        return Rejected(Isolated, level, score);
      }
      impact.RecordSend(sender, cfg.me);
      var _ := log.Append(AcceptedMessage(sender, m.signed.envelope.task, m.scope, level),
                          cfg.crypto.encode(m.signed.envelope), m.signed.signature, m.clock.log);
      r := Accepted(m.payload, level, score);
    }

    method CanSend(to: Bytes) returns (ok: bool)
      requires Valid()
      ensures ok <==> MaySend(cfg, State(), to)
    {
      var level := scope.Current(cfg.me);
      if level >= NETWORK_ISOLATED {
        return false;
      }
      var maxRadius := RadiusForLevel(level);
      if maxRadius == 0 {
        return false;
      }
      var reach := impact.ImpactSet(cfg.me, maxRadius);
      if to !in reach && |reach| >= maxRadius {
        return false;
      }
      return true;
    }
  }
}
