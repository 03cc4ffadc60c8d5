/** What every run of one receiver's pipeline guarantees. */
module MiddlewareRuns {
  import opened Primitives
  import opened Exceptions
  import opened Envelopes
  import opened Chain
  import opened Delivery
  import opened HashChain
  import opened RiskScore
  import opened ScopeReduction
  import opened Impact
  import opened Capabilities
  import opened Middlewares

  /** Peers are registered and messages come in, in any order. */
  datatype Step = Register(agent: Bytes, publicKey: Bytes) | Receive(m: Inbound)

  function Next(cfg: Config, s: MwState, step: Step): MwState {
    match step
    case Register(agent, key) => s.(peers := s.peers[agent := key])
    case Receive(m) => Handle(cfg, s, m).0
  }

  /** The state after `steps`, from a fresh receiver. */
  function Run(cfg: Config, steps: seq<Step>): MwState {
    if steps == [] then FRESH_STATE else Next(cfg, Run(cfg, steps[..|steps| - 1]), steps[|steps| - 1])
  }

  /** The outcome of step `i`, if it is a call. */
  function OutcomeAt(cfg: Config, steps: seq<Step>, i: nat): Option<Outcome>
    requires i < |steps|
  {
    match steps[i]
    case Register(_, _) => None
    case Receive(m) => Some(Handle(cfg, Run(cfg, steps[..i]), m).1)
  }

  predicate AcceptedAt(cfg: Config, steps: seq<Step>, i: nat) {
    i < |steps| && OutcomeAt(cfg, steps, i).Some? && OutcomeAt(cfg, steps, i).value.Accepted?
  }

  lemma {:induction false} RunStep(cfg: Config, steps: seq<Step>, i: nat)
    requires i < |steps|
    ensures Run(cfg, steps[..i + 1]) == Next(cfg, Run(cfg, steps[..i]), steps[i])
  {
    assert steps[..i + 1][..i] == steps[..i];
  }

  /** Registrations that give exactly these peers. */
  ghost predicate Registers(cfg: Config, regs: seq<Step>, peers: map<Bytes, Bytes>) {
    Run(cfg, regs) == FRESH_STATE.(peers := peers)
  }

  lemma {:induction false} Registrations(cfg: Config, peers: map<Bytes, Bytes>) returns (regs: seq<Step>)
    ensures Registers(cfg, regs, peers)
    decreases |peers|
  {
    if peers == map[] {
      regs := [];
    } else {
      var a :| a in peers;
      var rest := Registrations(cfg, peers - {a});
      regs := rest + [Register(a, peers[a])];
      assert regs[..|rest|] == rest;
      assert (peers - {a})[a := peers[a]] == peers;
    }
  }

  // ---------------------------------------------------------------------
  // One call
  // ---------------------------------------------------------------------

  /** What a returned call charges its sender with. */
  function Charge(o: Outcome): Scores
    requires !o.Raised?
  {
    match o
    case Accepted(_, _, _) => NO_SCORES
    case Rejected(reason, _, _) =>
      match reason
      case UnknownPeer => Scores(1.0, 0.0, 0.0, 0.0)
      case Failed(exc) => Scores(exc.Severity(), 0.0, 0.0, 0.0)
      case MissingCapability => Scores(0.7, 0.0, 0.0, 0.0)
      case PromptFanout => Scores(0.0, 1.0, 0.0, 0.0)
      case Isolated => NO_SCORES
  }

  function Plus(a: Scores, b: Scores): Scores {
    Scores(a.crypto + b.crypto, a.behavior + b.behavior, a.policy + b.policy, a.downstream + b.downstream)
  }

  /** One record is appended, and an intact log stays intact. */
  ghost predicate LogGrows(cfg: Config, records: seq<Record>, head: Digest, records': seq<Record>, head': Digest) {
    && |records'| == |records| + 1 && records'[..|records|] == records
    && (Intact(cfg.crypto.hash, cfg.eventBytes, records, head) ==>
          Intact(cfg.crypto.hash, cfg.eventBytes, records', head'))
  }

  /** The sender's risk ticks once, with what was pending and the charge of the outcome. */
  ghost predicate RiskTicks(cfg: Config, risks: Risks, risks': Risks, sender: Bytes, o: Outcome)
    requires !o.Raised?
  {
    && Of(risks', sender)
       == RiskState(cfg.weights.decay * Of(risks, sender).risk
                    + Contribution(cfg.weights, Plus(Of(risks, sender).pending, Charge(o))), NO_SCORES)
    && o.risk == Of(risks', sender).risk
    && forall a :: a != sender ==> Of(risks', a) == Of(risks, a)
  }

  /** The sender's level is evaluated at the risk that the outcome reports. */
  ghost predicate LevelsFollow(cfg: Config, levels: Levels, levels': Levels, sender: Bytes, o: Outcome)
    requires !o.Raised?
  {
    levels' == Evaluated(cfg.thresholds, levels, sender, o.risk) && o.level == CurrentOf(levels', sender)
  }

  ghost predicate Settles(cfg: Config, s: MwState, r: MwState, sender: Bytes, o: Outcome)
    requires !o.Raised?
  {
    && r.peers == s.peers
    && LogGrows(cfg, s.records, s.head, r.records, r.head)
    && RiskTicks(cfg, s.risks, r.risks, sender, o)
    && LevelsFollow(cfg, s.levels, r.levels, sender, o)
  }

  lemma {:induction false} LoggedGrows(
    cfg: Config, s: MwState, event: AuditEvent, envelope: Bytes, signature: Bytes, ts: real)
    ensures var r := Logged(cfg, s, event, envelope, signature, ts);
            LogGrows(cfg, s.records, s.head, r.records, r.head)
  {
    var r := Logged(cfg, s, event, envelope, signature, ts);
    IntactAppend(cfg.crypto.hash, cfg.eventBytes, s.records, s.head, r.records[|s.records|]);
  }

  lemma {:induction false} SettledTicks(cfg: Config, s: MwState, sender: Bytes, o: Outcome)
    requires !o.Raised? && Charge(o) == NO_SCORES
    requires o.risk == RiskOf(Settled(cfg, s, sender), sender) && o.level == LevelOf(Settled(cfg, s, sender), sender)
    ensures RiskTicks(cfg, s.risks, Settled(cfg, s, sender).risks, sender, o)
    ensures LevelsFollow(cfg, s.levels, Settled(cfg, s, sender).levels, sender, o)
  {
    assert Plus(Of(s.risks, sender).pending, NO_SCORES) == Of(s.risks, sender).pending;
  }

  lemma {:induction false} ChargeTicks(
    cfg: Config, risks: Risks, sender: Bytes, layer: Layer, severity: real, o: Outcome)
    requires !o.Raised? && Charge(o) == Add(NO_SCORES, layer, severity)
    requires o.risk == Of(Ticked(cfg.weights, Added(risks, sender, layer, severity), sender), sender).risk
    ensures RiskTicks(cfg, risks, Ticked(cfg.weights, Added(risks, sender, layer, severity), sender), sender, o)
  {
    AddIsPlus(Of(risks, sender).pending, layer, severity);
    AddedOf(risks, sender, layer, severity);
    TickedOf(cfg.weights, Added(risks, sender, layer, severity), sender);
  }

  lemma {:induction false} AddIsPlus(p: Scores, layer: Layer, severity: real)
    ensures Add(p, layer, severity) == Plus(p, Add(NO_SCORES, layer, severity))
  {
  }

  lemma {:induction false} AddedOf(risks: Risks, a: Bytes, layer: Layer, severity: real)
    ensures var r := Added(risks, a, layer, severity);
            && Of(r, a) == Of(risks, a).(pending := Add(Of(risks, a).pending, layer, severity))
            && forall b :: b != a ==> Of(r, b) == Of(risks, b)
  {
  }

  lemma {:induction false} TickedOf(w: RiskWeights, risks: Risks, a: Bytes)
    ensures var r := Ticked(w, risks, a);
            && Of(r, a) == RiskState(w.decay * Of(risks, a).risk + Contribution(w, Of(risks, a).pending), NO_SCORES)
            && forall b :: b != a ==> Of(r, b) == Of(risks, b)
  {
  }

  lemma {:induction false} RefusedSettles(cfg: Config, s: MwState, sender: Bytes, layer: Layer, severity: real,
                                          event: AuditEvent, reason: Reason, ts: real)
    requires Charge(Rejected(reason, NORMAL, 0.0)) == Add(NO_SCORES, layer, severity)
    ensures var (r, o) := Refused(cfg, s, sender, layer, severity, event, reason, ts);
            Settles(cfg, s, r, sender, o)
  {
    var (r, o) := Refused(cfg, s, sender, layer, severity, event, reason, ts);
    assert LogGrows(cfg, s.records, s.head, r.records, r.head) by {
      LoggedGrows(cfg, s.(risks := Added(s.risks, sender, layer, severity)), event, [], [], ts);
    }
    assert RiskTicks(cfg, s.risks, r.risks, sender, o) by {
      ChargeTicks(cfg, s.risks, sender, layer, severity, o);
    }
    assert LevelsFollow(cfg, s.levels, r.levels, sender, o);
  }

  lemma {:induction false} PunishedSettles(
    cfg: Config, s: MwState, sender: Bytes, exc: Exc, layer: string, reason: Reason, ts: real)
    requires reason == Failed(exc) || (reason == MissingCapability && exc == CapabilityError)
    ensures var (r, o) := Punished(cfg, s, sender, exc, layer, reason, ts); Settles(cfg, s, r, sender, o)
  {
    RefusedSettles(cfg, s, sender, CryptoLayer, exc.Severity(), Violation(sender, layer, exc, exc.Severity()),
                   reason, ts);
  }

  lemma {:induction false} ContainSettles(cfg: Config, s: MwState, m: Inbound)
    ensures var (r, o) := Contain(cfg, s, m); !o.Raised? && Settles(cfg, s, r, m.Sender(), o)
  {
    var sender := m.Sender();
    var settled := Settled(cfg, s, sender);
    var level := LevelOf(settled, sender);
    SettledTicks(cfg, s, sender, Contain(cfg, s, m).1);
    if level >= NETWORK_ISOLATED {
      LoggedGrows(cfg, settled, DroppedIsolated(sender, level), [], [], m.clock.log);
    } else {
      LoggedGrows(cfg, settled.(adj := Sent(settled.adj, sender, cfg.me)),
                  AcceptedMessage(sender, m.signed.envelope.task, m.scope, level),
                  cfg.crypto.encode(m.signed.envelope), m.signed.signature, m.clock.log);
    }
  }

  lemma {:induction false} AdmitSettles(cfg: Config, s: MwState, m: Inbound)
    ensures var (r, o) := Admit(cfg, s, m); !o.Raised? && Settles(cfg, s, r, m.Sender(), o)
  {
    var senders := Presenters(cfg, s, m);
    var seen := s.(fingerprints := s.fingerprints[cfg.crypto.hash(m.payload) := senders]);
    if |senders| >= cfg.payloadThreshold {
      RefusedSettles(cfg, seen, m.Sender(), BehaviorLayer, 1.0, CrossSenderPayload(m.Sender(), |senders|),
                     PromptFanout, m.clock.log);
    } else {
      ContainSettles(cfg, seen, m);
    }
  }

  lemma {:induction false} GatedSettles(cfg: Config, s: MwState, m: Inbound)
    ensures var (r, o) := Gated(cfg, s, m); !o.Raised? && Settles(cfg, s, r, m.Sender(), o)
  {
    if m.capability.None? {
      PunishedSettles(cfg, s, m.Sender(), CapabilityError, "capability", MissingCapability, m.clock.log);
    } else {
      var fault := cfg.enforcer.Check(m.capability.value, m.Request(cfg.me), m.clock.capability);
      if fault.Some? {
        PunishedSettles(cfg, s, m.Sender(), fault.value, "capability", Failed(fault.value), m.clock.log);
      } else {
        AdmitSettles(cfg, s, m);
      }
    }
  }

  /** A known peer's envelope is correctly signed, but the payload does not hash to what it names. */
  predicate SignedButAltered(cfg: Config, s: MwState, m: Inbound) {
    var c, env := cfg.crypto, m.signed.envelope;
    && m.Sender() in s.peers && c.verify(c.DigestOf(env), m.signed.signature, s.peers[m.Sender()])
    && c.hash(m.payload) != env.payloadHash
  }

  /** One call.  It raises exactly when a known peer's correctly signed envelope names another
      payload hash, and then nothing changes.  Otherwise exactly one record is appended, an intact
      log stays intact, the sender's risk ticks exactly once and its level is evaluated at the new
      risk, and no other agent's risk or level changes. */
  lemma {:induction false} CallSettles(cfg: Config, s: MwState, m: Inbound)
    ensures var (r, o) := Handle(cfg, s, m);
            && (o.Raised? <==> SignedButAltered(cfg, s, m))
            && if o.Raised? then r == s else Settles(cfg, s, r, m.Sender(), o)
  {
    var sender := m.Sender();
    if sender !in s.peers {
      RefusedSettles(cfg, s, sender, CryptoLayer, 1.0, UnknownPeerViolation(sender, 1.0), UnknownPeer, m.clock.log);
    } else if EnvelopeFault(cfg, s, m).Some? {
      var exc := EnvelopeFault(cfg, s, m).value;
      PunishedSettles(cfg, s, sender, exc, "envelope", Failed(exc), m.clock.log);
    } else {
      var (gate, fault) := Offer(cfg.crypto, s.gate, m.signed.envelope);
      var passed := s.(gate := gate);
      if fault.Some? {
        PunishedSettles(cfg, passed, sender, fault.value, "chain", Failed(fault.value), m.clock.log);
      } else {
        GatedSettles(cfg, passed, m);
      }
    }
  }

  // ---------------------------------------------------------------------
  // What one call leaves alone
  // ---------------------------------------------------------------------

  /** Gate, peers, impact graph and fingerprints stay as they are. */
  ghost predicate Untouched(s: MwState, r: MwState) {
    r.gate == s.gate && r.peers == s.peers && r.adj == s.adj && r.fingerprints == s.fingerprints
  }

  lemma {:induction false} RefusedUntouched(cfg: Config, s: MwState, sender: Bytes, layer: Layer, severity: real,
                                            event: AuditEvent, reason: Reason, ts: real)
    ensures var (r, o) := Refused(cfg, s, sender, layer, severity, event, reason, ts);
            Untouched(s, r) && o.Rejected? && o.reason == reason
  {
  }

  lemma {:induction false} PunishedUntouched(
    cfg: Config, s: MwState, sender: Bytes, exc: Exc, layer: string, reason: Reason, ts: real)
    ensures var (r, o) := Punished(cfg, s, sender, exc, layer, reason, ts);
            Untouched(s, r) && o.Rejected? && o.reason == reason
  {
    RefusedUntouched(cfg, s, sender, CryptoLayer, exc.Severity(), Violation(sender, layer, exc, exc.Severity()),
                     reason, ts);
  }

  /** Whether a call that reached the capability gate gets past it. */
  predicate PassesCapability(cfg: Config, m: Inbound) {
    m.capability.Some? && cfg.enforcer.Check(m.capability.value, m.Request(cfg.me), m.clock.capability).None?
  }

  /** Behind the gate: which calls record their payload, which are accepted, and why others are not. */
  ghost predicate GatedEffect(cfg: Config, s: MwState, m: Inbound, r: MwState, o: Outcome) {
    && r.gate == s.gate && r.peers == s.peers && !o.Raised?
    && r.adj == (if o.Accepted? then Sent(s.adj, m.Sender(), cfg.me) else s.adj)
    && r.fingerprints == (if PassesCapability(cfg, m)
                          then s.fingerprints[cfg.crypto.hash(m.payload) := Presenters(cfg, s, m)]
                          else s.fingerprints)
    && (o.Accepted? <==>
          PassesCapability(cfg, m) && |Presenters(cfg, s, m)| < cfg.payloadThreshold && o.level < NETWORK_ISOLATED)
    && (o.Rejected? ==> o.reason != Failed(ReplayError) && (o.reason == Isolated ==> o.level >= NETWORK_ISOLATED))
  }

  lemma {:induction false} AdmitEffect(cfg: Config, s: MwState, m: Inbound)
    requires PassesCapability(cfg, m)
    ensures var (r, o) := Admit(cfg, s, m); GatedEffect(cfg, s, m, r, o)
  {
    var senders := Presenters(cfg, s, m);
    var seen := s.(fingerprints := s.fingerprints[cfg.crypto.hash(m.payload) := senders]);
    if |senders| >= cfg.payloadThreshold {
      RefusedUntouched(cfg, seen, m.Sender(), BehaviorLayer, 1.0, CrossSenderPayload(m.Sender(), |senders|),
                       PromptFanout, m.clock.log);
    }
  }

  lemma {:induction false} CheckNeverReplays(e: Enforcer, signed: SignedCapability, request: ActionRequest, ts: real)
    ensures var fault := e.Check(signed, request, ts);
            fault.Some? ==> fault.value.IsCapabilityError() || fault.value.SignatureVerificationError?
  {
  }

  lemma {:induction false} GatedHasEffect(cfg: Config, s: MwState, m: Inbound)
    ensures var (r, o) := Gated(cfg, s, m); GatedEffect(cfg, s, m, r, o)
  {
    if PassesCapability(cfg, m) {
      AdmitEffect(cfg, s, m);
    } else if m.capability.None? {
      PunishedUntouched(cfg, s, m.Sender(), CapabilityError, "capability", MissingCapability, m.clock.log);
    } else {
      var fault := cfg.enforcer.Check(m.capability.value, m.Request(cfg.me), m.clock.capability);
      CheckNeverReplays(cfg.enforcer, m.capability.value, m.Request(cfg.me), m.clock.capability);
      PunishedUntouched(cfg, s, m.Sender(), fault.value, "capability", Failed(fault.value), m.clock.log);
    }
  }

  /** Whether a call gets past the chain and the replay guard. */
  predicate PassesGate(cfg: Config, s: MwState, m: Inbound) {
    ReachesChain(cfg, s, m) && Offer(cfg.crypto, s.gate, m.signed.envelope).1.None?
  }

  /** The whole call: what happens to the gate, and what happens behind it. */
  ghost predicate CallEffect(cfg: Config, s: MwState, m: Inbound, r: MwState, o: Outcome) {
    && r.gate == (if ReachesChain(cfg, s, m) then Offer(cfg.crypto, s.gate, m.signed.envelope).0 else s.gate)
    && if PassesGate(cfg, s, m) then GatedEffect(cfg, s.(gate := r.gate), m, r, o)
       else
         && Untouched(s.(gate := r.gate), r) && !o.Accepted?
         && (o.Rejected? ==> o.reason != Isolated)
         && (o.Rejected? && o.reason == Failed(ReplayError) ==>
               ReachesChain(cfg, s, m) && Offer(cfg.crypto, s.gate, m.signed.envelope).1 == Some(ReplayError))
  }

  lemma {:induction false} CallHasEffect(cfg: Config, s: MwState, m: Inbound)
    ensures var (r, o) := Handle(cfg, s, m); CallEffect(cfg, s, m, r, o)
  {
    var sender := m.Sender();
    if sender !in s.peers {
      RefusedUntouched(cfg, s, sender, CryptoLayer, 1.0, UnknownPeerViolation(sender, 1.0), UnknownPeer, m.clock.log);
    } else if EnvelopeFault(cfg, s, m).Some? {
      var exc := EnvelopeFault(cfg, s, m).value;
      PunishedUntouched(cfg, s, sender, exc, "envelope", Failed(exc), m.clock.log);
    } else {
      var (gate, fault) := Offer(cfg.crypto, s.gate, m.signed.envelope);
      if fault.Some? {
        PunishedUntouched(cfg, s.(gate := gate), sender, fault.value, "chain", Failed(fault.value), m.clock.log);
      } else {
        GatedHasEffect(cfg, s.(gate := gate), m);
      }
    }
  }

  lemma {:induction false} PeersStay(cfg: Config, s: MwState, m: Inbound)
    ensures Handle(cfg, s, m).0.peers == s.peers
  {
    CallHasEffect(cfg, s, m);
  }

  /** The capability carries a signature of a trusted authority. */
  predicate SignedByTrusted(e: Enforcer, cap: SignedCapability) {
    exists pk :: pk in e.trusted && e.verify(e.digest(cap.capability), cap.signature, pk)
  }

  /** A known peer's envelope whose signature does not verify. */
  predicate BadlySigned(cfg: Config, s: MwState, m: Inbound) {
    var c := cfg.crypto;
    m.Sender() in s.peers && !c.verify(c.DigestOf(m.signed.envelope), m.signed.signature, s.peers[m.Sender()])
  }

  /** The outcome names a failed capability, and a failed signature. */
  predicate NamesCapability(o: Outcome) {
    o.Rejected? && o.reason.Failed? && o.reason.exc.IsCapabilityError()
  }

  predicate NamesSignature(o: Outcome) {
    o.Rejected? && o.reason == Failed(SignatureVerificationError)
  }

  lemma {:induction false} CheckReasons(e: Enforcer, cap: SignedCapability, request: ActionRequest, ts: real)
    ensures var fault := e.Check(cap, request, ts);
            && (fault.Some? && fault.value.SignatureVerificationError? <==> !SignedByTrusted(e, cap))
            && (fault.Some? && fault.value.IsCapabilityError() <==> fault.Some? && SignedByTrusted(e, cap))
  {
  }

  lemma {:induction false} GatedReasons(cfg: Config, s: MwState, m: Inbound)
    ensures var o, cap := Gated(cfg, s, m).1, m.capability;
            && (NamesCapability(o) <==>
                  !PassesCapability(cfg, m) && cap.Some? && SignedByTrusted(cfg.enforcer, cap.value))
            && (NamesSignature(o) <==> cap.Some? && !SignedByTrusted(cfg.enforcer, cap.value))
  {
    if PassesCapability(cfg, m) {
      CheckReasons(cfg.enforcer, m.capability.value, m.Request(cfg.me), m.clock.capability);
      AdmitReasons(cfg, s, m);
    } else if m.capability.None? {
      PunishedUntouched(cfg, s, m.Sender(), CapabilityError, "capability", MissingCapability, m.clock.log);
    } else {
      var fault := cfg.enforcer.Check(m.capability.value, m.Request(cfg.me), m.clock.capability);
      CheckReasons(cfg.enforcer, m.capability.value, m.Request(cfg.me), m.clock.capability);
      PunishedUntouched(cfg, s, m.Sender(), fault.value, "capability", Failed(fault.value), m.clock.log);
    }
  }

  lemma {:induction false} AdmitReasons(cfg: Config, s: MwState, m: Inbound)
    ensures !NamesCapability(Admit(cfg, s, m).1) && !NamesSignature(Admit(cfg, s, m).1)
  {
  }

  /** Which outcomes name a failed capability and which a failed signature.  A missing capability names
      neither, and a capability that no trusted key has signed names the signature. */
  lemma {:induction false} ReasonsExactly(cfg: Config, s: MwState, m: Inbound)
    ensures var o, cap := Handle(cfg, s, m).1, m.capability;
            && (NamesCapability(o) <==>
                  PassesGate(cfg, s, m) && !PassesCapability(cfg, m)
                  && cap.Some? && SignedByTrusted(cfg.enforcer, cap.value))
            && (NamesSignature(o) <==>
                  BadlySigned(cfg, s, m)
                  || (PassesGate(cfg, s, m) && cap.Some? && !SignedByTrusted(cfg.enforcer, cap.value)))
  {
    var sender := m.Sender();
    if sender !in s.peers {
      RefusedUntouched(cfg, s, sender, CryptoLayer, 1.0, UnknownPeerViolation(sender, 1.0), UnknownPeer, m.clock.log);
    } else if EnvelopeFault(cfg, s, m).Some? {
      var exc := EnvelopeFault(cfg, s, m).value;
      PunishedUntouched(cfg, s, sender, exc, "envelope", Failed(exc), m.clock.log);
    } else {
      var (gate, fault) := Offer(cfg.crypto, s.gate, m.signed.envelope);
      if fault.Some? {
        PunishedUntouched(cfg, s.(gate := gate), sender, fault.value, "chain", Failed(fault.value), m.clock.log);
      } else {
        GatedReasons(cfg, s.(gate := gate), m);
      }
    }
  }

  // ---------------------------------------------------------------------
  // The audit log over runs
  // ---------------------------------------------------------------------

  /** How many calls have returned. */
  function Returned(cfg: Config, steps: seq<Step>): nat {
    if steps == [] then 0
    else
      var t := |steps| - 1;
      Returned(cfg, steps[..t])
      + match steps[t]
        case Register(_, _) => 0
        case Receive(m) => if Handle(cfg, Run(cfg, steps[..t]), m).1.Raised? then 0 else 1
  }

  /** Over every run the log passes its own verification and holds one record per returned call. */
  lemma {:induction false} LogCountsCalls(cfg: Config, steps: seq<Step>)
    ensures var s := Run(cfg, steps);
            |s.records| == Returned(cfg, steps) && Intact(cfg.crypto.hash, cfg.eventBytes, s.records, s.head)
    decreases |steps|
  {
    if steps != [] {
      var t := |steps| - 1;
      LogCountsCalls(cfg, steps[..t]);
      if steps[t].Receive? {
        CallSettles(cfg, Run(cfg, steps[..t]), steps[t].m);
      }
    }
  }

  // ---------------------------------------------------------------------
  // At-most-once delivery and causal linkage
  // ---------------------------------------------------------------------

  function ReachedNow(cfg: Config, s: MwState, step: Step): seq<Envelope> {
    if step.Receive? && ReachesChain(cfg, s, step.m) then [step.m.signed.envelope] else []
  }

  /** The envelopes that reach the chain, in order. */
  function Reached(cfg: Config, steps: seq<Step>): seq<Envelope> {
    if steps == [] then []
    else
      var t := |steps| - 1;
      Reached(cfg, steps[..t]) + ReachedNow(cfg, Run(cfg, steps[..t]), steps[t])
  }

  lemma {:induction false} GateStep(cfg: Config, s: MwState, step: Step, envs: seq<Envelope>)
    requires s.gate == RunGate(cfg.crypto, envs)
    ensures Next(cfg, s, step).gate == RunGate(cfg.crypto, envs + ReachedNow(cfg, s, step))
  {
    if step.Receive? {
      var env := step.m.signed.envelope;
      assert Handle(cfg, s, step.m).0.gate
          == if ReachesChain(cfg, s, step.m) then Offer(cfg.crypto, s.gate, env).0 else s.gate
      by {
        CallHasEffect(cfg, s, step.m);
      }
      if ReachesChain(cfg, s, step.m) {
        HistoryStep(cfg.crypto, envs, env, KeyOf(env));
      } else {
        assert envs + [] == envs;
      }
    } else {
      assert envs + [] == envs;
    }
  }

  /** The chain heads and the replay memory of a receiver are those of its reached envelopes, so
      everything proved about the gate holds for every run of the receiver. */
  lemma {:induction false} GateOfRun(cfg: Config, steps: seq<Step>)
    ensures Run(cfg, steps).gate == RunGate(cfg.crypto, Reached(cfg, steps))
    decreases |steps|
  {
    if steps != [] {
      var t := |steps| - 1;
      GateOfRun(cfg, steps[..t]);
      GateStep(cfg, Run(cfg, steps[..t]), steps[t], Reached(cfg, steps[..t]));
    }
  }

  lemma {:induction false} LastSeqStep(cfg: Config, s: MwState, step: Step, key: Key)
    ensures At(s.gate.chains, key).lastSeq <= At(Next(cfg, s, step).gate.chains, key).lastSeq
  {
    if step.Receive? {
      CallHasEffect(cfg, s, step.m);
    }
  }

  function LastSeqAfter(cfg: Config, steps: seq<Step>, i: nat, key: Key): int
    requires i <= |steps|
  {
    At(Run(cfg, steps[..i]).gate.chains, key).lastSeq
  }

  lemma {:induction false} LastSeqNext(cfg: Config, steps: seq<Step>, i: nat, key: Key)
    requires i < |steps|
    ensures LastSeqAfter(cfg, steps, i, key) <= LastSeqAfter(cfg, steps, i + 1, key)
  {
    RunStep(cfg, steps, i);
    LastSeqStep(cfg, Run(cfg, steps[..i]), steps[i], key);
  }

  lemma {:induction false} LastSeqGrows(cfg: Config, steps: seq<Step>, i: nat, j: nat, key: Key)
    requires i <= j <= |steps|
    ensures LastSeqAfter(cfg, steps, i, key) <= LastSeqAfter(cfg, steps, j, key)
    decreases j
  {
    if i < j {
      LastSeqGrows(cfg, steps, i, j - 1, key);
      LastSeqNext(cfg, steps, j - 1, key);
    }
  }

  lemma {:induction false} AcceptedAdvances(cfg: Config, s: MwState, m: Inbound)
    requires Handle(cfg, s, m).1.Accepted?
    ensures var env := m.signed.envelope;
            && At(s.gate.chains, KeyOf(env)).lastSeq < env.seqNo
            && At(Handle(cfg, s, m).0.gate.chains, KeyOf(env)).lastSeq == env.seqNo
  {
    CallHasEffect(cfg, s, m);
  }

  /** At-most-once delivery: of two accepted messages of one session and sender the later one has
      the larger sequence number, so none is ever accepted twice.  This needs no assumption on the hash. */
  lemma {:induction false} AcceptedInOrder(cfg: Config, steps: seq<Step>, i: nat, j: nat)
    requires i < j && AcceptedAt(cfg, steps, i) && AcceptedAt(cfg, steps, j)
    requires KeyOf(steps[i].m.signed.envelope) == KeyOf(steps[j].m.signed.envelope)
    ensures steps[i].m.signed.envelope.seqNo < steps[j].m.signed.envelope.seqNo
  {
    var key := KeyOf(steps[i].m.signed.envelope);
    AcceptedAdvances(cfg, Run(cfg, steps[..i]), steps[i].m);
    RunStep(cfg, steps, i);
    LastSeqGrows(cfg, steps, i + 1, j, key);
    AcceptedAdvances(cfg, Run(cfg, steps[..j]), steps[j].m);
  }

  /** Every envelope that comes in during a run. */
  ghost function Incoming(steps: seq<Step>): set<Envelope> {
    set i | 0 <= i < |steps| && steps[i].Receive? :: steps[i].m.signed.envelope
  }

  lemma {:induction false} ReachedCameIn(cfg: Config, steps: seq<Step>, e: Envelope)
    requires e in Reached(cfg, steps)
    ensures e in Incoming(steps)
    decreases |steps|
  {
    var t := |steps| - 1;
    if e in Reached(cfg, steps[..t]) {
      ReachedCameIn(cfg, steps[..t], e);
      var i :| 0 <= i < t && steps[..t][i].Receive? && steps[..t][i].m.signed.envelope == e;
      assert steps[i].Receive? && steps[i].m.signed.envelope == e;
    } else {
      assert steps[t].m.signed.envelope == e;
    }
  }

  lemma {:induction false} ReachedAmongIncoming(cfg: Config, steps: seq<Step>, i: nat)
    requires i <= |steps|
    ensures forall e :: e in Reached(cfg, steps[..i]) ==> e in Incoming(steps)
  {
    forall e | e in Reached(cfg, steps[..i]) ensures e in Incoming(steps) {
      ReachedCameIn(cfg, steps[..i], e);
      var k :| 0 <= k < i && steps[..i][k].Receive? && steps[..i][k].m.signed.envelope == e;
      assert steps[k].Receive? && steps[k].m.signed.envelope == e;
    }
  }

  lemma {:induction false} CallReplayError(cfg: Config, s: MwState, m: Inbound)
    ensures var (r, o) := Handle(cfg, s, m);
            o.Rejected? && o.reason == Failed(ReplayError) ==>
              ReachesChain(cfg, s, m) && Offer(cfg.crypto, s.gate, m.signed.envelope).1 == Some(ReplayError)
  {
    CallHasEffect(cfg, s, m);
  }

  lemma {:induction false} LinkedMessagePasses(
    cfg: Config, s: MwState, m: Inbound, envs: seq<Envelope>, history: set<Envelope>)
    requires s.gate == RunGate(cfg.crypto, envs) && (forall e :: e in envs ==> e in history)
    requires m.signed.envelope in history && cfg.crypto.DigestsDistinct(history)
    requires ReachesChain(cfg, s, m) && ChainFault(s.gate.chains, m.signed.envelope).None?
    ensures PassesGate(cfg, s, m)
  {
    ReplayNeverFires(cfg.crypto, envs, m.signed.envelope);
  }

  /** Over every run the replay guard never refuses a message: the chain tracker has refused every
      replay before, unless two incoming envelopes collide. */
  lemma {:induction false} ReplayErrorNeverReported(cfg: Config, steps: seq<Step>, i: nat)
    requires i < |steps| && steps[i].Receive?
    requires cfg.crypto.DigestsDistinct(Incoming(steps))
    ensures var o := OutcomeAt(cfg, steps, i).value; !(o.Rejected? && o.reason == Failed(ReplayError))
  {
    var s, m := Run(cfg, steps[..i]), steps[i].m;
    CallReplayError(cfg, s, m);
    GateOfRun(cfg, steps[..i]);
    if ReachesChain(cfg, s, m) && ChainFault(s.gate.chains, m.signed.envelope).None? {
      ReachedAmongIncoming(cfg, steps, i);
      LinkedMessagePasses(cfg, s, m, Reached(cfg, steps[..i]), Incoming(steps));
    }
  }

  /** Causal linkage end to end: if two receivers (or one, in two runs) hold the same head for some
      keys, their chain-accepted histories for these keys are identical, and each is linked. */
  lemma {:induction false} HeadsFixHistories(
    cfg: Config, steps: seq<Step>, key: Key, cfg': Config, steps': seq<Step>, key': Key)
    requires cfg.crypto == cfg'.crypto
    requires cfg.crypto.DigestsDistinct(Incoming(steps) + Incoming(steps'))
    requires cfg.crypto.DigestsMissGenesis(Incoming(steps) + Incoming(steps'))
    requires At(Run(cfg, steps).gate.chains, key).lastHash == At(Run(cfg', steps').gate.chains, key').lastHash
    ensures var history := History(cfg.crypto, Reached(cfg, steps), key);
            && history == History(cfg.crypto, Reached(cfg', steps'), key')
            && Linked(cfg.crypto, history)
            && (history != [] ==> key == key')
  {
    GateOfRun(cfg, steps);
    GateOfRun(cfg', steps');
    var envs, envs' := Reached(cfg, steps), Reached(cfg', steps');
    assert steps[..|steps|] == steps && steps'[..|steps'|] == steps';
    ReachedAmongIncoming(cfg, steps, |steps|);
    ReachedAmongIncoming(cfg', steps', |steps'|);
    SameHeadSameHistory(cfg.crypto, envs, key, envs', key');
    HistoriesAreLinked(cfg.crypto, envs, key);
  }
}
